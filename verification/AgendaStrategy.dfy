/** Reordering agendas: on demand, after a change of strategy, and after saliences are re-evaluated. */
module AgendaStrategy {
  import opened Ordering
  import opened AgendaSpec
  import opened AgendaHeap
  import opened AgendaEngine
  import opened AgendaReorder

  // A linked agenda whose order and groups may be out of date.
  ghost predicate Reorderable(m: DefruleModule, nextTag: nat, on: set<Activation>, groups: set<SalienceGroup>)
    reads m, on, groups
  {
    && (forall a :: a in m.acts ==> a in on)
    && (forall a :: a in on && a.theRule.whichModule == m ==> a in m.acts)
    && (forall g :: g in m.groups ==> g in groups)
    && ActsLinked(m.agenda, m.acts) && Viewed(m.acts, m.view) && ActsOf(m, m.acts)
    && GroupsLinked(m.groupings, m.groups)
    && DistinctTags(m.view)
    && (forall i :: 0 <= i < |m.view| ==> m.view[i].timetag < nextTag)
  }

  lemma AgendaIsReorderable(m: DefruleModule, s: Strategy, nextTag: nat, on: set<Activation>,
                            groups: set<SalienceGroup>)
    requires AgendaIn(m, s, nextTag, on, groups)
    ensures Reorderable(m, nextTag, on, groups)
  {
  }

  /** The first k agendas are sorted under strategy s, the others under strategy `was`. */
  ghost predicate Mixed(ms: seq<DefruleModule>, k: nat, s: Strategy, was: Strategy, nextTag: nat, on: set<Activation>,
                        groups: set<SalienceGroup>)
    reads ms, on, groups
  {
    && (forall i, j :: 0 <= i < j < |ms| ==> ms[i] != ms[j])
    && (forall i :: 0 <= i < |ms| ==> AgendaIn(ms[i], if i < k then s else was, nextTag, on, groups))
  }

  // Reorders one agenda.
  method ReorderOne(s: Strategy, m: DefruleModule, ghost nextTag: nat, ghost on: set<Activation>,
                    ghost groups: set<SalienceGroup>)
    returns (ghost groups': set<SalienceGroup>)
    requires Reorderable(m, nextTag, on, groups)
    modifies m, m.acts`prev, m.acts`next
    ensures AgendaIn(m, s, nextTag, on, groups')
    ensures m.view == Reordered(s, old(m.view))
    ensures groups <= groups' && forall g :: g in groups' ==> g in groups || fresh(g)
  {
    hide Segmented, Falling, GroupsLinked, ActsLinked, Ends, Viewed, Sorted, DistinctTags, ActsOf, GroupsOf, Reordered;
    ReorderedOk(s, nextTag, m.view);
    ReorderModule(s, m);
    groups' := groups + set g | g in m.groups;
  }

  // Other agendas are not disturbed by a reordering.
  method ReorderAt(s: Strategy, ghost ms: seq<DefruleModule>, m: DefruleModule, ghost k: nat, ghost was: Strategy,
                   ghost nextTag: nat, ghost on: set<Activation>, ghost groups: set<SalienceGroup>)
    returns (ghost groups': set<SalienceGroup>)
    requires k < |ms| && ms[k] == m && Mixed(ms, k, s, was, nextTag, on, groups)
    modifies m, m.acts`prev, m.acts`next
    ensures Mixed(ms, k + 1, s, was, nextTag, on, groups')
    ensures m.view == Reordered(s, old(m.view))
    ensures forall i :: 0 <= i < |ms| && i != k ==> ms[i].view == old(ms[i].view) && ms[i].acts == old(ms[i].acts)
    ensures forall a :: a in m.acts <==> a in old(m.acts)
    ensures forall g :: g in groups' ==> g in groups || fresh(g)
  {
    hide Reordered, Segmented, Falling, GroupsLinked, ActsLinked, Ends, Viewed, Sorted, DistinctTags;
    AgendaIsReorderable(m, was, nextTag, on, groups);
    groups' := ReorderOne(s, m, nextTag, on, groups);
    forall i | 0 <= i < |ms| ensures AgendaIn(ms[i], if i < k + 1 then s else was, nextTag, on, groups') {
      assert old(AgendaIn(ms[i], if i < k then s else was, nextTag, on, groups));
    }
  }

  lemma ActsAmong(ms: seq<DefruleModule>, k: nat, s: Strategy, was: Strategy, nextTag: nat, on: set<Activation>,
                  groups: set<SalienceGroup>)
    requires k < |ms| && Mixed(ms, k, s, was, nextTag, on, groups)
    ensures forall j :: 0 <= j < |ms[k].acts| ==> ms[k].acts[j] in on
  {
    assert AgendaIn(ms[k], was, nextTag, on, groups);
  }

  lemma MixedEnds(ms: seq<DefruleModule>, s: Strategy, was: Strategy, nextTag: nat, on: set<Activation>,
                  groups: set<SalienceGroup>)
    ensures Agendas(ms, was, nextTag, on, groups) ==> Mixed(ms, 0, s, was, nextTag, on, groups)
    ensures Mixed(ms, |ms|, s, was, nextTag, on, groups) ==> Agendas(ms, s, nextTag, on, groups)
  {
  }

  // Reorders every agenda.
  method ReorderEach(s: Strategy, ms: seq<DefruleModule>, ghost was: Strategy, ghost nextTag: nat,
                     ghost on: set<Activation>, ghost groups: set<SalienceGroup>)
    returns (ghost groups': set<SalienceGroup>)
    requires Agendas(ms, was, nextTag, on, groups)
    modifies ms, on`prev, on`next
    ensures Agendas(ms, s, nextTag, on, groups')
    ensures Views(ms) == ReorderedAll(s, old(Views(ms)))
    ensures forall g :: g in groups' ==> g in groups || fresh(g)
  {
    hide Agendas, Mixed, Views, Reordered, ReorderedAll;
    MixedEnds(ms, s, was, nextTag, on, groups);
    groups' := groups;
    ghost var before := Views(ms);
    for k := 0 to |ms|
      invariant Mixed(ms, k, s, was, nextTag, on, groups')
      invariant forall g :: g in groups' ==> g in groups || fresh(g)
      invariant forall i :: 0 <= i < |ms| ==> ms[i].view == if i < k then Reordered(s, before[i]) else before[i]
    {
      ActsAmong(ms, k, s, was, nextTag, on, groups');
      groups' := ReorderAt(s, ms, ms[k], k, was, nextTag, on, groups');
    }
    MixedEnds(ms, s, was, nextTag, on, groups');
    assert Views(ms) == ReorderedAll(s, before);
  }

  /** Switches the strategy and, if it changed, reorders every agenda. */
  method EnvSetStrategy(env: AgendaData, value: Strategy) returns (oldStrategy: Strategy)
    requires env.Valid()
    modifies env`Strategy, env`groups, env.modules, env.on`prev, env.on`next
    ensures env.Valid() && env.Strategy == value && oldStrategy == old(env.Strategy)
    ensures StepTo(old(env.Abs()), SetStrategy(value), env.Abs())
    ensures forall g :: g in env.groups ==> g in old(env.groups) || fresh(g)
  {
    hide Agendas, Counted, Marked, Views, ReorderedAll, StepTo;
    ghost var before := env.Abs();
    oldStrategy := env.Strategy;
    env.Strategy := value;
    if oldStrategy != env.Strategy {
      ghost var groups := ReorderEach(env.Strategy, env.modules, oldStrategy, env.CurrentTimetag, env.on, env.groups);
      env.groups := groups;
    }
    StrategyStep(before, value, env.Abs());
  }

  lemma StrategyStep(st: State, value: Strategy, st': State)
    requires st' == if value == st.strategy then st else State(value, st.nextTag, ReorderedAll(value, st.agendas))
    ensures StepTo(st, SetStrategy(value), st')
  {
  }

  // ---------------------------------------------------------------- there and back

  /** At the level of states: another strategy and back again changes nothing. */
  lemma StrategyThereAndBack(st: State, other: Strategy)
    requires Ok(st)
    ensures Next(Next(st, SetStrategy(other)), SetStrategy(st.strategy)) == st
  {
    if other != st.strategy {
      var mid := Next(st, SetStrategy(other));
      var end := Next(mid, SetStrategy(st.strategy));
      forall i | 0 <= i < |st.agendas| ensures end.agendas[i] == st.agendas[i] {
        assert AgendaOk(st.strategy, st.nextTag, st.agendas[i]);
        SwitchAndBack(st.strategy, other, st.agendas[i]);
      }
    }
  }

  // With time tags distinct, the views tell which activation stands where.
  lemma ViewsPlaceActs(acts: seq<Activation>, acts': seq<Activation>)
    requires |acts| == |acts'|
    requires forall i :: 0 <= i < |acts| ==> acts[i].timetag == acts'[i].timetag
    requires forall i, j :: 0 <= i < j < |acts'| ==> acts'[i].timetag != acts'[j].timetag
    requires forall i :: 0 <= i < |acts| ==> acts[i] in acts'
    ensures acts == acts'
  {
    forall i | 0 <= i < |acts| ensures acts[i] == acts'[i] {
      var j :| 0 <= j < |acts'| && acts'[j] == acts[i];
      assert j == i;
    }
  }

  // What ties a module's list of activations to its view.
  ghost predicate Listed(on: set<Activation>, m: DefruleModule, list: seq<Activation>, view: seq<Act>) {
    && |list| == |view| && DistinctTags(view)
    && (forall i :: 0 <= i < |list| ==> list[i].timetag == view[i].timetag)
    && (forall a :: a in list ==> a in on && a.theRule.whichModule == m)
    && (forall a :: a in on && a.theRule.whichModule == m ==> a in list)
  }

  lemma ListedNow(env: AgendaData)
    requires env.Valid()
    ensures forall m :: m in env.modules ==> Listed(env.on, m, m.acts, m.view)
  {
    forall m | m in env.modules ensures Listed(env.on, m, m.acts, m.view) {
      assert AgendaIn(m, env.Strategy, env.CurrentTimetag, env.on, env.groups);
    }
  }

  lemma ListedUnique(on: set<Activation>, m: DefruleModule, list: seq<Activation>, list': seq<Activation>,
                     view: seq<Act>)
    requires Listed(on, m, list, view) && Listed(on, m, list', view)
    ensures list == list'
  {
    ViewsPlaceActs(list, list');
  }

  lemma ValidIsOk(env: AgendaData)
    requires env.Valid()
    ensures Ok(env.Abs())
  {
    var st := env.Abs();
    forall i | 0 <= i < |st.agendas| ensures AgendaOk(st.strategy, st.nextTag, st.agendas[i]) {
      assert AgendaIn(env.modules[i], env.Strategy, env.CurrentTimetag, env.on, env.groups);
    }
  }

  /** Switching to another strategy and back restores every agenda, activation for activation. */
  method SwitchStrategyAndBack(env: AgendaData, other: Strategy)
    requires env.Valid()
    modifies env`Strategy, env`groups, env.modules, env.on`prev, env.on`next
    ensures env.Valid() && env.Abs() == old(env.Abs())
    ensures forall m :: m in env.modules ==> m.acts == old(m.acts)
  {
    hide Agendas, Counted, Marked, Ok, Listed, Next;
    ListedNow(env);
    ValidIsOk(env);
    StrategyThereAndBack(env.Abs(), other);
    var first := EnvSetStrategy(env, other);
    var second := EnvSetStrategy(env, first);
    ListedNow(env);
    forall m | m in env.modules ensures m.acts == old(m.acts) {
      var i :| 0 <= i < |env.modules| && env.modules[i] == m;
      assert env.Abs().agendas[i] == old(env.Abs()).agendas[i];
      ListedUnique(env.on, m, m.acts, old(m.acts), m.view);
    }
  }
}
