/** Reordering one agenda, and refreshing: new saliences for an agenda, new activations for a rule. */
module AgendaRefresh {
  import opened Options
  import opened Ordering
  import opened AgendaSpec
  import opened AgendaHeap
  import opened AgendaEngine
  import opened AgendaOperations
  import opened AgendaStrategy

  // ---------------------------------------------------------------- reorder

  // Reorders one agenda of several; the others stay as they are.
  method ReorderAmong(s: Strategy, ghost ms: seq<DefruleModule>, m: DefruleModule, ghost nextTag: nat,
                      ghost on: set<Activation>, ghost groups: set<SalienceGroup>)
    returns (ghost groups': set<SalienceGroup>)
    requires m in ms && Reorderable(m, nextTag, on, groups)
    requires (forall i, j :: 0 <= i < j < |ms| ==> ms[i] != ms[j])
    requires forall o :: o in ms && o != m ==> AgendaIn(o, s, nextTag, on, groups)
    modifies m, m.acts`prev, m.acts`next
    ensures Agendas(ms, s, nextTag, on, groups')
    ensures m.view == Reordered(s, old(m.view))
    ensures forall o :: o in ms && o != m ==> o.view == old(o.view)
    ensures forall g :: g in groups' ==> g in groups || fresh(g)
  {
    hide Reordered, Segmented, Falling, GroupsLinked, ActsLinked, Ends, Viewed, Sorted, DistinctTags;
    groups' := ReorderOne(s, m, nextTag, on, groups);
    forall o | o in ms ensures AgendaIn(o, s, nextTag, on, groups') {
      if o != m { assert old(AgendaIn(o, s, nextTag, on, groups)); }
    }
  }

  lemma OthersIn(env: AgendaData, m: DefruleModule)
    requires env.Valid() && m in env.modules
    ensures Reorderable(m, env.CurrentTimetag, env.on, env.groups)
    ensures forall i, j :: 0 <= i < j < |env.modules| ==> env.modules[i] != env.modules[j]
    ensures forall o :: o in env.modules ==> AgendaIn(o, env.Strategy, env.CurrentTimetag, env.on, env.groups)
  {
    AgendaIsReorderable(m, env.Strategy, env.CurrentTimetag, env.on, env.groups);
  }

  // Rebuilds one module's agenda under the strategy in force.
  method ReorderModuleAgenda(env: AgendaData, m: DefruleModule) returns (ghost i: nat)
    requires env.Valid() && m in env.modules
    modifies env`groups, m, m.acts`prev, m.acts`next
    ensures env.Valid() && ModuleAt(env, i, m)
    ensures StepTo(old(env.Abs()), Reorder(i), env.Abs())
    ensures forall g :: g in env.groups ==> g in old(env.groups) || fresh(g)
  {
    hide Agendas, Counted, Marked, Views, Reordered, AgendaIn, Reorderable, ModuleAt;
    i := FindModule(env, m);
    OthersIn(env, m);
    ghost var before := env.Abs();
    ghost var groups := ReorderAmong(env.Strategy, env.modules, m, env.CurrentTimetag, env.on, env.groups);
    AbsUpdated(env, before, i, m);
    env.groups := groups;
  }

  ghost function ReorderSteps(n: nat): (steps: seq<Step>)
    ensures |steps| == n && forall k :: 0 <= k < n ==> steps[k] == Reorder(k)
  {
    seq(n, k requires 0 <= k < n => Reorder(k))
  }

  // The first k agendas reordered.
  ghost function ReorderedFirst(st: State, k: nat): State
    requires k <= |st.agendas|
  {
    st.(agendas := ReorderedAll(st.strategy, st.agendas[..k]) + st.agendas[k..])
  }

  /** Reordering every agenda is a run of one reordering after the other. */
  lemma {:induction false} ReorderAllIsRun(st: State, k: nat)
    requires k <= |st.agendas|
    ensures Run(st, ReorderSteps(k), ReorderedFirst(st, k))
    ensures ReorderedFirst(st, |st.agendas|).agendas == ReorderedAll(st.strategy, st.agendas)
  {
    hide Reordered, ReorderedAll, Next, Enabled;
    assert st.agendas[..|st.agendas|] == st.agendas;
    if k == 0 {
      assert ReorderedFirst(st, 0).agendas == st.agendas;
      assert ReorderSteps(0) == [];
    } else {
      ReorderAllIsRun(st, k - 1);
      var mid := ReorderedFirst(st, k - 1);
      ReorderedNext(st, k - 1);
      RunThenStep(st, ReorderSteps(k - 1), mid, Reorder(k - 1));
      assert ReorderSteps(k - 1) + [Reorder(k - 1)] == ReorderSteps(k);
    }
  }

  lemma ReorderedNext(st: State, k: nat)
    requires k < |st.agendas|
    ensures Enabled(ReorderedFirst(st, k), Reorder(k)) &&
              Next(ReorderedFirst(st, k), Reorder(k)) == ReorderedFirst(st, k + 1)
  {
    hide Reordered;
    var mid := ReorderedFirst(st, k);
    assert mid.agendas[k] == st.agendas[k];
    assert Next(mid, Reorder(k)).agendas == ReorderedFirst(st, k + 1).agendas;
  }

  /** Rebuilds the agenda of one module, or of every module, under the strategy in force. */
  method EnvReorderAgenda(env: AgendaData, theModule: Option<DefruleModule>) returns (ghost i: nat)
    requires env.Valid() && (theModule.Some? ==> theModule.value in env.modules)
    modifies env`groups, env.modules, env.on`prev, env.on`next
    ensures env.Valid() && (forall g :: g in env.groups ==> g in old(env.groups) || fresh(g))
    ensures theModule.Some? ==> ModuleAt(env, i, theModule.value) && StepTo(old(env.Abs()), Reorder(i), env.Abs())
    ensures theModule.None? ==>
              && Run(old(env.Abs()), ReorderSteps(|env.modules|), env.Abs())
              && env.Abs().agendas == ReorderedAll(env.Strategy, old(env.Abs()).agendas)
  {
    hide Agendas, Counted, Marked, Views, Reordered, ReorderedAll, AgendaIn, ModuleAt, StepTo, Run;
    i := 0;
    if theModule.Some? {
      ModuleReach(env, theModule.value);
      i := ReorderModuleAgenda(env, theModule.value);
    } else {
      ghost var before := env.Abs();
      ghost var groups := ReorderEach(env.Strategy, env.modules, env.Strategy, env.CurrentTimetag, env.on, env.groups);
      env.groups := groups;
      ReorderAllIsRun(before, |before.agendas|);
    }
  }

  lemma ModuleReach(env: AgendaData, m: DefruleModule)
    requires env.Valid() && m in env.modules
    ensures forall k :: 0 <= k < |m.acts| ==> m.acts[k] in env.on && m.acts[k].theRule.whichModule == m
    ensures forall k :: 0 <= k < |m.groups| ==> m.groups[k] in env.groups
  {
    assert AgendaIn(m, env.Strategy, env.CurrentTimetag, env.on, env.groups);
  }

  // ---------------------------------------------------------------- refresh-agenda

  ghost function RulesOf(acts: seq<Activation>): (r: seq<Defrule>)
    ensures |r| == |acts|
    ensures forall i :: 0 <= i < |acts| ==> r[i] == acts[i].theRule
  {
    seq(|acts|, i requires 0 <= i < |acts| => acts[i].theRule)
  }

  /** The saliences that rules[i..] get one after the other; `cur` holds each rule's salience so far,
      and values(i) is what the i-th evaluation comes to. */
  ghost function Evaluated(rules: seq<Defrule>, i: nat, cur: map<Defrule, int>,
                           values: nat -> Evaluation): (sal: seq<int>)
    requires i <= |rules| && forall r :: r in rules ==> r in cur
    ensures |sal| == |rules| - i
    decreases |rules| - i
  {
    if i == |rules| then []
    else
      var v := NewSalience(WhenActivated, rules[i].dynamicSalience, cur[rules[i]], values(i));
      [v] + Evaluated(rules, i + 1, cur[rules[i] := v], values)
  }

  // The saliences the rules have when all that has been evaluated.
  ghost function Reevaluated(rules: seq<Defrule>, i: nat, cur: map<Defrule, int>,
                             values: nat -> Evaluation): (after: map<Defrule, int>)
    requires i <= |rules| && forall r :: r in rules ==> r in cur
    ensures after.Keys == cur.Keys
    decreases |rules| - i
  {
    if i == |rules| then cur
    else
      var v := NewSalience(WhenActivated, rules[i].dynamicSalience, cur[rules[i]], values(i));
      Reevaluated(rules, i + 1, cur[rules[i] := v], values)
  }

  // The rules have the saliences that a map gives them.
  ghost predicate Have(rules: seq<Defrule>, saliences: map<Defrule, int>)
    reads rules`salience
  {
    forall r :: r in rules ==> r in saliences && r.salience == saliences[r]
  }

  ghost function CurrentSaliences(rules: seq<Defrule>): (cur: map<Defrule, int>)
    reads rules`salience
    ensures forall r :: r in rules ==> r in cur && cur[r] == r.salience
  {
    map r | r in rules :: r.salience
  }

  // Halfway through the walk: the first i activations have their new saliences.
  ghost predicate HalfRefreshed(acts: seq<Activation>, view: seq<Act>, sal: seq<int>, i: nat)
    reads acts`salience
  {
    && |view| == |acts| && |sal| == i <= |acts|
    && (forall k :: 0 <= k < i ==> acts[k].View() == view[k].(salience := sal[k]))
    && (forall k :: i <= k < |acts| ==> acts[k].View() == view[k])
  }

  method RefreshStep(a: Activation, value: Evaluation, ghost acts: seq<Activation>, ghost view: seq<Act>,
                     ghost sal: seq<int>, ghost i: nat, ghost cur: map<Defrule, int>,
                     ghost agenda: Activation?)
    returns (ghost v: int)
    requires HalfRefreshed(acts, view, sal, i) && i < |acts| && acts[i] == a && Have(RulesOf(acts), cur)
    requires ActsLinked(agenda, acts)
    modifies a`salience, a.theRule`salience
    ensures v == a.theRule.salience ==
            NewSalience(WhenActivated, a.theRule.dynamicSalience, old(a.theRule.salience), value)
    ensures HalfRefreshed(acts, view, sal + [v], i + 1)
    ensures Have(RulesOf(acts), cur[a.theRule := v]) && a.theRule in cur && old(a.theRule.salience) == cur[a.theRule]
  {
    assert RulesOf(acts)[i] == a.theRule;
    var salience := EvaluateSalience(WhenActivated, a.theRule, value);
    a.salience := salience;
    v := salience;
  }

  lemma HalfIsWhole(acts: seq<Activation>, view: seq<Act>, sal: seq<int>)
    requires HalfRefreshed(acts, view, sal, |acts|)
    ensures Viewed(acts, Resalienced(view, sal))
  {
  }

  lemma StartHalf(agenda: Activation?, acts: seq<Activation>, view: seq<Act>)
    requires Viewed(acts, view) && ActsLinked(agenda, acts)
    ensures HalfRefreshed(acts, view, [], 0)
    ensures agenda == if acts == [] then null else acts[0]
  {
  }

  lemma LinkedOn(agenda: Activation?, acts: seq<Activation>, k: nat)
    requires ActsLinked(agenda, acts) && k < |acts|
    ensures acts[k].next == if k + 1 == |acts| then null else acts[k + 1]
  {
  }

  // With i evaluations done, where the others will lead.
  ghost predicate Due(rules: seq<Defrule>, i: nat, cur: map<Defrule, int>, values: nat -> Evaluation, sal: seq<int>,
                      goal: seq<int>, after: map<Defrule, int>)
  {
    && i <= |rules| && (forall r :: r in rules ==> r in cur)
    && goal == sal + Evaluated(rules, i, cur, values) && after == Reevaluated(rules, i, cur, values)
  }

  lemma DueFirst(rules: seq<Defrule>, cur: map<Defrule, int>, values: nat -> Evaluation)
    requires forall r :: r in rules ==> r in cur
    ensures Due(rules, 0, cur, values, [], Evaluated(rules, 0, cur, values), Reevaluated(rules, 0, cur, values))
  {
  }

  lemma DueNext(rules: seq<Defrule>, i: nat, cur: map<Defrule, int>, values: nat -> Evaluation, sal: seq<int>,
                goal: seq<int>, after: map<Defrule, int>, v: int)
    requires Due(rules, i, cur, values, sal, goal, after) && i < |rules| && rules[i] in cur
    requires v == NewSalience(WhenActivated, rules[i].dynamicSalience, cur[rules[i]], values(i))
    ensures Due(rules, i + 1, cur[rules[i] := v], values, sal + [v], goal, after)
  {
    hide NewSalience;
  }

  lemma DueLast(rules: seq<Defrule>, cur: map<Defrule, int>, values: nat -> Evaluation, sal: seq<int>,
                goal: seq<int>, after: map<Defrule, int>)
    requires Due(rules, |rules|, cur, values, sal, goal, after)
    ensures sal == goal && cur == after
  {
  }

  lemma HaveCurrent(rules: seq<Defrule>)
    ensures Have(rules, CurrentSaliences(rules))
  {
  }

  // Re-evaluates the salience of every activation on a list.
  method RecomputeSaliences(agenda: Activation?, values: nat -> Evaluation, ghost acts: seq<Activation>,
                            ghost view: seq<Act>)
    returns (ghost sal: seq<int>)
    requires ActsLinked(agenda, acts) && Viewed(acts, view)
    modifies acts`salience, RulesOf(acts)`salience
    ensures |sal| == |acts| == |view| && Viewed(acts, Resalienced(view, sal))
    ensures sal == old(Evaluated(RulesOf(acts), 0, CurrentSaliences(RulesOf(acts)), values))
    ensures Have(RulesOf(acts), old(Reevaluated(RulesOf(acts), 0, CurrentSaliences(RulesOf(acts)), values)))
  {
    hide ActsLinked, Viewed, HalfRefreshed, NewSalience, Evaluated, Reevaluated, Have, Due;
    HaveCurrent(RulesOf(acts));
    StartHalf(agenda, acts, view);
    ghost var rules := RulesOf(acts);
    var theActivation := agenda;
    var i := 0;
    sal := [];
    ghost var cur: map<Defrule, int> := CurrentSaliences(rules);
    ghost var goal, after := Evaluated(rules, 0, cur, values), Reevaluated(rules, 0, cur, values);
    DueFirst(rules, cur, values);
    while theActivation != null
      invariant i <= |acts| && theActivation == if i == |acts| then null else acts[i]
      invariant ActsLinked(agenda, acts) && HalfRefreshed(acts, view, sal, i) && |sal| == i
      invariant Have(rules, cur) && Due(rules, i, cur, values, sal, goal, after)
      decreases |acts| - i
    {
      LinkedOn(agenda, acts, i);
      ghost var v := RefreshStep(theActivation, values(i), acts, view, sal, i, cur, agenda);
      DueNext(rules, i, cur, values, sal, goal, after, v);
      cur, sal := cur[rules[i] := v], sal + [v];
      theActivation := theActivation.next;
      i := i + 1;
    }
    HalfIsWhole(acts, view, sal);
    DueLast(rules, cur, values, sal, goal, after);
  }

  // New saliences leave everything but order and groups as it should be.
  lemma StillReorderable(m: DefruleModule, nextTag: nat, on: set<Activation>, groups: set<SalienceGroup>,
                         view: seq<Act>, sal: seq<int>)
    requires |sal| == |view| && m.view == Resalienced(view, sal)
    requires Viewed(m.acts, m.view) && ActsLinked(m.agenda, m.acts) && ActsOf(m, m.acts) &&
               GroupsLinked(m.groupings, m.groups)
    requires DistinctTags(view) && (forall i :: 0 <= i < |view| ==> view[i].timetag < nextTag)
    requires forall a :: a in m.acts ==> a in on
    requires forall a :: a in on && a.theRule.whichModule == m ==> a in m.acts
    requires forall g :: g in m.groups ==> g in groups
    ensures Reorderable(m, nextTag, on, groups)
  {
  }

  // The saliences a module's activations get, read off before the walk.
  ghost function Expected(m: DefruleModule, values: nat -> Evaluation): seq<int>
    reads m`acts, RulesOf(m.acts)`salience
  {
    Evaluated(RulesOf(m.acts), 0, CurrentSaliences(RulesOf(m.acts)), values)
  }

  ghost function ExpectedAfter(m: DefruleModule, values: nat -> Evaluation): map<Defrule, int>
    reads m`acts, RulesOf(m.acts)`salience
  {
    Reevaluated(RulesOf(m.acts), 0, CurrentSaliences(RulesOf(m.acts)), values)
  }

  // Recomputes the saliences of one agenda.
  method RecomputeOwn(ghost s: Strategy, m: DefruleModule, values: nat -> Evaluation, ghost nextTag: nat,
                      ghost on: set<Activation>, ghost groups: set<SalienceGroup>)
    returns (ghost sal: seq<int>)
    requires AgendaIn(m, s, nextTag, on, groups)
    modifies m`view, m.acts`salience, RulesOf(m.acts)`salience
    ensures Reorderable(m, nextTag, on, groups)
    ensures |sal| == |old(m.view)| && m.view == Resalienced(old(m.view), sal)
    ensures sal == old(Expected(m, values)) && Have(RulesOf(m.acts), old(ExpectedAfter(m, values)))
  {
    hide Segmented, Falling, GroupsLinked, ActsLinked, Ends, Viewed, Sorted, DistinctTags, Evaluated, Resalienced;
    hide Reevaluated, Have;
    ghost var view := m.view;
    sal := RecomputeSaliences(m.agenda, values, m.acts, m.view);
    m.view := Resalienced(m.view, sal);
    StillReorderable(m, nextTag, on, groups, view, sal);
  }

  // Recomputes the saliences of one agenda of several.
  method RecomputeAmong(ghost s: Strategy, ghost ms: seq<DefruleModule>, m: DefruleModule, values: nat -> Evaluation,
                        ghost nextTag: nat, ghost on: set<Activation>, ghost groups: set<SalienceGroup>)
    returns (ghost sal: seq<int>)
    requires m in ms && Agendas(ms, s, nextTag, on, groups)
    modifies m`view, m.acts`salience, RulesOf(m.acts)`salience
    ensures Reorderable(m, nextTag, on, groups)
    ensures forall i, j :: 0 <= i < j < |ms| ==> ms[i] != ms[j]
    ensures forall o :: o in ms && o != m ==> AgendaIn(o, s, nextTag, on, groups) && o.view == old(o.view)
    ensures |sal| == |old(m.view)| && m.view == Resalienced(old(m.view), sal)
    ensures sal == old(Expected(m, values)) && Have(RulesOf(m.acts), old(ExpectedAfter(m, values)))
  {
    hide Segmented, Falling, GroupsLinked, ActsLinked, Ends, Viewed, Sorted, DistinctTags, Resalienced;
    hide Reorderable, Expected, ExpectedAfter, Have;
    sal := RecomputeOwn(s, m, values, nextTag, on, groups);
    forall o | o in ms && o != m ensures AgendaIn(o, s, nextTag, on, groups) {
      assert old(AgendaIn(o, s, nextTag, on, groups));
    }
  }

  method RefreshAmong(s: Strategy, ghost ms: seq<DefruleModule>, m: DefruleModule, values: nat -> Evaluation,
                      ghost nextTag: nat, ghost on: set<Activation>, ghost groups: set<SalienceGroup>)
    returns (ghost sal: seq<int>, ghost groups': set<SalienceGroup>)
    requires m in ms && Agendas(ms, s, nextTag, on, groups)
    modifies m, m.acts`salience, RulesOf(m.acts)`salience, m.acts`prev, m.acts`next
    ensures Agendas(ms, s, nextTag, on, groups') && (forall g :: g in groups' ==> g in groups || fresh(g))
    ensures |sal| == |old(m.view)| && m.view == Reordered(s, Resalienced(old(m.view), sal))
    ensures forall o :: o in ms && o != m ==> o.view == old(o.view)
    ensures sal == old(Expected(m, values)) && Have(RulesOf(old(m.acts)), old(ExpectedAfter(m, values)))
  {
    hide Agendas, AgendaIn, Reorderable, Reordered, Resalienced, Expected, ExpectedAfter, Have;
    sal := RecomputeAmong(s, ms, m, values, nextTag, on, groups);
    groups' := ReorderAmong(s, ms, m, nextTag, on, groups);
  }

  // Re-evaluates the saliences of one module's activations and reorders its agenda.
  method RefreshModuleAgenda(env: AgendaData, m: DefruleModule, values: nat -> Evaluation)
    returns (ghost i: nat, ghost sal: seq<int>)
    requires env.Valid() && m in env.modules
    modifies env`groups, m.acts`salience, RulesOf(m.acts)`salience, m, m.acts`prev, m.acts`next
    ensures env.Valid() && ModuleAt(env, i, m)
    ensures |sal| == |old(m.view)| && StepTo(old(env.Abs()), RefreshAgenda(i, sal), env.Abs())
    ensures sal == old(Expected(m, values)) && Have(RulesOf(old(m.acts)), old(ExpectedAfter(m, values)))
    ensures forall g :: g in env.groups ==> g in old(env.groups) || fresh(g)
  {
    hide Agendas, Counted, Marked, Views, Reordered, Resalienced, ModuleAt, Expected, ExpectedAfter, Have;
    i := FindModule(env, m);
    ghost var before := env.Abs();
    ghost var groups;
    sal, groups := RefreshAmong(env.Strategy, env.modules, m, values, env.CurrentTimetag, env.on, env.groups);
    AbsUpdated(env, before, i, m);
    env.groups := groups;
  }

  ghost function RulesOn(on: set<Activation>): set<Defrule> {
    set a | a in on :: a.theRule
  }

  ghost function RefreshSteps(sals: seq<seq<int>>): (steps: seq<Step>)
    ensures |steps| == |sals| && forall k :: 0 <= k < |sals| ==> steps[k] == RefreshAgenda(k, sals[k])
  {
    seq(|sals|, k requires 0 <= k < |sals| => RefreshAgenda(k, sals[k]))
  }

  ghost function SaliencesOf(rules: set<Defrule>): (r: map<Defrule, int>)
    reads rules`salience
    ensures r.Keys == rules && forall d :: d in rules ==> r[d] == d.salience
  {
    map d | d in rules :: d.salience
  }

  // What was on the agendas before any of them is refreshed, and the saliences of their rules then.
  datatype Plan = Plan(acts: seq<seq<Activation>>, cur: seq<map<Defrule, int>>) {
    // The k-th agenda has rules of its module, and just these have saliences.
    ghost predicate Knows(k: nat, m: DefruleModule)
      requires k < |acts| == |cur|
    {
      && (forall r :: r in RulesOf(acts[k]) ==> r in cur[k] && r.whichModule == m)
      && (forall r :: r in cur[k] ==> r in RulesOf(acts[k]))
    }

    ghost predicate For(ms: seq<DefruleModule>) {
      && |acts| == |cur| == |ms| && (forall k, l :: 0 <= k < l < |ms| ==> ms[k] != ms[l])
      && (forall k :: 0 <= k < |ms| ==> Knows(k, ms[k]))
    }

    ghost function Goal(k: nat, m: DefruleModule, values: nat -> Evaluation): seq<int>
      requires k < |acts| == |cur| && Knows(k, m)
    {
      Evaluated(RulesOf(acts[k]), 0, cur[k], values)
    }

    ghost function After(k: nat, m: DefruleModule, values: nat -> Evaluation): map<Defrule, int>
      requires k < |acts| == |cur| && Knows(k, m)
    {
      Reevaluated(RulesOf(acts[k]), 0, cur[k], values)
    }
  }

  ghost function PlanFor(ms: seq<DefruleModule>): (p: Plan)
    reads *
    ensures |p.acts| == |p.cur| == |ms|
    ensures forall k :: 0 <= k < |ms| ==> p.acts[k] == ms[k].acts && p.cur[k] == CurrentSaliences(RulesOf(ms[k].acts))
  {
    Plan(seq(|ms|, k requires 0 <= k < |ms| reads * => ms[k].acts),
         seq(|ms|, k requires 0 <= k < |ms| reads * => CurrentSaliences(RulesOf(ms[k].acts))))
  }

  ghost predicate Given(rules: seq<Defrule>, now: map<Defrule, int>, goal: map<Defrule, int>) {
    forall r :: r in rules ==> r in now && r in goal && now[r] == goal[r]
  }

  // The rules of the first k agendas have their new saliences, the others the ones of the start.
  ghost predicate Halfway(p: Plan, ms: seq<DefruleModule>, values: nat -> nat -> Evaluation, k: nat,
                          now: map<Defrule, int>)
    requires p.For(ms)
  {
    && (forall l :: 0 <= l < k && l < |ms| ==> Given(RulesOf(p.acts[l]), now, p.After(l, ms[l], values(l))))
    && (forall l :: k <= l < |ms| ==> Given(RulesOf(p.acts[l]), now, p.cur[l]))
  }

  lemma HalfwayOn(p: Plan, ms: seq<DefruleModule>, values: nat -> nat -> Evaluation, k: nat, now: map<Defrule, int>,
                  next: map<Defrule, int>)
    requires p.For(ms) && k < |ms| && Halfway(p, ms, values, k, now)
    requires Given(RulesOf(p.acts[k]), next, p.After(k, ms[k], values(k)))
    requires forall r :: r in now && r.whichModule != ms[k] ==> r in next && next[r] == now[r]
    ensures Halfway(p, ms, values, k + 1, next)
  {
    hide Reevaluated;
    forall l | 0 <= l < |ms| && l != k
      ensures forall goal :: Given(RulesOf(p.acts[l]), now, goal) ==> Given(RulesOf(p.acts[l]), next, goal)
    {
      assert p.Knows(l, ms[l]);
    }
  }

  // Every module's agenda in turn; values(k) holds what the evaluations for the k-th module come to.
  method RefreshEach(env: AgendaData, values: nat -> nat -> Evaluation) returns (ghost sals: seq<seq<int>>)
    requires env.Valid()
    modifies env`groups, env.on`salience, RulesOn(env.on)`salience, env.modules, env.on`prev, env.on`next
    ensures |sals| == |env.modules|
    ensures forall k :: 0 <= k < |sals| ==> sals[k] == old(Expected(env.modules[k], values(k)))
    ensures forall k :: 0 <= k < |sals| ==>
              Have(RulesOf(old(env.modules[k].acts)), old(ExpectedAfter(env.modules[k], values(k))))
    ensures env.Valid() && (forall g :: g in env.groups ==> g in old(env.groups) || fresh(g))
    ensures Run(old(env.Abs()), RefreshSteps(sals), env.Abs())
  {
    hide AgendaData.Valid, AgendaData.Abs, Run, StepTo, Expected, ExpectedAfter, ModuleAt, Have, Halfway;
    ghost var plan, rules := PlanFor(env.modules), RulesOn(env.on);
    PlanStarts(env, values, plan, rules);
    sals := [];
    assert RefreshSteps(sals) == [];
    RunNone(env.Abs());
    for k := 0 to |env.modules|
      invariant env.Valid() && env.on == old(env.on) && |sals| == k
      invariant forall g :: g in env.groups ==> g in old(env.groups) || fresh(g)
      invariant Run(old(env.Abs()), RefreshSteps(sals), env.Abs())
      invariant Halfway(plan, env.modules, values, k, SaliencesOf(rules))
      invariant forall l :: k <= l < |env.modules| ==> env.modules[l].acts == plan.acts[l]
      invariant forall l :: 0 <= l < k ==> sals[l] == plan.Goal(l, env.modules[l], values(l))
    {
      ghost var sal := RefreshNext(env, k, values, plan, rules, old(env.Abs()), sals);
      sals := sals + [sal];
    }
    PlanEnds(plan, env.modules, values, rules);
  }

  method RefreshNext(env: AgendaData, k: nat, values: nat -> nat -> Evaluation, ghost plan: Plan,
                     ghost rules: set<Defrule>, ghost start: State, ghost sals: seq<seq<int>>)
    returns (ghost sal: seq<int>)
    requires env.Valid() && k < |env.modules| && k == |sals| && plan.For(env.modules)
    requires plan.acts[k] == env.modules[k].acts && Halfway(plan, env.modules, values, k, SaliencesOf(rules))
    requires Run(start, RefreshSteps(sals), env.Abs())
    modifies env`groups, env.on`salience, RulesOn(env.on)`salience, env.modules, env.on`prev, env.on`next
    ensures sal == plan.Goal(k, env.modules[k], values(k))
    ensures Halfway(plan, env.modules, values, k + 1, SaliencesOf(rules))
    ensures forall l :: 0 <= l < |env.modules| && l != k ==> env.modules[l].acts == old(env.modules[l].acts)
    ensures env.Valid() && (forall g :: g in env.groups ==> g in old(env.groups) || fresh(g))
    ensures Run(start, RefreshSteps(sals + [sal]), env.Abs())
  {
    hide AgendaData.Valid, AgendaData.Abs, Run, StepTo, Halfway, Plan.For, Plan.Knows;
    RulesApart(env, k);
    ghost var mid := env.Abs();
    sal := RefreshAt(env, env.modules[k], k, values, plan, rules);
    RunStepTo(start, RefreshSteps(sals), mid, RefreshAgenda(k, sal), env.Abs());
    assert RefreshSteps(sals + [sal]) == RefreshSteps(sals) + [RefreshAgenda(k, sal)];
  }

  lemma PlanStarts(env: AgendaData, values: nat -> nat -> Evaluation, p: Plan, rules: set<Defrule>)
    requires env.Valid() && p == PlanFor(env.modules) && rules == RulesOn(env.on)
    ensures p.For(env.modules) && Halfway(p, env.modules, values, 0, SaliencesOf(rules))
    ensures forall k :: 0 <= k < |env.modules| ==>
              && p.Goal(k, env.modules[k], values(k)) == Expected(env.modules[k], values(k))
              && p.After(k, env.modules[k], values(k)) == ExpectedAfter(env.modules[k], values(k))
  {
    hide AgendaData.Valid, Evaluated, Reevaluated;
    forall l | 0 <= l < |env.modules|
      ensures forall r :: r in RulesOf(p.acts[l]) ==> r.whichModule == env.modules[l] && r in rules
      ensures forall k :: 0 <= k < |env.modules| && k != l ==> env.modules[l] != env.modules[k]
    {
      RulesApart(env, l);
      ModuleReach(env, env.modules[l]);
    }
  }

  lemma PlanEnds(p: Plan, ms: seq<DefruleModule>, values: nat -> nat -> Evaluation, rules: set<Defrule>)
    requires p.For(ms) && Halfway(p, ms, values, |ms|, SaliencesOf(rules))
    ensures forall k :: 0 <= k < |ms| ==> Have(RulesOf(p.acts[k]), p.After(k, ms[k], values(k)))
  {
    hide Reevaluated;
  }

  // The agenda of the k-th module; what is expected of the others does not change.
  method RefreshAt(env: AgendaData, m: DefruleModule, k: nat, values: nat -> nat -> Evaluation, ghost plan: Plan,
                   ghost rules: set<Defrule>)
    returns (ghost sal: seq<int>)
    requires env.Valid() && k < |env.modules| && env.modules[k] == m && plan.For(env.modules)
    requires plan.acts[k] == m.acts && Halfway(plan, env.modules, values, k, SaliencesOf(rules))
    modifies env`groups, m.acts`salience, RulesOf(m.acts)`salience, m, m.acts`prev, m.acts`next
    ensures sal == plan.Goal(k, m, values(k)) && Halfway(plan, env.modules, values, k + 1, SaliencesOf(rules))
    ensures env.Valid() && (forall g :: g in env.groups ==> g in old(env.groups) || fresh(g))
    ensures StepTo(old(env.Abs()), RefreshAgenda(k, sal), env.Abs())
  {
    hide AgendaData.Valid, AgendaData.Abs, StepTo, Evaluated, Reevaluated, ModuleAt, Halfway;
    RulesApart(env, k);
    ghost var now := SaliencesOf(rules);
    PlanMeets(plan, env.modules, values, k, rules);
    ghost var i;
    i, sal := RefreshModuleAgenda(env, m, values(k));
    ModuleAtOnce(env, i, k);
    HalfwayOn(plan, env.modules, values, k, now, SaliencesOf(rules));
  }

  // What the plan says of the next agenda is what is there.
  lemma PlanMeets(p: Plan, ms: seq<DefruleModule>, values: nat -> nat -> Evaluation, k: nat, rules: set<Defrule>)
    requires p.For(ms) && k < |ms| && p.acts[k] == ms[k].acts && Halfway(p, ms, values, k, SaliencesOf(rules))
    ensures p.Goal(k, ms[k], values(k)) == Expected(ms[k], values(k))
    ensures p.After(k, ms[k], values(k)) == ExpectedAfter(ms[k], values(k))
    ensures forall r :: r in RulesOf(ms[k].acts) ==> r in rules && r.whichModule == ms[k]
  {
    hide Evaluated, Reevaluated;
    assert CurrentSaliences(RulesOf(ms[k].acts)) == p.cur[k];
  }

  lemma ModuleAtOnce(env: AgendaData, i: nat, k: nat)
    requires k < |env.modules| && ModuleAt(env, i, env.modules[k])
    ensures i == k
  {
  }

  // No rule has activations on two agendas.
  lemma RulesApart(env: AgendaData, k: nat)
    requires env.Valid() && k < |env.modules|
    ensures forall a :: a in env.modules[k].acts ==> a in env.on && a.theRule in RulesOn(env.on)
    ensures forall l :: 0 <= l < |env.modules| && l != k ==> env.modules[l] != env.modules[k]
    ensures forall l, r :: 0 <= l < |env.modules| && l != k && r in RulesOf(env.modules[l].acts) ==>
              r !in RulesOf(env.modules[k].acts)
  {
    ModuleReach(env, env.modules[k]);
    forall l | 0 <= l < |env.modules| && l != k
      ensures env.modules[l] != env.modules[k]
      ensures forall r :: r in RulesOf(env.modules[l].acts) ==> r !in RulesOf(env.modules[k].acts)
    {
      ModuleReach(env, env.modules[l]);
    }
  }

  // Saliences are evaluated in this mode from now on.
  method SetSalienceEvaluation(env: AgendaData, value: SalienceMode)
    requires env.Valid()
    modifies env`SalienceEvaluation
    ensures env.Valid() && env.SalienceEvaluation == value && env.Abs() == old(env.Abs())
  {
    hide Agendas, Counted, Marked, Views;
    env.SalienceEvaluation := value;
  }

  /**
   * Re-evaluates the saliences of a module's activations, or of every module's, as if salience evaluation were set to
   * when-activated, and reorders the agenda. No salience of one module depends on what was evaluated for another.
   */
  method EnvRefreshAgenda(env: AgendaData, theModule: Option<DefruleModule>, values: nat -> nat -> Evaluation)
    returns (ghost i: nat, ghost sals: seq<seq<int>>)
    requires env.Valid() && (theModule.Some? ==> theModule.value in env.modules)
    modifies env`groups, env`SalienceEvaluation, env.on`salience, RulesOn(env.on)`salience, env.modules, env.on`prev
    modifies env.on`next
    ensures |sals| == if theModule.Some? then 1 else |env.modules|
    ensures theModule.Some? ==> sals[0] == old(Expected(theModule.value, values(0)))
    ensures theModule.None? ==> forall k :: 0 <= k < |sals| ==> sals[k] == old(Expected(env.modules[k], values(k)))
    ensures theModule.Some? ==>
              Have(RulesOf(old(theModule.value.acts)), old(ExpectedAfter(theModule.value, values(0))))
    ensures theModule.None? ==> forall k :: 0 <= k < |sals| ==>
              Have(RulesOf(old(env.modules[k].acts)), old(ExpectedAfter(env.modules[k], values(k))))
    ensures theModule.Some? ==> forall r :: r in RulesOn(env.on) && r !in RulesOf(old(theModule.value.acts)) ==>
              r.salience == old(r.salience)
    ensures env.Valid() && env.SalienceEvaluation == old(env.SalienceEvaluation)
    ensures forall g :: g in env.groups ==> g in old(env.groups) || fresh(g)
    ensures theModule.Some? ==>
              ModuleAt(env, i, theModule.value) && StepTo(old(env.Abs()), RefreshAgenda(i, sals[0]), env.Abs())
    ensures theModule.None? ==> Run(old(env.Abs()), RefreshSteps(sals), env.Abs())
  {
    hide AgendaData.Valid, AgendaData.Abs, Run, StepTo, Evaluated, Reevaluated, ModuleAt;
    var oldValue := env.SalienceEvaluation;
    SetSalienceEvaluation(env, WhenActivated);
    if theModule.Some? {
      ghost var sal;
      ModuleReach(env, theModule.value);
      i, sal := RefreshModuleAgenda(env, theModule.value, values(0));
      sals := [sal];
    } else {
      i := 0;
      forall k | 0 <= k < |env.modules|
        ensures Expected(env.modules[k], values(k)) == old(Expected(env.modules[k], values(k)))
        ensures ExpectedAfter(env.modules[k], values(k)) == old(ExpectedAfter(env.modules[k], values(k)))
      {
        ghost var rules := RulesOf(env.modules[k].acts);
        assert CurrentSaliences(rules) == old(CurrentSaliences(rules));
      }
      sals := RefreshEach(env, values);
    }
    SetSalienceEvaluation(env, oldValue);
  }
}
