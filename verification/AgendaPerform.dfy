/** Carrying out the agenda commands, one kind at a time, on the linked agendas. */
module AgendaPerform {
  import opened Options
  import opened Ordering
  import opened AgendaSpec
  import opened AgendaHeap
  import opened AgendaEngine
  import opened AgendaOperations
  import opened AgendaCommands
  import opened AgendaSweep
  import opened AgendaStrategy
  import opened AgendaRefresh
  import opened AgendaTotals
  import opened AgendaWorld
  import opened AgendaRequests
  import opened AgendaRuleRefresh
  import opened AgendaEffects

  // The matches of a memory that stand for complete matches.
  ghost predicate MemoryWithin(memory: Memory, bases: set<PartialMatch>) {
    forall b, k :: 0 <= b < |memory| && 0 <= k < |memory[b]| && memory[b][k].ownerActivates ==> memory[b][k] in bases
  }

  /**
   * The detached activations are the ones listed, and rules and matches are among those the commands may speak of. A
   * match that never had an activation points at none.
   */
  ghost predicate Fits(ms: seq<DefruleModule>, matches: set<PartialMatch>, detached: set<Activation>, w: World) {
    && matches <= w.markers.Keys && (forall pm :: pm in w.markers && pm !in matches ==> w.markers[pm] == null)
    && (forall a :: a in w.on ==> a.theRule in w.saliences)
    && (forall a :: a in w.firing ==> a in detached && a.theRule in w.saliences && a.basis in w.markers)
    && (forall a :: a in detached ==> a in w.firing)
    && (forall i, j :: 0 <= i < j < |w.firing| ==> w.firing[i] != w.firing[j])
    && (forall r :: r in w.saliences ==>
          r.whichModule in ms && r in w.memories && MemoryWithin(w.memories[r], w.markers.Keys))
  }

  ghost predicate Within(env: AgendaData, firing: seq<Activation>, rules: set<Defrule>, bases: set<PartialMatch>)
    reads env, env.modules, env.on, env.groups, env.matches`marker, bases`marker, rules`salience, rules`leftMemory
  {
    env.Valid() && Fits(env.modules, env.matches, env.detached, WorldOf(env, firing, rules, bases))
  }

  ghost predicate CommandWithin(c: Command, rules: set<Defrule>, bases: set<PartialMatch>) {
    && (c.AddFor? ==> c.q.rule in rules && c.q.basis in bases)
    && (c.RetractMatch? ==> c.basis in bases)
    && (c.ClearRule? ==> c.rule in rules && c.rule.Chained())
    && (c.RefreshRule? ==> c.rule.Chained() && forall d :: d in Disjuncts(c.rule) ==> d in rules)
    && (c.StoreMatches? ==> c.rule in rules && MemoryWithin(c.memory, bases))
  }

  lemma WithinMeans(env: AgendaData, firing: seq<Activation>, rules: set<Defrule>, bases: set<PartialMatch>)
    requires Within(env, firing, rules, bases)
    ensures env.Valid() && env.matches <= bases
    ensures forall a :: a in env.on ==> a.theRule in rules && a.basis in bases && a.basis.marker == a
    ensures forall a :: a in firing ==> a in env.detached && a.theRule in rules && a.basis in bases
    ensures forall r :: r in rules ==> r.whichModule in env.modules
    ensures forall pm :: pm in bases && pm.marker != null ==>
              pm.marker.basis == pm && pm in env.matches && (pm.marker in env.on || pm.marker in firing)
    ensures env.on !! env.detached
    ensures Fits(env.modules, env.matches, env.detached, WorldOf(env, firing, rules, bases))
  {
  }

  lemma FitsNow(env: AgendaData, firing: seq<Activation>, rules: set<Defrule>, bases: set<PartialMatch>)
    requires Within(env, firing, rules, bases)
    ensures env.Valid() && Fits(env.modules, env.matches, env.detached, WorldOf(env, firing, rules, bases))
  {
  }

  lemma IsWithin(env: AgendaData, firing: seq<Activation>, rules: set<Defrule>, bases: set<PartialMatch>)
    requires env.Valid() && Fits(env.modules, env.matches, env.detached, WorldOf(env, firing, rules, bases))
    ensures Within(env, firing, rules, bases)
  {
  }

  // The activations of every agenda are the ones the world shows.
  lemma WithinSound(env: AgendaData, firing: seq<Activation>, rules: set<Defrule>, bases: set<PartialMatch>)
    requires Within(env, firing, rules, bases)
    ensures Sound(env.modules, WorldOf(env, firing, rules, bases))
    ensures |env.Abs().agendas| == |env.modules|
    ensures forall k :: 0 <= k < |env.modules| ==>
              && env.Abs().agendas[k] == env.modules[k].view && Shown(env.on, env.modules[k], env.modules[k].view)
              && Objects(env.on, env.modules[k], env.modules[k].view) == env.modules[k].acts
  {
    hide AgendaData.Valid, Within, Listed, Shown, Objects, DistinctTags, AllApart, TagsApart;
    WithinMeans(env, firing, rules, bases);
    ListedNow(env);
    forall k | 0 <= k < |env.modules|
      ensures env.Abs().agendas[k] == env.modules[k].view && Shown(env.on, env.modules[k], env.modules[k].view)
      ensures Objects(env.on, env.modules[k], env.modules[k].view) == env.modules[k].acts
    {
      ListedShown(env.on, env.modules[k], env.modules[k].acts, env.modules[k].view);
    }
    TagsTell(env);
  }

  // What the world shows of one agenda.
  lemma PlaceIs(env: AgendaData, firing: seq<Activation>, rules: set<Defrule>, bases: set<PartialMatch>, k: nat)
    requires Within(env, firing, rules, bases) && k < |env.modules|
    ensures var w := WorldOf(env, firing, rules, bases);
            && Sound(env.modules, w) && |w.st.agendas[k]| == |env.modules[k].acts|
            && Objects(w.on, env.modules[k], w.st.agendas[k]) == env.modules[k].acts
  {
    hide AgendaData.Valid, AgendaData.Abs, Within, Objects, Shown, Sound;
    WithinSound(env, firing, rules, bases);
  }

  lemma ListedShown(on: set<Activation>, m: DefruleModule, list: seq<Activation>, view: seq<Act>)
    requires Listed(on, m, list, view)
    ensures Shown(on, m, view) && Objects(on, m, view) == list
  {
    forall p | 0 <= p < |view| ensures SomeStands(on, m, view[p].timetag) {
      assert list[p] in list;
      assert Stands(on, m, view[p].timetag, list[p]);
    }
    SameList(on, m, list, Objects(on, m, view), view);
  }

  lemma SameList(on: set<Activation>, m: DefruleModule, list: seq<Activation>, other: seq<Activation>, view: seq<Act>)
    requires Listed(on, m, list, view) && |other| == |view|
    requires forall p :: 0 <= p < |view| ==> Stands(on, m, view[p].timetag, other[p])
    ensures other == list
  {
    hide Listed, Stands;
    forall p | 0 <= p < |view| ensures p < |list| && other[p] == list[p] {
      SamePlace(on, m, list, other[p], view, p);
    }
    ListedLength(on, m, list, view);
  }

  lemma ListedLength(on: set<Activation>, m: DefruleModule, list: seq<Activation>, view: seq<Act>)
    requires Listed(on, m, list, view)
    ensures |list| == |view|
  {
  }

  lemma SamePlace(on: set<Activation>, m: DefruleModule, list: seq<Activation>, a: Activation, view: seq<Act>, p: nat)
    requires Listed(on, m, list, view) && p < |view| && Stands(on, m, view[p].timetag, a)
    ensures p < |list| && a == list[p]
  {
    var i :| 0 <= i < |list| && list[i] == a;
    assert view[i].timetag == view[p].timetag;
  }

  lemma TagsTell(env: AgendaData)
    requires env.Valid()
    ensures AllApart(env.modules) && TagsApart(env.on)
    ensures forall k :: 0 <= k < |env.modules| ==> DistinctTags(env.modules[k].view)
  {
    forall k | 0 <= k < |env.modules| ensures DistinctTags(env.modules[k].view) {
      assert AgendaIn(env.modules[k], env.Strategy, env.CurrentTimetag, env.on, env.groups);
    }
    forall a, b | a in env.on && b in env.on && a.timetag == b.timetag && a.theRule.whichModule == b.theRule.whichModule
      ensures a == b
    {
      var m := a.theRule.whichModule;
      assert AgendaIn(m, env.Strategy, env.CurrentTimetag, env.on, env.groups);
      var i :| 0 <= i < |m.acts| && m.acts[i] == a;
      var j :| 0 <= j < |m.acts| && m.acts[j] == b;
      assert m.view[i].timetag == m.view[j].timetag;
    }
  }

  // The activation at a place of an agenda.
  method ActivationAt(env: AgendaData, m: DefruleModule, p: nat) returns (a: Activation?)
    requires env.Valid() && m in env.modules
    ensures a == if p < |m.acts| then m.acts[p] else null
    ensures a != null ==> a in env.on && a.theRule.whichModule == m
  {
    hide AgendaData.Valid;
    ModuleReach(env, m);
    AgendaLinked(env, m);
    a := m.agenda;
    var k := 0;
    while k < p && a != null
      invariant k <= p && a == if k < |m.acts| then m.acts[k] else null
      invariant k <= |m.acts|
    {
      a := a.next;
      k := k + 1;
    }
  }

  lemma AgendaLinked(env: AgendaData, m: DefruleModule)
    requires env.Valid() && m in env.modules
    ensures ActsLinked(m.agenda, m.acts)
  {
    assert AgendaIn(m, env.Strategy, env.CurrentTimetag, env.on, env.groups);
  }

  // ---------------------------------------------------------------- one command after the other

  ghost predicate Performs(ms: seq<DefruleModule>, w: World, c: Command, w': World) {
    Sound(ms, w) && Effect(ms, w, c, w')
  }

  lemma PassedOver(ms: seq<DefruleModule>, w: World, c: Command)
    requires Sound(ms, w)
    requires c.RemoveAt? ==> !(c.m < |ms| && c.p < |w.st.agendas[c.m]|)
    requires c.RetractMatch? ==> !(c.basis in w.markers && w.markers[c.basis] != null && w.markers[c.basis] in w.on)
    requires c.DetachFirst? ==> !(c.m < |ms| && w.st.agendas[c.m] != [])
    requires c.RemoveAll? ==> c.m >= |ms|
    requires c.RemoveAt? || c.RetractMatch? || c.DetachFirst? || c.RemoveAll?
    ensures Performs(ms, w, c, w)
  {
  }

  method DoAdd(env: AgendaData, c: Command, ghost firing: seq<Activation>, ghost rules: set<Defrule>,
               ghost bases: set<PartialMatch>)
    requires c.AddFor? && Within(env, firing, rules, bases) && CommandWithin(c, rules, bases)
    requires Sound(env.modules, WorldOf(env, firing, rules, bases))
    modifies env, env.modules, env.on, env.groups, bases`marker, rules`salience, rules`leftMemory
    ensures Within(env, firing, rules, bases)
    ensures Performs(env.modules, old(WorldOf(env, firing, rules, bases)), c, WorldOf(env, firing, rules, bases))
    ensures forall a :: a in env.on ==> a in old(env.on) || fresh(a)
    ensures forall g :: g in env.groups ==> g in old(env.groups) || fresh(g)
  {
    hide AgendaData.Valid, WorldOf, AddEffect, Sound, Fits, Performs;
    WithinMeans(env, firing, rules, bases);
    ModuleReach(env, c.q.rule.whichModule);
    ghost var w, matches := WorldOf(env, firing, rules, bases), env.matches;
    ghost var made := AddUnlessMarked(env, c.q, firing, rules, bases);
    AddFits(env.modules, matches, env.detached, w, c, WorldOf(env, firing, rules, bases));
  }

  lemma AddFits(ms: seq<DefruleModule>, matches: set<PartialMatch>, detached: set<Activation>, w: World, c: Command,
                w': World)
    requires c.AddFor? && Sound(ms, w) && Fits(ms, matches, detached, w) && AddEffect(ms, w, c.q, w')
    requires c.q.basis in w.markers && c.q.rule in w.saliences
    ensures Performs(ms, w, c, w')
    ensures Fits(ms, matches + (if w.markers[c.q.basis] == null then {c.q.basis} else {}), detached, w')
  {
    hide Next, MemoryWithin;
    assert w'.markers.Keys == w.markers.Keys;
    assert w'.saliences.Keys == w.saliences.Keys;
  }

  // Exactly one activation has gone.
  lemma OneRemoved(w: World, w': World, m: nat, a: Activation)
    requires m < |w.st.agendas| && StepTo(w.st, Drop(m, {a.timetag}), w'.st)
    requires w'.on == w.on - {a} && w'.markers == w.markers[a.basis := null] && w'.firing == w.firing
    requires w'.mode == w.mode && w'.saliences == w.saliences && w'.memories == w.memories
    requires a.basis in w.markers && forall pm :: pm in w.markers && w.markers[pm] == a ==> pm == a.basis
    requires w.markers[a.basis] == a
    ensures w' == Removed(w, m, {a})
  {
    hide Next;
    assert TimetagsOf({a}) == {a.timetag};
    assert Cleared(w.markers, {a}) == w.markers[a.basis := null];
  }

  lemma MarkerCleared(bases: set<PartialMatch>, was: Markers, basis: PartialMatch)
    requires was.Keys == bases && basis in bases
    requires forall pm :: pm in bases ==> pm.marker == if pm == basis then null else was[pm]
    ensures MarkersOf(bases) == was[basis := null]
  {
  }

  lemma RemovedFits(ms: seq<DefruleModule>, matches: set<PartialMatch>, detached: set<Activation>, w: World, m: nat,
                    gone: set<Activation>)
    requires Fits(ms, matches, detached, w) && m < |w.st.agendas|
    ensures Fits(ms, matches, detached, Removed(w, m, gone))
  {
    hide Next, MemoryWithin;
  }

  // Removes an activation that is on its agenda.
  method RemoveOn(env: AgendaData, a: Activation, ghost k: nat, ghost rules: set<Defrule>,
                  ghost bases: set<PartialMatch>)
    requires env.Valid() && a in env.on && a.basis in bases
    requires k < |env.modules| && env.modules[k] == a.theRule.whichModule
    modifies env`NumberOfActivations, env`on, env`detached, a.theRule.whichModule, env.on, env.groups
    modifies a.basis`marker
    ensures env.Valid() && env.on == old(env.on) - {a} && env.detached == old(env.detached)
    ensures StepTo(old(env.Abs()), Drop(k, {a.timetag}), env.Abs())
    ensures MarkersOf(bases) == old(MarkersOf(bases))[a.basis := null]
    ensures SaliencesOf(rules) == old(SaliencesOf(rules)) && MemoriesOf(rules) == old(MemoriesOf(rules))
  {
    hide AgendaData.Valid, AgendaData.Abs, AgendaData.Linked, StepTo, MarkersOf, SaliencesOf, MemoriesOf;
    ghost var was := MarkersOf(bases);
    OnlyOn(env, a);
    ghost var i := RemoveActivation(env, a, true, true);
    ModuleAtOnce(env, i, k);
    MarkerCleared(bases, was, a.basis);
  }

  lemma OnlyOn(env: AgendaData, a: Activation)
    requires env.Valid() && a in env.on
    ensures env.detached - {a} == env.detached
  {
  }

  method RemoveOne(env: AgendaData, a: Activation, ghost k: nat, ghost firing: seq<Activation>,
                   ghost rules: set<Defrule>, ghost bases: set<PartialMatch>)
    requires Within(env, firing, rules, bases) && a in env.on
    requires k < |env.modules| && env.modules[k] == a.theRule.whichModule
    modifies env, env.modules, env.on, env.groups, bases`marker, rules`salience, rules`leftMemory
    ensures Within(env, firing, rules, bases) && env.on <= old(env.on) && env.groups == old(env.groups)
    ensures k < |old(WorldOf(env, firing, rules, bases)).st.agendas|
    ensures WorldOf(env, firing, rules, bases) == Removed(old(WorldOf(env, firing, rules, bases)), k, {a})
  {
    hide AgendaData.Valid, AgendaData.Abs, StepTo, Fits, MarkersOf, SaliencesOf, MemoriesOf, WorldOf, Removed;
    WithinMeans(env, firing, rules, bases);
    ShowsModules(env);
    ghost var w := WorldOf(env, firing, rules, bases);
    RemoveOn(env, a, k, rules, bases);
    OneRemoved(w, WorldOf(env, firing, rules, bases), k, a);
    RemovedFits(env.modules, env.matches, env.detached, w, k, {a});
  }

  // The activation at a place of the world, if there is one.
  method FindAt(env: AgendaData, m: nat, p: nat, ghost firing: seq<Activation>, ghost rules: set<Defrule>,
                ghost bases: set<PartialMatch>)
    returns (a: Activation?)
    requires Within(env, firing, rules, bases) && Sound(env.modules, WorldOf(env, firing, rules, bases))
    ensures var w := WorldOf(env, firing, rules, bases);
            if m < |env.modules| && p < |w.st.agendas[m]|
            then a != null && Objects(w.on, env.modules[m], w.st.agendas[m])[p] == a
            else a == null
    ensures a != null ==> a in env.on && a.theRule.whichModule == env.modules[m]
  {
    hide AgendaData.Valid, AgendaData.Abs, Sound, Fits, Objects, Shown, WorldOf;
    a := null;
    if m < |env.modules| {
      PlaceIs(env, firing, rules, bases, m);
      a := ActivationAt(env, env.modules[m], p);
    }
  }

  method DoRemoveAt(env: AgendaData, c: Command, ghost firing: seq<Activation>, ghost rules: set<Defrule>,
                    ghost bases: set<PartialMatch>)
    requires c.RemoveAt? && Within(env, firing, rules, bases) && CommandWithin(c, rules, bases)
    requires Sound(env.modules, WorldOf(env, firing, rules, bases))
    modifies env, env.modules, env.on, env.groups, bases`marker, rules`salience, rules`leftMemory
    ensures Within(env, firing, rules, bases)
    ensures Performs(env.modules, old(WorldOf(env, firing, rules, bases)), c, WorldOf(env, firing, rules, bases))
    ensures env.on <= old(env.on) && env.groups == old(env.groups)
  {
    hide AgendaData.Valid, AgendaData.Abs, Sound, Performs, Objects, Shown, WorldOf, Within, CommandWithin, Removed;
    ghost var w := WorldOf(env, firing, rules, bases);
    var a := FindAt(env, c.m, c.p, firing, rules, bases);
    if a == null {
      PassedOver(env.modules, w, c);
    } else {
      RemoveOne(env, a, c.m, firing, rules, bases);
      RemoveAtIs(env.modules, w, c, a);
    }
  }

  method DoRetract(env: AgendaData, c: Command, firing: seq<Activation>, ghost rules: set<Defrule>,
                   ghost bases: set<PartialMatch>)
    requires c.RetractMatch? && Within(env, firing, rules, bases) && CommandWithin(c, rules, bases)
    requires Sound(env.modules, WorldOf(env, firing, rules, bases))
    modifies env, env.modules, env.on, env.groups, bases`marker, rules`salience, rules`leftMemory
    ensures Within(env, firing, rules, bases)
    ensures Performs(env.modules, old(WorldOf(env, firing, rules, bases)), c, WorldOf(env, firing, rules, bases))
    ensures env.on <= old(env.on) && env.groups == old(env.groups)
  {
    hide AgendaData.Valid, AgendaData.Abs, Sound, Fits, Performs;
    WithinMeans(env, firing, rules, bases);
    ghost var w := WorldOf(env, firing, rules, bases);
    if c.basis.marker != null && c.basis.marker !in firing {
      var a: Activation := c.basis.marker;
      RemoveOne(env, a, IndexIn(env.modules, a.theRule.whichModule), firing, rules, bases);
      RetractIs(env.modules, w, c, a);
    } else {
      PassedOver(env.modules, w, c);
    }
  }

  lemma RemoveAtIs(ms: seq<DefruleModule>, w: World, c: Command, a: Activation)
    requires Sound(ms, w) && c.RemoveAt? && c.m < |ms| && c.p < |w.st.agendas[c.m]|
    requires Objects(w.on, ms[c.m], w.st.agendas[c.m])[c.p] == a
    ensures Performs(ms, w, c, Removed(w, c.m, {a}))
  {
    hide Next, Cleared;
  }

  lemma RetractIs(ms: seq<DefruleModule>, w: World, c: Command, a: Activation)
    requires Sound(ms, w) && c.RetractMatch? && c.basis in w.markers && w.markers[c.basis] == a && a in w.on
    ensures Performs(ms, w, c, Removed(w, IndexIn(ms, a.theRule.whichModule), {a}))
  {
    hide Next, Cleared;
  }

  method ClearOne(env: AgendaData, rule: Defrule, ghost rules: set<Defrule>, ghost bases: set<PartialMatch>)
    returns (ghost i: nat, ghost gone: set<Activation>)
    requires env.Valid() && rule.whichModule in env.modules && rule.Chained() && env.matches <= bases
    requires forall pm :: pm in bases && pm !in env.matches ==> pm.marker == null
    modifies env`NumberOfActivations, env`on, env`detached, rule.whichModule, env.on, env.groups, env.matches`marker
    ensures env.Valid() && env.on == old(env.on) - gone && env.detached == old(env.detached)
    ensures ModuleAt(env, i, rule.whichModule)
    ensures forall a :: a in gone <==> a in old(rule.whichModule.acts) && OfRule(rule, a.theRule)
    ensures StepTo(old(env.Abs()), Drop(i, TimetagsOf(gone)), env.Abs())
    ensures MarkersOf(bases) == Cleared(old(MarkersOf(bases)), gone)
    ensures SaliencesOf(rules) == old(SaliencesOf(rules)) && MemoriesOf(rules) == old(MemoriesOf(rules))
  {
    hide AgendaData.Valid, AgendaData.Abs, MarkersOf, SaliencesOf, MemoriesOf, TimetagsOf, Cleared, StepTo, ModuleAt;
    hide OfRule;
    ghost var was, known := MarkersOf(bases), MarkersOf(env.matches);
    ModuleReach(env, rule.whichModule);
    i, gone := ClearRuleFromAgenda(env, rule);
    ClearedAll(bases, was, env.matches, known, gone);
  }

  method DoClearRule(env: AgendaData, c: Command, ghost firing: seq<Activation>, ghost rules: set<Defrule>,
                     ghost bases: set<PartialMatch>)
    requires c.ClearRule? && Within(env, firing, rules, bases) && CommandWithin(c, rules, bases)
    requires Sound(env.modules, WorldOf(env, firing, rules, bases))
    modifies env, env.modules, env.on, env.groups, bases`marker, rules`salience, rules`leftMemory
    ensures Within(env, firing, rules, bases)
    ensures Performs(env.modules, old(WorldOf(env, firing, rules, bases)), c, WorldOf(env, firing, rules, bases))
    ensures env.on <= old(env.on) && env.groups == old(env.groups)
  {
    hide AgendaData.Valid, AgendaData.Abs, Sound, Fits, Performs, WorldOf, TimetagsOf, Cleared, StepTo, ModuleAt;
    hide OwnList, OfRule, Removed;
    WithinMeans(env, firing, rules, bases);
    ghost var w, acts := WorldOf(env, firing, rules, bases), c.rule.whichModule.acts;
    OwnActs(env, c.rule.whichModule);
    ghost var i, gone := ClearOne(env, c.rule, rules, bases);
    ClearIs(env, w, c, i, acts, gone, WorldOf(env, firing, rules, bases));
    RemovedFits(env.modules, env.matches, env.detached, w, i, gone);
  }

  method EmptyOne(env: AgendaData, m: DefruleModule, ghost rules: set<Defrule>, ghost bases: set<PartialMatch>)
    returns (ghost i: nat, ghost gone: set<Activation>)
    requires env.Valid() && m in env.modules && env.matches <= bases
    requires forall pm :: pm in bases && pm !in env.matches ==> pm.marker == null
    modifies env`NumberOfActivations, env`on, env`detached, m, env.on, env.groups, env.matches`marker
    ensures env.Valid() && env.on == old(env.on) - gone && env.detached == old(env.detached) && ModuleAt(env, i, m)
    ensures forall a :: a in gone <==> a in old(m.acts)
    ensures StepTo(old(env.Abs()), Drop(i, TimetagsOf(gone)), env.Abs())
    ensures MarkersOf(bases) == Cleared(old(MarkersOf(bases)), gone)
    ensures SaliencesOf(rules) == old(SaliencesOf(rules)) && MemoriesOf(rules) == old(MemoriesOf(rules))
  {
    hide AgendaData.Valid, AgendaData.Abs, MarkersOf, SaliencesOf, MemoriesOf, TimetagsOf, Cleared, StepTo, ModuleAt;
    ghost var was, known := MarkersOf(bases), MarkersOf(env.matches);
    ModuleReach(env, m);
    i, gone := RemoveAllActivations(env, m);
    ClearedAll(bases, was, env.matches, known, gone);
  }

  method DoRemoveAll(env: AgendaData, c: Command, ghost firing: seq<Activation>, ghost rules: set<Defrule>,
                     ghost bases: set<PartialMatch>)
    requires c.RemoveAll? && Within(env, firing, rules, bases) && CommandWithin(c, rules, bases)
    requires Sound(env.modules, WorldOf(env, firing, rules, bases))
    modifies env, env.modules, env.on, env.groups, bases`marker, rules`salience, rules`leftMemory
    ensures Within(env, firing, rules, bases)
    ensures Performs(env.modules, old(WorldOf(env, firing, rules, bases)), c, WorldOf(env, firing, rules, bases))
    ensures env.on <= old(env.on) && env.groups == old(env.groups)
  {
    hide AgendaData.Valid, AgendaData.Abs, Sound, Fits, Performs, WorldOf, TimetagsOf, Cleared, StepTo, ModuleAt;
    hide OwnList, Removed;
    WithinMeans(env, firing, rules, bases);
    ghost var w := WorldOf(env, firing, rules, bases);
    if c.m < |env.modules| {
      OwnActs(env, env.modules[c.m]);
      ghost var acts := env.modules[c.m].acts;
      ghost var i, gone := EmptyOne(env, env.modules[c.m], rules, bases);
      RemoveAllIs(env, w, c, i, acts, gone, WorldOf(env, firing, rules, bases));
      RemovedFits(env.modules, env.matches, env.detached, w, i, gone);
    } else {
      PassedOver(env.modules, w, c);
    }
  }

  // The list holds the activations of the module.
  ghost predicate OwnList(on: set<Activation>, m: DefruleModule, list: seq<Activation>) {
    OfModule(on, m) == set a | a in list
  }

  lemma OwnActs(env: AgendaData, m: DefruleModule)
    requires env.Valid() && m in env.modules
    ensures OwnList(env.on, m, m.acts)
  {
    ListedNow(env);
  }

  lemma ClearedAll(bases: set<PartialMatch>, was: Markers, matches: set<PartialMatch>, known: Markers,
                   gone: set<Activation>)
    requires was.Keys == bases && matches <= bases && known.Keys == matches
    requires forall pm :: pm in matches ==> known[pm] == was[pm]
    requires forall pm :: pm in bases && pm !in matches ==> was[pm] == null && pm.marker == null
    requires MarkersOf(matches) == Cleared(known, gone)
    ensures MarkersOf(bases) == Cleared(was, gone)
  {
  }

  lemma ClearIs(env: AgendaData, w: World, c: Command, i: nat, acts: seq<Activation>, gone: set<Activation>, w': World)
    requires Sound(env.modules, w) && c.ClearRule? && ModuleAt(env, i, c.rule.whichModule)
    requires OwnList(w.on, c.rule.whichModule, acts)
    requires forall a :: a in gone <==> a in acts && OfRule(c.rule, a.theRule)
    requires StepTo(w.st, Drop(i, TimetagsOf(gone)), w'.st)
    requires w'.on == w.on - gone && w'.markers == Cleared(w.markers, gone) && w'.firing == w.firing
    requires w'.mode == w.mode && w'.saliences == w.saliences && w'.memories == w.memories
    ensures i < |w.st.agendas| && w' == Removed(w, i, gone) && Performs(env.modules, w, c, w')
  {
    hide Next, Cleared, TimetagsOf;
    assert gone == set a | a in OfModule(w.on, c.rule.whichModule) && OfRule(c.rule, a.theRule);
  }

  lemma RemoveAllIs(env: AgendaData, w: World, c: Command, i: nat, acts: seq<Activation>, gone: set<Activation>,
                    w': World)
    requires Sound(env.modules, w) && c.RemoveAll? && c.m < |env.modules| && ModuleAt(env, i, env.modules[c.m])
    requires OwnList(w.on, env.modules[c.m], acts) && forall a :: a in gone <==> a in acts
    requires StepTo(w.st, Drop(i, TimetagsOf(gone)), w'.st)
    requires w'.on == w.on - gone && w'.markers == Cleared(w.markers, gone) && w'.firing == w.firing
    requires w'.mode == w.mode && w'.saliences == w.saliences && w'.memories == w.memories
    ensures i < |w.st.agendas| && w' == Removed(w, i, gone) && Performs(env.modules, w, c, w')
  {
    hide Next, Cleared, TimetagsOf;
    assert gone == OfModule(w.on, env.modules[c.m]);
  }

  // ---------------------------------------------------------------- firing

  method DetachOn(env: AgendaData, a: Activation, ghost k: nat, ghost rules: set<Defrule>,
                   ghost bases: set<PartialMatch>)
    requires env.Valid() && a in env.on && k < |env.modules| && env.modules[k] == a.theRule.whichModule
    modifies env`NumberOfActivations, env`on, env`detached, a.theRule.whichModule, env.on, env.groups
    ensures env.Valid() && env.on == old(env.on) - {a} && env.detached == old(env.detached) + {a}
    ensures StepTo(old(env.Abs()), Drop(k, {a.timetag}), env.Abs())
    ensures MarkersOf(bases) == old(MarkersOf(bases))
    ensures SaliencesOf(rules) == old(SaliencesOf(rules)) && MemoriesOf(rules) == old(MemoriesOf(rules))
  {
    hide AgendaData.Valid, AgendaData.Abs, MarkersOf, SaliencesOf, MemoriesOf, StepTo;
    ModuleReach(env, env.modules[k]);
    ghost var i := DetachActivation(env, a);
    ModuleAtOnce(env, i, k);
  }

  method DetachOne(env: AgendaData, a: Activation, ghost k: nat, ghost firing: seq<Activation>,
                   ghost rules: set<Defrule>, ghost bases: set<PartialMatch>)
    requires env.Valid() && a in env.on && k < |env.modules| && env.modules[k] == a.theRule.whichModule
    modifies env, env.modules, env.on, env.groups
    ensures env.Valid() && env.on == old(env.on) - {a} && env.detached == old(env.detached) + {a}
    ensures env.groups == old(env.groups) && env.matches == old(env.matches)
    ensures StepTo(old(env.Abs()), Drop(k, {a.timetag}), env.Abs())
    ensures WorldOf(env, firing + [a], rules, bases) ==
            old(WorldOf(env, firing, rules, bases)).(st := env.Abs(), on := env.on, firing := firing + [a])
  {
    hide AgendaData.Valid, AgendaData.Abs, MarkersOf, SaliencesOf, MemoriesOf, StepTo;
    DetachOn(env, a, k, rules, bases);
  }

  method DoDetach(env: AgendaData, c: Command, firing: seq<Activation>, ghost rules: set<Defrule>,
                  ghost bases: set<PartialMatch>)
    returns (firing': seq<Activation>)
    requires c.DetachFirst? && Within(env, firing, rules, bases) && CommandWithin(c, rules, bases)
    requires Sound(env.modules, WorldOf(env, firing, rules, bases))
    modifies env, env.modules, env.on, env.groups, bases`marker, rules`salience, rules`leftMemory
    ensures Within(env, firing', rules, bases)
    ensures Performs(env.modules, old(WorldOf(env, firing, rules, bases)), c, WorldOf(env, firing', rules, bases))
    ensures env.on <= old(env.on) && env.groups == old(env.groups)
  {
    hide AgendaData.Valid, AgendaData.Abs, Sound, Fits, Performs, Objects, Shown, WorldOf, StepTo;
    hide Within, CommandWithin, MarkersOf, SaliencesOf, MemoriesOf;
    WithinMeans(env, firing, rules, bases);
    ghost var w, detached := WorldOf(env, firing, rules, bases), env.detached;
    firing' := firing;
    var a := FindAt(env, c.m, 0, firing, rules, bases);
    if a == null {
      PassedOver(env.modules, w, c);
    } else {
      DetachOne(env, a, c.m, firing, rules, bases);
      firing' := firing + [a];
      DetachIs(env.modules, env.matches, detached, w, c, a, WorldOf(env, firing', rules, bases));
      IsWithin(env, firing', rules, bases);
    }
  }

  lemma DetachIs(ms: seq<DefruleModule>, matches: set<PartialMatch>, detached: set<Activation>, w: World, c: Command,
                 a: Activation, w': World)
    requires Sound(ms, w) && Fits(ms, matches, detached, w) && c.DetachFirst? && c.m < |ms| && w.st.agendas[c.m] != []
    requires Objects(w.on, ms[c.m], w.st.agendas[c.m])[0] == a && a !in detached && a.basis in w.markers
    requires StepTo(w.st, Drop(c.m, {a.timetag}), w'.st)
    requires w'.on == w.on - {a} && w'.firing == w.firing + [a] && w'.markers == w.markers
    requires w'.mode == w.mode && w'.saliences == w.saliences && w'.memories == w.memories
    ensures Performs(ms, w, c, w') && Fits(ms, matches, detached + {a}, w')
  {
    hide Next, MemoryWithin, Shown;
    assert w' == Detached(w, c.m, a);
    assert a in w.on by {
      assert Stands(w.on, ms[c.m], w.st.agendas[c.m][0].timetag, a);
    }
  }

  method DoRelease(env: AgendaData, c: Command, firing: seq<Activation>, ghost rules: set<Defrule>,
                   ghost bases: set<PartialMatch>)
    requires c.ReleaseMatch? && Within(env, firing, rules, bases) && CommandWithin(c, rules, bases)
    requires Sound(env.modules, WorldOf(env, firing, rules, bases))
    modifies env, env.modules, env.on, env.groups, bases`marker, rules`salience, rules`leftMemory
    ensures Within(env, firing, rules, bases)
    ensures Performs(env.modules, old(WorldOf(env, firing, rules, bases)), c, WorldOf(env, firing, rules, bases))
    ensures env.on <= old(env.on) && env.groups == old(env.groups)
  {
    hide AgendaData.Valid, AgendaData.Abs, Sound, Fits, Performs, MarkersOf, SaliencesOf, MemoriesOf;
    WithinMeans(env, firing, rules, bases);
    ghost var w := WorldOf(env, firing, rules, bases);
    if c.k < |firing| {
      var a := firing[c.k];
      if a.basis.marker == a {
        ReleaseBasis(env, a);
        MarkerCleared(bases, w.markers, a.basis);
      }
    }
    ReleaseIs(env.modules, env.matches, env.detached, w, c, WorldOf(env, firing, rules, bases));
  }

  lemma ReleaseIs(ms: seq<DefruleModule>, matches: set<PartialMatch>, detached: set<Activation>, w: World, c: Command,
                  w': World)
    requires Sound(ms, w) && Fits(ms, matches, detached, w) && c.ReleaseMatch? && w' == Released(w, c.k)
    ensures Performs(ms, w, c, w') && Fits(ms, matches, detached, w')
  {
    hide MemoryWithin;
    assert w'.markers.Keys == w.markers.Keys;
  }

  method FreeOff(env: AgendaData, a: Activation, updateLinks: bool, ghost rules: set<Defrule>,
                 ghost bases: set<PartialMatch>)
    requires env.Valid() && a in env.detached && a.theRule.whichModule in env.modules && a.basis in bases
    requires MarkerFits(a.basis.marker, a, env.on, updateLinks)
    modifies env`NumberOfActivations, env`on, env`detached, a.basis`marker
    ensures env.Valid() && env.on == old(env.on) && env.detached == old(env.detached) - {a}
    ensures env.Abs() == old(env.Abs())
    ensures MarkersOf(bases) == if updateLinks then old(MarkersOf(bases))[a.basis := null] else old(MarkersOf(bases))
    ensures SaliencesOf(rules) == old(SaliencesOf(rules)) && MemoriesOf(rules) == old(MemoriesOf(rules))
  {
    hide AgendaData.Valid, AgendaData.Abs, AgendaData.Linked, StepTo, MarkersOf, SaliencesOf, MemoriesOf;
    ghost var was := MarkersOf(bases);
    OffAgenda(env, a);
    ghost var i := RemoveActivation(env, a, false, updateLinks);
    if updateLinks {
      MarkerCleared(bases, was, a.basis);
    }
  }

  lemma OffAgenda(env: AgendaData, a: Activation)
    requires env.Valid() && a in env.detached
    ensures env.on - {a} == env.on
  {
  }

  method FreeOne(env: AgendaData, a: Activation, updateLinks: bool, ghost firing: seq<Activation>,
                 ghost rules: set<Defrule>, ghost bases: set<PartialMatch>)
    requires env.Valid() && a in env.detached && a.theRule.whichModule in env.modules && a.basis in bases
    requires MarkerFits(a.basis.marker, a, env.on, updateLinks)
    modifies env, a.basis`marker
    ensures env.Valid() && env.on == old(env.on) && env.groups == old(env.groups) && env.matches == old(env.matches)
    ensures env.detached == old(env.detached) - {a}
    ensures var w := old(WorldOf(env, firing, rules, bases));
            WorldOf(env, firing, rules, bases) ==
            w.(markers := if updateLinks then w.markers[a.basis := null] else w.markers)
  {
    hide AgendaData.Valid, AgendaData.Abs, MarkersOf, SaliencesOf, MemoriesOf, MarkerFits;
    FreeOff(env, a, updateLinks, rules, bases);
  }

  method DoFree(env: AgendaData, c: Command, firing: seq<Activation>, ghost rules: set<Defrule>,
                ghost bases: set<PartialMatch>)
    returns (firing': seq<Activation>)
    requires c.Free? && Within(env, firing, rules, bases) && CommandWithin(c, rules, bases)
    requires Sound(env.modules, WorldOf(env, firing, rules, bases))
    modifies env, env.modules, env.on, env.groups, bases`marker, rules`salience, rules`leftMemory
    ensures Within(env, firing', rules, bases)
    ensures Performs(env.modules, old(WorldOf(env, firing, rules, bases)), c, WorldOf(env, firing', rules, bases))
    ensures env.on <= old(env.on) && env.groups == old(env.groups)
  {
    hide AgendaData.Valid, AgendaData.Abs, Sound, Fits, Performs, WorldOf, MarkersOf, SaliencesOf, MemoriesOf;
    hide Within, CommandWithin;
    WithinMeans(env, firing, rules, bases);
    ghost var w, detached := WorldOf(env, firing, rules, bases), env.detached;
    firing' := firing;
    if c.k < |firing| {
      var a := firing[c.k];
      if (if c.updateLinks then a.basis.marker == null || a.basis.marker in firing else a.basis.marker != a) {
        FreeOne(env, a, c.updateLinks, firing, rules, bases);
        firing' := firing[..c.k] + firing[c.k + 1..];
        FreeIs(env.modules, env.matches, detached, w, c, WorldOf(env, firing', rules, bases));
        IsWithin(env, firing', rules, bases);
        return;
      }
    }
    FreeNot(env.modules, w, c);
  }

  lemma FreeIs(ms: seq<DefruleModule>, matches: set<PartialMatch>, detached: set<Activation>, w: World, c: Command,
               w': World)
    requires Sound(ms, w) && Fits(ms, matches, detached, w) && c.Free? && c.k < |w.firing|
    requires w.firing[c.k].basis in w.markers
    requires MarkerFits(w.markers[w.firing[c.k].basis], w.firing[c.k], w.on, c.updateLinks)
    requires w'.firing == w.firing[..c.k] + w.firing[c.k + 1..] && w'.st == w.st && w'.on == w.on && w'.mode == w.mode
    requires w'.markers == if c.updateLinks then w.markers[w.firing[c.k].basis := null] else w.markers
    requires w'.saliences == w.saliences && w'.memories == w.memories
    ensures Performs(ms, w, c, w') && Fits(ms, matches, detached - {w.firing[c.k]}, w')
  {
    hide MemoryWithin;
    assert w' == Freed(w, c.k, c.updateLinks);
    assert w'.markers.Keys == w.markers.Keys;
    OneLess(w.firing, c.k);
  }

  lemma OneLess(s: seq<Activation>, k: nat)
    requires k < |s| && forall i, j :: 0 <= i < j < |s| ==> s[i] != s[j]
    ensures var t := s[..k] + s[k + 1..];
            && (forall i, j :: 0 <= i < j < |t| ==> t[i] != t[j])
            && (forall a :: a in t <==> a in s && a != s[k])
  {
    var t := s[..k] + s[k + 1..];
    forall a | a in s && a != s[k] ensures a in t {
      var i :| 0 <= i < |s| && s[i] == a;
      assert t[if i < k then i else i - 1] == a;
    }
  }

  lemma FreeNot(ms: seq<DefruleModule>, w: World, c: Command)
    requires Sound(ms, w) && c.Free? && Freed(w, c.k, c.updateLinks) == w
    ensures Performs(ms, w, c, w)
  {
  }

  // ---------------------------------------------------------------- orders and modes

  method ReorderThese(env: AgendaData, which: Option<nat>)
    requires env.Valid()
    modifies env`groups, env.modules, env.on`prev, env.on`next
    ensures env.Valid() && (forall g :: g in env.groups ==> g in old(env.groups) || fresh(g))
    ensures Run(old(env.Abs()), ReorderingSteps(env.modules, which), env.Abs())
  {
    hide AgendaData.Valid, AgendaData.Abs, Run, StepTo, ReorderedAll, ReorderSteps;
    ghost var st := env.Abs();
    if which.None? {
      ghost var i := EnvReorderAgenda(env, None);
    } else if which.value < |env.modules| {
      ghost var i := EnvReorderAgenda(env, Some(env.modules[which.value]));
      ModuleAtOnce(env, i, which.value);
      RunOne(st, Reorder(i), env.Abs());
    } else {
      RunNone(st);
    }
  }

  // The same, said of the world.
  method ReorderIn(env: AgendaData, which: Option<nat>, ghost firing: seq<Activation>, ghost rules: set<Defrule>,
                   ghost bases: set<PartialMatch>)
    requires env.Valid()
    modifies env, env.modules, env.on
    ensures env.Valid() && (forall g :: g in env.groups ==> g in old(env.groups) || fresh(g))
    ensures env.on == old(env.on) && env.matches == old(env.matches) && env.detached == old(env.detached)
    ensures Run(old(env.Abs()), ReorderingSteps(env.modules, which), env.Abs())
    ensures WorldOf(env, firing, rules, bases) == old(WorldOf(env, firing, rules, bases)).(st := env.Abs())
  {
    hide AgendaData.Valid, AgendaData.Abs, Run, ReorderingSteps, MarkersOf, SaliencesOf, MemoriesOf;
    ReorderThese(env, which);
  }

  method DoReorder(env: AgendaData, c: Command, ghost firing: seq<Activation>, ghost rules: set<Defrule>,
                   ghost bases: set<PartialMatch>)
    requires c.ReorderAgendas? && Within(env, firing, rules, bases) && CommandWithin(c, rules, bases)
    requires Sound(env.modules, WorldOf(env, firing, rules, bases))
    modifies env, env.modules, env.on, env.groups, bases`marker, rules`salience, rules`leftMemory
    ensures Within(env, firing, rules, bases)
    ensures Performs(env.modules, old(WorldOf(env, firing, rules, bases)), c, WorldOf(env, firing, rules, bases))
    ensures env.on == old(env.on) && forall g :: g in env.groups ==> g in old(env.groups) || fresh(g)
  {
    hide AgendaData.Valid, AgendaData.Abs, Sound, Fits, Performs, Run, ReorderingSteps, WorldOf, CommandWithin;
    ghost var w := WorldOf(env, firing, rules, bases);
    ReorderIn(env, c.which, firing, rules, bases);
    OrderIs(env.modules, env.matches, env.detached, w, c, WorldOf(env, firing, rules, bases));
  }

  // Only the order has changed.
  lemma OrderIs(ms: seq<DefruleModule>, matches: set<PartialMatch>, detached: set<Activation>, w: World, c: Command,
                w': World)
    requires Sound(ms, w) && Fits(ms, matches, detached, w)
    requires w'.on == w.on && w'.firing == w.firing && w'.markers == w.markers && w'.memories == w.memories
    requires w'.saliences == w.saliences && (c.ChangeMode? || w'.mode == w.mode)
    requires (c.ReorderAgendas? && Run(w.st, ReorderingSteps(ms, c.which), w'.st)) ||
             (c.ChangeStrategy? && StepTo(w.st, SetStrategy(c.strategy), w'.st)) ||
             (c.ChangeMode? && w'.st == w.st && w'.mode == c.mode) ||
             (c.ResetCounter? && if Enabled(w.st, ResetTags) then StepTo(w.st, ResetTags, w'.st) else w'.st == w.st)
    ensures Performs(ms, w, c, w') && Fits(ms, matches, detached, w')
  {
    hide Next, Run, MemoryWithin, Enabled;
  }

  method ChangeStrategyIn(env: AgendaData, strategy: Strategy, ghost firing: seq<Activation>,
                          ghost rules: set<Defrule>, ghost bases: set<PartialMatch>)
    requires env.Valid()
    modifies env, env.modules, env.on
    ensures env.Valid() && (forall g :: g in env.groups ==> g in old(env.groups) || fresh(g))
    ensures env.on == old(env.on) && env.matches == old(env.matches) && env.detached == old(env.detached)
    ensures StepTo(old(env.Abs()), SetStrategy(strategy), env.Abs())
    ensures WorldOf(env, firing, rules, bases) == old(WorldOf(env, firing, rules, bases)).(st := env.Abs())
  {
    hide AgendaData.Valid, AgendaData.Abs, StepTo, MarkersOf, SaliencesOf, MemoriesOf;
    var was := EnvSetStrategy(env, strategy);
  }

  method ChangeModeIn(env: AgendaData, mode: SalienceMode, ghost firing: seq<Activation>, ghost rules: set<Defrule>,
                      ghost bases: set<PartialMatch>)
    requires env.Valid()
    modifies env
    ensures env.Valid() && env.on == old(env.on) && env.matches == old(env.matches)
    ensures env.detached == old(env.detached) && env.groups == old(env.groups)
    ensures WorldOf(env, firing, rules, bases) == old(WorldOf(env, firing, rules, bases)).(mode := mode)
  {
    hide AgendaData.Valid, AgendaData.Abs, MarkersOf, SaliencesOf, MemoriesOf;
    SetSalienceEvaluation(env, mode);
  }

  method DoChange(env: AgendaData, c: Command, ghost firing: seq<Activation>, ghost rules: set<Defrule>,
                  ghost bases: set<PartialMatch>)
    requires (c.ChangeStrategy? || c.ChangeMode?) && Within(env, firing, rules, bases) && CommandWithin(c, rules, bases)
    requires Sound(env.modules, WorldOf(env, firing, rules, bases))
    modifies env, env.modules, env.on, env.groups, bases`marker, rules`salience, rules`leftMemory
    ensures Within(env, firing, rules, bases)
    ensures Performs(env.modules, old(WorldOf(env, firing, rules, bases)), c, WorldOf(env, firing, rules, bases))
    ensures env.on == old(env.on) && forall g :: g in env.groups ==> g in old(env.groups) || fresh(g)
  {
    hide AgendaData.Valid, AgendaData.Abs, Sound, Fits, Performs, StepTo, WorldOf, CommandWithin;
    ghost var w := WorldOf(env, firing, rules, bases);
    if c.ChangeStrategy? {
      ChangeStrategyIn(env, c.strategy, firing, rules, bases);
    } else {
      ChangeModeIn(env, c.mode, firing, rules, bases);
    }
    OrderIs(env.modules, env.matches, env.detached, w, c, WorldOf(env, firing, rules, bases));
  }

  method DoReset(env: AgendaData, c: Command, ghost firing: seq<Activation>, ghost rules: set<Defrule>,
                 ghost bases: set<PartialMatch>)
    requires c.ResetCounter? && Within(env, firing, rules, bases) && CommandWithin(c, rules, bases)
    requires Sound(env.modules, WorldOf(env, firing, rules, bases))
    modifies env, env.modules, env.on, env.groups, bases`marker, rules`salience, rules`leftMemory
    ensures Within(env, firing, rules, bases)
    ensures Performs(env.modules, old(WorldOf(env, firing, rules, bases)), c, WorldOf(env, firing, rules, bases))
    ensures env.on == old(env.on) && forall g :: g in env.groups ==> g in old(env.groups) || fresh(g)
  {
    hide AgendaData.Valid, AgendaData.Abs, Sound, Fits, Performs, StepTo, Enabled;
    hide MarkersOf, SaliencesOf, MemoriesOf;
    ghost var w := WorldOf(env, firing, rules, bases);
    NoneLeft(env);
    var k := 0;
    while k < |env.modules| && env.modules[k].agenda == null
      invariant k <= |env.modules| && forall l :: 0 <= l < k ==> env.modules[l].agenda == null
    {
      k := k + 1;
    }
    if k == |env.modules| {
      AgendaClearFunction(env);
    }
    OrderIs(env.modules, env.matches, env.detached, w, c, WorldOf(env, firing, rules, bases));
  }

  // With every agenda empty no activation is on one.
  lemma NoneLeft(env: AgendaData)
    requires env.Valid()
    ensures (forall l :: 0 <= l < |env.modules| ==> env.modules[l].agenda == null) ==> env.on == {}
    ensures forall l :: 0 <= l < |env.modules| && env.modules[l].agenda != null ==> !Enabled(env.Abs(), ResetTags)
  {
    forall l | 0 <= l < |env.modules| && env.modules[l].agenda != null ensures !Enabled(env.Abs(), ResetTags) {
      assert AgendaIn(env.modules[l], env.Strategy, env.CurrentTimetag, env.on, env.groups);
      assert env.Abs().agendas[l] != [];
    }
    if env.on != {} {
      var a :| a in env.on;
      assert AgendaIn(a.theRule.whichModule, env.Strategy, env.CurrentTimetag, env.on, env.groups);
      assert a in a.theRule.whichModule.acts;
      assert a.theRule.whichModule.agenda != null;
    }
  }

  method DoStore(env: AgendaData, c: Command, ghost firing: seq<Activation>, ghost rules: set<Defrule>,
                 ghost bases: set<PartialMatch>)
    requires c.StoreMatches? && Within(env, firing, rules, bases) && CommandWithin(c, rules, bases)
    requires Sound(env.modules, WorldOf(env, firing, rules, bases))
    modifies env, env.modules, env.on, env.groups, bases`marker, rules`salience, rules`leftMemory
    ensures Within(env, firing, rules, bases)
    ensures Performs(env.modules, old(WorldOf(env, firing, rules, bases)), c, WorldOf(env, firing, rules, bases))
    ensures env.on == old(env.on) && forall g :: g in env.groups ==> g in old(env.groups) || fresh(g)
  {
    hide AgendaData.Valid, AgendaData.Abs, Sound, Fits, Performs;
    hide MarkersOf, SaliencesOf, MemoriesOf;
    ghost var w := WorldOf(env, firing, rules, bases);
    c.rule.leftMemory := c.memory;
    assert MemoriesOf(rules) == w.memories[c.rule := c.memory];
    StoreIs(env.modules, env.matches, env.detached, w, c, WorldOf(env, firing, rules, bases));
  }

  lemma StoreIs(ms: seq<DefruleModule>, matches: set<PartialMatch>, detached: set<Activation>, w: World, c: Command,
                w': World)
    requires Sound(ms, w) && Fits(ms, matches, detached, w) && c.StoreMatches? && c.rule in w.memories
    requires w' == w.(memories := w.memories[c.rule := c.memory]) && MemoryWithin(c.memory, w.markers.Keys)
    ensures Performs(ms, w, c, w') && Fits(ms, matches, detached, w')
  {
    hide MemoryWithin;
  }

  // ---------------------------------------------------------------- refreshing

  // What is expected of the k-th agenda, said of the world.
  lemma ExpectedIs(env: AgendaData, w: World, rules: set<Defrule>, k: nat, values: nat -> Evaluation)
    requires Sound(env.modules, w) && k < |env.modules| && w.saliences == SaliencesOf(rules)
    requires Objects(w.on, env.modules[k], w.st.agendas[k]) == env.modules[k].acts
    ensures RulesAt(env.modules, w, k) == RulesOf(env.modules[k].acts)
    ensures Expected(env.modules[k], values) == SaliencesAt(env.modules, w, k, values)
    ensures forall r :: r in RulesOf(env.modules[k].acts) ==>
              && r in ExpectedAfter(env.modules[k], values)
              && ExpectedAfter(env.modules[k], values)[r] ==
                 Reevaluated(RulesAt(env.modules, w, k), 0, w.saliences, values)[r]
  {
    hide Sound, Objects, Evaluated, Reevaluated;
    var list := RulesOf(env.modules[k].acts);
    assert RulesAt(env.modules, w, k) == list;
    EvaluatedAgree(list, 0, CurrentSaliences(list), w.saliences, values);
  }

  // What a refresh of one agenda, or of all, has to leave behind.
  ghost predicate Refreshed(ms: seq<DefruleModule>, w: World, which: Option<nat>, values: nat -> nat -> Evaluation,
                            st: State, now: map<Defrule, int>)
    requires Sound(ms, w)
  {
    && Run(w.st, RefreshingSteps(ms, w, which, values), st)
    && now == SaliencesAfter(ms, w, which, values)
  }

  method RefreshOneBy(env: AgendaData, k: nat, values: nat -> nat -> Evaluation, ghost rules: set<Defrule>,
                      ghost bases: set<PartialMatch>)
    requires env.Valid() && k < |env.modules|
    modifies env`groups, env`SalienceEvaluation, env.on`salience, RulesOn(env.on)`salience, env.modules
    modifies env.on`prev, env.on`next
    ensures env.Valid() && env.SalienceEvaluation == old(env.SalienceEvaluation)
    ensures MarkersOf(bases) == old(MarkersOf(bases)) && MemoriesOf(rules) == old(MemoriesOf(rules))
    ensures forall g :: g in env.groups ==> g in old(env.groups) || fresh(g)
    ensures Have(RulesOf(old(env.modules[k].acts)), old(ExpectedAfter(env.modules[k], values(0))))
    ensures forall r :: r in rules && r !in RulesOf(old(env.modules[k].acts)) ==> r.salience == old(r.salience)
    ensures StepTo(old(env.Abs()), RefreshAgenda(k, old(Expected(env.modules[k], values(0)))), env.Abs())
  {
    hide AgendaData.Valid, AgendaData.Abs, StepTo, Expected, ExpectedAfter, Have, MarkersOf, MemoriesOf;
    ghost var i, sals := EnvRefreshAgenda(env, Some(env.modules[k]), values);
    ModuleAtOnce(env, i, k);
  }

  method RefreshOneOf(env: AgendaData, k: nat, values: nat -> nat -> Evaluation, ghost firing: seq<Activation>,
                      ghost rules: set<Defrule>, ghost bases: set<PartialMatch>)
    requires Within(env, firing, rules, bases) && k < |env.modules|
    requires Sound(env.modules, WorldOf(env, firing, rules, bases))
    modifies env, env.modules, env.on, env.groups, rules`salience
    ensures env.Valid() && env.on == old(env.on) && env.matches == old(env.matches) && env.detached == old(env.detached)
    ensures MarkersOf(bases) == old(MarkersOf(bases)) && MemoriesOf(rules) == old(MemoriesOf(rules))
    ensures env.SalienceEvaluation == old(env.SalienceEvaluation)
    ensures forall g :: g in env.groups ==> g in old(env.groups) || fresh(g)
    ensures Refreshed(env.modules, old(WorldOf(env, firing, rules, bases)), Some(k), values, env.Abs(),
                      SaliencesOf(rules))
  {
    hide AgendaData.Valid, AgendaData.Abs, Sound, Fits, Run, StepTo, Expected, ExpectedAfter, RulesAt, Reevaluated;
    hide SaliencesAt, SaliencesAfter, Objects;
    hide Within, WorldOf, MarkersOf, MemoriesOf, SaliencesOf, Have;
    WithinMeans(env, firing, rules, bases);
    PlaceIs(env, firing, rules, bases, k);
    ghost var w := WorldOf(env, firing, rules, bases);
    ExpectedIs(env, w, rules, k, values(0));
    ghost var list, sal := RulesOf(env.modules[k].acts), Expected(env.modules[k], values(0));
    ghost var after := ExpectedAfter(env.modules[k], values(0));
    RefreshOneBy(env, k, values, rules, bases);
    RunOne(w.st, RefreshAgenda(k, sal), env.Abs());
    OneTold(env.modules, w, k, values, list, after, rules);
  }

  // Once an agenda has been refreshed, the saliences are those the world foretells.
  lemma OneTold(ms: seq<DefruleModule>, w: World, k: nat, values: nat -> nat -> Evaluation, list: seq<Defrule>,
                after: map<Defrule, int>, rules: set<Defrule>)
    requires Sound(ms, w) && k < |ms| && w.saliences.Keys == rules && RulesAt(ms, w, k) == list && Have(list, after)
    requires forall r :: r in list ==> r in after && after[r] == Reevaluated(list, 0, w.saliences, values(0))[r]
    requires forall d :: d in rules && d !in list ==> d.salience == w.saliences[d]
    ensures SaliencesOf(rules) == SaliencesAfter(ms, w, Some(k), values)
  {
    hide Sound, RulesAt, Reevaluated, SaliencesAfter;
    ModulesApart(ms, w);
    AfterIs(ms, w, Some(k), values, SaliencesOf(rules));
  }

  lemma ModulesApart(ms: seq<DefruleModule>, w: World)
    requires Sound(ms, w)
    ensures forall i, m :: 0 <= i < |ms| && m == ms[i] ==> IndexIn(ms, m) == i
    ensures forall d :: d in w.saliences ==> d.whichModule in ms
  {
  }

  // The plan tells what the world shows.
  ghost predicate Tells(ms: seq<DefruleModule>, w: World, plan: Plan)
    requires Sound(ms, w)
  {
    && plan.For(ms)
    && (forall k :: 0 <= k < |ms| ==> Objects(w.on, ms[k], w.st.agendas[k]) == plan.acts[k])
    && (forall k, r :: 0 <= k < |ms| && r in plan.cur[k] ==> r in w.saliences && plan.cur[k][r] == w.saliences[r])
    && (forall d :: d in RulesOn(w.on) ==>
          d.whichModule in ms && d in RulesOf(plan.acts[IndexIn(ms, d.whichModule)]))
  }

  lemma ToldAt(ms: seq<DefruleModule>, w: World, plan: Plan, k: nat, values: nat -> Evaluation)
    requires Sound(ms, w) && Tells(ms, w, plan) && k < |ms| && plan.Knows(k, ms[k])
    ensures RulesAt(ms, w, k) == RulesOf(plan.acts[k])
    ensures plan.Goal(k, ms[k], values) == SaliencesAt(ms, w, k, values)
    ensures forall r :: r in RulesAt(ms, w, k) ==>
              plan.After(k, ms[k], values)[r] == Reevaluated(RulesAt(ms, w, k), 0, w.saliences, values)[r]
  {
    hide Sound, Objects, Evaluated, Reevaluated;
    EvaluatedAgree(RulesOf(plan.acts[k]), 0, plan.cur[k], w.saliences, values);
  }

  // Once every agenda has been refreshed as planned, the saliences are those the world foretells.
  lemma AllTold(ms: seq<DefruleModule>, w: World, plan: Plan, values: nat -> nat -> Evaluation, rules: set<Defrule>)
    requires Sound(ms, w) && Tells(ms, w, plan) && w.saliences.Keys == rules && plan.For(ms)
    requires forall k :: 0 <= k < |ms| ==> Have(RulesOf(plan.acts[k]), plan.After(k, ms[k], values(k)))
    requires forall d :: d in rules && d !in RulesOn(w.on) ==> d.salience == w.saliences[d]
    ensures SaliencesOf(rules) == SaliencesAfter(ms, w, None, values)
  {
    hide Sound, Objects, Evaluated, Reevaluated, SaliencesAfter, RulesAt, Plan.After;
    ModulesApart(ms, w);
    forall d | d in rules
      ensures d.whichModule in ms &&
              d.salience == if Touched(ms, w, None, d)
                            then Reevaluated(RulesAt(ms, w, IndexIn(ms, d.whichModule)), 0, w.saliences,
                                             values(IndexIn(ms, d.whichModule)))[d]
                            else w.saliences[d]
    {
      var k := IndexIn(ms, d.whichModule);
      ToldAt(ms, w, plan, k, values(k));
      assert Have(RulesOf(plan.acts[k]), plan.After(k, ms[k], values(k)));
    }
    AfterIs(ms, w, None, values, SaliencesOf(rules));
  }

  lemma GoalsTold(ms: seq<DefruleModule>, w: World, plan: Plan, values: nat -> nat -> Evaluation, sals: seq<seq<int>>)
    requires Sound(ms, w) && Tells(ms, w, plan) && plan.For(ms) && |sals| == |ms|
    requires forall k :: 0 <= k < |ms| ==> sals[k] == plan.Goal(k, ms[k], values(k))
    ensures sals == AllSaliences(ms, w, values)
  {
    hide Sound, Tells, RulesAt, SaliencesAt, Plan.Goal;
    forall k | 0 <= k < |ms| ensures sals[k] == AllSaliences(ms, w, values)[k] {
      ToldAt(ms, w, plan, k, values(k));
    }
  }

  // Refreshes every agenda as planned.
  method RefreshAllBy(env: AgendaData, values: nat -> nat -> Evaluation, ghost rules: set<Defrule>,
                      ghost bases: set<PartialMatch>)
    returns (ghost plan: Plan, ghost sals: seq<seq<int>>)
    requires env.Valid()
    modifies env`groups, env`SalienceEvaluation, env.on`salience, RulesOn(env.on)`salience, env.modules
    modifies env.on`prev, env.on`next
    ensures env.Valid() && env.SalienceEvaluation == old(env.SalienceEvaluation)
    ensures MarkersOf(bases) == old(MarkersOf(bases)) && MemoriesOf(rules) == old(MemoriesOf(rules))
    ensures forall g :: g in env.groups ==> g in old(env.groups) || fresh(g)
    ensures plan == old(PlanFor(env.modules)) && plan.For(env.modules) && |sals| == |env.modules|
    ensures forall k :: 0 <= k < |env.modules| ==> sals[k] == plan.Goal(k, env.modules[k], values(k))
    ensures forall k :: 0 <= k < |env.modules| ==>
              Have(RulesOf(plan.acts[k]), plan.After(k, env.modules[k], values(k)))
    ensures forall d :: d in rules && d !in RulesOn(env.on) ==> d.salience == old(d.salience)
    ensures Run(old(env.Abs()), RefreshSteps(sals), env.Abs())
  {
    hide AgendaData.Valid, AgendaData.Abs, Run, Expected, ExpectedAfter, Have, RefreshSteps, Plan.Goal, Plan.After;
    hide PlanFor, Halfway, Plan.Knows, MarkersOf, MemoriesOf;
    plan := PlanFor(env.modules);
    PlanStarts(env, values, plan, RulesOn(env.on));
    ghost var i;
    i, sals := EnvRefreshAgenda(env, None, values);
  }

  method RefreshAllOf(env: AgendaData, values: nat -> nat -> Evaluation, ghost firing: seq<Activation>,
                      ghost rules: set<Defrule>, ghost bases: set<PartialMatch>)
    requires Within(env, firing, rules, bases) && Sound(env.modules, WorldOf(env, firing, rules, bases))
    modifies env, env.modules, env.on, env.groups, rules`salience
    ensures env.Valid() && env.on == old(env.on) && env.matches == old(env.matches) && env.detached == old(env.detached)
    ensures MarkersOf(bases) == old(MarkersOf(bases)) && MemoriesOf(rules) == old(MemoriesOf(rules))
    ensures env.SalienceEvaluation == old(env.SalienceEvaluation)
    ensures forall g :: g in env.groups ==> g in old(env.groups) || fresh(g)
    ensures Refreshed(env.modules, old(WorldOf(env, firing, rules, bases)), None, values, env.Abs(), SaliencesOf(rules))
  {
    hide AgendaData.Valid, AgendaData.Abs, Sound, Fits, Run, SaliencesAfter, AllSaliences, Objects, WorldOf, Within;
    hide Plan.For, Plan.Goal, Plan.After, PlanFor, Have, Tells, SaliencesOf, MarkersOf, MemoriesOf;
    WithinMeans(env, firing, rules, bases);
    ghost var w := WorldOf(env, firing, rules, bases);
    PlanTells(env, firing, rules, bases);
    ghost var plan, sals := RefreshAllBy(env, values, rules, bases);
    GoalsTold(env.modules, w, plan, values, sals);
    AllTold(env.modules, w, plan, values, rules);
  }

  lemma PlanTells(env: AgendaData, firing: seq<Activation>, rules: set<Defrule>, bases: set<PartialMatch>)
    requires Within(env, firing, rules, bases)
    ensures Sound(env.modules, WorldOf(env, firing, rules, bases))
    ensures Tells(env.modules, WorldOf(env, firing, rules, bases), PlanFor(env.modules))
  {
    hide AgendaData.Valid, AgendaData.Abs, Sound, Fits, Objects, WorldOf, Within, Halfway, Plan.Goal, Plan.After;
    hide Expected, ExpectedAfter, IndexIn, Plan.For, RulesOn, RulesAt;
    var ms, w, plan := env.modules, WorldOf(env, firing, rules, bases), PlanFor(env.modules);
    WithinMeans(env, firing, rules, bases);
    PlanStarts(env, k => l => NotAnInteger, plan, RulesOn(env.on));
    WithinSound(env, firing, rules, bases);
    OnAgendas(env, w, plan.acts);
    forall k | 0 <= k < |ms|
      ensures Objects(w.on, ms[k], w.st.agendas[k]) == plan.acts[k]
      ensures forall r :: r in plan.cur[k] ==> r in w.saliences && plan.cur[k][r] == w.saliences[r]
    {
      PlaceIs(env, firing, rules, bases, k);
      CurrentTold(env, rules, k);
    }
  }

  lemma CurrentTold(env: AgendaData, rules: set<Defrule>, k: nat)
    requires env.Valid() && k < |env.modules| && forall a :: a in env.on ==> a.theRule in rules
    ensures forall r :: r in CurrentSaliences(RulesOf(env.modules[k].acts)) ==>
              r in rules && CurrentSaliences(RulesOf(env.modules[k].acts))[r] == r.salience
  {
    hide AgendaData.Valid;
    ModuleReach(env, env.modules[k]);
  }

  // A rule with an activation has it on the agenda of its module.
  lemma OnAgendas(env: AgendaData, w: World, acts: seq<seq<Activation>>)
    requires env.Valid() && Sound(env.modules, w) && w.on == env.on && |acts| == |env.modules|
    requires forall k :: 0 <= k < |acts| ==> acts[k] == env.modules[k].acts
    ensures forall d :: d in RulesOn(env.on) ==>
              d.whichModule in env.modules && d in RulesOf(acts[IndexIn(env.modules, d.whichModule)])
  {
    hide AgendaData.Valid, Shown;
    ListedNow(env);
    forall d | d in RulesOn(env.on)
      ensures d.whichModule in env.modules && d in RulesOf(acts[IndexIn(env.modules, d.whichModule)])
    {
      var a :| a in env.on && a.theRule == d;
      var k := IndexIn(env.modules, d.whichModule);
      assert a in acts[k];
      var p :| 0 <= p < |acts[k]| && acts[k][p] == a;
      assert RulesOf(acts[k])[p] == d;
    }
  }

  method RefreshIn(env: AgendaData, c: Command, ghost firing: seq<Activation>, ghost rules: set<Defrule>,
                   ghost bases: set<PartialMatch>)
    requires c.RefreshAgendas? && Within(env, firing, rules, bases)
    requires Sound(env.modules, WorldOf(env, firing, rules, bases))
    modifies env, env.modules, env.on, env.groups, rules`salience
    ensures env.Valid() && env.on == old(env.on) && env.matches == old(env.matches) && env.detached == old(env.detached)
    ensures MarkersOf(bases) == old(MarkersOf(bases)) && MemoriesOf(rules) == old(MemoriesOf(rules))
    ensures env.SalienceEvaluation == old(env.SalienceEvaluation)
    ensures forall g :: g in env.groups ==> g in old(env.groups) || fresh(g)
    ensures Refreshed(env.modules, old(WorldOf(env, firing, rules, bases)), c.which, c.values, env.Abs(),
                      SaliencesOf(rules))
  {
    hide AgendaData.Valid, AgendaData.Abs, Sound, Refreshed, SaliencesOf, MemoriesOf, MarkersOf, WorldOf;
    if c.which.None? {
      RefreshAllOf(env, c.values, firing, rules, bases);
    } else if c.which.value < |env.modules| {
      RefreshOneOf(env, c.which.value, c.values, firing, rules, bases);
    } else {
      NoneRefreshed(env.modules, WorldOf(env, firing, rules, bases), c);
    }
  }

  method DoRefreshAgendas(env: AgendaData, c: Command, ghost firing: seq<Activation>, ghost rules: set<Defrule>,
                          ghost bases: set<PartialMatch>)
    requires c.RefreshAgendas? && Within(env, firing, rules, bases) && CommandWithin(c, rules, bases)
    requires Sound(env.modules, WorldOf(env, firing, rules, bases))
    modifies env, env.modules, env.on, env.groups, bases`marker, rules`salience, rules`leftMemory
    ensures Within(env, firing, rules, bases)
    ensures Performs(env.modules, old(WorldOf(env, firing, rules, bases)), c, WorldOf(env, firing, rules, bases))
    ensures env.on == old(env.on) && forall g :: g in env.groups ==> g in old(env.groups) || fresh(g)
  {
    hide AgendaData.Valid, AgendaData.Abs, Sound, Fits, Performs, Refreshed, MarkersOf, SaliencesOf, MemoriesOf;
    hide WorldOf, Within, CommandWithin;
    FitsNow(env, firing, rules, bases);
    ghost var w := WorldOf(env, firing, rules, bases);
    RefreshIn(env, c, firing, rules, bases);
    RefreshIs(env.modules, env.matches, env.detached, w, c, WorldOf(env, firing, rules, bases));
    IsWithin(env, firing, rules, bases);
  }

  lemma NoneRefreshed(ms: seq<DefruleModule>, w: World, c: Command)
    requires Sound(ms, w) && c.RefreshAgendas? && c.which.Some? && c.which.value >= |ms|
    ensures Refreshed(ms, w, c.which, c.values, w.st, w.saliences)
  {
    hide RulesAt, Reevaluated, Run;
    RunNone(w.st);
    AfterIs(ms, w, c.which, c.values, w.saliences);
  }

  lemma RefreshIs(ms: seq<DefruleModule>, matches: set<PartialMatch>, detached: set<Activation>, w: World, c: Command,
                  w': World)
    requires Sound(ms, w) && Fits(ms, matches, detached, w) && c.RefreshAgendas?
    requires Refreshed(ms, w, c.which, c.values, w'.st, w'.saliences)
    requires w'.on == w.on && w'.firing == w.firing && w'.markers == w.markers && w'.memories == w.memories
    requires w'.mode == w.mode
    ensures Performs(ms, w, c, w') && Fits(ms, matches, detached, w')
  {
    hide Sound, Run, MemoryWithin, RefreshingSteps, RulesAt, Reevaluated;
    assert w'.saliences.Keys == w.saliences.Keys;
  }

  method DoRefreshRule(env: AgendaData, c: Command, ghost firing: seq<Activation>, ghost rules: set<Defrule>,
                       ghost bases: set<PartialMatch>)
    requires c.RefreshRule? && Within(env, firing, rules, bases) && CommandWithin(c, rules, bases)
    requires Sound(env.modules, WorldOf(env, firing, rules, bases))
    modifies env, env.modules, env.on, env.groups, bases`marker, rules`salience, rules`leftMemory
    ensures Within(env, firing, rules, bases)
    ensures Performs(env.modules, old(WorldOf(env, firing, rules, bases)), c, WorldOf(env, firing, rules, bases))
    ensures forall a :: a in env.on ==> a in old(env.on) || fresh(a)
    ensures forall g :: g in env.groups ==> g in old(env.groups) || fresh(g)
  {
    hide AgendaData.Valid, AgendaData.Abs, Sound, Fits, Performs, WorldOf, AddsEffect, MatchesIn, RuleRefreshed;
    hide Memories, RefreshRequests, Disjuncts;
    WithinMeans(env, firing, rules, bases);
    ghost var w, matches, detached := WorldOf(env, firing, rules, bases), env.matches, env.detached;
    ghost var list := Disjuncts(c.rule);
    ghost var mem := MemoriesFor(list, w.memories);
    MemoriesGiven(env, firing, rules, bases, list, mem);
    EnvRefresh(env, c.rule, c.evaluations, c.randoms, list, mem, MatchesIn(mem), Scope(firing, rules, bases));
    KnownMatches(env);
    RuleIs(env.modules, matches, detached, w, c, WorldOf(env, firing, rules, bases), env.matches);
  }

  // What the refresh of a rule is told about its memories.
  lemma MemoriesGiven(env: AgendaData, firing: seq<Activation>, rules: set<Defrule>, bases: set<PartialMatch>,
                      list: seq<Defrule>, mem: seq<Memory>)
    requires Within(env, firing, rules, bases) && (forall d :: d in list ==> d in rules)
    requires mem == MemoriesFor(list, MemoriesOf(rules))
    ensures Memories(list, mem) && MatchesIn(mem) <= bases
    ensures forall i :: 0 <= i < |list| ==> list[i].whichModule in env.modules && list[i] in rules
  {
    hide AgendaData.Valid;
    forall i | 0 <= i < |list| ensures MemoryWithin(mem[i], bases) {
      assert list[i] in rules;
    }
  }

  lemma KnownMatches(env: AgendaData)
    requires env.Valid()
    ensures forall a :: a in env.on || a in env.detached ==> a.basis in env.matches
  {
  }

  lemma RuleIs(ms: seq<DefruleModule>, matches: set<PartialMatch>, detached: set<Activation>, w: World, c: Command,
               w': World, matches': set<PartialMatch>)
    requires Sound(ms, w) && Fits(ms, matches, detached, w) && c.RefreshRule?
    requires forall d :: d in Disjuncts(c.rule) ==> d in w.saliences
    requires forall d :: d in Disjuncts(c.rule) ==> d in w.memories
    requires AddsEffect(ms, w, RefreshRequests(Disjuncts(c.rule), MemoriesFor(Disjuncts(c.rule), w.memories),
                                               c.evaluations, c.randoms), w')
    requires matches' <= w'.markers.Keys && MatchesIn(MemoriesFor(Disjuncts(c.rule), w.memories)) <= w.markers.Keys
    requires forall a :: a in w'.on || a in detached ==> a.basis in matches'
    requires forall pm :: pm in w.markers && w.markers[pm] != null ==>
               w.markers[pm].basis == pm && (w.markers[pm] in w.on || w.markers[pm] in detached)
    ensures Performs(ms, w, c, w') && Fits(ms, matches', detached, w')
  {
    hide AddsEffect, MemoryWithin, MatchesIn, RefreshRequests, Remarked, Disjuncts, Shown;
    var rules := Disjuncts(c.rule);
    var mem := MemoriesFor(rules, w.memories);
    var qs := RefreshRequests(rules, mem, c.evaluations, c.randoms);
    RequestsAre(ms, w, rules, mem, c.evaluations, c.randoms);
    AddsRemark(ms, w, qs, w');
    AddsRules(ms, w, qs, w');
    RemarkedMeans(w.markers, w'.markers, BasesOf(qs), w.on, w'.on);
    assert Effect(ms, w, c, w');
  }

  lemma RemarkedMeans(was: Markers, now: Markers, done: set<PartialMatch>, on0: set<Activation>, on: set<Activation>)
    requires Remarked(was, now, done, on0, on)
    ensures now.Keys == was.Keys && on0 <= on
    ensures forall pm :: pm in was && was[pm] != null ==> now[pm] == was[pm]
    ensures forall pm :: pm in was && was[pm] == null && now[pm] != null ==> now[pm] in on && now[pm].basis == pm
  {
  }
}
