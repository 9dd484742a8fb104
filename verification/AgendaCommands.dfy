/** Removing and detaching activations, one at a time, by rule, or all of a module's. */
module AgendaCommands {
  import opened Ordering
  import opened AgendaSpec
  import opened AgendaHeap
  import opened AgendaEngine
  import opened AgendaOperations

  // What is left of the markers in order once an activation is gone: see RemoveActivation.
  ghost predicate MarkerFits(was: Activation?, a: Activation, on: set<Activation>, updateLinks: bool) {
    if updateLinks then was !in on - {a} else was != a
  }

  // The last thing done to a removed activation: its match may let go of it.
  method UpdateMarker(env: AgendaData, basis: PartialMatch, updateLinks: bool, ghost on: set<Activation>,
                      ghost detached: set<Activation>, ghost a: Activation)
    requires env.Linked() && Marked(on, detached, env.matches) && a.basis == basis && (a in on || a in detached)
    requires env.on == on - {a} && env.detached == detached - {a}
    modifies basis`marker
    ensures env.Linked() && env.Abs() == old(env.Abs())
    ensures basis.marker == if updateLinks then null else old(basis.marker)
    ensures env.Valid() <==> MarkerFits(old(basis.marker), a, on, updateLinks)
  {
    hide Agendas, Counted, Views;
    if updateLinks {
      ghost var was := basis.marker;
      basis.marker := null;
      assert was in env.on ==> was.basis.marker != was;
    }
  }

  lemma CountedRemove(n: nat, on: set<Activation>, detached: set<Activation>, ms: seq<DefruleModule>, a: Activation,
                      on': set<Activation>, detached': set<Activation>)
    requires Counted(n, on, detached, ms) && (a in on || a in detached)
    requires on' == on - {a} && detached' == detached - {a}
    ensures n > 0 && Counted(n - 1, on', detached', ms)
  {
    if a in on {
      assert detached' == detached;
      assert on == on' + {a};
    } else {
      assert on' == on;
      assert detached == detached' + {a};
    }
  }

  lemma CountedDetach(n: nat, on: set<Activation>, detached: set<Activation>, ms: seq<DefruleModule>, a: Activation,
                      on': set<Activation>, detached': set<Activation>)
    requires Counted(n, on, detached, ms) && a in on
    requires on' == on - {a} && detached' == detached + {a}
    ensures Counted(n, on', detached', ms)
  {
    assert on == on' + {a};
  }

  lemma MarkedDetach(on: set<Activation>, detached: set<Activation>, matches: set<PartialMatch>, a: Activation,
                     on': set<Activation>, detached': set<Activation>)
    requires Marked(on, detached, matches) && a in on
    requires on' == on - {a} && detached' == detached + {a}
    ensures Marked(on', detached', matches)
  {
  }

  lemma OnModule(env: AgendaData, a: Activation)
    requires env.Valid() && a in env.on
    ensures a.theRule.whichModule in env.modules && a in a.theRule.whichModule.acts
  {
    assert AgendaIn(a.theRule.whichModule, env.Strategy, env.CurrentTimetag, env.on, env.groups);
  }

  lemma ValidMeans(env: AgendaData)
    requires env.Valid()
    ensures Agendas(env.modules, env.Strategy, env.CurrentTimetag, env.on, env.groups)
    ensures Counted(env.NumberOfActivations, env.on, env.detached, env.modules)
    ensures Marked(env.on, env.detached, env.matches)
  {
  }

  // Only the environment record changes.
  method Record(env: AgendaData, n: nat, ghost on: set<Activation>, ghost detached: set<Activation>)
    requires Agendas(env.modules, env.Strategy, env.CurrentTimetag, on, env.groups)
    requires Counted(n, on, detached, env.modules)
    modifies env`NumberOfActivations, env`on, env`detached
    ensures env.Linked() && (env.Valid() <==> Marked(on, detached, env.matches)) && env.Abs() == old(env.Abs())
    ensures env.NumberOfActivations == n && env.on == on && env.detached == detached
  {
    hide Agendas, Counted, Marked;
    env.NumberOfActivations := n;
    env.on, env.detached := on, detached;
  }

  // Counts a removed activation off and brings its marker up to date.
  method FinishRemoval(env: AgendaData, a: Activation, updateLinks: bool, n: nat, ghost on: set<Activation>,
                       ghost detached: set<Activation>)
    requires Agendas(env.modules, env.Strategy, env.CurrentTimetag, on, env.groups)
    requires Counted(n, on, detached, env.modules) && Marked(env.on, env.detached, env.matches)
    requires on == env.on - {a} && detached == env.detached - {a} && (a in env.on || a in env.detached)
    modifies env`NumberOfActivations, env`on, env`detached, a.basis`marker
    ensures env.Linked() && env.Abs() == old(env.Abs())
    ensures env.NumberOfActivations == n && env.on == on && env.detached == detached
    ensures a.basis.marker == if updateLinks then null else old(a.basis.marker)
    ensures env.Valid() <==> MarkerFits(old(a.basis.marker), a, old(env.on), updateLinks)
  {
    hide Agendas, Counted, Marked, AgendaData.Valid, AgendaData.Linked, AgendaData.Abs;
    ghost var on0, detached0 := env.on, env.detached;
    Record(env, n, on, detached);
    UpdateMarker(env, a.basis, updateLinks, on0, detached0, a);
  }

  // Takes an activation off its agenda; the counters and the marker of its match are not yet brought up to date.
  method TakeOffFrom(env: AgendaData, m: DefruleModule, a: Activation, detaching: bool, ghost on: set<Activation>)
    returns (ghost i: nat, ghost p: nat)
    requires env.Valid() && a in env.on && a.theRule.whichModule == m && on == env.on - {a}
    modifies m, m.acts`prev, m.acts`next, m.groups
    ensures Agendas(env.modules, env.Strategy, env.CurrentTimetag, on, env.groups) && ModuleAt(env, i, m)
    ensures StepTo(old(env.Abs()), Drop(i, {a.timetag}), env.Abs())
    ensures forall g :: g in m.groups ==> g in old(m.groups)
    ensures p < |old(m.acts)| && old(m.acts)[p] == a && m.acts == Cut(old(m.acts), p)
    ensures if detaching then a.prev == null && a.next == null else a.next == old(a.next)
  {
    hide Agendas, Counted, Marked, Views, Without, Cut, ModuleAt, StepTo;
    ghost var before := env.Abs();
    OnModule(env, a);
    i := FindModule(env, m);
    p := TakeOffAgenda(env.Strategy, env.CurrentTimetag, env.modules, m, a, detaching, env.on, env.groups, on);
    AbsUpdated(env, before, i, m);
    DropTo(before, i, {a.timetag}, env.Abs());
  }

  // Removal of an activation that is on its agenda.
  method RemoveLinked(env: AgendaData, m: DefruleModule, theActivation: Activation, updateLinks: bool)
    returns (ghost i: nat, ghost p: nat)
    requires env.Valid() && theActivation in env.on && theActivation.theRule.whichModule == m
    modifies env`NumberOfActivations, env`on, env`detached, theActivation.basis`marker
    modifies m, m.acts`prev, m.acts`next, m.groups
    ensures env.Linked() && (env.Valid() <==> updateLinks)
    ensures ModuleAt(env, i, m)
    ensures StepTo(old(env.Abs()), Drop(i, {theActivation.timetag}), env.Abs())
    ensures env.on == old(env.on) - {theActivation} && env.detached == old(env.detached) - {theActivation}
    ensures env.NumberOfActivations == old(env.NumberOfActivations) - 1
    ensures old(theActivation.basis.marker) == theActivation
    ensures theActivation.basis.marker == if updateLinks then null else theActivation
    ensures theActivation.next == old(theActivation.next)
    ensures forall g :: g in m.groups ==> g in old(m.groups)
    ensures p < |old(m.acts)| && old(m.acts)[p] == theActivation
    ensures m.acts == Cut(old(m.acts), p)
  {
    hide Agendas, Counted, Marked, Cut, ModuleAt, StepTo, AgendaData.Valid, AgendaData.Linked, AgendaData.Abs;
    ghost var on, detached := env.on - {theActivation}, env.detached - {theActivation};
    var n := env.NumberOfActivations;
    ValidMeans(env);
    CountedRemove(n, env.on, env.detached, env.modules, theActivation, on, detached);
    MarkedItself(env, theActivation);
    i, p := TakeOffFrom(env, m, theActivation, false, on);
    FinishRemoval(env, theActivation, updateLinks, n - 1, on, detached);
  }

  lemma MarkedItself(env: AgendaData, a: Activation)
    requires env.Valid() && a in env.on
    ensures a.basis.marker == a
  {
  }

  // Removal of an activation that was detached before.
  method FreeDetached(env: AgendaData, theActivation: Activation, updateLinks: bool)
    requires env.Valid() && theActivation in env.detached
    modifies env`NumberOfActivations, env`on, env`detached, theActivation.basis`marker
    ensures env.Linked() && env.Abs() == old(env.Abs())
    ensures env.Valid() <==> MarkerFits(old(theActivation.basis.marker), theActivation, old(env.on), updateLinks)
    ensures env.on == old(env.on) - {theActivation} && env.detached == old(env.detached) - {theActivation}
    ensures env.NumberOfActivations == old(env.NumberOfActivations) - 1
    ensures theActivation.basis.marker == if updateLinks then null else old(theActivation.basis.marker)
  {
    hide Agendas, Counted, Marked, AgendaData.Valid, AgendaData.Linked, AgendaData.Abs;
    ghost var on, detached := env.on - {theActivation}, env.detached - {theActivation};
    ValidMeans(env);
    CountedRemove(env.NumberOfActivations, env.on, env.detached, env.modules, theActivation, on, detached);
    NotOn(env, theActivation, on);
    FinishRemoval(env, theActivation, updateLinks, env.NumberOfActivations - 1, on, detached);
  }

  lemma NotOn(env: AgendaData, a: Activation, on: set<Activation>)
    requires env.Valid() && a in env.detached && on == env.on - {a}
    ensures on == env.on
  {
  }

  /** Frees an activation.  With `updateAgenda` it is taken off its agenda first; without it the
      activation must have been detached.  With `updateLinks` the marker of its match is cleared.
      Lists, groups and counter stay in order in every case.  The markers do exactly when no marker is
      left that points at the freed activation, and none is cleared that points at another on an agenda. */
  lemma OwnReach(env: AgendaData, a: Activation)
    requires env.Valid() && a in env.on
    ensures forall b :: b in a.theRule.whichModule.acts ==> b in env.on
    ensures forall g :: g in a.theRule.whichModule.groups ==> g in env.groups
  {
    assert AgendaIn(a.theRule.whichModule, env.Strategy, env.CurrentTimetag, env.on, env.groups);
  }

  method RemoveActivation(env: AgendaData, theActivation: Activation, updateAgenda: bool, updateLinks: bool)
    returns (ghost i: nat)
    requires env.Valid()
    requires if updateAgenda then theActivation in env.on else theActivation in env.detached
    modifies env`NumberOfActivations, env`on, env`detached, theActivation.basis`marker
    modifies if updateAgenda then {theActivation.theRule.whichModule} else {}
    modifies (if updateAgenda then env.on else {})`prev, (if updateAgenda then env.on else {})`next
    modifies if updateAgenda then env.groups else {}
    ensures env.Linked()
    ensures env.Valid() <==> MarkerFits(old(theActivation.basis.marker), theActivation, old(env.on), updateLinks)
    ensures updateAgenda ==> (env.Valid() <==> updateLinks)
    ensures updateAgenda ==> ModuleAt(env, i, theActivation.theRule.whichModule)
    ensures if updateAgenda then StepTo(old(env.Abs()), Drop(i, {theActivation.timetag}), env.Abs())
            else env.Abs() == old(env.Abs())
    ensures env.on == old(env.on) - {theActivation} && env.detached == old(env.detached) - {theActivation}
    ensures env.NumberOfActivations == old(env.NumberOfActivations) - 1
    ensures theActivation.basis.marker == if updateLinks then null else old(theActivation.basis.marker)
  {
    hide AgendaData.Valid, AgendaData.Linked, AgendaData.Abs, StepTo, ModuleAt;
    i := 0;
    if updateAgenda {
      OwnReach(env, theActivation);
      ghost var p;
      i, p := RemoveLinked(env, theActivation.theRule.whichModule, theActivation, updateLinks);
    } else {
      FreeDetached(env, theActivation, updateLinks);
    }
  }

  /** Takes an activation off its agenda without freeing it, as when its rule is about to fire. */
  method DetachActivation(env: AgendaData, theActivation: Activation) returns (ghost i: nat)
    requires env.Valid() && theActivation in env.on
    modifies env`NumberOfActivations, env`on, env`detached, theActivation.theRule.whichModule
    modifies theActivation.theRule.whichModule.acts`prev, theActivation.theRule.whichModule.acts`next
    modifies theActivation.theRule.whichModule.groups
    ensures env.Valid() && ModuleAt(env, i, theActivation.theRule.whichModule)
    ensures StepTo(old(env.Abs()), Drop(i, {theActivation.timetag}), env.Abs())
    ensures env.on == old(env.on) - {theActivation} && env.detached == old(env.detached) + {theActivation}
    ensures env.NumberOfActivations == old(env.NumberOfActivations)
    ensures theActivation.prev == null && theActivation.next == null
  {
    hide Agendas, Counted, Marked, Views, Without, Cut, ModuleAt, StepTo;
    ghost var on, detached := env.on - {theActivation}, env.detached + {theActivation};
    CountedDetach(env.NumberOfActivations, env.on, env.detached, env.modules, theActivation, on, detached);
    MarkedDetach(env.on, env.detached, env.matches, theActivation, on, detached);
    ghost var p;
    i, p := TakeOffFrom(env, theActivation.theRule.whichModule, theActivation, true, on);
    Record(env, env.NumberOfActivations, on, detached);
  }

  /** The engine's step before a rule's actions run: the match no longer points at the activation. */
  method ReleaseBasis(env: AgendaData, theActivation: Activation)
    requires env.Valid() && theActivation in env.detached && theActivation.basis.marker == theActivation
    modifies theActivation.basis`marker
    ensures env.Valid() && theActivation.basis.marker == null
  {
    theActivation.basis.marker := null;
  }
}
