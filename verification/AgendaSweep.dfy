/** Walking an agenda and removing activations on the way. */
module AgendaSweep {
  import opened Ordering
  import opened AgendaSpec
  import opened AgendaHeap
  import opened AgendaEngine
  import opened AgendaOperations
  import opened AgendaCommands

  lemma {:induction false} WithoutTwice(q: seq<Act>, gone: set<nat>, more: set<nat>)
    ensures Without(Without(q, gone), more) == Without(q, gone + more)
  {
    if q != [] {
      var n := |q| - 1;
      WithoutTwice(q[..n], gone, more);
      var rest := Without(q[..n], gone);
      if q[n].timetag !in gone {
        assert (rest + [q[n]])[..|rest|] == rest;
      }
    }
  }

  lemma {:induction false} WithoutNothing(q: seq<Act>)
    ensures Without(q, {}) == q
  {
    if q != [] { WithoutNothing(q[..|q| - 1]); }
  }

  ghost function TimetagsOf(acts: set<Activation>): set<nat> {
    set a | a in acts :: a.timetag
  }

  ghost function Dropped(st: State, i: nat, gone: set<nat>): State
    requires i < |st.agendas|
  {
    Next(st, Drop(i, gone))
  }

  // What the walk over the agenda `all` has still to visit is the end of the present agenda.
  ghost predicate Visiting(acts: seq<Activation>, all: seq<Activation>, j: nat) {
    && j <= |all| && |all| - j <= |acts|
    && acts[|acts| - (|all| - j)..] == all[j..]
    && (forall k :: 0 <= k < |acts| ==> acts[k] in all)
  }

  lemma VisitNext(acts: seq<Activation>, all: seq<Activation>, j: nat)
    requires Visiting(acts, all, j) && j < |all|
    ensures Visiting(acts, all, j + 1)
    ensures acts[|acts| - (|all| - j)] == all[j]
  {
    assert acts[|acts| - (|all| - j)..][0] == all[j..][0];
    assert acts[|acts| - (|all| - j)..][1..] == all[j..][1..];
  }

  lemma VisitRemoved(acts: seq<Activation>, all: seq<Activation>, j: nat, p: nat)
    requires Visiting(acts, all, j) && j < |all|
    requires p < |acts| && acts[p] == all[j]
    requires forall x, y :: 0 <= x < y < |acts| ==> acts[x] != acts[y]
    ensures Visiting(Cut(acts, p), all, j + 1)
  {
    VisitNext(acts, all, j);
    var q := |acts| - (|all| - j);
    assert p == q;
    var r := Cut(acts, p);
    forall k | 0 <= k < |all| - (j + 1) ensures r[q..][k] == all[j + 1..][k] {
      assert acts[q..][k + 1] == all[j..][k + 1];
    }
    assert r[q..] == all[j + 1..];
  }

  lemma NextIsNext(m: DefruleModule, all: seq<Activation>, j: nat)
    requires m.Valid() && Visiting(m.acts, all, j) && j < |all|
    ensures all[j] in m.acts
    ensures all[j].next == if j + 1 == |all| then null else all[j + 1]
    ensures forall x, y :: 0 <= x < y < |m.acts| ==> m.acts[x] != m.acts[y]
  {
    VisitNext(m.acts, all, j);
    var q := |m.acts| - (|all| - j);
    assert m.acts[q].next == if q + 1 == |m.acts| then null else m.acts[q + 1];
    if j + 1 < |all| { VisitNext(m.acts, all, j + 1); }
  }

  // What a walk starts from.
  datatype Start = Start(st: State, on: set<Activation>, detached: set<Activation>, markers: Markers)

  ghost function StartOf(env: AgendaData): Start
    reads env, env.modules`view, env.matches`marker
  {
    Start(env.Abs(), env.on, env.detached, MarkersOf(env.matches))
  }

  /** Walking `all`, having reached position j: of what was there at the start, exactly the activations in
      `gone` have been removed, and their matches point at nothing. */
  ghost predicate Sweeping(env: AgendaData, m: DefruleModule, i: nat, all: seq<Activation>, groups: seq<SalienceGroup>,
                           j: nat, gone: set<Activation>, start: Start)
    reads env, env.modules, env.on, env.groups, env.matches`marker
  {
    && env.Valid() && ModuleAt(env, i, m) && i < |start.st.agendas|
    && Visiting(m.acts, all, j)
    && (forall k :: 0 <= k < |m.groups| ==> m.groups[k] in groups)
    && env.on == start.on - gone && env.detached == start.detached
    && env.matches == start.markers.Keys && MarkersOf(env.matches) == Cleared(start.markers, gone)
    && (forall a :: a in gone ==> a in all)
    && env.Abs() == Dropped(start.st, i, TimetagsOf(gone))
  }

  lemma FirstOnAgenda(env: AgendaData, m: DefruleModule, i: nat)
    requires env.Valid() && ModuleAt(env, i, m)
    ensures m.agenda == if m.acts == [] then null else m.acts[0]
    ensures i < |env.Abs().agendas|
  {
    assert AgendaIn(m, env.Strategy, env.CurrentTimetag, env.on, env.groups);
  }

  lemma VisitAll(acts: seq<Activation>)
    ensures Visiting(acts, acts, 0)
  {
  }

  lemma StartSweep(env: AgendaData, m: DefruleModule, i: nat)
    requires env.Valid() && ModuleAt(env, i, m)
    ensures Sweeping(env, m, i, m.acts, m.groups, 0, {}, StartOf(env))
    ensures m.agenda == if m.acts == [] then null else m.acts[0]
  {
    hide AgendaData.Valid, AgendaData.Abs, ModuleAt, Dropped, TimetagsOf, Visiting, MarkersOf, Cleared;
    FirstOnAgenda(env, m, i);
    VisitAll(m.acts);
    NothingGone(env.Abs(), i);
    NoneCleared(MarkersOf(env.matches));
  }

  lemma NothingGone(st: State, i: nat)
    requires i < |st.agendas|
    ensures Dropped(st, i, TimetagsOf({})) == st
  {
    WithoutNothing(st.agendas[i]);
    assert TimetagsOf({}) == {};
  }

  lemma SweepFacts(env: AgendaData, m: DefruleModule, i: nat, all: seq<Activation>, groups: seq<SalienceGroup>, j: nat,
                   gone: set<Activation>, start: Start)
    requires Sweeping(env, m, i, all, groups, j, gone, start) && j < |all|
    ensures env.Valid() && ModuleAt(env, i, m) && i < |start.st.agendas|
    ensures Visiting(m.acts, all, j) && (forall k :: 0 <= k < |m.acts| ==> m.acts[k] in all)
    ensures (forall g :: g in m.groups ==> g in groups) && (forall k :: 0 <= k < |m.groups| ==> m.groups[k] in groups)
    ensures env.on == start.on - gone && env.Abs() == Dropped(start.st, i, TimetagsOf(gone))
    ensures env.detached == start.detached && all[j] !in env.detached
    ensures env.matches == start.markers.Keys && MarkersOf(env.matches) == Cleared(start.markers, gone)
    ensures forall pm :: pm in env.matches && pm.marker == all[j] ==> pm == all[j].basis
    ensures forall x :: x in gone ==> x in all
    ensures all[j].next == if j + 1 == |all| then null else all[j + 1]
    ensures all[j] in env.on && all[j] in m.acts && all[j].theRule.whichModule == m
    ensures all[j].basis in env.matches && all[j].basis.marker == all[j]
    ensures forall x, y :: 0 <= x < y < |m.acts| ==> m.acts[x] != m.acts[y]
  {
    assert AgendaIn(m, env.Strategy, env.CurrentTimetag, env.on, env.groups);
    NextIsNext(m, all, j);
  }

  lemma SweepPast(env: AgendaData, m: DefruleModule, i: nat, all: seq<Activation>, groups: seq<SalienceGroup>, j: nat,
                  gone: set<Activation>, start: Start)
    requires Sweeping(env, m, i, all, groups, j, gone, start) && j < |all|
    ensures Sweeping(env, m, i, all, groups, j + 1, gone, start)
  {
    VisitNext(m.acts, all, j);
  }

  lemma GoneMore(before: State, i: nat, gone: set<Activation>, a: Activation)
    requires i < |before.agendas|
    ensures Dropped(Dropped(before, i, TimetagsOf(gone)), i, {a.timetag}) == Dropped(before, i, TimetagsOf(gone + {a}))
  {
    WithoutTwice(before.agendas[i], TimetagsOf(gone), {a.timetag});
    assert TimetagsOf(gone) + {a.timetag} == TimetagsOf(gone + {a});
  }

  lemma DroppedIsNext(st: State, i: nat, gone: set<nat>)
    requires i < |st.agendas|
    ensures Dropped(st, i, gone) == Next(st, Drop(i, gone))
  {
  }

  lemma ClearedMore(was: Markers, now: Markers, gone: set<Activation>, a: Activation)
    requires now == Cleared(was, gone) && a.basis in now && now[a.basis] == a
    requires forall pm :: pm in now && now[pm] == a ==> pm == a.basis
    ensures now[a.basis := null] == Cleared(was, gone + {a})
  {
  }

  lemma NoneCleared(was: Markers)
    ensures Cleared(was, {}) == was
  {
  }

  // Removes the activation the walk has reached.
  method SweepOff(env: AgendaData, m: DefruleModule, agendaPtr: Activation, ghost i: nat, ghost all: seq<Activation>,
                  ghost groups: seq<SalienceGroup>, ghost j: nat, ghost gone: set<Activation>,
                  ghost start: Start)
    requires Sweeping(env, m, i, all, groups, j, gone, start)
    requires j < |all| && all[j] == agendaPtr
    modifies env`NumberOfActivations, env`on, env`detached, env.matches`marker, m, all`prev, all`next, groups
    ensures Sweeping(env, m, i, all, groups, j + 1, gone + {agendaPtr}, start)
  {
    hide Agendas, Counted, Marked, Views, Without, Visiting, Cut, TimetagsOf, Dropped, Sweeping;
    SweepFacts(env, m, i, all, groups, j, gone, start);
    ghost var acts, now, markers := m.acts, env.Abs(), MarkersOf(env.matches);
    assert agendaPtr in all;
    ghost var i', p := RemoveLinked(env, m, agendaPtr, true);
    assert i' == i;
    VisitRemoved(acts, all, j, p);
    DroppedIsNext(now, i, {agendaPtr.timetag});
    GoneMore(start.st, i, gone, agendaPtr);
    assert MarkersOf(env.matches) == markers[agendaPtr.basis := null];
    ClearedMore(start.markers, markers, gone, agendaPtr);
    SweptOff(env, m, i, all, groups, j + 1, gone, agendaPtr, start);
  }

  lemma SweptOff(env: AgendaData, m: DefruleModule, i: nat, all: seq<Activation>, groups: seq<SalienceGroup>, j: nat,
                 gone: set<Activation>, a: Activation, start: Start)
    requires env.Valid() && ModuleAt(env, i, m) && i < |start.st.agendas|
    requires Visiting(m.acts, all, j)
    requires forall g :: g in m.groups ==> g in groups
    requires env.on == (start.on - gone) - {a} && env.detached == start.detached
    requires env.matches == start.markers.Keys && MarkersOf(env.matches) == Cleared(start.markers, gone + {a})
    requires env.Abs() == Dropped(start.st, i, TimetagsOf(gone + {a}))
    requires a in all && (forall x :: x in gone ==> x in all)
    ensures Sweeping(env, m, i, all, groups, j, gone + {a}, start)
  {
    hide Agendas, Counted, Marked, TimetagsOf, Dropped, Visiting;
    assert forall k :: 0 <= k < |m.groups| ==> m.groups[k] in m.groups;
    assert (start.on - gone) - {a} == start.on - (gone + {a});
  }

  ghost predicate OfRule(theRule: Defrule, rule: Defrule) {
    rule == theRule || rule in theRule.later
  }

  // Checks each disjunct of a rule in turn.
  method IsDisjunct(theRule: Defrule, rule: Defrule) returns (found: bool)
    requires theRule.Chained()
    ensures found <==> OfRule(theRule, rule)
  {
    var tempRule: Defrule? := theRule;
    while tempRule != null
      invariant tempRule != null ==> tempRule.Chained() && (OfRule(tempRule, rule) <==> OfRule(theRule, rule))
      invariant tempRule == null ==> !OfRule(theRule, rule)
      decreases if tempRule == null then 0 else 1 + |tempRule.later|
    {
      if rule == tempRule {
        return true;
      }
      tempRule := tempRule.disjunct;
    }
    return false;
  }

  // The activations of a rule among the first j of an agenda.
  ghost function OfRuleIn(theRule: Defrule, all: seq<Activation>, j: nat): (r: set<Activation>)
    requires j <= |all|
    ensures forall a :: a in r ==> a in all[..j] && OfRule(theRule, a.theRule)
    ensures forall a :: a in all[..j] && OfRule(theRule, a.theRule) ==> a in r
  {
    set a | a in all[..j] && OfRule(theRule, a.theRule)
  }

  lemma NoneOfRule(theRule: Defrule, all: seq<Activation>)
    ensures OfRuleIn(theRule, all, 0) == {}
  {
  }

  lemma AllOfRule(theRule: Defrule, all: seq<Activation>)
    ensures forall a :: a in OfRuleIn(theRule, all, |all|) <==> a in all && OfRule(theRule, a.theRule)
  {
    assert all[..|all|] == all;
  }

  lemma OfRuleNext(theRule: Defrule, all: seq<Activation>, j: nat)
    requires j < |all|
    ensures OfRuleIn(theRule, all, j + 1) ==
            if OfRule(theRule, all[j].theRule) then OfRuleIn(theRule, all, j) + {all[j]}
            else OfRuleIn(theRule, all, j)
  {
    assert all[..j + 1] == all[..j] + [all[j]];
  }

  lemma NextToVisit(env: AgendaData, m: DefruleModule, i: nat, all: seq<Activation>, groups: seq<SalienceGroup>, j: nat,
                    gone: set<Activation>, start: Start)
    requires Sweeping(env, m, i, all, groups, j, gone, start) && j < |all|
    ensures all[j].next == if j + 1 == |all| then null else all[j + 1]
  {
    SweepFacts(env, m, i, all, groups, j, gone, start);
  }

  lemma EndSweep(env: AgendaData, m: DefruleModule, i: nat, all: seq<Activation>, groups: seq<SalienceGroup>,
                 gone: set<Activation>, start: Start)
    requires Sweeping(env, m, i, all, groups, |all|, gone, start)
    ensures env.Valid() && ModuleAt(env, i, m) && i < |start.st.agendas|
    ensures env.on == start.on - gone && env.Abs() == Next(start.st, Drop(i, TimetagsOf(gone)))
    ensures env.detached == start.detached && env.matches == start.markers.Keys
    ensures MarkersOf(env.matches) == Cleared(start.markers, gone)
  {
  }

  /** Removes exactly the activations of a rule's disjuncts from its module's agenda; the rest keep
      their order. */
  method ClearRuleFromAgenda(env: AgendaData, theRule: Defrule) returns (ghost i: nat, ghost gone: set<Activation>)
    requires env.Valid() && theRule.whichModule in env.modules && theRule.Chained()
    modifies env`NumberOfActivations, env`on, env`detached, env.matches`marker, theRule.whichModule
    modifies theRule.whichModule.acts`prev, theRule.whichModule.acts`next, theRule.whichModule.groups
    ensures env.Valid() && ModuleAt(env, i, theRule.whichModule)
    ensures forall a :: a in gone <==> a in old(theRule.whichModule.acts) && OfRule(theRule, a.theRule)
    ensures env.on == old(env.on) - gone && env.detached == old(env.detached) && env.matches == old(env.matches)
    ensures MarkersOf(env.matches) == Cleared(old(MarkersOf(env.matches)), gone)
    ensures StepTo(old(env.Abs()), Drop(i, TimetagsOf(gone)), env.Abs())
  {
    hide Agendas, Counted, Marked, Views, Sweeping, OfRuleIn, OfRule, ModuleAt, TimetagsOf, Without;
    var m := theRule.whichModule;
    i := FindModule(env, m);
    ghost var all, groups, start := m.acts, m.groups, StartOf(env);
    StartSweep(env, m, i);
    var agendaPtr := m.agenda;
    ghost var j := 0;
    gone := {};
    NoneOfRule(theRule, all);
    while agendaPtr != null
      invariant j <= |all| && agendaPtr == if j == |all| then null else all[j]
      invariant gone == OfRuleIn(theRule, all, j)
      invariant Sweeping(env, m, i, all, groups, j, gone, start)
      decreases |all| - j
    {
      NextToVisit(env, m, i, all, groups, j, gone, start);
      OfRuleNext(theRule, all, j);
      var agendaNext := agendaPtr.next;
      var found := IsDisjunct(theRule, agendaPtr.theRule);
      if found {
        SweepOff(env, m, agendaPtr, i, all, groups, j, gone, start);
        gone := gone + {agendaPtr};
      } else {
        SweepPast(env, m, i, all, groups, j, gone, start);
      }
      agendaPtr, j := agendaNext, j + 1;
    }
    EndSweep(env, m, i, all, groups, gone, start);
    AllOfRule(theRule, all);
  }

  // With no activation left there is no group left.
  lemma NoActivationNoGroup(m: DefruleModule)
    requires m.Valid() && m.acts == []
    ensures m.groups == [] && m.groupings == null
  {
    if m.groups != [] {
      assert m.cuts[0] < m.cuts[0 + 1] by { assert m.groups[0] == m.groups[0]; }
    }
  }

  lemma SweptEmpty(env: AgendaData, m: DefruleModule, i: nat, all: seq<Activation>, groups: seq<SalienceGroup>,
                   gone: set<Activation>, start: Start)
    requires Sweeping(env, m, i, all, groups, |all|, gone, start)
    requires forall a :: a in all ==> a in gone
    ensures m.acts == [] && m.groups == [] && m.groupings == null
  {
    assert AgendaIn(m, env.Strategy, env.CurrentTimetag, env.on, env.groups);
    NoActivationNoGroup(m);
  }

  /** Removes every activation of a module.  Each removal keeps the groups in step, so the final loop
      finds no group left to free. */
  method RemoveAllActivations(env: AgendaData, m: DefruleModule) returns (ghost i: nat, ghost gone: set<Activation>)
    requires env.Valid() && m in env.modules
    modifies env`NumberOfActivations, env`on, env`detached, env.matches`marker, m, m.acts`prev, m.acts`next, m.groups
    ensures env.Valid() && ModuleAt(env, i, m)
    ensures m.acts == [] && m.groups == [] && m.agenda == null && m.groupings == null
    ensures forall a :: a in gone <==> a in old(m.acts)
    ensures env.on == old(env.on) - gone && env.detached == old(env.detached) && env.matches == old(env.matches)
    ensures MarkersOf(env.matches) == Cleared(old(MarkersOf(env.matches)), gone)
    ensures StepTo(old(env.Abs()), Drop(i, TimetagsOf(gone)), env.Abs())
  {
    hide Agendas, Counted, Marked, Views, Sweeping, ModuleAt, TimetagsOf, Without;
    i := FindModule(env, m);
    ghost var all, groups, start := m.acts, m.groups, StartOf(env);
    StartSweep(env, m, i);
    var theActivation := m.agenda;
    ghost var j := 0;
    gone := {};
    while theActivation != null
      invariant j <= |all| && theActivation == if j == |all| then null else all[j]
      invariant forall a :: a in gone <==> a in all[..j]
      invariant Sweeping(env, m, i, all, groups, j, gone, start)
      decreases |all| - j
    {
      NextToVisit(env, m, i, all, groups, j, gone, start);
      var tempPtr := theActivation.next;
      SweepOff(env, m, theActivation, i, all, groups, j, gone, start);
      assert all[..j + 1] == all[..j] + [all[j]];
      gone := gone + {theActivation};
      theActivation, j := tempPtr, j + 1;
    }
    assert all[..|all|] == all;
    SweptEmpty(env, m, i, all, groups, gone, start);
    EndSweep(env, m, i, all, groups, gone, start);
    EmptyAgenda(env, m);
    assert m.groupings == null;
  }

  lemma EmptyAgenda(env: AgendaData, m: DefruleModule)
    requires env.Valid() && m in env.modules && m.acts == []
    ensures m.agenda == null
  {
    assert AgendaIn(m, env.Strategy, env.CurrentTimetag, env.on, env.groups);
  }
}
