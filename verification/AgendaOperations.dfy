/** The operations on an environment's agendas, each proved to be a step of the machine in module
    `AgendaSpec` and to keep the environment's invariant. */
module AgendaOperations {
  import opened Ordering
  import opened AgendaSpec
  import opened AgendaHeap
  import opened AgendaEngine
  import opened AgendaRemoval

  ghost predicate ModuleAt(env: AgendaData, i: nat, m: DefruleModule) {
    && i < |env.modules| && env.modules[i] == m
    && forall j :: 0 <= j < |env.modules| && j != i ==> env.modules[j] != m
  }

  lemma FindModule(env: AgendaData, m: DefruleModule) returns (i: nat)
    requires env.Valid() && m in env.modules
    ensures ModuleAt(env, i, m) && i < |env.modules| && env.modules[i] == m
  {
    i :| 0 <= i < |env.modules| && env.modules[i] == m;
  }

  // Only module i's agenda differs from the state before.
  lemma AbsUpdated(env: AgendaData, before: State, i: nat, m: DefruleModule)
    requires ModuleAt(env, i, m) && |before.agendas| == |env.modules|
    requires forall j :: 0 <= j < |env.modules| && j != i ==> env.modules[j].view == before.agendas[j]
    ensures Views(env.modules) == before.agendas[i := m.view]
  {
  }

  // ---------------------------------------------------------------- adding

  method MarkBasis(binds: PartialMatch, a: Activation, ghost on: set<Activation>, ghost detached: set<Activation>,
                   ghost matches: set<PartialMatch>, ghost on': set<Activation>, ghost matches': set<PartialMatch>)
    requires Marked(on, detached, matches) && binds.marker == null && a.basis == binds
    requires on' == on + {a} && matches' == matches + {binds}
    modifies binds`marker
    ensures binds.marker == a && Marked(on', detached, matches')
  {
    binds.marker := a;
  }

  // The part of AddActivation outside the environment record.
  method CreateAndPlace(s: Strategy, mode: SalienceMode, timetag: nat, theRule: Defrule, binds: PartialMatch,
                        value: Evaluation, randomID: int, ghost ms: seq<DefruleModule>, ghost n: nat,
                        ghost on: set<Activation>, ghost detached: set<Activation>,
                        ghost groups: set<SalienceGroup>)
    returns (a: Activation, ghost on': set<Activation>, ghost groups': set<SalienceGroup>)
    requires Agendas(ms, s, timetag, on, groups) && Counted(n, on, detached, ms)
    requires theRule.whichModule in ms
    modifies theRule`salience, theRule.whichModule, theRule.whichModule.acts`prev, theRule.whichModule.acts`next
    modifies theRule.whichModule.groups
    ensures on' == on + {a}
    ensures Agendas(ms, s, timetag + 1, on', groups') && Counted(n + 1, on', detached, ms)
    ensures fresh(a) && a.theRule == theRule && a.basis == binds && a.timetag == timetag && a.randomID == randomID
    ensures a.salience == theRule.salience == NewSalience(mode, theRule.dynamicSalience, old(theRule.salience), value)
    ensures theRule.whichModule.view == Insert(s, old(theRule.whichModule.view), a.View())
    ensures forall o :: o in ms && o != theRule.whichModule ==> o.view == old(o.view)
    ensures forall g :: g in groups' ==> g in groups || fresh(g)
  {
    hide Agendas, Insert, Counted, NewSalience;
    var salience := EvaluateSalience(mode, theRule, value);
    a := new Activation(theRule, binds, timetag, salience, randomID);
    on' := on + {a};
    CountedAdd(n, on, detached, ms, a, on');
    groups' := PlaceOnAgenda(s, ms, theRule.whichModule, a, on, groups, on');
  }

  method RecordAdded(env: AgendaData, ghost on: set<Activation>, ghost matches: set<PartialMatch>,
                     ghost groups: set<SalienceGroup>)
    requires Agendas(env.modules, env.Strategy, env.CurrentTimetag + 1, on, groups)
    requires Counted(env.NumberOfActivations + 1, on, env.detached, env.modules)
    requires Marked(on, env.detached, matches)
    modifies env`NumberOfActivations, env`CurrentTimetag, env`on, env`matches, env`groups
    ensures env.Valid()
    ensures env.on == on && env.detached == old(env.detached) && env.matches == matches && env.groups == groups
    ensures env.Strategy == old(env.Strategy) && env.SalienceEvaluation == old(env.SalienceEvaluation)
    ensures env.NumberOfActivations == old(env.NumberOfActivations) + 1 &&
              env.CurrentTimetag == old(env.CurrentTimetag) + 1
  {
    hide Agendas, Counted, Marked;
    env.CurrentTimetag := env.CurrentTimetag + 1;
    env.NumberOfActivations := env.NumberOfActivations + 1;
    env.on, env.matches, env.groups := on, matches, groups;
  }

  /** Creates an activation for a partial match, with the next time tag, and places it. */
  method AddActivation(env: AgendaData, theRule: Defrule, binds: PartialMatch, value: Evaluation, randomID: int)
    returns (newActivation: Activation, ghost i: nat)
    requires env.Valid() && theRule.whichModule in env.modules && binds.marker == null
    modifies env`NumberOfActivations, env`CurrentTimetag, env`on, env`matches, env`groups, theRule`salience
    modifies binds`marker, theRule.whichModule, theRule.whichModule.acts`prev, theRule.whichModule.acts`next
    modifies theRule.whichModule.groups
    ensures env.Valid() && ModuleAt(env, i, theRule.whichModule)
    ensures StepTo(old(env.Abs()), Add(i, newActivation.salience, theRule.complexity, randomID, binds.binds), env.Abs())
    ensures newActivation.salience == theRule.salience ==
            NewSalience(env.SalienceEvaluation, theRule.dynamicSalience, old(theRule.salience), value)
    ensures fresh(newActivation) && newActivation.theRule == theRule && newActivation.basis == binds
    ensures newActivation.timetag == old(env.CurrentTimetag) && newActivation.randomID == randomID
    ensures binds.marker == newActivation
    ensures env.on == old(env.on) + {newActivation} && env.detached == old(env.detached)
    ensures env.matches == old(env.matches) + {binds}
    ensures env.SalienceEvaluation == old(env.SalienceEvaluation)
    ensures env.NumberOfActivations == old(env.NumberOfActivations) + 1
    ensures forall g :: g in env.groups ==> g in old(env.groups) || fresh(g)
  {
    hide Agendas, Insert, Counted, Marked, Views, NewSalience, ModuleAt;
    i := FindModule(env, theRule.whichModule);
    ghost var before := env.Abs();
    ghost var on, groups;
    newActivation, on, groups :=
      CreateAndPlace(env.Strategy, env.SalienceEvaluation, env.CurrentTimetag, theRule, binds, value, randomID,
                     env.modules, env.NumberOfActivations, env.on, env.detached, env.groups);
    ghost var matches := env.matches + {binds};
    MarkBasis(binds, newActivation, env.on, env.detached, env.matches, on, matches);
    AbsUpdated(env, before, i, theRule.whichModule);
    RecordAdded(env, on, matches, groups);
  }

  lemma CountedAdd(n: nat, on: set<Activation>, detached: set<Activation>, ms: seq<DefruleModule>, a: Activation,
                   on': set<Activation>)
    requires Counted(n, on, detached, ms) && a !in on && a !in detached && a.theRule.whichModule in ms
    requires on' == on + {a}
    ensures Counted(n + 1, on', detached, ms)
  {
  }

  // ---------------------------------------------------------------- removing and detaching

  lemma CutMembers(s: seq<Activation>, p: nat)
    requires p < |s| && forall i, j :: 0 <= i < j < |s| ==> s[i] != s[j]
    ensures forall y :: y in Cut(s, p) <==> y in s && y != s[p]
  {
    var r := Cut(s, p);
    forall y | y in s && y != s[p] ensures y in r {
      var i :| 0 <= i < |s| && s[i] == y;
      assert r[if i < p then i else i - 1] == y;
    }
  }

  lemma {:induction false} WithoutAbsent(q: seq<Act>, t: nat)
    requires forall i :: 0 <= i < |q| ==> q[i].timetag != t
    ensures Without(q, {t}) == q
  {
    if q != [] {
      WithoutAbsent(q[..|q| - 1], t);
    }
  }

  // Unlinking position p drops exactly the activation with its time tag.
  lemma {:induction false} CutIsWithout(q: seq<Act>, p: nat)
    requires p < |q| && DistinctTags(q)
    ensures Cut(q, p) == Without(q, {q[p].timetag})
  {
    var n := |q| - 1;
    if p == n {
      WithoutAbsent(q[..n], q[p].timetag);
    } else {
      CutIsWithout(q[..n], p);
      assert Cut(q, p) == Cut(q[..n], p) + [q[n]];
    }
  }

  // The position of an activation on an agenda.
  lemma FindPosition(m: DefruleModule, a: Activation) returns (p: nat)
    requires m.Valid() && a in m.acts
    ensures p < |m.acts| == |m.view| && m.acts[p] == a && m.view[p] == a.View()
    ensures forall y :: y in Cut(m.acts, p) <==> y in m.acts && y != a
  {
    p :| 0 <= p < |m.acts| && m.acts[p] == a;
    CutMembers(m.acts, p);
  }

  lemma WithoutOne(s: Strategy, nextTag: nat, q: seq<Act>, p: nat)
    requires AgendaOk(s, nextTag, q) && p < |q|
    ensures Cut(q, p) == Without(q, {q[p].timetag}) && AgendaOk(s, nextTag, Cut(q, p))
  {
    CutIsWithout(q, p);
    WithoutOk(s, nextTag, q, {q[p].timetag});
  }

  // Takes an activation off its agenda; the other agendas stay as they are.
  method TakeOffAgenda(ghost s: Strategy, ghost nextTag: nat, ghost ms: seq<DefruleModule>, m: DefruleModule,
                       a: Activation, detaching: bool, ghost on: set<Activation>, ghost groups: set<SalienceGroup>,
                       ghost on': set<Activation>)
    returns (ghost p: nat)
    requires Agendas(ms, s, nextTag, on, groups) && m in ms
    requires a in on && a.theRule.whichModule == m && on' == on - {a}
    modifies m, m.acts`prev, m.acts`next, m.groups
    ensures Agendas(ms, s, nextTag, on', groups)
    ensures m.view == Without(old(m.view), {a.timetag})
    ensures forall o :: o in ms && o != m ==> o.view == old(o.view)
    ensures forall g :: g in m.groups ==> g in old(m.groups)
    ensures p < |old(m.acts)| && old(m.acts)[p] == a && m.acts == Cut(old(m.acts), p)
    ensures detaching ==> a.prev == null && a.next == null
    ensures !detaching ==> a.next == old(a.next)
  {
    hide Segmented, Falling, GroupsLinked, ActsLinked, Ends, Viewed, Sorted, DistinctTags, Without, Cut;
    assert AgendaIn(m, s, nextTag, on, groups);
    p := FindPosition(m, a);
    WithoutOne(s, nextTag, m.view, p);
    if detaching {
      TakeOffDetached(m, a, p);
    } else {
      TakeOff(m, a, p);
    }
    assert AgendaIn(m, s, nextTag, on', groups);
    forall o | o in ms && o != m ensures AgendaIn(o, s, nextTag, on', groups) {
      assert old(AgendaIn(o, s, nextTag, on, groups));
    }
  }
}
