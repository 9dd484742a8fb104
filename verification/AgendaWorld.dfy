/** All that the agenda commands act on, as one value, and what adding an activation does to it. */
module AgendaWorld {
  import opened AgendaSpec
  import opened AgendaHeap
  import opened AgendaEngine
  import opened AgendaOperations
  import opened AgendaRefresh

  type Memory = seq<seq<PartialMatch>>

  /**
   * The agendas and the counter, the salience mode, which activations are on an agenda and which are detached (in the
   * order in which they were detached), the markers of the matches, and the saliences and memories of the rules.
   */
  datatype World = World(
    st: State, mode: SalienceMode, on: set<Activation>, firing: seq<Activation>, markers: Markers,
    saliences: map<Defrule, int>, memories: map<Defrule, Memory>)

  ghost function MemoriesOf(rules: set<Defrule>): (r: map<Defrule, Memory>)
    reads rules`leftMemory
    ensures r.Keys == rules && forall d :: d in rules ==> r[d] == d.leftMemory
  {
    map d | d in rules :: d.leftMemory
  }

  ghost function WorldOf(env: AgendaData, firing: seq<Activation>, rules: set<Defrule>,
                         bases: set<PartialMatch>): (w: World)
    reads env, env.modules`view, bases`marker, rules`salience, rules`leftMemory
    ensures w.markers == MarkersOf(bases) && w.saliences == SaliencesOf(rules) && w.memories == MemoriesOf(rules)
    ensures w.on == env.on && w.firing == firing && w.mode == env.SalienceEvaluation && w.st == env.Abs()
  {
    World(env.Abs(), env.SalienceEvaluation, env.on, firing, MarkersOf(bases), SaliencesOf(rules), MemoriesOf(rules))
  }

  // The place of a module.
  ghost function IndexIn(ms: seq<DefruleModule>, m: DefruleModule): (i: nat)
    requires m in ms
    ensures i < |ms| && ms[i] == m
  {
    if ms[0] == m then 0 else 1 + IndexIn(ms[1..], m)
  }

  // ---------------------------------------------------------------- adding

  datatype Request = Request(rule: Defrule, basis: PartialMatch, value: Evaluation, randomID: int)

  // The match of the request has no activation.
  ghost predicate Bare(ms: seq<DefruleModule>, w: World, q: Request) {
    && q.rule in w.saliences && q.rule.whichModule in ms && |w.st.agendas| == |ms|
    && q.basis in w.markers && w.markers[q.basis] == null
  }

  // The activation that a request makes.
  ghost predicate MadeFor(w: World, q: Request, a: Activation?) {
    && a != null && a !in w.on && a !in w.firing && a.theRule == q.rule && a.basis == q.basis
    && a.timetag == w.st.nextTag && a.randomID == q.randomID
  }

  // The world with an activation more: its salience is that of its rule, evaluated now.
  ghost function Added(ms: seq<DefruleModule>, w: World, q: Request, a: Activation): World
    requires Bare(ms, w, q)
  {
    var v := NewSalience(w.mode, q.rule.dynamicSalience, w.saliences[q.rule], q.value);
    var step := Add(IndexIn(ms, q.rule.whichModule), v, q.rule.complexity, q.randomID, q.basis.binds);
    w.(st := Next(w.st, step), on := w.on + {a}, markers := w.markers[q.basis := a],
       saliences := w.saliences[q.rule := v])
  }

  // The activation made is the one its match points at in the end.
  ghost function AddedNow(ms: seq<DefruleModule>, w: World, q: Request, now: Markers): World {
    if Bare(ms, w, q) && q.basis in now && MadeFor(w, q, now[q.basis]) then Added(ms, w, q, now[q.basis]) else w
  }

  ghost predicate Made(ms: seq<DefruleModule>, w: World, q: Request, now: Markers) {
    Bare(ms, w, q) ==> q.basis in now && MadeFor(w, q, now[q.basis])
  }

  // A request gives a match without an activation one, and does nothing otherwise.
  ghost predicate AddEffect(ms: seq<DefruleModule>, w: World, q: Request, w': World) {
    Made(ms, w, q, w'.markers) && w' == AddedNow(ms, w, q, w'.markers)
  }

  // The same for one request after the other.
  ghost predicate AddsEffect(ms: seq<DefruleModule>, w: World, qs: seq<Request>, w': World)
    decreases |qs|
  {
    if qs == [] then w' == w
    else
      Made(ms, w, qs[0], w'.markers) && AddsEffect(ms, AddedNow(ms, w, qs[0], w'.markers), qs[1..], w')
  }

  // Later requests leave a marker that is set.
  lemma {:induction false} SetStays(ms: seq<DefruleModule>, w: World, qs: seq<Request>, w': World, pm: PartialMatch)
    requires AddsEffect(ms, w, qs, w') && pm in w.markers && w.markers[pm] != null
    ensures pm in w'.markers && w'.markers[pm] == w.markers[pm]
    decreases |qs|
  {
    if qs != [] {
      SetStays(ms, AddedNow(ms, w, qs[0], w'.markers), qs[1..], w', pm);
    }
  }

  /** One more request after several. */
  lemma {:induction false} AddsThenAdd(ms: seq<DefruleModule>, w: World, qs: seq<Request>, mid: World, q: Request,
                                       w': World)
    requires AddsEffect(ms, w, qs, mid) && AddEffect(ms, mid, q, w')
    ensures AddsEffect(ms, w, qs + [q], w')
    decreases |qs|
  {
    hide Next;
    if qs == [] {
      assert qs + [q] == [q] && [q][1..] == [];
    } else {
      assert (qs + [q])[0] == qs[0] && (qs + [q])[1..] == qs[1..] + [q];
      assert AddedNow(ms, w, qs[0], mid.markers) == AddedNow(ms, w, qs[0], w'.markers);
      AddsThenAdd(ms, AddedNow(ms, w, qs[0], mid.markers), qs[1..], mid, q, w');
    }
  }

  /** Gives a match an activation unless it has one; see AddEffect. */
  method AddUnlessMarked(env: AgendaData, q: Request, ghost firing: seq<Activation>, ghost rules: set<Defrule>,
                         ghost bases: set<PartialMatch>)
    returns (ghost made: set<Activation>)
    requires env.Valid() && q.rule.whichModule in env.modules && q.rule in rules && q.basis in bases
    modifies env`NumberOfActivations, env`CurrentTimetag, env`on, env`matches, env`groups, q.rule`salience
    modifies q.basis`marker, q.rule.whichModule, q.rule.whichModule.acts`prev, q.rule.whichModule.acts`next
    modifies q.rule.whichModule.groups
    ensures env.Valid() && env.on == old(env.on) + made && env.detached == old(env.detached) && fresh(made)
    ensures env.matches == old(env.matches) + if old(q.basis.marker) == null then {q.basis} else {}
    ensures forall a :: a in made ==> a.theRule == q.rule
    ensures made == if old(q.basis.marker) == null && q.basis.marker != null then {q.basis.marker} else {}
    ensures old(q.basis.marker) != null ==> env.Abs() == old(env.Abs()) && q.basis.marker == old(q.basis.marker)
    ensures old(q.basis.marker) != null ==> env.NumberOfActivations == old(env.NumberOfActivations)
    ensures q.basis.marker != null && (old(q.basis.marker) == null ==> q.basis.marker.basis == q.basis)
    ensures forall g :: g in env.groups ==> g in old(env.groups) || fresh(g)
    ensures AddEffect(env.modules, old(WorldOf(env, firing, rules, bases)), q, WorldOf(env, firing, rules, bases))
  {
    hide AgendaData.Valid, AgendaData.Abs, NewSalience, StepTo, ModuleAt, Next;
    ghost var w := WorldOf(env, firing, rules, bases);
    made := {};
    if q.basis.marker == null {
      ShowsModules(env);
      var a, i := AddActivation(env, q.rule, q.basis, q.value, q.randomID);
      made := {a};
      AddIsEffect(env, w, q, a, i, firing, rules, bases);
    } else {
      assert WorldOf(env, firing, rules, bases) == w;
    }
  }

  lemma ShowsModules(env: AgendaData)
    ensures |env.Abs().agendas| == |env.modules| && env.Abs().nextTag == env.CurrentTimetag
  {
  }

  lemma AddIsEffect(env: AgendaData, w: World, q: Request, a: Activation, i: nat, firing: seq<Activation>,
                    rules: set<Defrule>, bases: set<PartialMatch>)
    requires Bare(env.modules, w, q) && MadeFor(w, q, a) && ModuleAt(env, i, q.rule.whichModule)
    requires var v := NewSalience(w.mode, q.rule.dynamicSalience, w.saliences[q.rule], q.value);
             && q.rule.salience == v
             && StepTo(w.st, Add(i, v, q.rule.complexity, q.randomID, q.basis.binds), env.Abs())
    requires env.on == w.on + {a} && env.SalienceEvaluation == w.mode && firing == w.firing
    requires MarkersOf(bases) == w.markers[q.basis := a] && SaliencesOf(rules) == w.saliences[q.rule := q.rule.salience]
    requires MemoriesOf(rules) == w.memories
    ensures AddEffect(env.modules, w, q, WorldOf(env, firing, rules, bases))
  {
    hide AgendaData.Abs, NewSalience, Next;
  }
}
