/** The agenda data of an environment: every module's agenda, the counters, and the links between
    activations and the partial matches they stem from. */
module AgendaEngine {
  import opened Ordering
  import opened AgendaSpec
  import opened AgendaHeap
  import opened AgendaPlacement
  import opened AgendaReorder

  datatype SalienceMode = WhenDefined | WhenActivated | EveryCycle

  // What evaluating a rule's salience expression came to.
  datatype Evaluation = EvaluationError | NotAnInteger | IntegerValue(value: int)

  const MAX_DEFRULE_SALIENCE := 10000
  const MIN_DEFRULE_SALIENCE := -10000

  /** Every agenda is well formed and sorted under the strategy.  The activations in `on` are exactly
      those on agendas, each on the agenda of its rule's module; all groups are among `groups`. */
  ghost predicate Agendas(ms: seq<DefruleModule>, s: Strategy, nextTag: nat, on: set<Activation>,
                          groups: set<SalienceGroup>)
    reads ms, on, groups
  {
    && (forall i, j :: 0 <= i < j < |ms| ==> ms[i] != ms[j])
    && (forall m :: m in ms ==> AgendaIn(m, s, nextTag, on, groups))
  }

  ghost predicate AgendaIn(m: DefruleModule, s: Strategy, nextTag: nat, on: set<Activation>, groups: set<SalienceGroup>)
    reads m, on, groups
  {
    && (forall a :: a in m.acts ==> a in on)
    && (forall a :: a in on && a.theRule.whichModule == m ==> a in m.acts)
    && (forall g :: g in m.groups ==> g in groups)
    && m.Valid()
    && AgendaOk(s, nextTag, m.view)
  }

  // The activations on agendas and those detached are counted together.
  ghost predicate Counted(n: nat, on: set<Activation>, detached: set<Activation>, ms: seq<DefruleModule>) {
    && n == |on| + |detached|
    && on !! detached
    && (forall a :: a in on ==> a.theRule.whichModule in ms)
  }

  // Activation basis and match marker are inverse to each other.
  ghost predicate Marked(on: set<Activation>, detached: set<Activation>, matches: set<PartialMatch>)
    reads matches`marker
  {
    && (forall a :: a in on ==> a.basis in matches && a.basis.marker == a)
    && (forall a :: a in detached ==> a.basis in matches)
    && (forall pm :: pm in matches && pm.marker != null ==>
        (pm.marker in on || pm.marker in detached) && pm.marker.basis == pm)
  }

  type Markers = map<PartialMatch, Activation?>

  ghost function MarkersOf(matches: set<PartialMatch>): (r: Markers)
    reads matches`marker
    ensures r.Keys == matches
    ensures forall pm :: pm in matches ==> r[pm] == pm.marker
  {
    map pm | pm in matches :: pm.marker
  }

  // No match points at the activations that are gone.
  ghost function Cleared(was: Markers, gone: set<Activation>): (r: Markers)
    ensures r.Keys == was.Keys
    ensures forall pm :: pm in was ==> r[pm] == if was[pm] in gone then null else was[pm]
  {
    map pm | pm in was :: if was[pm] in gone then null else was[pm]
  }

  class AgendaData {
    const modules: seq<DefruleModule>
    var NumberOfActivations: nat
    var CurrentTimetag: nat
    var SalienceEvaluation: SalienceMode
    var Strategy: Strategy

    // Activations on agendas, activations off the agenda while their rule fires, the partial
    // matches ever activated, and the salience groups.
    ghost var on: set<Activation>
    ghost var detached: set<Activation>
    ghost var matches: set<PartialMatch>
    ghost var groups: set<SalienceGroup>

    constructor (modules: seq<DefruleModule>)
      requires forall i, j :: 0 <= i < j < |modules| ==> modules[i] != modules[j]
      requires forall m :: m in modules ==> m.Valid() && m.acts == [] && m.view == [] && m.groups == []
      ensures this.modules == modules && Valid() && Abs() == Initial(|modules|)
      ensures on == detached == {} && matches == {} && SalienceEvaluation == WhenDefined
    {
      this.modules := modules;
      NumberOfActivations, CurrentTimetag, SalienceEvaluation, Strategy := 0, 0, WhenDefined, Depth;
      on, detached, matches, groups := {}, {}, {}, {};
      new;
      forall m | m in modules ensures AgendaIn(m, Strategy, 0, on, groups) {
      }
      assert Views(modules) == Initial(|modules|).agendas;
    }

    // Everything but the markers of the matches.
    ghost predicate Linked()
      reads this, modules, on, groups
    {
      && Agendas(modules, Strategy, CurrentTimetag, on, groups)
      && Counted(NumberOfActivations, on, detached, modules)
    }

    ghost predicate Valid()
      reads this, modules, on, groups, matches`marker
    {
      Linked() && Marked(on, detached, matches)
    }

    // ---------------------------------------------------------------- the abstract state

    ghost function Abs(): State
      reads this`Strategy, this`CurrentTimetag, modules`view
    {
      State(Strategy, CurrentTimetag, Views(modules))
    }
  }

  ghost function Views(ms: seq<DefruleModule>): (r: seq<seq<Act>>)
    reads ms`view
    ensures |r| == |ms|
    ensures forall i :: 0 <= i < |ms| ==> r[i] == ms[i].view
  {
    if ms == [] then [] else [ms[0].view] + Views(ms[1..])
  }

  // ---------------------------------------------------------------- salience

  // A C conversion from 64 to 32 bits.
  function TruncInt(v: int): (r: int)
    ensures -0x8000_0000 <= r < 0x8000_0000
    ensures (r - v) % 0x1_0000_0000 == 0
  {
    var low := v % 0x1_0000_0000;
    if low >= 0x8000_0000 then low - 0x1_0000_0000 else low
  }

  // t is what a signed 32-bit field keeps of v.
  ghost predicate KeptIn32(v: int, t: int) {
    -0x8000_0000 <= t < 0x8000_0000 && (t - v) % 0x1_0000_0000 == 0
  }

  predicate SalienceInRange(s: int) {
    MIN_DEFRULE_SALIENCE <= s <= MAX_DEFRULE_SALIENCE
  }

  // The salience a rule has after evaluation.
  function NewSalience(mode: SalienceMode, dynamicSalience: bool, current: int, value: Evaluation): (s: int)
    ensures SalienceInRange(current) ==> SalienceInRange(s)
  {
    if mode != WhenDefined && dynamicSalience && value.IntegerValue? && SalienceInRange(TruncInt(value.value))
    then TruncInt(value.value) else current
  }

  /** An integer salience is stored exactly if it is in range, and rejected (the old one kept)
      otherwise, except that a number whose low 32 bits look like a salience in range is taken for
      that salience: the source converts to 32 bits before it checks the range. */
  lemma SalienceTakenAsEvaluated(mode: SalienceMode, current: int, v: int)
    requires mode != WhenDefined && SalienceInRange(current)
    ensures NewSalience(mode, true, current, IntegerValue(v)) == (if -10000 <= v <= 10000 then v else current)
       <==> !(!SalienceInRange(v) && SalienceInRange(TruncInt(v)) && TruncInt(v) != current)
  {
    if SalienceInRange(v) {
      assert TruncInt(v) == v;
    }
  }

  // A value far out of range that is taken for salience 5.
  lemma TruncatedSalienceAccepted()
    ensures NewSalience(WhenActivated, true, 0, IntegerValue(0x1_0000_0005)) == 5
    ensures !SalienceInRange(0x1_0000_0005)
  {
    assert 0x1_0000_0005 % 0x1_0000_0000 == 5;
  }

  /** Saliences that are evaluated when defined, or are constants, or do not come to an integer, stay as they are. */
  lemma SalienceKept(mode: SalienceMode, dynamicSalience: bool, current: int, value: Evaluation)
    ensures mode == WhenDefined || !dynamicSalience || !value.IntegerValue? ==>
              NewSalience(mode, dynamicSalience, current, value) == current
    ensures NewSalience(EveryCycle, dynamicSalience, current, value) ==
            NewSalience(WhenActivated, dynamicSalience, current, value)
  {
  }

  /**
   * The salience of a rule is evaluated again unless the mode, the rule or the value stands against it; t is what 32
   * bits keep of the value.
   */
  method EvaluateSalience(mode: SalienceMode, rPtr: Defrule, value: Evaluation) returns (salience: int)
    modifies rPtr`salience
    ensures salience == rPtr.salience == NewSalience(mode, rPtr.dynamicSalience, old(rPtr.salience), value)
    ensures mode == WhenDefined || !rPtr.dynamicSalience || !value.IntegerValue? ==> salience == old(rPtr.salience)
    ensures mode != WhenDefined && rPtr.dynamicSalience && value.IntegerValue? ==>
              exists t :: KeptIn32(value.value, t) && salience == if -10000 <= t <= 10000 then t else old(rPtr.salience)
  {
    assert value.IntegerValue? ==> KeptIn32(value.value, TruncInt(value.value));
    if mode == WhenDefined {
      return rPtr.salience;
    }
    if !rPtr.dynamicSalience {
      return rPtr.salience;
    }
    if value == EvaluationError {
      return rPtr.salience;
    }
    if !value.IntegerValue? {
      return rPtr.salience;
    }
    salience := TruncInt(value.value);
    if salience > MAX_DEFRULE_SALIENCE || salience < MIN_DEFRULE_SALIENCE {
      return rPtr.salience;
    }
    rPtr.salience := salience;
  }

  // ---------------------------------------------------------------- adding

  lemma InsertOrderly(s: Strategy, m: DefruleModule, a: Activation)
    requires AgendaOk(s, a.timetag, m.view)
    ensures Orderly(s, m.view, a.View()) && AgendaOk(s, a.timetag + 1, Insert(s, m.view, a.View()))
  {
    assert NewTag(m.view, a.View());
    InsertOk(s, m.view, a.View());
  }

  // Places a new activation on its module's agenda; the other agendas stay as they are.
  method PlaceOnAgenda(s: Strategy, ghost ms: seq<DefruleModule>, m: DefruleModule, a: Activation,
                       ghost on: set<Activation>, ghost groups: set<SalienceGroup>, ghost on': set<Activation>)
    returns (ghost groups': set<SalienceGroup>)
    requires Agendas(ms, s, a.timetag, on, groups) && m in ms
    requires on' == on + {a} && a !in on && a.theRule.whichModule == m && a.prev == null
    modifies m, m.acts`prev, m.acts`next, a`prev, a`next, m.groups
    ensures Agendas(ms, s, a.timetag + 1, on', groups')
    ensures m.view == Insert(s, old(m.view), a.View())
    ensures forall o :: o in ms && o != m ==> o.view == old(o.view)
    ensures forall g :: g in groups' ==> g in groups || fresh(g)
  {
    hide Segmented, Falling, GroupsLinked, ActsLinked, Ends, Viewed, Insert, Orderly, Sorted, DistinctTags;
    assert AgendaIn(m, s, a.timetag, on, groups);
    InsertOrderly(s, m, a);
    PlaceOn(s, m, a);
    groups' := groups + set g | g in m.groups;
    assert AgendaIn(m, s, a.timetag + 1, on', groups');
    forall o | o in ms && o != m ensures AgendaIn(o, s, a.timetag + 1, on', groups') {
      assert old(AgendaIn(o, s, a.timetag, on, groups));
    }
  }
}
