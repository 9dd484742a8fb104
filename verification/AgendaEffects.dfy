/** What each agenda command does: a relation between worlds that leaves open only which new object is made. */
module AgendaEffects {
  import opened Options
  import opened Ordering
  import opened AgendaSpec
  import opened AgendaHeap
  import opened AgendaEngine
  import opened AgendaCommands
  import opened AgendaSweep
  import opened AgendaRefresh
  import opened AgendaWorld
  import opened AgendaRequests
  import opened AgendaRuleRefresh

  /**
   * What can be asked of the agendas. Modules and activations on agendas are named by their place, detached
   * activations by the order in which they were detached. A command that names something that is not there is passed
   * over, and so is one that would leave a match pointing at a freed activation.
   */
  datatype Command =
    | AddFor(q: Request)
    | RemoveAt(m: nat, p: nat)
    | RetractMatch(basis: PartialMatch)
    | DetachFirst(m: nat)
    | ReleaseMatch(k: nat)
    | Free(k: nat, updateLinks: bool)
    | ClearRule(rule: Defrule)
    | RemoveAll(m: nat)
    | ReorderAgendas(which: Option<nat>)
    | RefreshAgendas(which: Option<nat>, values: nat -> nat -> Evaluation)
    | RefreshRule(rule: Defrule, evaluations: nat -> Evaluation, randoms: nat -> int)
    | StoreMatches(rule: Defrule, memory: Memory)
    | ChangeStrategy(strategy: Strategy)
    | ChangeMode(mode: SalienceMode)
    | ResetCounter

  // ---------------------------------------------------------------- who stands where

  ghost predicate Stands(on: set<Activation>, m: DefruleModule, tag: nat, a: Activation) {
    a in on && a.theRule.whichModule == m && a.timetag == tag
  }

  ghost predicate SomeStands(on: set<Activation>, m: DefruleModule, tag: nat) {
    exists a :: a in on && Stands(on, m, tag, a)
  }

  // Every entry of the agenda is that of an activation.
  ghost predicate Shown(on: set<Activation>, m: DefruleModule, view: seq<Act>) {
    forall p :: 0 <= p < |view| ==> SomeStands(on, m, view[p].timetag)
  }

  // Within a module a tag names one activation.
  ghost predicate TagsApart(on: set<Activation>) {
    forall a, b :: a in on && b in on && a.timetag == b.timetag && a.theRule.whichModule == b.theRule.whichModule
                   ==> a == b
  }

  ghost predicate AllApart(ms: seq<DefruleModule>) {
    forall i, j :: 0 <= i < j < |ms| ==> ms[i] != ms[j]
  }

  ghost function ActAt(on: set<Activation>, m: DefruleModule, tag: nat): (a: Activation)
    requires SomeStands(on, m, tag)
    ensures Stands(on, m, tag, a)
  {
    var a :| a in on && Stands(on, m, tag, a);
    a
  }

  // The activations of an agenda in their order.
  ghost function Objects(on: set<Activation>, m: DefruleModule, view: seq<Act>): (r: seq<Activation>)
    requires Shown(on, m, view)
    ensures |r| == |view| && forall p :: 0 <= p < |view| ==> Stands(on, m, view[p].timetag, r[p])
  {
    seq(|view|, p requires 0 <= p < |view| => ActAt(on, m, view[p].timetag))
  }

  // The activations of a module.
  ghost function OfModule(on: set<Activation>, m: DefruleModule): set<Activation> {
    set a | a in on && a.theRule.whichModule == m
  }

  /** A world that the agendas can be in. */
  ghost predicate Sound(ms: seq<DefruleModule>, w: World) {
    && |w.st.agendas| == |ms| && AllApart(ms) && TagsApart(w.on)
    && (forall k :: 0 <= k < |ms| ==> Shown(w.on, ms[k], w.st.agendas[k]) && DistinctTags(w.st.agendas[k]))
    && (forall a :: a in w.on ==> a.theRule.whichModule in ms && a.theRule in w.saliences)
    && (forall r :: r in w.saliences ==> r.whichModule in ms && r in w.memories)
    && (forall a :: a in w.firing ==> a.basis in w.markers && a.theRule in w.saliences)
  }

  // ---------------------------------------------------------------- effects

  // The activations that are gone leave their agenda, and their matches point at nothing.
  ghost function Removed(w: World, m: nat, gone: set<Activation>): World
    requires m < |w.st.agendas|
  {
    w.(st := Next(w.st, Drop(m, TimetagsOf(gone))), on := w.on - gone, markers := Cleared(w.markers, gone))
  }

  // The activation leaves its agenda and is kept; its match still points at it.
  ghost function Detached(w: World, m: nat, a: Activation): World
    requires m < |w.st.agendas|
  {
    w.(st := Next(w.st, Drop(m, {a.timetag})), on := w.on - {a}, firing := w.firing + [a])
  }

  ghost function Released(w: World, k: nat): World {
    if k < |w.firing| && w.firing[k].basis in w.markers && w.markers[w.firing[k].basis] == w.firing[k]
    then w.(markers := w.markers[w.firing[k].basis := null])
    else w
  }

  ghost function Freed(w: World, k: nat, updateLinks: bool): World {
    if k < |w.firing| && w.firing[k].basis in w.markers &&
       MarkerFits(w.markers[w.firing[k].basis], w.firing[k], w.on, updateLinks)
    then
      var markers := if updateLinks then w.markers[w.firing[k].basis := null] else w.markers;
      w.(firing := w.firing[..k] + w.firing[k + 1..], markers := markers)
    else w
  }

  // Which agendas a refresh is for, and what its evaluations come to.
  ghost predicate Chosen(which: Option<nat>, k: nat) {
    which.None? || which.value == k
  }

  ghost function ValuesFor(which: Option<nat>, values: nat -> nat -> Evaluation, k: nat): nat -> Evaluation {
    if which.None? then values(k) else values(0)
  }

  ghost function RulesAt(ms: seq<DefruleModule>, w: World, k: nat): (r: seq<Defrule>)
    requires Sound(ms, w) && k < |ms|
    ensures forall d :: d in r ==> d in w.saliences && d.whichModule == ms[k]
  {
    RulesOf(Objects(w.on, ms[k], w.st.agendas[k]))
  }

  // The saliences the activations of an agenda get.
  ghost function SaliencesAt(ms: seq<DefruleModule>, w: World, k: nat, values: nat -> Evaluation): seq<int>
    requires Sound(ms, w) && k < |ms|
  {
    Evaluated(RulesAt(ms, w, k), 0, w.saliences, values)
  }

  ghost function AllSaliences(ms: seq<DefruleModule>, w: World, values: nat -> nat -> Evaluation): (r: seq<seq<int>>)
    requires Sound(ms, w)
    ensures |r| == |ms| && forall k :: 0 <= k < |ms| ==> r[k] == SaliencesAt(ms, w, k, values(k))
  {
    seq(|ms|, k requires 0 <= k < |ms| => SaliencesAt(ms, w, k, values(k)))
  }

  // The saliences the rules have afterwards: no agenda sees what was evaluated for another.
  ghost function SaliencesAfter(ms: seq<DefruleModule>, w: World, which: Option<nat>,
                                values: nat -> nat -> Evaluation): (r: map<Defrule, int>)
    requires Sound(ms, w)
  {
    map d | d in w.saliences ::
      var k := IndexIn(ms, d.whichModule);
      if Chosen(which, k) then Reevaluated(RulesAt(ms, w, k), 0, w.saliences, ValuesFor(which, values, k))[d]
      else w.saliences[d]
  }

  ghost function RefreshingSteps(ms: seq<DefruleModule>, w: World, which: Option<nat>,
                                 values: nat -> nat -> Evaluation): seq<Step>
    requires Sound(ms, w)
  {
    if which.None? then RefreshSteps(AllSaliences(ms, w, values))
    else if which.value < |ms| then [RefreshAgenda(which.value, SaliencesAt(ms, w, which.value, values(0)))]
    else []
  }

  ghost function ReorderingSteps(ms: seq<DefruleModule>, which: Option<nat>): seq<Step> {
    if which.None? then ReorderSteps(|ms|) else if which.value < |ms| then [Reorder(which.value)] else []
  }

  ghost function MemoriesFor(rules: seq<Defrule>, memories: map<Defrule, Memory>): (r: seq<Memory>)
    requires forall d :: d in rules ==> d in memories
    ensures |r| == |rules| && forall k :: 0 <= k < |r| ==> r[k] == memories[rules[k]]
  {
    seq(|rules|, k requires 0 <= k < |rules| => memories[rules[k]])
  }

  // The requests a rule's refresh comes to: one for every complete match its disjuncts' memories hold, in order.
  ghost function RefreshesOf(w: World, rule: Defrule, values: nat -> Evaluation, randoms: nat -> int): seq<Request> {
    var rules := Disjuncts(rule);
    if forall d :: d in rules ==> d in w.memories
    then RefreshRequests(rules, MemoriesFor(rules, w.memories), values, randoms)
    else []
  }

  /** One world leads to the other by a command. */
  ghost predicate Effect(ms: seq<DefruleModule>, w: World, c: Command, w': World)
    requires Sound(ms, w)
  {
    match c
    case AddFor(q) => AddEffect(ms, w, q, w')
    case RemoveAt(m, p) =>
      w' == if m < |ms| && p < |w.st.agendas[m]| then Removed(w, m, {Objects(w.on, ms[m], w.st.agendas[m])[p]}) else w
    case RetractMatch(basis) =>
      w' == if basis in w.markers && w.markers[basis] != null && w.markers[basis] in w.on
            then Removed(w, IndexIn(ms, w.markers[basis].theRule.whichModule), {w.markers[basis]})
            else w
    case DetachFirst(m) =>
      w' == if m < |ms| && w.st.agendas[m] != [] then Detached(w, m, Objects(w.on, ms[m], w.st.agendas[m])[0]) else w
    case ReleaseMatch(k) => w' == Released(w, k)
    case Free(k, updateLinks) => w' == Freed(w, k, updateLinks)
    case ClearRule(rule) =>
      w' == if rule.whichModule in ms
            then
              Removed(w, IndexIn(ms, rule.whichModule),
                      set a | a in OfModule(w.on, rule.whichModule) && OfRule(rule, a.theRule))
            else w
    case RemoveAll(m) => w' == if m < |ms| then Removed(w, m, OfModule(w.on, ms[m])) else w
    case ReorderAgendas(which) => w' == w.(st := w'.st) && Run(w.st, ReorderingSteps(ms, which), w'.st)
    case RefreshAgendas(which, values) =>
      && w' == w.(st := w'.st, saliences := SaliencesAfter(ms, w, which, values))
      && Run(w.st, RefreshingSteps(ms, w, which, values), w'.st)
    case RefreshRule(rule, values, randoms) => AddsEffect(ms, w, RefreshesOf(w, rule, values, randoms), w')
    case StoreMatches(rule, memory) =>
      w' == if rule in w.memories then w.(memories := w.memories[rule := memory]) else w
    case ChangeStrategy(strategy) => w' == w.(st := Next(w.st, SetStrategy(strategy)))
    case ChangeMode(mode) => w' == w.(mode := mode)
    case ResetCounter => w' == if Enabled(w.st, ResetTags) then w.(st := Next(w.st, ResetTags)) else w
  }

  // ---------------------------------------------------------------- evaluating saliences

  lemma {:induction false} EvaluatedAgree(rules: seq<Defrule>, i: nat, cur: map<Defrule, int>, all: map<Defrule, int>,
                                          values: nat -> Evaluation)
    requires i <= |rules| && forall r :: r in rules ==> r in cur && r in all && cur[r] == all[r]
    ensures Evaluated(rules, i, cur, values) == Evaluated(rules, i, all, values)
    ensures forall r :: r in rules ==> Reevaluated(rules, i, cur, values)[r] == Reevaluated(rules, i, all, values)[r]
    decreases |rules| - i
  {
    hide NewSalience;
    if i < |rules| {
      var v := NewSalience(WhenActivated, rules[i].dynamicSalience, cur[rules[i]], values(i));
      EvaluatedAgree(rules, i + 1, cur[rules[i] := v], all[rules[i] := v], values);
    }
  }

  // A rule with no activation on the agenda keeps its salience.
  lemma {:induction false} ReevaluatedOther(rules: seq<Defrule>, i: nat, cur: map<Defrule, int>,
                                            values: nat -> Evaluation, r: Defrule)
    requires i <= |rules| && (forall d :: d in rules ==> d in cur) && r in cur && r !in rules
    ensures Reevaluated(rules, i, cur, values)[r] == cur[r]
    decreases |rules| - i
  {
    hide NewSalience;
    if i < |rules| {
      var v := NewSalience(WhenActivated, rules[i].dynamicSalience, cur[rules[i]], values(i));
      ReevaluatedOther(rules, i + 1, cur[rules[i] := v], values, r);
    }
  }

  /**
   * Each activation gets what its own evaluation comes to, seen from the salience that the one before it of the same
   * rule got, or that the rule had at the start.
   */
  lemma {:induction false} EvaluatedAt(rules: seq<Defrule>, i: nat, cur: map<Defrule, int>, values: nat -> Evaluation,
                                       k: nat, before: Option<nat>)
    requires i <= k < |rules| && forall d :: d in rules ==> d in cur
    requires before.Some? ==> i <= before.value < k && rules[before.value] == rules[k]
    requires forall j :: (if before.Some? then before.value + 1 else i) <= j < k ==> rules[j] != rules[k]
    ensures var e := Evaluated(rules, i, cur, values);
            && |e| == |rules| - i
            && var was := if before.Some? then e[before.value - i] else cur[rules[k]];
               e[k - i] == NewSalience(EveryCycle, rules[k].dynamicSalience, was, values(k))
    decreases |rules| - i
  {
    hide NewSalience;
    var v := NewSalience(WhenActivated, rules[i].dynamicSalience, cur[rules[i]], values(i));
    SalienceKept(WhenActivated, rules[i].dynamicSalience, cur[rules[i]], values(i));
    var next := cur[rules[i] := v];
    if i < k {
      EvaluatedAt(rules, i + 1, next, values, k, if before == Some(i) then None else before);
    }
  }

  // ---------------------------------------------------------------- saliences while they are evaluated when defined

  lemma {:induction false} AddsKeepSaliences(ms: seq<DefruleModule>, w: World, qs: seq<Request>, w': World)
    requires AddsEffect(ms, w, qs, w') && w.mode == WhenDefined
    ensures w'.saliences == w.saliences && w'.mode == WhenDefined
    decreases |qs|
  {
    hide Next;
    if qs != [] {
      var mid := AddedNow(ms, w, qs[0], w'.markers);
      AddKeepsSaliences(ms, w, qs[0], w'.markers);
      AddsKeepSaliences(ms, mid, qs[1..], w');
    }
  }

  lemma AddKeepsSaliences(ms: seq<DefruleModule>, w: World, q: Request, now: Markers)
    requires w.mode == WhenDefined
    ensures AddedNow(ms, w, q, now).saliences == w.saliences && AddedNow(ms, w, q, now).mode == WhenDefined
  {
    hide Next;
    if Bare(ms, w, q) {
      SalienceKept(w.mode, q.rule.dynamicSalience, w.saliences[q.rule], q.value);
      assert w.saliences[q.rule := w.saliences[q.rule]] == w.saliences;
    }
  }

  /** While saliences are evaluated when defined, only refreshing agendas changes the salience of a rule. */
  lemma SaliencesKept(ms: seq<DefruleModule>, w: World, c: Command, w': World)
    requires Sound(ms, w) && Effect(ms, w, c, w') && w.mode == WhenDefined && !c.RefreshAgendas?
    ensures w'.saliences == w.saliences && (c.ChangeMode? || w'.mode == WhenDefined)
  {
    hide Sound, Run, Next, AddsEffect, AddEffect, RefreshesOf, Objects, ReorderingSteps;
    match c
    case AddFor(q) =>
      OneRequest(ms, w, q, w');
      AddsKeepSaliences(ms, w, [q], w');
    case RefreshRule(rule, values, randoms) =>
      AddsKeepSaliences(ms, w, RefreshesOf(w, rule, values, randoms), w');
    case _ =>
  }

  // The rule has an activation on an agenda that is refreshed.
  ghost predicate Touched(ms: seq<DefruleModule>, w: World, which: Option<nat>, d: Defrule)
    requires Sound(ms, w) && d.whichModule in ms
  {
    var k := IndexIn(ms, d.whichModule); Chosen(which, k) && d in RulesAt(ms, w, k)
  }

  lemma AfterIs(ms: seq<DefruleModule>, w: World, which: Option<nat>, values: nat -> nat -> Evaluation,
                now: map<Defrule, int>)
    requires Sound(ms, w) && now.Keys == w.saliences.Keys
    requires forall d :: d in now ==>
               now[d] == if Touched(ms, w, which, d)
                         then Reevaluated(RulesAt(ms, w, IndexIn(ms, d.whichModule)), 0, w.saliences,
                                          ValuesFor(which, values, IndexIn(ms, d.whichModule)))[d]
                         else w.saliences[d]
    ensures now == SaliencesAfter(ms, w, which, values)
  {
    hide Sound, RulesAt, Reevaluated;
    var after := SaliencesAfter(ms, w, which, values);
    forall d | d in now ensures d in after && now[d] == after[d] {
      var k := IndexIn(ms, d.whichModule);
      if Chosen(which, k) && d !in RulesAt(ms, w, k) {
        ReevaluatedOther(RulesAt(ms, w, k), 0, w.saliences, ValuesFor(which, values, k), d);
      }
    }
  }

  // ---------------------------------------------------------------- nothing is left open

  lemma {:induction false} RunUnique(st: State, steps: seq<Step>, st1: State, st2: State)
    requires Run(st, steps, st1) && Run(st, steps, st2)
    ensures st1 == st2
    decreases |steps|
  {
    if steps != [] {
      RunUnique(Next(st, steps[0]), steps[1..], st1, st2);
    }
  }

  // Two worlds that differ at most in which objects were made.
  ghost predicate Alike(w: World, v: World) {
    && w.st == v.st && w.mode == v.mode && w.firing == v.firing && w.saliences == v.saliences
    && w.memories == v.memories && w.markers.Keys == v.markers.Keys
    && forall pm :: pm in w.markers ==> (w.markers[pm] == null <==> v.markers[pm] == null)
  }

  lemma {:induction false} AddsAlike(ms: seq<DefruleModule>, w: World, v: World, qs: seq<Request>, w': World, v': World)
    requires Alike(w, v) && AddsEffect(ms, w, qs, w') && AddsEffect(ms, v, qs, v')
    ensures Alike(w', v')
    decreases |qs|
  {
    hide Next, NewSalience;
    if qs != [] {
      AddsAlike(ms, AddedNow(ms, w, qs[0], w'.markers), AddedNow(ms, v, qs[0], v'.markers), qs[1..], w', v');
    }
  }

  /**
   * A command leads to one world only; where it makes activations, they may be different objects, but agendas, tags,
   * saliences and which matches have one are the same.
   */
  lemma EffectDecided(ms: seq<DefruleModule>, w: World, c: Command, w1: World, w2: World)
    requires Sound(ms, w) && Effect(ms, w, c, w1) && Effect(ms, w, c, w2)
    ensures Alike(w1, w2) && (!c.AddFor? && !c.RefreshRule? ==> w1 == w2)
  {
    hide Sound, Run, Next, AddsEffect, AddEffect, RefreshesOf, Objects, SaliencesAfter, RefreshingSteps;
    match c
    case AddFor(q) =>
      OneRequest(ms, w, q, w1);
      OneRequest(ms, w, q, w2);
      AddsAlike(ms, w, w, [q], w1, w2);
    case RefreshRule(rule, values, randoms) =>
      AddsAlike(ms, w, w, RefreshesOf(w, rule, values, randoms), w1, w2);
    case ReorderAgendas(which) =>
      RunUnique(w.st, ReorderingSteps(ms, which), w1.st, w2.st);
    case RefreshAgendas(which, values) =>
      RunUnique(w.st, RefreshingSteps(ms, w, which, values), w1.st, w2.st);
    case _ =>
  }

  lemma OneRequest(ms: seq<DefruleModule>, w: World, q: Request, w': World)
    ensures AddEffect(ms, w, q, w') <==> AddsEffect(ms, w, [q], w')
  {
    assert [q][1..] == [];
    assert AddsEffect(ms, AddedNow(ms, w, q, w'.markers), [], w') <==> w' == AddedNow(ms, w, q, w'.markers);
  }

  // ---------------------------------------------------------------- on the agendas

  lemma RunOne(st: State, step: Step, st': State)
    requires StepTo(st, step, st')
    ensures Run(st, [step], st')
  {
    hide Run, StepTo;
    RunNone(st);
    RunStepTo(st, [], st, step, st');
    assert [] + [step] == [step];
  }

  /** On the agendas, every command is a run of the abstract machine. */
  lemma EffectIsRun(ms: seq<DefruleModule>, w: World, c: Command, w': World) returns (steps: seq<Step>)
    requires Sound(ms, w) && Effect(ms, w, c, w')
    ensures Run(w.st, steps, w'.st)
  {
    hide Run, Next, AddsEffect, AddEffect, RefreshesOf, Objects, SaliencesAfter, RefreshingSteps, ReorderingSteps;
    match c
    case AddFor(q) =>
      OneRequest(ms, w, q, w');
      steps := AddsAreSteps(ms, w, [q], w');
    case RefreshRule(rule, values, randoms) =>
      steps := AddsAreSteps(ms, w, RefreshesOf(w, rule, values, randoms), w');
    case ReorderAgendas(which) => steps := ReorderingSteps(ms, which);
    case RefreshAgendas(which, values) => steps := RefreshingSteps(ms, w, which, values);
    case _ => steps := OtherIsRun(ms, w, c, w');
  }

  lemma OtherIsRun(ms: seq<DefruleModule>, w: World, c: Command, w': World) returns (steps: seq<Step>)
    requires Sound(ms, w) && Effect(ms, w, c, w')
    requires !c.AddFor? && !c.RefreshRule? && !c.ReorderAgendas? && !c.RefreshAgendas?
    ensures Run(w.st, steps, w'.st)
  {
    hide Run, Next, Objects, Cleared;
    steps := [];
    RunNone(w.st);
    match c
    case RemoveAt(m, p) =>
      if m < |ms| && p < |w.st.agendas[m]| {
        steps := DropIsRun(w.st, m, TimetagsOf({Objects(w.on, ms[m], w.st.agendas[m])[p]}));
      }
    case RetractMatch(basis) =>
      if basis in w.markers && w.markers[basis] != null && w.markers[basis] in w.on {
        var a := w.markers[basis];
        steps := DropIsRun(w.st, IndexIn(ms, a.theRule.whichModule), TimetagsOf({a}));
      }
    case DetachFirst(m) =>
      if m < |ms| && w.st.agendas[m] != [] {
        steps := DropIsRun(w.st, m, {Objects(w.on, ms[m], w.st.agendas[m])[0].timetag});
      }
    case ClearRule(rule) =>
      if rule.whichModule in ms {
        var gone := set a | a in OfModule(w.on, rule.whichModule) && OfRule(rule, a.theRule);
        steps := DropIsRun(w.st, IndexIn(ms, rule.whichModule), TimetagsOf(gone));
      }
    case RemoveAll(m) =>
      if m < |ms| {
        steps := DropIsRun(w.st, m, TimetagsOf(OfModule(w.on, ms[m])));
      }
    case ChangeStrategy(strategy) =>
      steps := [SetStrategy(strategy)];
      RunOne(w.st, steps[0], w'.st);
    case ResetCounter =>
      if Enabled(w.st, ResetTags) {
        steps := [ResetTags];
        RunOne(w.st, ResetTags, w'.st);
      }
    case _ =>
  }

  lemma DropIsRun(st: State, m: nat, gone: set<nat>) returns (steps: seq<Step>)
    requires m < |st.agendas|
    ensures Run(st, steps, Next(st, Drop(m, gone)))
  {
    hide Run, Next;
    steps := [Drop(m, gone)];
    RunOne(st, Drop(m, gone), Next(st, Drop(m, gone)));
  }
}
