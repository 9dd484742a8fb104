/** Refreshing a rule: every match of it that has no activation gets one. */
module AgendaRuleRefresh {
  import opened AgendaSpec
  import opened AgendaHeap
  import opened AgendaEngine
  import opened AgendaRefresh
  import opened AgendaWorld
  import opened AgendaRequests

  // ---------------------------------------------------------------- what requests do to markers

  /** Of the matches of `was`, those in `done` have been looked at.  Each of them now has an
      activation: the one it had, or a new one on an agenda.  No other activation is new. */
  ghost predicate Remarked(was: Markers, now: Markers, done: set<PartialMatch>, on0: set<Activation>,
                           on: set<Activation>)
  {
    && now.Keys == was.Keys && done <= was.Keys && on0 <= on
    && (forall pm :: pm in was.Keys && was[pm] != null ==> now[pm] == was[pm])
    && (forall pm :: pm in was.Keys && was[pm] == null && pm !in done ==> now[pm] == null)
    && (forall pm :: pm in done && was[pm] == null ==>
          now[pm] != null && now[pm] in on && now[pm] !in on0 && now[pm].basis == pm)
    && (forall a :: a in on && a !in on0 ==> a.basis in done && was[a.basis] == null && now[a.basis] == a)
  }

  lemma RemarkedTwice(was: Markers, mid: Markers, now: Markers, done: set<PartialMatch>, more: set<PartialMatch>,
                      on0: set<Activation>, on1: set<Activation>, on2: set<Activation>)
    requires Remarked(was, mid, done, on0, on1) && Remarked(mid, now, more, on1, on2)
    ensures Remarked(was, now, done + more, on0, on2)
  {
  }

  ghost function BasesOf(qs: seq<Request>): set<PartialMatch> {
    set q | q in qs :: q.basis
  }

  lemma AddedShape(ms: seq<DefruleModule>, w: World, q: Request, now: Markers)
    ensures var w1 := AddedNow(ms, w, q, now);
            && w1.saliences.Keys >= w.saliences.Keys && w1.markers.Keys >= w.markers.Keys
            && |w1.st.agendas| == |w.st.agendas|
            && w1.mode == w.mode && w1.firing == w.firing && w1.memories == w.memories
  {
  }

  lemma AddedRemarks(ms: seq<DefruleModule>, w: World, q: Request, now: Markers)
    requires Made(ms, w, q, now) && Answerable(ms, w, [q])
    ensures var w1 := AddedNow(ms, w, q, now); Remarked(w.markers, w1.markers, {q.basis}, w.on, w1.on)
  {
    hide Next;
    assert [q][0] == q;
  }

  lemma {:induction false} AddsRemark(ms: seq<DefruleModule>, w: World, qs: seq<Request>, w': World)
    requires AddsEffect(ms, w, qs, w') && Answerable(ms, w, qs)
    ensures Remarked(w.markers, w'.markers, BasesOf(qs), w.on, w'.on)
    ensures w'.mode == w.mode && w'.firing == w.firing && w'.memories == w.memories
    decreases |qs|
  {
    hide Remarked, AddedNow;
    if qs == [] {
      assert BasesOf(qs) == {};
      RemarkedNone(w.markers, w.on);
    } else {
      var w1 := AddedNow(ms, w, qs[0], w'.markers);
      AddedShape(ms, w, qs[0], w'.markers);
      AddedRemarks(ms, w, qs[0], w'.markers);
      AddsRemark(ms, w1, qs[1..], w');
      RemarkedTwice(w.markers, w1.markers, w'.markers, {qs[0].basis}, BasesOf(qs[1..]), w.on, w1.on, w'.on);
      assert qs == [qs[0]] + qs[1..];
      assert BasesOf(qs) == {qs[0].basis} + BasesOf(qs[1..]);
    }
  }

  // Only rules asked for get activations, and no rule is lost.
  lemma {:induction false} AddsRules(ms: seq<DefruleModule>, w: World, qs: seq<Request>, w': World)
    requires AddsEffect(ms, w, qs, w')
    ensures w'.saliences.Keys == w.saliences.Keys
    ensures forall a :: a in w'.on && a !in w.on ==> a.theRule in w.saliences
    decreases |qs|
  {
    hide Next, NewSalience;
    if qs != [] {
      var w1 := AddedNow(ms, w, qs[0], w'.markers);
      assert w1.saliences.Keys == w.saliences.Keys;
      AddsRules(ms, w1, qs[1..], w');
    }
  }

  lemma RemarkedNone(was: Markers, on: set<Activation>)
    ensures Remarked(was, was, {}, on, on)
  {
  }

  ghost predicate AllMarked(was: Markers) {
    forall pm :: pm in was.Keys ==> was[pm] != null
  }

  /** Requests for matches that all have an activation do nothing. */
  lemma {:induction false} NothingToAdd(ms: seq<DefruleModule>, w: World, qs: seq<Request>, w': World)
    requires AddsEffect(ms, w, qs, w') && forall pm :: pm in BasesOf(qs) && pm in w.markers ==> w.markers[pm] != null
    ensures w' == w
    decreases |qs|
  {
    if qs != [] {
      assert qs[0].basis in BasesOf(qs);
      assert BasesOf(qs[1..]) <= BasesOf(qs);
      NothingToAdd(ms, AddedNow(ms, w, qs[0], w'.markers), qs[1..], w');
    }
  }

  ghost predicate OnlyAdds(steps: seq<Step>) {
    forall i :: 0 <= i < |steps| ==> steps[i].Add?
  }

  // One state leads to the other by adding activations and nothing else.
  ghost predicate AddsLead(st: State, st': State) {
    exists steps :: OnlyAdds(steps) && Run(st, steps, st')
  }

  /** On the agendas, requests are a run of additions. */
  lemma {:induction false} AddsAreSteps(ms: seq<DefruleModule>, w: World, qs: seq<Request>, w': World)
    returns (steps: seq<Step>)
    requires AddsEffect(ms, w, qs, w') && |w.st.agendas| == |ms|
    ensures OnlyAdds(steps) && Run(w.st, steps, w'.st)
    decreases |qs|
  {
    if qs == [] {
      RunNone(w.st);
      steps := [];
    } else {
      var q, w1 := qs[0], AddedNow(ms, w, qs[0], w'.markers);
      AddedShape(ms, w, q, w'.markers);
      steps := AddsAreSteps(ms, w1, qs[1..], w');
      if Bare(ms, w, q) {
        var v := NewSalience(w.mode, q.rule.dynamicSalience, w.saliences[q.rule], q.value);
        var step := Add(IndexIn(ms, q.rule.whichModule), v, q.rule.complexity, q.randomID, q.basis.binds);
        assert ([step] + steps)[1..] == steps;
        steps := [step] + steps;
      }
    }
  }

  /** Every match now has an activation.  One that had an activation keeps it; one that had none has
      a new one, on an agenda, made for it.  There are no other new activations. */
  ghost predicate RefreshedAll(was: Markers, now: Markers, on0: set<Activation>, on: set<Activation>) {
    && now.Keys == was.Keys && on0 <= on
    && (forall pm :: pm in was.Keys && was[pm] != null ==> now[pm] == was[pm])
    && (forall pm :: pm in was.Keys && was[pm] == null ==>
          now[pm] != null && now[pm] in on && now[pm] !in on0 && now[pm].basis == pm)
    && (forall a :: a in on && a !in on0 ==> a.basis in was.Keys && was[a.basis] == null && now[a.basis] == a)
  }

  lemma RemarkedAll(all: Markers, now: Markers, matches: set<PartialMatch>, on0: set<Activation>, on: set<Activation>,
                    was: Markers, is_: Markers)
    requires Remarked(all, now, matches, on0, on)
    requires was.Keys == is_.Keys == matches && forall pm :: pm in matches ==> was[pm] == all[pm] && is_[pm] == now[pm]
    ensures RefreshedAll(was, is_, on0, on)
  {
  }

  // The matches without an activation.
  ghost function Unmarked(was: Markers): set<PartialMatch> {
    set pm | pm in was.Keys && was[pm] == null
  }

  lemma ActivationsTotal(env: AgendaData)
    requires env.Valid()
    ensures env.NumberOfActivations == |env.on| + |env.detached|
  {
  }

  /** There are as many new activations as matches without one. */
  lemma {:induction false} NewActivationsCounted(was: Markers, now: Markers, on0: set<Activation>, on: set<Activation>)
    requires RefreshedAll(was, now, on0, on)
    ensures |on| == |on0| + |Unmarked(was)|
  {
    var bare := Unmarked(was);
    var new_ := on - on0;
    assert on == on0 + new_;
    CountPairs(now, bare, new_);
  }

  lemma {:induction false} CountPairs(now: Markers, bare: set<PartialMatch>, new_: set<Activation>)
    requires bare <= now.Keys
    requires forall pm :: pm in bare ==> now[pm] != null && now[pm] in new_ && now[pm].basis == pm
    requires forall a :: a in new_ ==> a.basis in bare && now[a.basis] == a
    ensures |new_| == |bare|
    decreases bare
  {
    if bare != {} {
      var pm :| pm in bare;
      CountPairs(now, bare - {pm}, new_ - {now[pm]});
    } else {
      assert new_ == {};
    }
  }

  // ---------------------------------------------------------------- the loops

  // The detached activations, and the rules and matches that may be touched.
  datatype Scope = Scope(firing: seq<Activation>, rules: set<Defrule>, bases: set<PartialMatch>)

  // From the world `w`, exactly the pairs have been asked for.
  ghost predicate Refreshing(env: AgendaData, sc: Scope, w: World, pairs: seq<Pair>, values: nat -> Evaluation,
                             randoms: nat -> int)
    reads env, env.modules, env.on, env.groups, env.matches`marker, sc.bases`marker
    reads sc.rules`salience, sc.rules`leftMemory
  {
    && env.Valid()
    && AddsEffect(env.modules, w, RequestsFor(pairs, values, randoms), WorldOf(env, sc.firing, sc.rules, sc.bases))
  }

  lemma RefreshingMeans(env: AgendaData, sc: Scope, w: World, pairs: seq<Pair>, values: nat -> Evaluation,
                        randoms: nat -> int)
    requires Refreshing(env, sc, w, pairs, values, randoms)
    ensures env.Valid()
    ensures AddsEffect(env.modules, w, RequestsFor(pairs, values, randoms),
                       WorldOf(env, sc.firing, sc.rules, sc.bases))
  {
  }

  // One partial match of the rule.
  method RefreshMatch(env: AgendaData, rulePtr: Defrule, pm: PartialMatch, value: Evaluation, randomID: int,
                      ghost sc: Scope, ghost w: World, ghost pairs: seq<Pair>, ghost values: nat -> Evaluation,
                      ghost randoms: nat -> int)
    requires Refreshing(env, sc, w, pairs, values, randoms) && rulePtr.whichModule in env.modules
    requires rulePtr in sc.rules && pm in sc.bases && value == values(|pairs|) && randomID == randoms(|pairs|)
    modifies rulePtr`salience, pm`marker, env`NumberOfActivations, env`CurrentTimetag, env`on, env`matches, env`groups
    modifies env.modules, env.on`prev, env.on`next, env.groups
    ensures Refreshing(env, sc, w, pairs + [(rulePtr, pm)], values, randoms)
    ensures forall a :: a in env.on ==> a in old(env.on) || fresh(a)
    ensures forall g :: g in env.groups ==> g in old(env.groups) || fresh(g)
    ensures env.detached == old(env.detached) && env.matches <= old(env.matches) + sc.bases
  {
    hide AgendaData.Valid, WorldOf, AddEffect, AddsEffect, RequestsFor;
    RefreshingMeans(env, sc, w, pairs, values, randoms);
    ModuleReach(env, rulePtr.whichModule);
    ghost var mid := WorldOf(env, sc.firing, sc.rules, sc.bases);
    var q := Request(rulePtr, pm, value, randomID);
    ghost var made := AddUnlessMarked(env, q, sc.firing, sc.rules, sc.bases);
    RequestsMore(pairs, (rulePtr, pm), values, randoms);
    AddsThenAdd(env.modules, w, RequestsFor(pairs, values, randoms), mid, q,
                WorldOf(env, sc.firing, sc.rules, sc.bases));
  }

  // One chain of partial matches.
  method RefreshChain(env: AgendaData, rulePtr: Defrule, chain: seq<PartialMatch>, values: nat -> Evaluation,
                      randoms: nat -> int, tick: nat, ghost sc: Scope, ghost w: World, ghost pairs: seq<Pair>,
                      ghost matches: set<PartialMatch>)
    returns (tick': nat, ghost pairs': seq<Pair>)
    requires Refreshing(env, sc, w, pairs, values, randoms) && rulePtr.whichModule in env.modules && tick == |pairs|
    requires rulePtr in sc.rules && matches <= sc.bases
    requires forall k :: 0 <= k < |chain| && chain[k].ownerActivates ==> chain[k] in matches
    modifies rulePtr`salience, matches`marker, env`NumberOfActivations, env`CurrentTimetag, env`on, env`matches
    modifies env`groups, env.modules, env.on`prev, env.on`next, env.groups
    ensures Refreshing(env, sc, w, pairs', values, randoms) && tick' == |pairs'|
    ensures pairs' == pairs + ChainPairs(rulePtr, chain, |chain|)
    ensures forall a :: a in env.on ==> a in old(env.on) || fresh(a)
    ensures forall g :: g in env.groups ==> g in old(env.groups) || fresh(g)
    ensures env.detached == old(env.detached) && env.matches <= old(env.matches) + sc.bases
  {
    hide Refreshing;
    tick', pairs' := tick, pairs;
    for j := 0 to |chain|
      invariant Refreshing(env, sc, w, pairs', values, randoms) && tick' == |pairs'|
      invariant pairs' == pairs + ChainPairs(rulePtr, chain, j)
      invariant forall a :: a in env.on ==> a in old(env.on) || fresh(a)
      invariant forall g :: g in env.groups ==> g in old(env.groups) || fresh(g)
      invariant env.detached == old(env.detached) && env.matches <= old(env.matches) + sc.bases
    {
      if chain[j].ownerActivates {
        RefreshMatch(env, rulePtr, chain[j], values(tick'), randoms(tick'), sc, w, pairs', values, randoms);
        tick' := tick' + 1;
        pairs' := pairs' + [(rulePtr, chain[j])];
      }
    }
  }

  // All chains of a rule's memory.
  method RefreshMemory(env: AgendaData, rulePtr: Defrule, beta: Memory, values: nat -> Evaluation,
                       randoms: nat -> int, tick: nat, ghost sc: Scope, ghost w: World, ghost pairs: seq<Pair>,
                       ghost matches: set<PartialMatch>)
    returns (tick': nat, ghost pairs': seq<Pair>)
    requires Refreshing(env, sc, w, pairs, values, randoms) && rulePtr.whichModule in env.modules && tick == |pairs|
    requires rulePtr in sc.rules && matches <= sc.bases
    requires forall b, k :: 0 <= b < |beta| && 0 <= k < |beta[b]| && beta[b][k].ownerActivates ==> beta[b][k] in matches
    modifies rulePtr`salience, matches`marker, env`NumberOfActivations, env`CurrentTimetag, env`on, env`matches
    modifies env`groups, env.modules, env.on`prev, env.on`next, env.groups
    ensures Refreshing(env, sc, w, pairs', values, randoms) && tick' == |pairs'|
    ensures pairs' == pairs + MemoryPairs(rulePtr, beta, |beta|)
    ensures forall a :: a in env.on ==> a in old(env.on) || fresh(a)
    ensures forall g :: g in env.groups ==> g in old(env.groups) || fresh(g)
    ensures env.detached == old(env.detached) && env.matches <= old(env.matches) + sc.bases
  {
    hide Refreshing, ChainPairs;
    tick', pairs' := tick, pairs;
    for b := 0 to |beta|
      invariant Refreshing(env, sc, w, pairs', values, randoms) && tick' == |pairs'|
      invariant pairs' == pairs + MemoryPairs(rulePtr, beta, b)
      invariant forall a :: a in env.on ==> a in old(env.on) || fresh(a)
      invariant forall g :: g in env.groups ==> g in old(env.groups) || fresh(g)
      invariant env.detached == old(env.detached) && env.matches <= old(env.matches) + sc.bases
    {
      tick', pairs' := RefreshChain(env, rulePtr, beta[b], values, randoms, tick', sc, w, pairs', matches);
    }
  }

  // The rest of a chain of disjuncts.
  ghost predicate From(rules: seq<Defrule>, i: nat, rulePtr: Defrule?) {
    && i <= |rules|
    && (if rulePtr == null then i == |rules| else rulePtr.Chained() && rules[i..] == Disjuncts(rulePtr))
  }

  lemma FromStart(rules: seq<Defrule>, theRule: Defrule)
    requires rules == Disjuncts(theRule) && theRule.Chained()
    ensures From(rules, 0, theRule)
  {
  }

  lemma FromNext(rules: seq<Defrule>, i: nat, rulePtr: Defrule)
    requires From(rules, i, rulePtr)
    ensures i < |rules| && rules[i] == rulePtr && From(rules, i + 1, rulePtr.disjunct)
  {
    assert rules[i..][0] == rulePtr;
    assert rules[i + 1..] == rules[i..][1..] == rulePtr.later;
  }

  lemma MemoryAt(rules: seq<Defrule>, mem: seq<Memory>, i: nat, matches: set<PartialMatch>)
    requires Memories(rules, mem) && i < |rules| && matches == MatchesIn(mem)
    ensures i < |mem| && rules[i].leftMemory == mem[i]
    ensures forall b, k :: 0 <= b < |mem[i]| && 0 <= k < |mem[i][b]| && mem[i][b][k].ownerActivates ==>
              mem[i][b][k] in matches
  {
  }

  // Every disjunct in turn.
  method RefreshDisjuncts(env: AgendaData, theRule: Defrule, values: nat -> Evaluation, randoms: nat -> int,
                          ghost rules: seq<Defrule>, ghost mem: seq<Memory>, ghost matches: set<PartialMatch>,
                          ghost sc: Scope, ghost w: World)
    requires Refreshing(env, sc, w, [], values, randoms) && From(rules, 0, theRule) && Memories(rules, mem)
    requires matches == MatchesIn(mem) && matches <= sc.bases
    requires forall i :: 0 <= i < |rules| ==> rules[i].whichModule in env.modules && rules[i] in sc.rules
    modifies rules`salience, matches`marker, env`NumberOfActivations, env`CurrentTimetag, env`on, env`matches
    modifies env`groups, env.modules, env.on`prev, env.on`next, env.groups
    ensures |mem| == |rules| && Refreshing(env, sc, w, PairsOf(rules, mem, |rules|), values, randoms)
    ensures forall a :: a in env.on ==> a in old(env.on) || fresh(a)
    ensures forall g :: g in env.groups ==> g in old(env.groups) || fresh(g)
    ensures env.detached == old(env.detached) && env.matches <= old(env.matches) + sc.bases
  {
    hide Refreshing, Memories, MatchesIn, From, MemoryPairs;
    MemoriesLength(rules, mem);
    var rulePtr: Defrule? := theRule;
    var tick := 0;
    ghost var i, pairs: seq<Pair> := 0, [];
    while rulePtr != null
      invariant From(rules, i, rulePtr) && i <= |rules| && Memories(rules, mem)
      invariant Refreshing(env, sc, w, pairs, values, randoms) && tick == |pairs|
      invariant pairs == PairsOf(rules, mem, i)
      invariant forall a :: a in env.on ==> a in old(env.on) || fresh(a)
      invariant forall g :: g in env.groups ==> g in old(env.groups) || fresh(g)
      invariant env.detached == old(env.detached) && env.matches <= old(env.matches) + sc.bases
      decreases |rules| - i
    {
      FromNext(rules, i, rulePtr);
      MemoryAt(rules, mem, i, matches);
      tick, pairs := RefreshMemory(env, rulePtr, rulePtr.leftMemory, values, randoms, tick, sc, w, pairs, matches);
      rulePtr := rulePtr.disjunct;
      i := i + 1;
    }
    FromEnd(rules, i);
  }

  lemma MemoriesLength(rules: seq<Defrule>, mem: seq<Memory>)
    requires Memories(rules, mem)
    ensures |mem| == |rules|
  {
  }

  lemma FromEnd(rules: seq<Defrule>, i: nat)
    requires From(rules, i, null)
    ensures i == |rules|
  {
  }

  ghost function RefreshRequests(rules: seq<Defrule>, mem: seq<Memory>, values: nat -> Evaluation,
                                 randoms: nat -> int): seq<Request>
    requires |rules| == |mem|
  {
    RequestsFor(PairsOf(rules, mem, |rules|), values, randoms)
  }

  lemma RequestsAre(ms: seq<DefruleModule>, w: World, rules: seq<Defrule>, mem: seq<Memory>,
                    values: nat -> Evaluation, randoms: nat -> int)
    requires |rules| == |mem| && |w.st.agendas| == |ms|
    requires forall i :: 0 <= i < |rules| ==> rules[i].whichModule in ms && rules[i] in w.saliences
    requires MatchesIn(mem) <= w.markers.Keys
    ensures Answerable(ms, w, RefreshRequests(rules, mem, values, randoms))
    ensures BasesOf(RefreshRequests(rules, mem, values, randoms)) == MatchesIn(mem)
  {
    hide MatchesIn, InMemory, PairsOf;
    var pairs, qs := PairsOf(rules, mem, |rules|), RefreshRequests(rules, mem, values, randoms);
    PairsAreMatches(rules, mem, |rules|);
    forall k | 0 <= k < |qs| ensures qs[k].rule in rules && qs[k].basis in MatchesIn(mem) {
      assert pairs[k] in pairs;
    }
    forall pm | pm in MatchesIn(mem) ensures pm in BasesOf(qs) {
      MatchesAre(mem, pm);
      var i :| 0 <= i < |mem| && InMemory(mem[i], pm);
      var t :| 0 <= t < |pairs| && pairs[t] == (rules[i], pm);
      assert qs[t] in qs;
    }
  }

  lemma BasisAsked(mem: seq<Memory>, rules: seq<Defrule>, values: nat -> Evaluation, randoms: nat -> int,
                   pm: PartialMatch)
    requires |rules| == |mem| && pm in BasesOf(RefreshRequests(rules, mem, values, randoms))
    ensures var qs := RefreshRequests(rules, mem, values, randoms); exists l :: 0 <= l < |qs| && qs[l].basis == pm
  {
    hide RefreshRequests;
    var qs := RefreshRequests(rules, mem, values, randoms);
    var q :| q in qs && q.basis == pm;
    var l :| 0 <= l < |qs| && qs[l] == q;
  }

  lemma PlaceTagged(ms: seq<DefruleModule>, w: World, w': World, rules: seq<Defrule>, mem: seq<Memory>,
                    values: nat -> Evaluation, randoms: nat -> int, pm: PartialMatch, p: Place)
    requires |rules| == |mem| && FirstPlace(mem, p, pm) && pm in BareIn(w)
    requires AddsEffect(ms, w, RefreshRequests(rules, mem, values, randoms), w')
    requires Answerable(ms, w, RefreshRequests(rules, mem, values, randoms))
    ensures pm in w'.markers && w'.markers[pm] != null && w'.markers[pm].theRule == rules[p.i]
  {
    hide AddsEffect, BareIn, Fresh, Answerable, PairsOf, IndexOf, FirstPlace;
    PlacesAre(mem, p, pm);
    PlaceAsked(rules, mem, p);
    FirstAsked(rules, mem, p, pm);
    FirstTagged(ms, w, RefreshRequests(rules, mem, values, randoms), w', IndexOf(rules, mem, p));
  }

  // The two matches get their tags in the order of their places.
  lemma PlacesOrdered(ms: seq<DefruleModule>, w: World, w': World, rules: seq<Defrule>, mem: seq<Memory>,
                      values: nat -> Evaluation, randoms: nat -> int, pm: PartialMatch, qm: PartialMatch)
    requires |rules| == |mem| && StandsBefore(mem, pm, qm) && pm in BareIn(w) && qm in BareIn(w)
    requires AddsEffect(ms, w, RefreshRequests(rules, mem, values, randoms), w')
    requires Answerable(ms, w, RefreshRequests(rules, mem, values, randoms))
    ensures pm in w'.markers && w'.markers[pm] != null && qm in w'.markers && w'.markers[qm] != null
    ensures w'.markers[pm].timetag < w'.markers[qm].timetag
  {
    hide AddsEffect, BareIn, Fresh, Answerable, PairsOf, IndexOf, FirstPlace;
    var qs := RefreshRequests(rules, mem, values, randoms);
    var p, q :| Earlier(p, q) && FirstPlace(mem, p, pm) && FirstPlace(mem, q, qm);
    PlacesAre(mem, p, pm);
    PlacesAre(mem, q, qm);
    FirstAsked(rules, mem, p, pm);
    FirstAsked(rules, mem, q, qm);
    EarlierAsked(rules, mem, p, q);
    var k, l := IndexOf(rules, mem, p), IndexOf(rules, mem, q);
    FirstTagged(ms, w, qs, w', k);
    FirstTagged(ms, w, qs, w', l);
    assert Bases(qs)[k] == pm && pm !in Bases(qs)[..k];
    FreshGrows(Bases(qs), BareIn(w), k, l);
  }

  lemma PlacesAre(mem: seq<Memory>, p: Place, pm: PartialMatch)
    requires FirstPlace(mem, p, pm)
    ensures IsPlace(mem, p)
  {
  }

  /** The tags given out by a refresh follow the memories. */
  lemma RefreshOrdered(ms: seq<DefruleModule>, w: World, w': World, rules: seq<Defrule>, mem: seq<Memory>,
                       values: nat -> Evaluation, randoms: nat -> int, was: Markers, now: Markers)
    requires |rules| == |mem| && |w.st.agendas| == |ms|
    requires forall i :: 0 <= i < |rules| ==> rules[i].whichModule in ms && rules[i] in w.saliences
    requires AddsEffect(ms, w, RefreshRequests(rules, mem, values, randoms), w')
    requires MatchesIn(mem) <= w.markers.Keys && MatchesIn(mem) <= w'.markers.Keys
    requires was.Keys == now.Keys == MatchesIn(mem)
    requires forall pm :: pm in was ==> was[pm] == w.markers[pm] && now[pm] == w'.markers[pm]
    ensures TagsInOrder(rules, mem, was, now, w.st.nextTag, w'.st.nextTag)
  {
    hide AddsEffect, RefreshRequests, MatchesIn, BasesOf, Answerable, Fresh, StandsBefore;
    var qs := RefreshRequests(rules, mem, values, randoms);
    RequestsAre(ms, w, rules, mem, values, randoms);
    AddsTags(ms, w, qs, w', 0);
    forall pm | pm in was && was[pm] == null
      ensures now[pm] != null && w.st.nextTag <= now[pm].timetag < w'.st.nextTag
    {
      BasisAsked(mem, rules, values, randoms, pm);
      var k := FirstRequest(qs, pm);
      FirstTagged(ms, w, qs, w', k);
    }
    forall t: nat | w.st.nextTag <= t < w'.st.nextTag ensures GivenOut(was, now, t) {
      var k := FreshReaches(Bases(qs), BareIn(w), t - w.st.nextTag);
      BasesAre(qs, k);
      AddsTags(ms, w, qs, w', k);
    }
    forall pm, qm | pm in was && qm in was && was[pm] == null && was[qm] == null && StandsBefore(mem, pm, qm)
      ensures now[pm].timetag < now[qm].timetag
    {
      PlacesOrdered(ms, w, w', rules, mem, values, randoms, pm, qm);
    }
    forall pm, p | pm in was && was[pm] == null && FirstPlace(mem, p, pm) ensures now[pm].theRule == rules[p.i] {
      PlaceTagged(ms, w, w', rules, mem, values, randoms, pm, p);
    }
  }

  lemma BasesAre(qs: seq<Request>, k: nat)
    requires k < |qs|
    ensures Bases(qs)[k] in BasesOf(qs)
  {
    assert qs[k] in qs;
  }

  // What a whole refresh comes to.
  lemma RefreshMeans(ms: seq<DefruleModule>, w: World, w': World, rules: seq<Defrule>, mem: seq<Memory>,
                     matches: set<PartialMatch>, values: nat -> Evaluation, randoms: nat -> int, was: Markers,
                     now: Markers)
    requires |rules| == |mem| && |w.st.agendas| == |ms|
    requires forall i :: 0 <= i < |rules| ==> rules[i].whichModule in ms && rules[i] in w.saliences
    requires matches == MatchesIn(mem) && matches <= w.markers.Keys && matches <= w'.markers.Keys
    requires AddsEffect(ms, w, RefreshRequests(rules, mem, values, randoms), w')
    requires was.Keys == now.Keys == matches
    requires forall pm :: pm in matches ==> was[pm] == w.markers[pm] && now[pm] == w'.markers[pm]
    ensures RefreshedAll(was, now, w.on, w'.on) && |w'.on| == |w.on| + |Unmarked(was)|
    ensures AllMarked(was) ==> w' == w
    ensures AddsLead(w.st, w'.st) && TagsInOrder(rules, mem, was, now, w.st.nextTag, w'.st.nextTag)
  {
    hide TagsInOrder, AddsEffect, RefreshRequests, MatchesIn, Remarked, RefreshedAll, Run, OnlyAdds, Unmarked, BasesOf,
         Answerable;
    var qs := RefreshRequests(rules, mem, values, randoms);
    RequestsAre(ms, w, rules, mem, values, randoms);
    AddsRemark(ms, w, qs, w');
    RemarkedAll(w.markers, w'.markers, matches, w.on, w'.on, was, now);
    NewActivationsCounted(was, now, w.on, w'.on);
    if AllMarked(was) {
      NothingToAdd(ms, w, qs, w');
    }
    RefreshOrdered(ms, w, w', rules, mem, values, randoms, was, now);
    var steps := AddsAreSteps(ms, w, qs, w');
  }

  datatype View = View(on: set<Activation>, st: State, count: nat)

  ghost function ViewOf(env: AgendaData): View
    reads env, env.modules`view
  {
    View(env.on, env.Abs(), env.NumberOfActivations)
  }

  /** The outcome of a refresh: the matches without an activation, and no others, have got one each; the
      counter has grown by their number; and on the agendas this was a run of additions. */
  ghost predicate RuleRefreshed(was: Markers, now: Markers, before: View, after: View) {
    && RefreshedAll(was, now, before.on, after.on) && after.count == before.count + |Unmarked(was)|
    && AddsLead(before.st, after.st) && (AllMarked(was) ==> after == before)
  }

  /** Gives every complete match of the rule's disjuncts that has no activation exactly one new one, in
      the order of the disjuncts and their memories; matches that have one keep it, and nothing else is
      added.  If all have one already, as after a first refresh, nothing changes.  On the agendas it is
      a run of additions. */
  method EnvRefresh(env: AgendaData, theRule: Defrule, values: nat -> Evaluation, randoms: nat -> int,
                    ghost rules: seq<Defrule>, ghost mem: seq<Memory>, ghost matches: set<PartialMatch>,
                    ghost sc: Scope)
    requires env.Valid() && theRule.Chained()
    requires rules == Disjuncts(theRule) && Memories(rules, mem) && matches == MatchesIn(mem)
    requires forall i :: 0 <= i < |rules| ==> rules[i].whichModule in env.modules && rules[i] in sc.rules
    requires matches <= sc.bases
    modifies rules`salience, matches`marker, env`NumberOfActivations, env`CurrentTimetag, env`on, env`matches
    modifies env`groups, env.modules, env.on`prev, env.on`next, env.groups
    ensures env.Valid() && env.detached == old(env.detached) && env.matches <= old(env.matches) + sc.bases
    ensures |mem| == |rules|
    ensures AddsEffect(env.modules, old(WorldOf(env, sc.firing, sc.rules, sc.bases)),
                       RefreshRequests(rules, mem, values, randoms), WorldOf(env, sc.firing, sc.rules, sc.bases))
    ensures TagsInOrder(rules, mem, old(MarkersOf(matches)), MarkersOf(matches), old(env.CurrentTimetag),
                        env.CurrentTimetag)
    ensures RuleRefreshed(old(MarkersOf(matches)), MarkersOf(matches), old(ViewOf(env)), ViewOf(env))
    ensures forall a :: a in env.on ==> a in old(env.on) || fresh(a)
    ensures forall g :: g in env.groups ==> g in old(env.groups) || fresh(g)
  {
    hide AgendaData.Valid, AgendaData.Abs, MatchesIn, Memories, Disjuncts, RefreshedAll, AllMarked, Unmarked;
    hide From, Refreshing, AddsEffect, AddsLead, TagsInOrder, WorldOf, MarkersOf, RequestsFor, PairsOf;
    ghost var w := WorldOf(env, sc.firing, sc.rules, sc.bases);
    ghost var was := MarkersOf(matches);
    ActivationsTotal(env);
    ShowsModules(env);
    RefreshingStarts(env, sc, w, values, randoms);
    FromStart(rules, theRule);
    RefreshDisjuncts(env, theRule, values, randoms, rules, mem, matches, sc, w);
    RefreshingMeans(env, sc, w, PairsOf(rules, mem, |rules|), values, randoms);
    ActivationsTotal(env);
    RefreshMeans(env.modules, w, WorldOf(env, sc.firing, sc.rules, sc.bases), rules, mem, matches, values, randoms, was,
                 MarkersOf(matches));
    ShowsModules(env);
  }

  lemma RefreshingStarts(env: AgendaData, sc: Scope, w: World, values: nat -> Evaluation, randoms: nat -> int)
    requires env.Valid() && w == WorldOf(env, sc.firing, sc.rules, sc.bases)
    ensures Refreshing(env, sc, w, [], values, randoms)
  {
    assert RequestsFor([], values, randoms) == [];
  }

  lemma NowAllMarked(was: Markers, now: Markers, before: View, after: View)
    requires RuleRefreshed(was, now, before, after)
    ensures AllMarked(now)
  {
  }

  // A refresh of a rule whose matches all have activations.
  method RefreshAgain(env: AgendaData, theRule: Defrule, values: nat -> Evaluation, randoms: nat -> int,
                      ghost rules: seq<Defrule>, ghost mem: seq<Memory>, ghost matches: set<PartialMatch>,
                      ghost sc: Scope)
    requires env.Valid() && theRule.Chained() && AllMarked(MarkersOf(matches))
    requires rules == Disjuncts(theRule) && Memories(rules, mem) && matches == MatchesIn(mem)
    requires forall i :: 0 <= i < |rules| ==> rules[i].whichModule in env.modules && rules[i] in sc.rules
    requires matches <= sc.bases
    modifies rules`salience, matches`marker, env`NumberOfActivations, env`CurrentTimetag, env`on, env`matches
    modifies env`groups, env.modules, env.on`prev, env.on`next, env.groups
    ensures env.Valid() && env.detached == old(env.detached)
    ensures WorldOf(env, sc.firing, sc.rules, sc.bases) == old(WorldOf(env, sc.firing, sc.rules, sc.bases))
    ensures MarkersOf(matches) == old(MarkersOf(matches)) && ViewOf(env) == old(ViewOf(env))
  {
    hide AgendaData.Valid, AgendaData.Abs, MatchesIn, Memories, Disjuncts, RefreshedAll, AllMarked, AddsLead;
    hide Unmarked, AddsEffect, RefreshRequests, WorldOf;
    ghost var w, now := WorldOf(env, sc.firing, sc.rules, sc.bases), MarkersOf(matches);
    ShowsModules(env);
    AllAre(now);
    EnvRefresh(env, theRule, values, randoms, rules, mem, matches, sc);
    SecondTime(env.modules, w, WorldOf(env, sc.firing, sc.rules, sc.bases), rules, mem, values, randoms);
    assert MarkersOf(matches) == now;
  }

  /** Refreshing a rule twice leads where refreshing it once leads: the second time nothing is added. */
  method RefreshTwice(env: AgendaData, theRule: Defrule, values: nat -> Evaluation, randoms: nat -> int,
                      again: nat -> Evaluation, randomsAgain: nat -> int, ghost rules: seq<Defrule>,
                      ghost mem: seq<Memory>, ghost matches: set<PartialMatch>, ghost sc: Scope)
    requires env.Valid() && theRule.Chained()
    requires rules == Disjuncts(theRule) && Memories(rules, mem) && matches == MatchesIn(mem)
    requires forall i :: 0 <= i < |rules| ==> rules[i].whichModule in env.modules && rules[i] in sc.rules
    requires matches <= sc.bases
    modifies rules`salience, matches`marker, env`NumberOfActivations, env`CurrentTimetag, env`on, env`matches
    modifies env`groups, env.modules, env.on`prev, env.on`next, env.groups
    ensures env.Valid() && env.detached == old(env.detached) && |mem| == |rules|
    ensures AddsEffect(env.modules, old(WorldOf(env, sc.firing, sc.rules, sc.bases)),
                       RefreshRequests(rules, mem, values, randoms), WorldOf(env, sc.firing, sc.rules, sc.bases))
    ensures RuleRefreshed(old(MarkersOf(matches)), MarkersOf(matches), old(ViewOf(env)), ViewOf(env))
  {
    hide AgendaData.Valid, AgendaData.Abs, MatchesIn, Memories, Disjuncts, RefreshedAll, AllMarked, AddsLead;
    hide Unmarked, AddsEffect, RefreshRequests, WorldOf, MarkersOf, RuleRefreshed, ViewOf;
    ghost var was, before := MarkersOf(matches), ViewOf(env);
    EnvRefresh(env, theRule, values, randoms, rules, mem, matches, sc);
    NowAllMarked(was, MarkersOf(matches), before, ViewOf(env));
    RefreshAgain(env, theRule, again, randomsAgain, rules, mem, matches, sc);
  }

  lemma AllAre(was: Markers)
    requires AllMarked(was)
    ensures forall pm :: pm in was ==> was[pm] != null
  {
  }

  lemma SecondTime(ms: seq<DefruleModule>, w: World, w': World, rules: seq<Defrule>, mem: seq<Memory>,
                   values: nat -> Evaluation, randoms: nat -> int)
    requires |rules| == |mem| && |w.st.agendas| == |ms|
    requires forall i :: 0 <= i < |rules| ==> rules[i].whichModule in ms && rules[i] in w.saliences
    requires MatchesIn(mem) <= w.markers.Keys && forall pm :: pm in MatchesIn(mem) ==> w.markers[pm] != null
    requires AddsEffect(ms, w, RefreshRequests(rules, mem, values, randoms), w')
    ensures w' == w
  {
    hide AddsEffect, RefreshRequests, MatchesIn, BasesOf, Answerable;
    RequestsAre(ms, w, rules, mem, values, randoms);
    NothingToAdd(ms, w, RefreshRequests(rules, mem, values, randoms), w');
  }
}
