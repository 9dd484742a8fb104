/** What the refresh of a rule asks for, and in which order. */
module AgendaRequests {
  import opened AgendaHeap
  import opened AgendaEngine
  import opened AgendaWorld

  type Pair = (Defrule, PartialMatch)

  // The complete matches among the first n of a chain, each with the rule it is a match of.
  ghost function ChainPairs(rule: Defrule, chain: seq<PartialMatch>, n: nat): (r: seq<Pair>)
    requires n <= |chain|
    ensures forall p :: p in r ==> p.0 == rule && p.1 in chain && p.1.ownerActivates
    ensures forall k :: 0 <= k < n && chain[k].ownerActivates ==> (rule, chain[k]) in r
  {
    if n == 0 then []
    else ChainPairs(rule, chain, n - 1) + if chain[n - 1].ownerActivates then [(rule, chain[n - 1])] else []
  }

  // Those of the first n chains of a memory.
  ghost function MemoryPairs(rule: Defrule, beta: Memory, n: nat): (r: seq<Pair>)
    requires n <= |beta|
  {
    if n == 0 then [] else MemoryPairs(rule, beta, n - 1) + ChainPairs(rule, beta[n - 1], |beta[n - 1]|)
  }

  // Those of the first n rules.
  ghost function PairsOf(rules: seq<Defrule>, mem: seq<Memory>, n: nat): (r: seq<Pair>)
    requires n <= |rules| == |mem|
  {
    if n == 0 then [] else PairsOf(rules, mem, n - 1) + MemoryPairs(rules[n - 1], mem[n - 1], |mem[n - 1]|)
  }

  // values(t) is what the t-th evaluation comes to, and randoms(t) the t-th random number.
  ghost function RequestsFor(pairs: seq<Pair>, values: nat -> Evaluation, randoms: nat -> int): (r: seq<Request>)
    ensures |r| == |pairs|
    ensures forall t :: 0 <= t < |r| ==> r[t] == Request(pairs[t].0, pairs[t].1, values(t), randoms(t))
  {
    seq(|pairs|, t requires 0 <= t < |pairs| => Request(pairs[t].0, pairs[t].1, values(t), randoms(t)))
  }

  lemma RequestsMore(pairs: seq<Pair>, p: Pair, values: nat -> Evaluation, randoms: nat -> int)
    ensures RequestsFor(pairs + [p], values, randoms) ==
            RequestsFor(pairs, values, randoms) + [Request(p.0, p.1, values(|pairs|), randoms(|pairs|))]
  {
  }

  ghost function Disjuncts(theRule: Defrule): seq<Defrule> {
    [theRule] + theRule.later
  }

  // What the rules' memories hold.
  ghost predicate Memories(rules: seq<Defrule>, mem: seq<Memory>)
    reads rules`leftMemory
  {
    |mem| == |rules| && forall i :: 0 <= i < |rules| ==> rules[i].leftMemory == mem[i]
  }

  // The complete matches among them.
  ghost function MatchesIn(mem: seq<Memory>): set<PartialMatch> {
    set i, b, j | 0 <= i < |mem| && 0 <= b < |mem[i]| && 0 <= j < |mem[i][b]| && mem[i][b][j].ownerActivates
      :: mem[i][b][j]
  }

  ghost predicate InMemory(beta: Memory, pm: PartialMatch) {
    pm.ownerActivates && exists b :: 0 <= b < |beta| && pm in beta[b]
  }

  lemma MatchesAre(mem: seq<Memory>, pm: PartialMatch)
    ensures pm in MatchesIn(mem) <==> exists i :: 0 <= i < |mem| && InMemory(mem[i], pm)
  {
    if i :| 0 <= i < |mem| && InMemory(mem[i], pm) {
      var b :| 0 <= b < |mem[i]| && pm in mem[i][b];
      var j :| 0 <= j < |mem[i][b]| && mem[i][b][j] == pm;
      assert mem[i][b][j] in MatchesIn(mem);
    }
  }

  lemma {:induction false} MemoryPairsAre(rule: Defrule, beta: Memory, n: nat)
    requires n <= |beta|
    ensures forall p :: p in MemoryPairs(rule, beta, n) ==> p.0 == rule && InMemory(beta, p.1)
    ensures forall b, pm :: 0 <= b < n && pm in beta[b] && pm.ownerActivates ==>
              (rule, pm) in MemoryPairs(rule, beta, n)
  {
    if n != 0 {
      MemoryPairsAre(rule, beta, n - 1);
    }
  }

  lemma WholeMemory(rule: Defrule, beta: Memory)
    ensures forall pm :: InMemory(beta, pm) ==> (rule, pm) in MemoryPairs(rule, beta, |beta|)
  {
    hide MemoryPairs;
    MemoryPairsAre(rule, beta, |beta|);
  }

  lemma {:induction false} PairsAreMatches(rules: seq<Defrule>, mem: seq<Memory>, n: nat)
    requires n <= |rules| == |mem|
    ensures forall p :: p in PairsOf(rules, mem, n) ==> p.0 in rules && p.1 in MatchesIn(mem)
    ensures forall i, pm :: 0 <= i < n && InMemory(mem[i], pm) ==> (rules[i], pm) in PairsOf(rules, mem, n)
  {
    hide MemoryPairs, MatchesIn, InMemory;
    if n != 0 {
      PairsAreMatches(rules, mem, n - 1);
      MemoryPairsAre(rules[n - 1], mem[n - 1], |mem[n - 1]|);
      WholeMemory(rules[n - 1], mem[n - 1]);
      forall p | p in PairsOf(rules, mem, n) ensures p.0 in rules && p.1 in MatchesIn(mem) {
        MatchesAre(mem, p.1);
      }
    }
  }

  // ---------------------------------------------------------------- in which order

  // A place in the memories: the disjunct, the chain, and the position there.
  datatype Place = Place(i: nat, b: nat, j: nat)

  ghost predicate IsPlace(mem: seq<Memory>, p: Place) {
    p.i < |mem| && p.b < |mem[p.i]| && p.j < |mem[p.i][p.b]| && mem[p.i][p.b][p.j].ownerActivates
  }

  ghost function MatchAt(mem: seq<Memory>, p: Place): PartialMatch
    requires IsPlace(mem, p)
  {
    mem[p.i][p.b][p.j]
  }

  ghost predicate Earlier(p: Place, q: Place) {
    p.i < q.i || (p.i == q.i && (p.b < q.b || (p.b == q.b && p.j < q.j)))
  }

  // The match stands here, and nowhere earlier.
  ghost predicate FirstPlace(mem: seq<Memory>, p: Place, pm: PartialMatch) {
    && IsPlace(mem, p) && MatchAt(mem, p) == pm
    && forall q :: IsPlace(mem, q) && MatchAt(mem, q) == pm ==> !Earlier(q, p)
  }

  ghost predicate StandsBefore(mem: seq<Memory>, pm: PartialMatch, qm: PartialMatch) {
    exists p, q :: Earlier(p, q) && FirstPlace(mem, p, pm) && FirstPlace(mem, q, qm)
  }

  /**
   * The tags of new activations follow the memories: of two matches without an activation, the one that stands
   * earlier gets the smaller tag, and the tags given out are those from the old counter up to the new one. The
   * activation is for the disjunct in whose memory the match stands first.
   */
  ghost predicate TagsInOrder(rules: seq<Defrule>, mem: seq<Memory>, was: Markers, now: Markers, first: nat,
                              next: nat)
    requires |rules| == |mem|
  {
    && first <= next && was.Keys == now.Keys == MatchesIn(mem)
    && (forall pm :: pm in was && was[pm] == null ==> now[pm] != null && first <= now[pm].timetag < next)
    && (forall t: nat :: first <= t < next ==> GivenOut(was, now, t))
    && (forall pm, qm :: pm in was && qm in was && was[pm] == null && was[qm] == null && StandsBefore(mem, pm, qm) ==>
          now[pm].timetag < now[qm].timetag)
    && (forall pm, p :: pm in was && was[pm] == null && FirstPlace(mem, p, pm) ==> now[pm].theRule == rules[p.i])
  }

  ghost predicate GivenOut(was: Markers, now: Markers, t: nat) {
    exists pm :: pm in was && was[pm] == null && pm in now && now[pm] != null && now[pm].timetag == t
  }

  // ---------------------------------------------------------------- which request makes an activation

  // How many of the first k bases are in the set, each counted once.
  ghost function Fresh(bs: seq<PartialMatch>, bare: set<PartialMatch>, k: nat): nat
    requires k <= |bs|
  {
    if k == 0 then 0 else (if bs[0] in bare then 1 else 0) + Fresh(bs[1..], bare - {bs[0]}, k - 1)
  }

  lemma {:induction false} FreshGrows(bs: seq<PartialMatch>, bare: set<PartialMatch>, k: nat, l: nat)
    requires k <= l <= |bs|
    ensures Fresh(bs, bare, k) <= Fresh(bs, bare, l)
    ensures k < l && bs[k] in bare && bs[k] !in bs[..k] ==> Fresh(bs, bare, k) < Fresh(bs, bare, l)
  {
    if k != 0 {
      assert k < |bs| ==> bs[1..][k - 1] == bs[k] && bs[1..][..k - 1] == bs[..k][1..] && bs[..k][0] == bs[0];
      FreshGrows(bs[1..], bare - {bs[0]}, k - 1, l - 1);
    }
  }

  // Every number below the total is reached at the first place of some basis of the set.
  lemma {:induction false} FreshReaches(bs: seq<PartialMatch>, bare: set<PartialMatch>, n: nat) returns (k: nat)
    requires n < Fresh(bs, bare, |bs|)
    ensures k < |bs| && bs[k] in bare && bs[k] !in bs[..k] && Fresh(bs, bare, k) == n
    decreases |bs|
  {
    if bs[0] in bare && n == 0 {
      k := 0;
    } else {
      k := FreshReaches(bs[1..], bare - {bs[0]}, if bs[0] in bare then n - 1 else n);
      k := k + 1;
      assert bs[..k] == [bs[0]] + bs[1..][..k - 1];
    }
  }

  ghost function Bases(qs: seq<Request>): (r: seq<PartialMatch>)
    ensures |r| == |qs| && forall k :: 0 <= k < |qs| ==> r[k] == qs[k].basis
  {
    seq(|qs|, k requires 0 <= k < |qs| => qs[k].basis)
  }

  // The matches of a world without an activation.
  ghost function BareIn(w: World): set<PartialMatch> {
    set pm | pm in w.markers && w.markers[pm] == null
  }

  // Requests that the world can answer.
  ghost predicate Answerable(ms: seq<DefruleModule>, w: World, qs: seq<Request>) {
    && |w.st.agendas| == |ms|
    && forall k :: 0 <= k < |qs| ==>
         qs[k].rule in w.saliences && qs[k].rule.whichModule in ms && qs[k].basis in w.markers
  }

  lemma OneAdded(ms: seq<DefruleModule>, w: World, q: Request, now: Markers)
    requires Made(ms, w, q, now) && Answerable(ms, w, [q])
    ensures var w1 := AddedNow(ms, w, q, now);
            && BareIn(w1) == BareIn(w) - {q.basis} && |w1.st.agendas| == |w.st.agendas|
            && w1.st.nextTag == w.st.nextTag + (if q.basis in BareIn(w) then 1 else 0)
            && w1.saliences.Keys == w.saliences.Keys && w1.markers.Keys == w.markers.Keys
            && (q.basis in BareIn(w) ==>
                q.basis in now && now[q.basis] != null && now[q.basis].timetag == w.st.nextTag &&
                now[q.basis].theRule == q.rule)
  {
    hide NewSalience;
    assert [q][0] == q;
    assert Bare(ms, w, q) <==> q.basis in BareIn(w);
  }

  /** The tag of a new activation is the counter of the start and the number of activations made before it. */
  lemma {:induction false} AddsTags(ms: seq<DefruleModule>, w: World, qs: seq<Request>, w': World, k: nat)
    requires AddsEffect(ms, w, qs, w') && Answerable(ms, w, qs) && k <= |qs|
    ensures w'.st.nextTag == w.st.nextTag + Fresh(Bases(qs), BareIn(w), |qs|)
    ensures k < |qs| && Bases(qs)[k] in BareIn(w) && Bases(qs)[k] !in Bases(qs)[..k] ==>
              && Bases(qs)[k] in w'.markers && w'.markers[Bases(qs)[k]] != null
              && w'.markers[Bases(qs)[k]].timetag == w.st.nextTag + Fresh(Bases(qs), BareIn(w), k)
              && w'.markers[Bases(qs)[k]].theRule == qs[k].rule
    decreases |qs|
  {
    hide AddedNow, BareIn;
    if qs != [] {
      var bs, w1 := Bases(qs), AddedNow(ms, w, qs[0], w'.markers);
      assert Answerable(ms, w, [qs[0]]);
      OneAdded(ms, w, qs[0], w'.markers);
      assert bs[1..] == Bases(qs[1..]);
      assert k > 0 ==> bs[..k] == [bs[0]] + bs[1..][..k - 1];
      AddsTags(ms, w1, qs[1..], w', if k > 0 then k - 1 else 0);
    }
  }

  // The tag of the activation made for the first request with a basis.
  lemma FirstTagged(ms: seq<DefruleModule>, w: World, qs: seq<Request>, w': World, k: nat)
    requires AddsEffect(ms, w, qs, w') && Answerable(ms, w, qs) && k < |qs| && qs[k].basis in BareIn(w)
    requires forall l :: 0 <= l < k ==> qs[l].basis != qs[k].basis
    ensures var pm := qs[k].basis;
            && pm in w'.markers && w'.markers[pm] != null
            && w'.markers[pm].timetag == w.st.nextTag + Fresh(Bases(qs), BareIn(w), k) < w'.st.nextTag
            && w'.markers[pm].theRule == qs[k].rule
  {
    hide AddsEffect, BareIn, Fresh, Answerable;
    AddsTags(ms, w, qs, w', k);
    FreshGrows(Bases(qs), BareIn(w), k, |qs|);
  }

  lemma {:induction false} FirstRequest(qs: seq<Request>, pm: PartialMatch) returns (k: nat)
    requires exists l :: 0 <= l < |qs| && qs[l].basis == pm
    ensures k < |qs| && qs[k].basis == pm && forall l :: 0 <= l < k ==> qs[l].basis != pm
  {
    if qs[0].basis == pm {
      k := 0;
    } else {
      var l :| 0 <= l < |qs| && qs[l].basis == pm;
      assert qs[1..][l - 1].basis == pm;
      k := FirstRequest(qs[1..], pm);
      k := k + 1;
      assert forall l :: 1 <= l < k ==> qs[l] == qs[1..][l - 1];
    }
  }

  // ---------------------------------------------------------------- which place a request is for

  // How many requests come before a place.
  ghost function IndexOf(rules: seq<Defrule>, mem: seq<Memory>, p: Place): nat
    requires |rules| == |mem| && IsPlace(mem, p)
  {
    |PairsOf(rules, mem, p.i)| + |MemoryPairs(rules[p.i], mem[p.i], p.b)| + |ChainPairs(rules[p.i], mem[p.i][p.b], p.j)|
  }

  lemma {:induction false} ChainPrefix(rule: Defrule, chain: seq<PartialMatch>, j: nat, n: nat)
    requires j <= n <= |chain|
    ensures ChainPairs(rule, chain, j) <= ChainPairs(rule, chain, n)
    ensures j < n && chain[j].ownerActivates ==>
              && |ChainPairs(rule, chain, j)| < |ChainPairs(rule, chain, n)|
              && ChainPairs(rule, chain, n)[|ChainPairs(rule, chain, j)|] == (rule, chain[j])
  {
    if j < n {
      ChainPrefix(rule, chain, j, n - 1);
    }
  }

  lemma {:induction false} MemoryPrefix(rule: Defrule, beta: Memory, b: nat, n: nat)
    requires b <= n <= |beta|
    ensures MemoryPairs(rule, beta, b) <= MemoryPairs(rule, beta, n)
    ensures b < n ==> MemoryPairs(rule, beta, b) + ChainPairs(rule, beta[b], |beta[b]|) <= MemoryPairs(rule, beta, n)
  {
    if b < n {
      MemoryPrefix(rule, beta, b, n - 1);
    }
  }

  lemma {:induction false} PairsPrefix(rules: seq<Defrule>, mem: seq<Memory>, i: nat, n: nat)
    requires i <= n <= |rules| == |mem|
    ensures PairsOf(rules, mem, i) <= PairsOf(rules, mem, n)
    ensures i < n ==> PairsOf(rules, mem, i) + MemoryPairs(rules[i], mem[i], |mem[i]|) <= PairsOf(rules, mem, n)
  {
    if i < n {
      PairsPrefix(rules, mem, i, n - 1);
    }
  }

  // The request for a place, and that it comes before those for later places.
  lemma PlaceAsked(rules: seq<Defrule>, mem: seq<Memory>, p: Place)
    requires |rules| == |mem| && IsPlace(mem, p)
    ensures var pairs, k := PairsOf(rules, mem, |rules|), IndexOf(rules, mem, p);
            k < |pairs| && pairs[k] == (rules[p.i], MatchAt(mem, p))
    ensures IndexOf(rules, mem, p) < |PairsOf(rules, mem, p.i + 1)|
    ensures IndexOf(rules, mem, p) <
            |PairsOf(rules, mem, p.i)| + |MemoryPairs(rules[p.i], mem[p.i], p.b + 1)|
  {
    var rule, beta, chain := rules[p.i], mem[p.i], mem[p.i][p.b];
    ChainPrefix(rule, chain, p.j, |chain|);
    MemoryPrefix(rule, beta, p.b, |beta|);
    MemoryPrefix(rule, beta, p.b + 1, |beta|);
    PairsPrefix(rules, mem, p.i, |rules|);
    assert PairsOf(rules, mem, p.i + 1) == PairsOf(rules, mem, p.i) + MemoryPairs(rule, beta, |beta|);
    assert MemoryPairs(rule, beta, p.b + 1) == MemoryPairs(rule, beta, p.b) + ChainPairs(rule, chain, |chain|);
  }

  lemma EarlierAsked(rules: seq<Defrule>, mem: seq<Memory>, p: Place, q: Place)
    requires |rules| == |mem| && IsPlace(mem, p) && IsPlace(mem, q) && Earlier(p, q)
    ensures IndexOf(rules, mem, p) < IndexOf(rules, mem, q)
  {
    hide PairsOf, MemoryPairs, ChainPairs;
    PlaceAsked(rules, mem, p);
    if p.i < q.i {
      PairsPrefix(rules, mem, p.i + 1, q.i);
    } else if p.b < q.b {
      MemoryPrefix(rules[p.i], mem[p.i], p.b + 1, q.b);
    } else {
      ChainPrefix(rules[p.i], mem[p.i][p.b], p.j, q.j);
    }
  }

  // Every request is for some place.
  lemma {:induction false} ChainAsked(rule: Defrule, chain: seq<PartialMatch>, n: nat, k: nat) returns (j: nat)
    requires n <= |chain| && k < |ChainPairs(rule, chain, n)|
    ensures j < n && chain[j].ownerActivates && k == |ChainPairs(rule, chain, j)|
  {
    if k < |ChainPairs(rule, chain, n - 1)| {
      j := ChainAsked(rule, chain, n - 1, k);
    } else {
      j := n - 1;
    }
  }

  lemma {:induction false} MemoryAsked(rule: Defrule, beta: Memory, n: nat, k: nat) returns (b: nat, j: nat)
    requires n <= |beta| && k < |MemoryPairs(rule, beta, n)|
    ensures b < n && j < |beta[b]| && beta[b][j].ownerActivates
    ensures k == |MemoryPairs(rule, beta, b)| + |ChainPairs(rule, beta[b], j)|
  {
    if k < |MemoryPairs(rule, beta, n - 1)| {
      b, j := MemoryAsked(rule, beta, n - 1, k);
    } else {
      b := n - 1;
      j := ChainAsked(rule, beta[b], |beta[b]|, k - |MemoryPairs(rule, beta, b)|);
    }
  }

  lemma {:induction false} Asked(rules: seq<Defrule>, mem: seq<Memory>, n: nat, k: nat) returns (p: Place)
    requires n <= |rules| == |mem| && k < |PairsOf(rules, mem, n)|
    ensures p.i < n && IsPlace(mem, p) && k == IndexOf(rules, mem, p)
  {
    if k < |PairsOf(rules, mem, n - 1)| {
      p := Asked(rules, mem, n - 1, k);
    } else {
      var b, j := MemoryAsked(rules[n - 1], mem[n - 1], |mem[n - 1]|, k - |PairsOf(rules, mem, n - 1)|);
      p := Place(n - 1, b, j);
    }
  }

  // The first place of a match is where it is asked for first.
  lemma FirstAsked(rules: seq<Defrule>, mem: seq<Memory>, p: Place, pm: PartialMatch)
    requires |rules| == |mem| && FirstPlace(mem, p, pm)
    ensures var pairs, k := PairsOf(rules, mem, |rules|), IndexOf(rules, mem, p);
            k < |pairs| && pairs[k].1 == pm && forall l :: 0 <= l < k ==> pairs[l].1 != pm
  {
    hide PairsOf, MemoryPairs, ChainPairs, IndexOf;
    var pairs, k := PairsOf(rules, mem, |rules|), IndexOf(rules, mem, p);
    PlaceAsked(rules, mem, p);
    forall l | 0 <= l < k ensures pairs[l].1 != pm {
      var q := Asked(rules, mem, |rules|, l);
      PlaceAsked(rules, mem, q);
      if Earlier(p, q) {
        EarlierAsked(rules, mem, p, q);
      }
    }
  }
}
