/** Orders in which everything comes after what it needs, and the cycles that rule them out. */
module Orders {
  // ---- Cycles ----

  ghost predicate IsWalk(needs: seq<seq<nat>>, w: seq<nat>) {
    && (forall i :: 0 <= i < |w| ==> w[i] < |needs|)
    && (forall i {:trigger needs[w[i]]} :: 0 <= i < |w| - 1 ==> w[i + 1] in needs[w[i]])
  }

  ghost predicate IsCycle(needs: seq<seq<nat>>, w: seq<nat>) {
    |w| > 0 && IsWalk(needs, w) && w[0] in needs[w[|w| - 1]]
  }

  ghost predicate HasCycle(needs: seq<seq<nat>>) {
    exists w :: IsCycle(needs, w)
  }

  // A set none of whose members can come first.
  ghost predicate Knot(needs: seq<seq<nat>>, knot: set<nat>) {
    && knot != {} && (forall m :: m in knot ==> m < |needs|)
    && (forall m {:trigger Tied(needs, knot, m)} :: m in knot ==> Tied(needs, knot, m))
  }

  ghost predicate Tied(needs: seq<seq<nat>>, knot: set<nat>, m: nat)
    requires m < |needs|
  {
    exists d :: d in needs[m] && d in knot
  }

  // A walk of any length inside a knot.
  lemma {:induction false} KnotHasWalk(needs: seq<seq<nat>>, knot: set<nat>, n: nat) returns (w: seq<nat>)
    requires Knot(needs, knot)
    ensures |w| == n + 1 && IsWalk(needs, w) && forall i :: 0 <= i < |w| ==> w[i] in knot
  {
    if n == 0 {
      var m :| m in knot;
      w := [m];
    } else {
      var v := KnotHasWalk(needs, knot, n - 1);
      assert Tied(needs, knot, v[n - 1]);
      var d :| d in needs[v[n - 1]] && d in knot;
      w := v + [d];
    }
  }

  // More places than values: some value comes twice.
  lemma {:induction false} Pigeonhole(w: seq<nat>, values: set<nat>) returns (i: nat, j: nat)
    requires |w| > |values| && forall k :: 0 <= k < |w| ==> w[k] in values
    ensures i < j < |w| && w[i] == w[j]
    decreases |values|
  {
    var last := w[|w| - 1];
    if last in w[..|w| - 1] {
      j := |w| - 1;
      i :| 0 <= i < j && w[..j][i] == last;
    } else {
      assert forall k :: 0 <= k < |w| - 1 ==> w[k] == w[..|w| - 1][k];
      i, j := Pigeonhole(w[..|w| - 1], values - {last});
    }
  }

  lemma KnotHasCycle(needs: seq<seq<nat>>, knot: set<nat>)
    requires Knot(needs, knot)
    ensures HasCycle(needs)
  {
    var w := KnotHasWalk(needs, knot, |knot|);
    var i, j := Pigeonhole(w, knot);
    var cycle := w[i..j];
    assert w[j - 1 + 1] in needs[w[j - 1]];
    forall k | 0 <= k < |cycle| - 1 ensures cycle[k + 1] in needs[cycle[k]] {
      assert w[i + k + 1] in needs[w[i + k]];
    }
    assert cycle[|cycle| - 1] == w[j - 1] && cycle[0] == w[j];
    assert IsCycle(needs, cycle);
  }

  // ---- Orders ----

  // Nothing twice, and each after everything it needs.
  ghost predicate InOrder(needs: seq<seq<nat>>, order: seq<nat>) {
    && (forall i :: 0 <= i < |order| ==> order[i] < |needs|)
    && (forall i, j :: 0 <= i < j < |order| ==> order[i] != order[j])
    && (forall i, m :: 0 <= i < |order| && m in needs[order[i]] ==> m in order[..i])
  }

  lemma {:induction false} WalkStaysOrdered(needs: seq<seq<nat>>, order: seq<nat>, w: seq<nat>, i: nat, p: nat)
    requires InOrder(needs, order) && IsWalk(needs, w) && i < |w| && p < |order| && order[p] == w[0]
    ensures exists q :: 0 <= q && q + i <= p && order[q] == w[i]
    decreases i
  {
    if i == 0 {
      assert order[p] == w[0];
    } else {
      WalkStaysOrdered(needs, order, w, i - 1, p);
      var q :| 0 <= q && q + (i - 1) <= p && order[q] == w[i - 1];
      assert w[i - 1 + 1] in needs[w[i - 1]];
      assert w[i] in order[..q];
      var k :| 0 <= k < q && order[..q][k] == w[i];
      assert order[k] == w[i];
    }
  }

  // What the end of a walk needs comes before the start of the walk.
  lemma WalkNeeds(needs: seq<seq<nat>>, order: seq<nat>, w: seq<nat>, p: nat, x: nat)
    requires InOrder(needs, order) && IsWalk(needs, w) && |w| > 0 && p < |order| && order[p] == w[0]
    requires x in needs[w[|w| - 1]]
    ensures exists k :: 0 <= k < p && order[k] == x
  {
    WalkStaysOrdered(needs, order, w, |w| - 1, p);
    var q :| 0 <= q && q + (|w| - 1) <= p && order[q] == w[|w| - 1];
    assert x in order[..q];
    var k :| 0 <= k < q && order[..q][k] == x;
    assert order[k] == x;
  }

  /** Nothing on a cycle is ever in an order. */
  lemma CycleNotOrdered(needs: seq<seq<nat>>, order: seq<nat>, w: seq<nat>)
    requires InOrder(needs, order) && IsCycle(needs, w)
    ensures w[0] !in order
  {
    if w[0] in order {
      var p :| 0 <= p < |order| && order[p] == w[0];
      WalkNeeds(needs, order, w, p, w[0]);
      assert false;
    }
  }

  ghost function Unordered(n: nat, order: seq<nat>): set<nat> {
    set m: nat | m < n && m !in order
  }

  lemma OrderGrows(needs: seq<seq<nat>>, order: seq<nat>, i: nat)
    requires InOrder(needs, order) && i < |needs| && i !in order && forall m :: m in needs[i] ==> m in order
    ensures InOrder(needs, order + [i])
  {
    forall k, m | 0 <= k < |order + [i]| && m in needs[(order + [i])[k]] ensures m in (order + [i])[..k] {
      if k < |order| {
        assert (order + [i])[..k] == order[..k];
      } else {
        assert (order + [i])[..k] == order;
      }
    }
  }

  lemma OrderedFits(needs: seq<seq<nat>>, order: seq<nat>)
    requires InOrder(needs, order)
    ensures |order| <= |needs|
  {
    if |order| > |needs| {
      var i, j := Pigeonhole(order, UpTo(|needs|));
      assert false;
    }
  }

  ghost function UpTo(n: nat): (r: set<nat>)
    ensures |r| == n && forall m: nat :: m in r <==> m < n
  {
    if n == 0 then {} else UpTo(n - 1) + {n - 1}
  }

  lemma NothingOrdered(needs: seq<seq<nat>>)
    ensures InOrder(needs, [])
  {
  }

  lemma AllOrderedNoCycle(needs: seq<seq<nat>>, order: seq<nat>)
    requires InOrder(needs, order) && forall m :: 0 <= m < |needs| ==> m in order
    ensures !HasCycle(needs)
  {
    forall w ensures !IsCycle(needs, w) {
      if IsCycle(needs, w) {
        CycleNotOrdered(needs, order, w);
        assert false;
      }
    }
  }

  // ---- Searching round a list ----

  // Not in the order yet, and all its predecessors are.
  ghost predicate Free(preds: seq<seq<nat>>, done: seq<nat>, z: nat) {
    z < |preds| && z !in done && forall m :: m in preds[z] ==> m in done
  }

  // z comes before y when the list is searched from behind the node last to its end and then from its start.
  ghost predicate Sooner(last: int, z: nat, y: nat) {
    if y > last then last < z < y else z > last || z < y
  }

  ghost predicate FirstFree(preds: seq<seq<nat>>, done: seq<nat>, last: int, y: nat) {
    Free(preds, done, y) && forall z :: Free(preds, done, z) ==> !Sooner(last, z, y)
  }

  /** Each node is the first free one behind the node before it, going round the list. */
  ghost predicate Resumed(preds: seq<seq<nat>>, order: seq<nat>) {
    forall k :: 0 <= k < |order| ==> FirstFree(preds, order[..k], LastOf(order[..k]), order[k])
  }

  ghost function LastOf(s: seq<nat>): int {
    if s == [] then -1 else s[|s| - 1]
  }

  ghost predicate Exhausted(preds: seq<seq<nat>>, order: seq<nat>) {
    forall z :: !Free(preds, order, z)
  }

  lemma ResumedMore(preds: seq<seq<nat>>, order: seq<nat>, y: nat)
    requires Resumed(preds, order) && FirstFree(preds, order, LastOf(order), y)
    ensures Resumed(preds, order + [y])
  {
    hide FirstFree;
    var more := order + [y];
    forall k | 0 <= k < |more| ensures FirstFree(preds, more[..k], LastOf(more[..k]), more[k]) {
      if k < |order| {
        assert more[..k] == order[..k];
      } else {
        assert more[..k] == order;
      }
    }
  }

  lemma FirstFreeUnique(preds: seq<seq<nat>>, done: seq<nat>, last: int, x: nat, y: nat)
    requires FirstFree(preds, done, last, x) && FirstFree(preds, done, last, y) && (last < 0 || last in done)
    ensures x == y
  {
    assert !Sooner(last, x, y) && !Sooner(last, y, x);
  }

  /** There is only one such order. */
  lemma {:induction false} ResumedUnique(preds: seq<seq<nat>>, a: seq<nat>, b: seq<nat>, k: nat)
    requires Resumed(preds, a) && Resumed(preds, b) && Exhausted(preds, a) && Exhausted(preds, b)
    requires k <= |a| && k <= |b| && a[..k] == b[..k]
    ensures a == b
    decreases |a| - k
  {
    hide Free, FirstFree;
    if k < |a| && k < |b| {
      assert FirstFree(preds, a[..k], LastOf(a[..k]), a[k]) && FirstFree(preds, b[..k], LastOf(b[..k]), b[k]);
      assert LastOf(a[..k]) < 0 || LastOf(a[..k]) == a[..k][k - 1];
      FirstFreeUnique(preds, a[..k], LastOf(a[..k]), a[k], b[k]);
      assert a[..k + 1] == a[..k] + [a[k]] && b[..k + 1] == b[..k] + [b[k]];
      ResumedUnique(preds, a, b, k + 1);
    } else if k < |a| {
      assert a[..k] == b;
      assert FirstFree(preds, a[..k], LastOf(a[..k]), a[k]);
      FirstFreeIsFree(preds, b, LastOf(b), a[k]);
    } else if k < |b| {
      assert b[..k] == a;
      assert FirstFree(preds, b[..k], LastOf(b[..k]), b[k]);
      FirstFreeIsFree(preds, a, LastOf(a), b[k]);
    } else {
      assert a == a[..k] && b == b[..k];
    }
  }

  lemma FirstFreeIsFree(preds: seq<seq<nat>>, done: seq<nat>, last: int, y: nat)
    requires FirstFree(preds, done, last, y)
    ensures Free(preds, done, y)
  {
  }
}
