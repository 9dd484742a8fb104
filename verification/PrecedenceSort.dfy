/** Sorting the table of partial orders: picking nodes without predecessors, resuming where the last one was. */
module PrecedenceSort {
  import opened Orders

  // ---- Counting ----

  ghost function Occurs(s: seq<nat>, x: nat): nat {
    if s == [] then 0 else (if s[0] == x then 1 else 0) + Occurs(s[1..], x)
  }

  // How many entries of s are among the nodes still in the table.
  ghost function CountIn(s: seq<nat>, table: seq<nat>): nat {
    if s == [] then 0 else (if s[0] in table then 1 else 0) + CountIn(s[1..], table)
  }

  lemma {:induction false} CountInZero(s: seq<nat>, table: seq<nat>)
    ensures CountIn(s, table) == 0 <==> forall x :: x in s ==> x !in table
  {
    if s != [] {
      CountInZero(s[1..], table);
      assert forall x :: x in s <==> x == s[0] || x in s[1..];
    }
  }

  lemma {:induction false} CountInLess(s: seq<nat>, table: seq<nat>, less: seq<nat>, x: nat)
    requires x in table && x !in less && forall y :: y in table <==> y == x || y in less
    ensures CountIn(s, table) == CountIn(s, less) + Occurs(s, x)
  {
    if s != [] {
      CountInLess(s[1..], table, less, x);
    }
  }

  lemma {:induction false} CountInAll(s: seq<nat>, table: seq<nat>)
    requires forall x :: x in s ==> x in table
    ensures CountIn(s, table) == |s|
  {
    if s != [] {
      assert s[0] in s;
      CountInAll(s[1..], table);
    }
  }

  lemma {:induction false} OccursIn(s: seq<nat>, x: nat)
    ensures Occurs(s, x) > 0 <==> x in s
  {
    if s != [] {
      OccursIn(s[1..], x);
    }
  }

  // ---- The table ----

  // preds lists the predecessors of each node; suc lists the successors, and says the same the other way round.
  ghost predicate Matching(preds: seq<seq<nat>>, suc: seq<seq<nat>>) {
    && |suc| == |preds|
    && (forall i, x :: 0 <= i < |suc| && x in suc[i] ==> x < |suc|)
    && (forall j, x :: 0 <= j < |preds| && x in preds[j] ==> x < |preds|)
    && (forall i, j :: 0 <= i < |suc| && 0 <= j < |preds| ==> Occurs(suc[i], j) == Occurs(preds[j], i))
  }

  // What is left of the table, what has been put in order, and the counts of predecessors left.
  ghost predicate Sorting(preds: seq<seq<nat>>, pre: seq<nat>, table: seq<nat>, order: seq<nat>) {
    && |pre| == |preds|
    && (forall i, j :: 0 <= i < j < |table| ==> table[i] != table[j])
    && (forall i :: 0 <= i < |table| ==> table[i] < |preds| && table[i] !in order)
    && (forall m :: 0 <= m < |preds| ==> m in table || m in order)
    && Matchable(preds)
    && (forall j :: 0 <= j < |pre| ==> pre[j] == CountIn(preds[j], table))
    && InOrder(preds, order)
  }

  function Without(table: seq<nat>, i: nat): seq<nat>
    requires i < |table|
  {
    table[..i] + table[i + 1..]
  }

  lemma WithoutMembers(table: seq<nat>, i: nat)
    requires i < |table| && forall j, k :: 0 <= j < k < |table| ==> table[j] != table[k]
    ensures table[i] !in Without(table, i)
    ensures forall y :: y in table <==> y == table[i] || y in Without(table, i)
  {
    forall y | y in table ensures y == table[i] || y in Without(table, i) {
      var k :| 0 <= k < |table| && table[k] == y;
      if k < i {
        assert Without(table, i)[k] == y;
      } else if k > i {
        assert Without(table, i)[k - 1] == y;
      }
    }
  }

  // Takes a node without predecessors out of the table and lowers the counts of its successors.
  method Release(ghost preds: seq<seq<nat>>, suc: seq<nat>, pre: seq<nat>, table: seq<nat>, i: nat,
                 ghost order: seq<nat>, ghost sucs: seq<seq<nat>>)
    returns (pre1: seq<nat>)
    requires i < |table| && Matching(preds, sucs) && Sorting(preds, pre, table, order)
    requires table[i] < |preds| == |pre| && suc == sucs[table[i]] && pre[table[i]] == 0
    ensures Sorting(preds, pre1, Without(table, i), order + [table[i]])
  {
    hide Matching, Sorting, InOrder;
    ghost var less := Without(table, i);
    CountsAfter(preds, sucs, pre, table, i, order);
    pre1 := pre;
    var k := 0;
    while k < |suc|
      invariant k <= |suc| && |pre1| == |pre|
      invariant forall j :: 0 <= j < |pre1| ==> pre1[j] == CountIn(preds[j], less) + Occurs(suc[k..], j)
    {
      assert suc[k..][0] == suc[k] && suc[k..][1..] == suc[k + 1..] && suc[k] in suc;
      pre1 := pre1[suc[k] := pre1[suc[k]] - 1];
      k := k + 1;
    }
    assert suc[k..] == [];
    Released(preds, pre, pre1, table, i, order);
  }

  lemma CountsAfter(preds: seq<seq<nat>>, sucs: seq<seq<nat>>, pre: seq<nat>, table: seq<nat>, i: nat, order: seq<nat>)
    requires i < |table| && Matching(preds, sucs) && Sorting(preds, pre, table, order)
    ensures table[i] < |sucs| && |pre| == |preds| && Matchable(preds)
    ensures forall x :: x in sucs[table[i]] ==> x < |pre|
    ensures forall j :: 0 <= j < |pre| ==>
              pre[j] == CountIn(preds[j], Without(table, i)) + Occurs(sucs[table[i]][0..], j)
  {
    assert sucs[table[i]][0..] == sucs[table[i]];
    WithoutMembers(table, i);
    forall j | 0 <= j < |pre| ensures pre[j] == CountIn(preds[j], Without(table, i)) + Occurs(sucs[table[i]], j) {
      CountInLess(preds[j], table, Without(table, i), table[i]);
      assert Occurs(sucs[table[i]], j) == Occurs(preds[j], table[i]);
    }
  }

  lemma Released(preds: seq<seq<nat>>, pre: seq<nat>, pre1: seq<nat>, table: seq<nat>, i: nat, order: seq<nat>)
    requires i < |table| && Sorting(preds, pre, table, order) && table[i] < |pre| && pre[table[i]] == 0
    requires |pre1| == |pre| && forall j :: 0 <= j < |pre1| ==> pre1[j] == CountIn(preds[j], Without(table, i))
    ensures Sorting(preds, pre1, Without(table, i), order + [table[i]])
  {
    hide InOrder;
    WithoutMembers(table, i);
    CountInZero(preds[table[i]], table);
    OrderGrows(preds, order, table[i]);
  }

  ghost predicate Matchable(preds: seq<seq<nat>>) {
    forall j, x :: 0 <= j < |preds| && x in preds[j] ==> x < |preds|
  }

  // The nodes as they stand in the table at first.
  ghost function FirstNodes(n: nat): (r: seq<nat>)
    ensures |r| == n && forall i :: 0 <= i < n ==> r[i] == i
  {
    seq(n, i => i)
  }

  // ---- The order that is found ----

  /** A node at the head of the table that has no predecessor is picked first. */
  lemma HeadFirst(preds: seq<seq<nat>>, order: seq<nat>)
    requires Resumed(preds, order) && Exhausted(preds, order) && |preds| > 0 && preds[0] == []
    ensures order != [] && order[0] == 0
  {
    assert Free(preds, [], 0);
    if order == [] {
      assert false;
    }
    assert order[..0] == [];
    assert FirstFree(preds, order[..0], LastOf(order[..0]), order[0]);
    assert !Sooner(-1, 0, order[0]);
  }

  /** When the order of the table is already right, it is kept. */
  lemma {:induction false} TableOrderKept(preds: seq<seq<nat>>, order: seq<nat>, k: nat)
    requires Resumed(preds, order) && Exhausted(preds, order) && InOrder(preds, FirstNodes(|preds|))
    requires k <= |preds| && k <= |order| && order[..k] == FirstNodes(k)
    ensures order == FirstNodes(|preds|)
    decreases |preds| - k
  {
    hide Exhausted;
    var done := FirstNodes(k);
    if k == |preds| {
      AllTaken(preds, order, k);
    } else {
      assert FirstNodes(|preds|)[..k] == done;
      assert FirstNodes(|preds|)[k] == k;
      assert Free(preds, done, k);
      if |order| == k {
        NotExhausted(preds, order, k);
        assert false;
      }
      assert FirstFree(preds, order[..k], LastOf(order[..k]), order[k]);
      assert LastOf(done) == k - 1;
      assert !Sooner(k - 1, k, order[k]);
      NotBelow(k, order[k]);
      assert order[..k + 1] == order[..k] + [k];
      assert FirstNodes(k + 1) == FirstNodes(k) + [k];
      TableOrderKept(preds, order, k + 1);
    }
  }

  lemma NotExhausted(preds: seq<seq<nat>>, order: seq<nat>, z: nat)
    requires Free(preds, order, z)
    ensures !Exhausted(preds, order)
  {
  }

  // What is not among the first k nodes is not below k.
  lemma NotBelow(k: nat, y: nat)
    ensures y !in FirstNodes(k) ==> y >= k
  {
    if y < k {
      assert FirstNodes(k)[y] == y;
    }
  }

  lemma AllTaken(preds: seq<seq<nat>>, order: seq<nat>, k: nat)
    requires Resumed(preds, order) && k == |preds| <= |order| && order[..k] == FirstNodes(k)
    ensures order == FirstNodes(k)
  {
    if k < |order| {
      assert FirstFree(preds, order[..k], LastOf(order[..k]), order[k]);
      NotBelow(k, order[k]);
      assert false;
    }
    assert order[..k] == order;
  }

  // ---- The search ----

  // No node in a stretch of the table is free of predecessors.
  ghost predicate Blocked(pre: seq<nat>, table: seq<nat>, lo: int, hi: int) {
    forall k :: 0 <= k < |table| && lo <= k < hi ==> table[k] < |pre| && pre[table[k]] > 0
  }

  // The table still has its first order, and the node that was taken last stood in front of position split.
  ghost predicate Divided(table: seq<nat>, last: int, split: nat) {
    && (forall i, j :: 0 <= i < j < |table| ==> table[i] < table[j])
    && (forall k :: 0 <= k < |table| ==> if k < split then table[k] < last else table[k] > last)
  }

  // Where the search stands. Once it has wrapped around, everything from the split on has been passed.
  ghost predicate Searching(pre: seq<nat>, table: seq<nat>, split: nat, start: nat, pop: nat, wrapped: bool) {
    && split <= |table| && pop <= |table|
    && if wrapped then start == split && pop <= split && Blocked(pre, table, split, |table|) &&
        Blocked(pre, table, 0, pop)
       else start == (if split == 0 then |table| else split - 1) && split <= pop && Blocked(pre, table, split, pop)
  }

  /**
   * Puts the nodes in an order that respects all recorded pairs, taking each time the first free node behind the
   * last one taken. It gets through exactly when the pairs have no cycle.
   */
  method SortTable(ghost preds: seq<seq<nat>>, suc: seq<seq<nat>>, pre0: seq<nat>)
    returns (order: seq<nat>, table: seq<nat>)
    requires Matching(preds, suc) && |pre0| == |preds| && forall j :: 0 <= j < |pre0| ==> pre0[j] == |preds[j]|
    ensures InOrder(preds, order)
    ensures Resumed(preds, order) && Exhausted(preds, order)
    ensures table == [] <==> !HasCycle(preds)
    ensures table == [] ==> forall m :: 0 <= m < |preds| ==> m in order
  {
    hide Matching, Sorting, InOrder, HasCycle, FirstNodes, Without, Divided, Searching, Resumed, FirstFree;
    var pre := pre0;
    table := seq(|pre0|, i => i);
    order := [];
    SortingStart(preds, suc, pre, table);
    // Positions stand for links of the list; the position after the last one stands for the null link.
    var start := |table|;
    var pop := 0;
    ghost var split, wrapped := 0, false;
    SearchStarts(preds, pre, table);
    while pop != start
      invariant 0 <= pop <= |table| && 0 <= start && 0 <= split
      invariant Sorting(preds, pre, table, order) && Resumed(preds, order)
      invariant Divided(table, LastOf(order), split) && Searching(pre, table, split, start, pop, wrapped)
      decreases |table|, !wrapped, |table| - pop
    {
      SearchMeans(pre, table, split, start, pop, wrapped);
      if pop == |table| {
        SearchWraps(pre, table, split, start, pop, wrapped);
        pop := 0;
        start := start + 1;
        wrapped := true;
      }
      NodeFits(preds, pre, table, order, pop);
      if pre[table[pop]] == 0 {
        PickedFirst(preds, pre, table, order, split, start, pop, wrapped);
        ResumedMore(preds, order, table[pop]);
        TakenOut(table, LastOf(order), split, pop, order);
        pre := Release(preds, suc[table[pop]], pre, table, pop, order, suc);
        order := order + [table[pop]];
        table := Without(table, pop);
        start := if pop == 0 then |table| else pop - 1;
        split, wrapped := pop, false;
        SearchResumes(pre, table, pop);
      } else {
        SearchPasses(pre, table, split, start, pop, wrapped);
        pop := pop + 1;
      }
    }
    SearchEnds(pre, table, split, start, wrapped);
    NoneFree(preds, pre, table, order);
    Finished(preds, pre, table, order);
  }

  lemma SearchStarts(preds: seq<seq<nat>>, pre: seq<nat>, table: seq<nat>)
    requires table == FirstNodes(|pre|)
    ensures Divided(table, -1, 0) && Searching(pre, table, 0, |table|, 0, false) && Resumed(preds, [])
  {
  }

  lemma SearchMeans(pre: seq<nat>, table: seq<nat>, split: nat, start: nat, pop: nat, wrapped: bool)
    requires Searching(pre, table, split, start, pop, wrapped) && pop != start
    ensures pop == |table| ==> !wrapped && start < |table|
  {
  }

  lemma SearchWraps(pre: seq<nat>, table: seq<nat>, split: nat, start: nat, pop: nat, wrapped: bool)
    requires Searching(pre, table, split, start, pop, wrapped) && pop != start && pop == |table|
    ensures Searching(pre, table, split, start + 1, 0, true) && 0 != start + 1 && |table| > 0
  {
  }

  lemma SearchPasses(pre: seq<nat>, table: seq<nat>, split: nat, start: nat, pop: nat, wrapped: bool)
    requires Searching(pre, table, split, start, pop, wrapped) && pop != start && pop < |table|
    requires table[pop] < |pre| && pre[table[pop]] > 0
    ensures Searching(pre, table, split, start, pop + 1, wrapped)
  {
  }

  lemma SearchResumes(pre: seq<nat>, table: seq<nat>, pop: nat)
    requires pop <= |table|
    ensures Searching(pre, table, pop, if pop == 0 then |table| else pop - 1, pop, false)
  {
  }

  lemma SearchEnds(pre: seq<nat>, table: seq<nat>, split: nat, start: nat, wrapped: bool)
    requires Searching(pre, table, split, start, start, wrapped)
    ensures Blocked(pre, table, 0, |table|)
  {
  }

  lemma FreeIs(preds: seq<seq<nat>>, pre: seq<nat>, table: seq<nat>, order: seq<nat>, z: nat)
    requires Sorting(preds, pre, table, order)
    ensures Free(preds, order, z) <==> z in table && z < |pre| && pre[z] == 0
  {
    hide InOrder;
    if z < |preds| {
      CountInZero(preds[z], table);
      if z in table && pre[z] == 0 {
        forall m | m in preds[z] ensures m in order {
          PredsFit(preds, pre, table, order, z, m);
        }
      }
    }
  }

  lemma PredsFit(preds: seq<seq<nat>>, pre: seq<nat>, table: seq<nat>, order: seq<nat>, z: nat, m: nat)
    requires Sorting(preds, pre, table, order) && z < |preds| && m in preds[z] && m !in table
    ensures m in order
  {
  }

  // The node that the search stops at is the first free one.
  lemma PickedFirst(preds: seq<seq<nat>>, pre: seq<nat>, table: seq<nat>, order: seq<nat>, split: nat, start: nat,
                    pop: nat, wrapped: bool)
    requires Sorting(preds, pre, table, order) && Divided(table, LastOf(order), split)
    requires Searching(pre, table, split, start, pop, wrapped) && pop != start && pop < |table|
    requires table[pop] < |pre| && pre[table[pop]] == 0
    ensures FirstFree(preds, order, LastOf(order), table[pop])
  {
    hide Sorting, Free;
    FreeIs(preds, pre, table, order, table[pop]);
    forall z | Free(preds, order, z) ensures !Sooner(LastOf(order), z, table[pop]) {
      FreeIs(preds, pre, table, order, z);
      var k :| 0 <= k < |table| && table[k] == z;
    }
  }

  lemma TakenOut(table: seq<nat>, last: int, split: nat, pop: nat, order: seq<nat>)
    requires Divided(table, last, split) && pop < |table|
    ensures |Without(table, pop)| == |table| - 1 && LastOf(order + [table[pop]]) == table[pop]
    ensures Divided(Without(table, pop), table[pop], pop)
  {
  }

  lemma NoneFree(preds: seq<seq<nat>>, pre: seq<nat>, table: seq<nat>, order: seq<nat>)
    requires Sorting(preds, pre, table, order) && Blocked(pre, table, 0, |table|)
    ensures Exhausted(preds, order)
  {
    hide Sorting, Free;
    forall z ensures !Free(preds, order, z) {
      FreeIs(preds, pre, table, order, z);
    }
  }

  lemma SortingStart(preds: seq<seq<nat>>, suc: seq<seq<nat>>, pre: seq<nat>, table: seq<nat>)
    requires Matching(preds, suc) && |pre| == |preds| && forall j :: 0 <= j < |pre| ==> pre[j] == |preds[j]|
    requires table == FirstNodes(|pre|)
    ensures Sorting(preds, pre, table, []) && |suc| == |preds|
  {
    NothingOrdered(preds);
    forall m | 0 <= m < |preds| ensures m in table {
      assert table[m] == m;
    }
    forall j | 0 <= j < |pre| ensures pre[j] == CountIn(preds[j], table) {
      CountInAll(preds[j], table);
    }
  }

  lemma NodeFits(preds: seq<seq<nat>>, pre: seq<nat>, table: seq<nat>, order: seq<nat>, i: nat)
    requires Sorting(preds, pre, table, order) && i < |table|
    ensures table[i] < |preds| == |pre|
  {
  }

  lemma Finished(preds: seq<seq<nat>>, pre: seq<nat>, table: seq<nat>, order: seq<nat>)
    requires Sorting(preds, pre, table, order) && Blocked(pre, table, 0, |table|)
    ensures InOrder(preds, order)
    ensures table == [] <==> !HasCycle(preds)
    ensures table == [] ==> forall m :: 0 <= m < |preds| ==> m in order
  {
    if table == [] {
      AllOrderedNoCycle(preds, order);
    } else {
      var knot := set m | m in table;
      assert table[0] in knot;
      forall m | m in knot ensures m < |preds| && Tied(preds, knot, m) {
        var k :| 0 <= k < |table| && table[k] == m;
        CountInZero(preds[m], table);
      }
      KnotHasCycle(preds, knot);
    }
  }
}
