/** Recording the partial orders that inheritance imposes, and finding a class precedence list from them. */
module PrecedenceList {
  import opened Options
  import opened PrecedenceSort
  import opened Precedence

  // ---- The rules ----

  ghost predicate Earlier(s: seq<nat>, c: nat, d: nat) {
    exists i, j :: 0 <= i < j < |s| && s[i] == c && s[j] == d
  }

  /**
   * What must come before what. A class comes before its superclasses; and a class decides the order of its
   * direct superclasses. cls is the class being defined, when it exists already.
   */
  ghost predicate Precedes(h: Hierarchy, table: seq<nat>, cls: Option<nat>, supers: seq<nat>, c: nat, d: nat) {
    || (cls == Some(c) && d in supers)
    || (exists t :: t in table && t < |h| && ((c == t && d in h[t]) || Earlier(h[t], c, d)))
    || Earlier(supers, c, d)
  }

  // ---- The table of partial orders ----

  // The first node for a class.
  function NodeOf(classes: seq<nat>, c: nat): (i: nat)
    requires c in classes
    ensures i < |classes| && classes[i] == c && c !in classes[..i]
  {
    if classes[0] == c then 0
    else
      assert classes == [classes[0]] + classes[1..];
      var i := NodeOf(classes[1..], c) + 1;
      assert classes[..i] == [classes[0]] + classes[1..][..i - 1];
      i
  }

  lemma NodeIsFirst(classes: seq<nat>, i: nat)
    requires i < |classes| && classes[i] !in classes[..i]
    ensures NodeOf(classes, classes[i]) == i
  {
  }

  // Node a is recorded before node j for some pair of classes.
  ghost predicate Paired(classes: seq<nat>, pairs: set<(nat, nat)>, a: nat, j: nat) {
    exists p :: p in pairs && p.0 in classes && p.1 in classes && NodeOf(classes, p.0) == a && NodeOf(classes, p.1) == j
  }

  class PartialOrderTable {
    const classes: seq<nat>
    var pre: seq<nat>
    var suc: seq<seq<nat>>
    ghost var preds: seq<seq<nat>>
    ghost var pairs: set<(nat, nat)>

    constructor (classes: seq<nat>)
      ensures this.classes == classes && Valid() && pairs == {}
    {
      this.classes := classes;
      pre := seq(|classes|, i => 0);
      suc := seq(|classes|, i => []);
      preds := seq(|classes|, i => []);
      pairs := {};
    }

    // Counts and successor lists say the same as the lists of predecessors, and those come from the pairs.
    ghost predicate Valid()
      reads this
    {
      && |pre| == |suc| == |preds| == |classes|
      && Matching(preds, suc)
      && (forall j :: 0 <= j < |pre| ==> pre[j] == |preds[j]|)
      && (forall p :: p in pairs ==> p.0 in classes && p.1 in classes)
      && (forall a, j :: 0 <= j < |preds| && 0 <= a < |preds| ==> (a in preds[j] <==> Paired(classes, pairs, a, j)))
    }

    method FindPartialOrder(cls: nat) returns (i: nat)
      requires cls in classes
      ensures i == NodeOf(classes, cls)
    {
      i := 0;
      while classes[i] != cls
        invariant i < |classes| && cls !in classes[..i] && cls in classes[i..]
        decreases |classes| - i
      {
        assert classes[i..] == [classes[i]] + classes[i + 1..];
        i := i + 1;
      }
      NodeIsFirst(classes, i);
    }

    // Records that one class comes before another.
    method RecordPair(clspo: nat, cls: nat, successor: nat)
      requires Valid() && cls in classes && successor in classes && clspo == NodeOf(classes, cls)
      modifies this
      ensures Valid() && pairs == old(pairs) + {(cls, successor)}
    {
      hide Matching;
      var po := FindPartialOrder(successor);
      MatchingGrows(preds, suc, clspo, po);
      PairedGrows(classes, pairs, cls, successor);
      suc := suc[clspo := [po] + suc[clspo]];
      pre := pre[po := pre[po] + 1];
      preds := preds[po := [clspo] + preds[po]];
      pairs := pairs + {(cls, successor)};
    }

    /** Records that a class comes before each of the classes of a list from a position on. */
    method RecordPartialOrders(cls: nat, successors: seq<nat>, starti: nat)
      requires Valid() && cls in classes && forall k :: 0 <= k < |successors| ==> successors[k] in classes
      modifies this
      ensures Valid() && forall p :: p in pairs <==> p in old(pairs) || PairFrom(cls, successors, starti, p)
    {
      hide Valid;
      var clspo := FindPartialOrder(cls);
      var i := starti;
      while i < |successors|
        invariant starti <= i && Valid()
        invariant forall p :: p in pairs <==> p in old(pairs) || PairUpTo(cls, successors, starti, i, p)
      {
        RecordPair(clspo, cls, successors[i]);
        i := i + 1;
      }
    }
  }

  ghost predicate PairFrom(cls: nat, successors: seq<nat>, starti: nat, p: (nat, nat)) {
    PairUpTo(cls, successors, starti, |successors|, p)
  }

  ghost predicate PairUpTo(cls: nat, successors: seq<nat>, lo: nat, hi: nat, p: (nat, nat)) {
    p.0 == cls && exists k :: lo <= k < hi && k < |successors| && successors[k] == p.1
  }

  lemma MatchingGrows(preds: seq<seq<nat>>, suc: seq<seq<nat>>, a: nat, b: nat)
    requires Matching(preds, suc) && a < |preds| && b < |preds|
    ensures Matching(preds[b := [a] + preds[b]], suc[a := [b] + suc[a]])
  {
  }

  lemma PairedGrows(classes: seq<nat>, pairs: set<(nat, nat)>, c: nat, d: nat)
    requires c in classes && d in classes
    ensures forall a, j :: Paired(classes, pairs + {(c, d)}, a, j) <==>
              Paired(classes, pairs, a, j) || (a == NodeOf(classes, c) && j == NodeOf(classes, d))
  {
    forall a, j
      ensures Paired(classes, pairs + {(c, d)}, a, j) <==>
                Paired(classes, pairs, a, j) || (a == NodeOf(classes, c) && j == NodeOf(classes, d))
    {
      if a == NodeOf(classes, c) && j == NodeOf(classes, d) {
        assert (c, d) in pairs + {(c, d)};
      }
    }
  }
}
