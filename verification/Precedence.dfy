/** Class precedence lists: every ancestor once, before its superclasses and in the order they are named. */
module Precedence {
  import opened Orders
  import opened Firsts

  // The direct superclasses of each class. A class is defined after its superclasses, and has each of them once.
  type Hierarchy = seq<seq<nat>>

  ghost predicate Unrepeated(s: seq<nat>) {
    forall i, j :: 0 <= i < j < |s| ==> s[i] != s[j]
  }

  ghost predicate AllBelow(s: seq<nat>, b: nat) {
    forall k :: 0 <= k < |s| ==> s[k] < b
  }

  ghost predicate Defined(h: Hierarchy) {
    forall c :: 0 <= c < |h| ==> AllBelow(h[c], c) && Unrepeated(h[c])
  }

  // d is c or one of its ancestors.
  ghost predicate Reaches(h: Hierarchy, c: nat, d: nat) {
    exists w :: LeadsTo(h, w, c, d)
  }

  ghost predicate LeadsTo(h: Hierarchy, w: seq<nat>, c: nat, d: nat) {
    |w| > 0 && IsWalk(h, w) && w[0] == c && w[|w| - 1] == d
  }

  // ---- Which classes are in the table ----

  // Enters classes and, right after each new one, its ancestors.
  function Entered(h: Hierarchy, table: seq<nat>, supers: seq<nat>, i: nat, b: nat): seq<nat>
    requires Defined(h) && b <= |h| && i <= |supers| && AllBelow(supers, b)
    decreases b, |supers| - i
  {
    if i == |supers| then table
    else Entered(h, EnteredOne(h, table, supers[i]), supers, i + 1, b)
  }

  function EnteredOne(h: Hierarchy, table: seq<nat>, c: nat): seq<nat>
    requires Defined(h) && c < |h|
    decreases c, |h[c]| + 1
  {
    if c in table then table else Entered(h, table + [c], h[c], 0, c)
  }

  lemma {:induction false} EnteredGrows(h: Hierarchy, table: seq<nat>, supers: seq<nat>, i: nat, b: nat)
    requires Defined(h) && b <= |h| && i <= |supers| && AllBelow(supers, b)
    ensures table <= Entered(h, table, supers, i, b)
    ensures Unrepeated(table) ==> Unrepeated(Entered(h, table, supers, i, b))
    decreases b, |supers| - i
  {
    if i < |supers| {
      EnteredOneGrows(h, table, supers[i]);
      EnteredGrows(h, EnteredOne(h, table, supers[i]), supers, i + 1, b);
    }
  }

  lemma {:induction false} EnteredOneGrows(h: Hierarchy, table: seq<nat>, c: nat)
    requires Defined(h) && c < |h|
    ensures table <= EnteredOne(h, table, c)
    ensures Unrepeated(table) ==> Unrepeated(EnteredOne(h, table, c))
    decreases c, |h[c]| + 1
  {
    if c !in table {
      EnteredGrows(h, table + [c], h[c], 0, c);
    }
  }

  // The superclasses of every class from position k of the table on are in the table.
  ghost predicate ClosedFrom(h: Hierarchy, table: seq<nat>, k: nat) {
    forall j, d :: k <= j < |table| && table[j] < |h| && d in h[table[j]] ==> d in table
  }

  lemma {:induction false} EnteredCloses(h: Hierarchy, table: seq<nat>, supers: seq<nat>, i: nat, b: nat)
    requires Defined(h) && b <= |h| && i <= |supers| && AllBelow(supers, b)
    ensures ClosedFrom(h, Entered(h, table, supers, i, b), |table|)
    ensures forall k :: i <= k < |supers| ==> supers[k] in Entered(h, table, supers, i, b)
    decreases b, |supers| - i
  {
    hide ClosedFrom, EnteredOne;
    if i == |supers| {
      ClosedEnd(h, table);
    } else {
      var inner := EnteredOne(h, table, supers[i]);
      var r := Entered(h, inner, supers, i + 1, b);
      EnteredOneGrows(h, table, supers[i]);
      EnteredOneCloses(h, table, supers[i]);
      EnteredGrows(h, inner, supers, i + 1, b);
      EnteredCloses(h, inner, supers, i + 1, b);
      ClosedJoin(h, inner, r, |table|);
      Extended(inner, r, supers[i]);
    }
  }

  lemma {:induction false} EnteredOneCloses(h: Hierarchy, table: seq<nat>, c: nat)
    requires Defined(h) && c < |h|
    ensures ClosedFrom(h, EnteredOne(h, table, c), |table|) && c in EnteredOne(h, table, c)
    decreases c, |h[c]| + 1
  {
    hide ClosedFrom, Entered;
    if c in table {
      ClosedEnd(h, table);
    } else {
      var r := Entered(h, table + [c], h[c], 0, c);
      EnteredGrows(h, table + [c], h[c], 0, c);
      EnteredCloses(h, table + [c], h[c], 0, c);
      Extended(table + [c], r, c);
      ClosedHead(h, r, |table|, c);
    }
  }

  lemma Extended(s: seq<nat>, r: seq<nat>, c: nat)
    requires s <= r && c in s
    ensures c in r
  {
    var k :| 0 <= k < |s| && s[k] == c;
    assert r[k] == c;
  }

  lemma ClosedEnd(h: Hierarchy, table: seq<nat>)
    ensures ClosedFrom(h, table, |table|)
  {
  }

  lemma ClosedHead(h: Hierarchy, r: seq<nat>, k: nat, c: nat)
    requires k < |r| && r[k] == c && c < |h| && ClosedFrom(h, r, k + 1) && forall i :: 0 <= i < |h[c]| ==> h[c][i] in r
    ensures ClosedFrom(h, r, k)
  {
  }

  lemma ClosedJoin(h: Hierarchy, inner: seq<nat>, r: seq<nat>, k: nat)
    requires k <= |inner| && inner <= r && ClosedFrom(h, inner, k) && ClosedFrom(h, r, |inner|)
    ensures ClosedFrom(h, r, k)
  {
    forall j, d | k <= j < |r| && r[j] < |h| && d in h[r[j]] ensures d in r {
      if j < |inner| {
        assert r[j] == inner[j];
        Extended(inner, r, d);
      }
    }
  }

  lemma {:induction false} EnteredReached(h: Hierarchy, table: seq<nat>, supers: seq<nat>, i: nat, b: nat, d: nat)
    requires Defined(h) && b <= |h| && i <= |supers| && AllBelow(supers, b)
    requires d in Entered(h, table, supers, i, b) && d !in table
    ensures exists s :: s in supers && Reaches(h, s, d)
    decreases b, |supers| - i
  {
    hide Reaches, EnteredOne;
    var inner := EnteredOne(h, table, supers[i]);
    if d in inner {
      EnteredOneReached(h, table, supers[i], d);
      assert supers[i] in supers;
    } else {
      EnteredReached(h, inner, supers, i + 1, b, d);
    }
  }

  lemma {:induction false} EnteredOneReached(h: Hierarchy, table: seq<nat>, c: nat, d: nat)
    requires Defined(h) && c < |h| && d in EnteredOne(h, table, c) && d !in table
    ensures Reaches(h, c, d)
    decreases c, |h[c]| + 1
  {
    hide Entered;
    if d == c {
      assert IsWalk(h, [c]) && LeadsTo(h, [c], c, c);
    } else {
      EnteredReached(h, table + [c], h[c], 0, c, d);
      var s :| s in h[c] && Reaches(h, s, d);
      var w :| LeadsTo(h, w, s, d);
      WalkFrom(h, w, c);
      assert LeadsTo(h, [c] + w, c, d);
    }
  }

  lemma WalkFrom(h: Hierarchy, w: seq<nat>, c: nat)
    requires IsWalk(h, w) && |w| > 0 && c < |h| && w[0] in h[c]
    ensures IsWalk(h, [c] + w)
  {
    var v := [c] + w;
    forall i | 0 <= i < |v| - 1 ensures v[i + 1] in h[v[i]] {
      if i > 0 {
        assert w[i - 1 + 1] in h[w[i - 1]];
      }
    }
  }

  lemma {:induction false} ClosedReaches(h: Hierarchy, table: seq<nat>, w: seq<nat>, i: nat)
    requires ClosedFrom(h, table, 0) && IsWalk(h, w) && i < |w| && w[0] in table
    ensures w[i] in table
    decreases i
  {
    if i > 0 {
      ClosedReaches(h, table, w, i - 1);
      assert w[i - 1 + 1] in h[w[i - 1]];
      var j :| 0 <= j < |table| && table[j] == w[i - 1];
    }
  }

  /** The table holds the superclasses and all their ancestors, each once. */
  lemma TableExact(h: Hierarchy, supers: seq<nat>, d: nat)
    requires Defined(h) && AllBelow(supers, |h|)
    ensures Unrepeated(Entered(h, [], supers, 0, |h|))
    ensures d in Entered(h, [], supers, 0, |h|) <==> exists s :: s in supers && Reaches(h, s, d)
  {
    var r := Entered(h, [], supers, 0, |h|);
    EnteredGrows(h, [], supers, 0, |h|);
    EnteredCloses(h, [], supers, 0, |h|);
    if d in r {
      EnteredReached(h, [], supers, 0, |h|, d);
    }
    if exists s :: s in supers && Reaches(h, s, d) {
      var s :| s in supers && Reaches(h, s, d);
      var w :| LeadsTo(h, w, s, d);
      var k :| 0 <= k < |supers| && supers[k] == s;
      ClosedReaches(h, r, w, |w| - 1);
    }
  }

  // ---- In which order ----

  // Every way up from the class, depth first: the class, then all of this for each superclass in turn.
  ghost function Unfold(h: Hierarchy, c: nat): (r: seq<nat>)
    requires Defined(h) && c < |h|
    ensures c in r && forall d :: d in r ==> d <= c
    decreases c, |h[c]| + 1
  {
    [c] + UnfoldAll(h, h[c], 0, c)
  }

  ghost function UnfoldAll(h: Hierarchy, supers: seq<nat>, i: nat, b: nat): (r: seq<nat>)
    requires Defined(h) && b <= |h| && i <= |supers| && AllBelow(supers, b)
    ensures forall d :: d in r ==> d < b
    decreases b, |supers| - i
  {
    if i == |supers| then [] else Unfold(h, supers[i]) + UnfoldAll(h, supers, i + 1, b)
  }

  // What is reached is reached with its superclasses.
  lemma {:induction false} UnfoldCloses(h: Hierarchy, c: nat, d: nat, e: nat)
    requires Defined(h) && c < |h| && d in Unfold(h, c) && e in h[d]
    ensures e in Unfold(h, c)
    decreases c, |h[c]| + 1
  {
    if d == c {
      UnfoldAllHas(h, h[c], 0, c, e);
    } else {
      UnfoldAllCloses(h, h[c], 0, c, d, e);
    }
  }

  lemma {:induction false} UnfoldAllCloses(h: Hierarchy, supers: seq<nat>, i: nat, b: nat, d: nat, e: nat)
    requires Defined(h) && b <= |h| && i <= |supers| && AllBelow(supers, b)
    requires d in UnfoldAll(h, supers, i, b) && e in h[d]
    ensures e in UnfoldAll(h, supers, i, b)
    decreases b, |supers| - i
  {
    if d in Unfold(h, supers[i]) {
      UnfoldCloses(h, supers[i], d, e);
    } else {
      UnfoldAllCloses(h, supers, i + 1, b, d, e);
    }
  }

  lemma {:induction false} UnfoldAllHas(h: Hierarchy, supers: seq<nat>, i: nat, b: nat, e: nat)
    requires Defined(h) && b <= |h| && i <= |supers| && AllBelow(supers, b) && e in supers[i..]
    ensures e in UnfoldAll(h, supers, i, b)
    decreases |supers| - i
  {
    if e != supers[i] {
      assert supers[i..][1..] == supers[i + 1..];
      UnfoldAllHas(h, supers, i + 1, b, e);
    }
  }

  // Every class below b that has been seen has been seen with its superclasses.
  ghost predicate SeenBelow(h: Hierarchy, seen: set<nat>, b: nat) {
    forall c, d :: c in seen && c < b && c < |h| && d in h[c] ==> d in seen
  }

  lemma {:induction false} UnfoldSeen(h: Hierarchy, seen: set<nat>, b: nat, c: nat)
    requires Defined(h) && c < b <= |h| && c in seen && SeenBelow(h, seen, b)
    ensures forall d :: d in Unfold(h, c) ==> d in seen
    decreases c, |h[c]| + 1
  {
    UnfoldAllSeen(h, seen, b, h[c], 0, c);
  }

  lemma {:induction false} UnfoldAllSeen(h: Hierarchy, seen: set<nat>, b: nat, supers: seq<nat>, i: nat, c: nat)
    requires Defined(h) && c <= b <= |h| && i <= |supers| && AllBelow(supers, c) && SeenBelow(h, seen, b)
    requires forall d :: d in supers ==> d in seen
    ensures forall d :: d in UnfoldAll(h, supers, i, c) ==> d in seen
    decreases c, |supers| - i
  {
    if i < |supers| {
      assert supers[i] in supers;
      UnfoldSeen(h, seen, b, supers[i]);
      UnfoldAllSeen(h, seen, b, supers, i + 1, c);
    }
  }

  /**
   * The order in which classes are entered: what comes up first on the ways up from the superclasses, depth first.
   * That a class met again is not gone into makes no difference, since all above it has been entered by then.
   */
  lemma {:induction false} EnteredInOrder(h: Hierarchy, table: seq<nat>, supers: seq<nat>, i: nat, b: nat)
    requires Defined(h) && b <= |h| && i <= |supers| && AllBelow(supers, b) && SeenBelow(h, Elems(table), b)
    ensures Entered(h, table, supers, i, b) == table + New(Elems(table), UnfoldAll(h, supers, i, b))
    decreases b, |supers| - i
  {
    hide EnteredOne, Unfold;
    if i < |supers| {
      var c := supers[i];
      var one, rest := Unfold(h, c), UnfoldAll(h, supers, i + 1, b);
      var inner := EnteredOne(h, table, c);
      EnteredOneInOrder(h, table, c, b);
      SeenMore(h, table, inner, c, b);
      EnteredInOrder(h, inner, supers, i + 1, b);
      NewAppend(Elems(table), one, rest);
      assert Elems(inner) == Elems(table) + Elems(one);
    }
  }

  lemma {:induction false} EnteredOneInOrder(h: Hierarchy, table: seq<nat>, c: nat, b: nat)
    requires Defined(h) && c < b <= |h| && SeenBelow(h, Elems(table), b)
    ensures EnteredOne(h, table, c) == table + New(Elems(table), Unfold(h, c))
    decreases c, |h[c]| + 1
  {
    if c in table {
      UnfoldSeen(h, Elems(table), b, c);
      NothingNew(Elems(table), Unfold(h, c));
    } else {
      assert Elems(table + [c]) == Elems(table) + {c};
      EnteredInOrder(h, table + [c], h[c], 0, c);
      assert Unfold(h, c)[1..] == UnfoldAll(h, h[c], 0, c);
    }
  }

  lemma SeenMore(h: Hierarchy, table: seq<nat>, inner: seq<nat>, c: nat, b: nat)
    requires Defined(h) && c < b <= |h| && SeenBelow(h, Elems(table), b)
    requires inner == table + New(Elems(table), Unfold(h, c))
    ensures SeenBelow(h, Elems(inner), b)
  {
    hide Unfold;
    forall d, e | d in Elems(inner) && d < b && d < |h| && e in h[d] ensures e in Elems(inner) {
      if d !in Elems(table) {
        UnfoldCloses(h, c, d, e);
      }
    }
  }
}
