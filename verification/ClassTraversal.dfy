/** Marked depth-first traversals of the class graph: counting and listing subclasses. */
module ClassTraversal {
  import opened Options
  import opened ClassGraph
  import opened ClassDeletion
  import opened Firsts

  const MAX_TRAVERSALS := 256

  /**
   * The classes a traversal visits from the i-th direct subclass of c on, in order, when those in seen are
   * already marked.
   */
  ghost function Visit(g: Graph, deepest: nat, c: Defclass, i: nat, seen: set<Defclass>, inhp: bool): seq<Defclass>
    requires Bounded(g, deepest) && c in g.subs && i <= |g.subs[c]|
    decreases deepest - c.depth, |g.subs[c]| - i
  {
    if i == |g.subs[c]| then []
    else
      var one := VisitOne(g, deepest, g.subs[c][i], seen, inhp);
      one + Visit(g, deepest, c, i + 1, seen + Elems(one), inhp)
  }

  ghost function VisitOne(g: Graph, deepest: nat, s: Defclass, seen: set<Defclass>, inhp: bool): seq<Defclass>
    requires Bounded(g, deepest) && s in g.subs
    decreases deepest - s.depth, |g.subs[s]| + 1
  {
    if s in seen then []
    else [s] + if inhp then Visit(g, deepest, s, 0, seen + {s}, inhp) else []
  }

  // ---- What a traversal visits ----

  lemma {:induction false} VisitOnce(g: Graph, deepest: nat, c: Defclass, i: nat, seen: set<Defclass>, inhp: bool)
    requires Bounded(g, deepest) && c in g.subs && i <= |g.subs[c]|
    ensures Distinct(Visit(g, deepest, c, i, seen, inhp))
    ensures Elems(Visit(g, deepest, c, i, seen, inhp)) !! seen
    decreases deepest - c.depth, |g.subs[c]| - i
  {
    if i != |g.subs[c]| {
      var s := g.subs[c][i];
      var one := VisitOne(g, deepest, s, seen, inhp);
      if s !in seen && inhp {
        VisitOnce(g, deepest, s, 0, seen + {s}, inhp);
        DistinctAppend([s], Visit(g, deepest, s, 0, seen + {s}, inhp));
      }
      VisitOnce(g, deepest, c, i + 1, seen + Elems(one), inhp);
      DistinctAppend(one, Visit(g, deepest, c, i + 1, seen + Elems(one), inhp));
    }
  }

  lemma DistinctAppend(s: seq<Defclass>, t: seq<Defclass>)
    requires Distinct(s) && Distinct(t) && Elems(s) !! Elems(t)
    ensures Distinct(s + t) && Elems(s + t) == Elems(s) + Elems(t)
  {
    forall i, j | 0 <= i < j < |s + t| ensures (s + t)[i] != (s + t)[j] {
      if i < |s| <= j {
        assert s[i] in Elems(s) && t[j - |s|] in Elems(t);
      }
    }
  }

  ghost predicate Closed(g: Graph, from: set<Defclass>, into: set<Defclass>) {
    forall x :: x in from && x in g.subs ==> forall y :: y in g.subs[x] ==> y in into
  }

  // Every direct subclass still to come is marked in the end, and so are all subclasses of what is visited.
  lemma {:induction false} VisitCloses(g: Graph, deepest: nat, c: Defclass, i: nat, seen: set<Defclass>)
    requires Bounded(g, deepest) && c in g.subs && i <= |g.subs[c]|
    ensures var r := Elems(Visit(g, deepest, c, i, seen, true));
            Closed(g, r, seen + r) && forall k :: i <= k < |g.subs[c]| ==> g.subs[c][k] in seen + r
    decreases deepest - c.depth, |g.subs[c]| - i
  {
    hide Closed, Elems, VisitOne;
    if i == |g.subs[c]| {
      NoElems();
      ClosedEmpty(g, seen + {});
    } else {
      var s := g.subs[c][i];
      var one := VisitOne(g, deepest, s, seen, true);
      var rest := Visit(g, deepest, c, i + 1, seen + Elems(one), true);
      VisitOneCloses(g, deepest, s, seen);
      VisitCloses(g, deepest, c, i + 1, seen + Elems(one));
      ClosedJoin(g, Elems(one), Elems(rest), seen);
      ElemsJoin(one, rest);
      forall k | i <= k < |g.subs[c]| ensures g.subs[c][k] in seen + (Elems(one) + Elems(rest)) {
        if k > i {
          assert g.subs[c][k] in seen + Elems(one) + Elems(rest);
        }
      }
    }
  }

  lemma NoElems()
    ensures Elems<Defclass>([]) == {}
  {
  }

  lemma ElemsJoin(s: seq<Defclass>, t: seq<Defclass>)
    ensures Elems(s + t) == Elems(s) + Elems(t)
  {
  }

  lemma {:induction false} VisitOneCloses(g: Graph, deepest: nat, s: Defclass, seen: set<Defclass>)
    requires Bounded(g, deepest) && s in g.subs
    ensures var r := Elems(VisitOne(g, deepest, s, seen, true)); Closed(g, r, seen + r) && s in seen + r
    decreases deepest - s.depth, |g.subs[s]| + 1
  {
    if s !in seen {
      VisitCloses(g, deepest, s, 0, seen + {s});
      var inside := Visit(g, deepest, s, 0, seen + {s}, true);
      assert Elems([s] + inside) == {s} + Elems(inside);
      ClosedWithRoot(g, s, Elems(inside), seen);
    }
  }

  lemma ClosedWithRoot(g: Graph, s: Defclass, a: set<Defclass>, seen: set<Defclass>)
    requires s in g.subs && Closed(g, a, seen + {s} + a)
    requires forall k :: 0 <= k < |g.subs[s]| ==> g.subs[s][k] in seen + {s} + a
    ensures Closed(g, {s} + a, seen + ({s} + a))
  {
    assert seen + {s} + a == seen + ({s} + a);
  }

  lemma ClosedEmpty(g: Graph, into: set<Defclass>)
    ensures Closed(g, {}, into)
  {
  }

  lemma ClosedJoin(g: Graph, a: set<Defclass>, b: set<Defclass>, seen: set<Defclass>)
    requires Closed(g, a, seen + a) && Closed(g, b, seen + a + b)
    ensures Closed(g, a + b, seen + (a + b))
  {
    forall x, y | x in a + b && x in g.subs && y in g.subs[x] ensures y in seen + (a + b) {
      if x in a {
        assert y in seen + a;
      } else {
        assert y in seen + a + b;
      }
    }
  }

  lemma {:induction false} VisitBelow(g: Graph, deepest: nat, c: Defclass, i: nat, seen: set<Defclass>, inhp: bool,
                                      x: Defclass)
    requires Bounded(g, deepest) && c in g.subs && i <= |g.subs[c]|
    requires x in Visit(g, deepest, c, i, seen, inhp)
    ensures x in Below(g, c) && x != c
    ensures !inhp ==> x in g.subs[c]
    decreases deepest - c.depth, |g.subs[c]| - i
  {
    hide Below;
    var s := g.subs[c][i];
    var one := VisitOne(g, deepest, s, seen, inhp);
    BelowChild(g, c, s);
    BelowSelf(g, s);
    if x !in one {
      VisitBelow(g, deepest, c, i + 1, seen + Elems(one), inhp, x);
    } else if x != s {
      VisitBelow(g, deepest, s, 0, seen + {s}, inhp, x);
      BelowDeeper(g, s, x);
    }
  }

  lemma {:induction false} ClosedReaches(g: Graph, r: set<Defclass>, c: Defclass, d: Defclass, n: nat)
    requires Closed(g, r, r) && c in r && Steps(g.subs, c, d, n)
    ensures d in r
    decreases n
  {
    if n != 0 {
      var s :| s in g.subs[c] && Steps(g.subs, s, d, n - 1);
      ClosedReaches(g, r, s, d, n - 1);
    }
  }

  /** A fresh traversal visits each proper descendant exactly once, and nothing else. */
  lemma VisitExact(g: Graph, deepest: nat, c: Defclass)
    requires Bounded(g, deepest) && c in g.subs
    ensures Distinct(Visit(g, deepest, c, 0, {}, true))
    ensures Elems(Visit(g, deepest, c, 0, {}, true)) == Below(g, c) - {c}
  {
    var v := Visit(g, deepest, c, 0, {}, true);
    VisitOnce(g, deepest, c, 0, {}, true);
    VisitCloses(g, deepest, c, 0, {});
    assert {} + Elems(v) == Elems(v);
    forall x | x in v ensures x in Below(g, c) && x != c {
      VisitBelow(g, deepest, c, 0, {}, true, x);
    }
    forall d | d in Below(g, c) && d != c ensures d in Elems(v) {
      BelowIsChildren(g, c, d);
      var s :| s in g.subs[c] && d in Below(g, s);
      var n: nat :| Steps(g.subs, s, d, n);
      ClosedReaches(g, Elems(v), s, d, n);
    }
  }

  /** Without inheritance the visit is the list of direct subclasses. */
  lemma {:induction false} VisitDirect(g: Graph, deepest: nat, c: Defclass, i: nat, seen: set<Defclass>)
    requires Bounded(g, deepest) && c in g.subs && i <= |g.subs[c]| && Distinct(g.subs[c])
    requires seen == Elems(g.subs[c][..i])
    ensures Visit(g, deepest, c, i, seen, false) == g.subs[c][i..]
    decreases |g.subs[c]| - i
  {
    if i != |g.subs[c]| {
      var s := g.subs[c][i];
      assert seen + Elems([s]) == Elems(g.subs[c][..i + 1]);
      VisitDirect(g, deepest, c, i + 1, seen + Elems([s]));
      assert [s] + [] == [s];
    }
  }

  // ---- In which order ----

  // The subclasses from the i-th on, each followed by all that is below it, however often it comes.
  ghost function Unfolds(g: Graph, deepest: nat, c: Defclass, i: nat): seq<Defclass>
    requires Bounded(g, deepest) && c in g.subs && i <= |g.subs[c]|
    decreases deepest - c.depth, |g.subs[c]| - i
  {
    if i == |g.subs[c]| then []
    else [g.subs[c][i]] + Unfolds(g, deepest, g.subs[c][i], 0) + Unfolds(g, deepest, c, i + 1)
  }

  // All that is below a marked class is marked, as far as classes deeper than some depth go.
  ghost predicate MarkedBelow(g: Graph, depth: nat, seen: set<Defclass>) {
    forall x :: x in seen && x in g.subs && x.depth > depth ==> forall y :: y in g.subs[x] ==> y in seen
  }

  lemma {:induction false} UnfoldsMarked(g: Graph, deepest: nat, c: Defclass, i: nat, depth: nat, seen: set<Defclass>)
    requires Bounded(g, deepest) && c in g.subs && i <= |g.subs[c]|
    requires MarkedBelow(g, depth, seen) && c in seen && c.depth > depth
    ensures forall x :: x in Unfolds(g, deepest, c, i) ==> x in seen
    decreases deepest - c.depth, |g.subs[c]| - i
  {
    if i != |g.subs[c]| {
      UnfoldsMarked(g, deepest, g.subs[c][i], 0, depth, seen);
      UnfoldsMarked(g, deepest, c, i + 1, depth, seen);
    }
  }

  /**
   * A traversal visits a class, then all that is first reached below it, and only then its next sibling: the visit is
   * the unfolding of the graph with every class where it comes first.
   */
  lemma {:induction false} VisitInOrder(g: Graph, deepest: nat, c: Defclass, i: nat, seen: set<Defclass>)
    requires Bounded(g, deepest) && c in g.subs && i <= |g.subs[c]| && MarkedBelow(g, c.depth, seen)
    ensures Visit(g, deepest, c, i, seen, true) == New(seen, Unfolds(g, deepest, c, i))
    decreases deepest - c.depth, |g.subs[c]| - i
  {
    hide Closed, Elems, VisitOne, MarkedBelow, New;
    if i == |g.subs[c]| {
      NothingNew(seen, []);
    } else {
      var s := g.subs[c][i];
      var one := VisitOne(g, deepest, s, seen, true);
      var below := [s] + Unfolds(g, deepest, s, 0);
      VisitOneInOrder(g, deepest, s, c.depth, seen);
      NewAppend(seen, below, Unfolds(g, deepest, c, i + 1));
      assert seen + Elems(one) == seen + Elems(below);
      VisitOneCloses(g, deepest, s, seen);
      MarkedMore(g, c.depth, seen, Elems(one));
      VisitInOrder(g, deepest, c, i + 1, seen + Elems(one));
    }
  }

  lemma MarkedMore(g: Graph, depth: nat, seen: set<Defclass>, more: set<Defclass>)
    requires MarkedBelow(g, depth, seen) && Closed(g, more, seen + more)
    ensures MarkedBelow(g, depth, seen + more)
  {
  }

  lemma {:induction false} VisitOneInOrder(g: Graph, deepest: nat, s: Defclass, depth: nat, seen: set<Defclass>)
    requires Bounded(g, deepest) && s in g.subs && s.depth > depth && MarkedBelow(g, depth, seen)
    ensures VisitOne(g, deepest, s, seen, true) == New(seen, [s] + Unfolds(g, deepest, s, 0))
    decreases deepest - s.depth, |g.subs[s]| + 1
  {
    var all := [s] + Unfolds(g, deepest, s, 0);
    if s in seen {
      UnfoldsMarked(g, deepest, s, 0, depth, seen);
      NothingNew(seen, all);
    } else {
      assert MarkedBelow(g, s.depth, seen + {s});
      VisitInOrder(g, deepest, s, 0, seen + {s});
      assert all[1..] == Unfolds(g, deepest, s, 0);
    }
  }

  // ---- The traversals ----

  ghost function Marked(live: set<Defclass>, tvid: nat): set<Defclass>
    reads live`traversalRecord
  {
    set c | c in live && tvid in c.traversalRecord
  }

  lemma ValidIsBounded(env: DefclassData)
    requires env.Valid()
    ensures Bounded(env.Classes(), env.deepest) && env.Classes().subs.Keys == env.live
    ensures forall c :: c in env.live ==> env.Classes().subs[c] == c.directSubclasses
  {
  }

  method SetTraversalID(c: Defclass, tvid: nat)
    modifies c`traversalRecord
    ensures c.traversalRecord == old(c.traversalRecord) + {tvid}
  {
    c.traversalRecord := c.traversalRecord + {tvid};
  }

  lemma ElemsAppend(s: seq<Defclass>, t: seq<Defclass>, seen: set<Defclass>)
    ensures seen + Elems(s + t) == seen + Elems(s) + Elems(t)
  {
  }

  lemma ElemsEmpty(seen: set<Defclass>)
    ensures seen + Elems([]) == seen
  {
  }

  lemma VisitOneUnfolds(g: Graph, deepest: nat, s: Defclass, seen: set<Defclass>, inhp: bool)
    requires Bounded(g, deepest) && s in g.subs
    ensures s in seen ==> VisitOne(g, deepest, s, seen, inhp) == [] && seen + Elems([]) == seen
    ensures s !in seen && (!inhp || g.subs[s] == []) ==>
              VisitOne(g, deepest, s, seen, inhp) == [s] && seen + Elems([s]) == seen + {s}
    ensures s !in seen && inhp ==>
              var inside := Visit(g, deepest, s, 0, seen + {s}, inhp);
              && VisitOne(g, deepest, s, seen, inhp) == [s] + inside
              && seen + Elems(VisitOne(g, deepest, s, seen, inhp)) == seen + {s} + Elems(inside)
  {
  }

  // The arguments every traversal step is called with.
  ghost predicate Ready(env: DefclassData, c: Defclass, tvid: nat, g: Graph, seen: set<Defclass>)
    reads env, env.live
  {
    && env.Valid() && c in env.live && g == env.Classes()
    && Bounded(g, env.deepest) && c in g.subs
    && seen == Marked(env.live, tvid)
  }

  /** Counts the subclasses of a class that are not marked yet, marking them. */
  method CountSubclasses(env: DefclassData, cls: Defclass, inhp: bool, tvid: nat, ghost g: Graph,
                         ghost seen: set<Defclass>)
    returns (cnt: nat)
    requires Ready(env, cls, tvid, g, seen)
    modifies env.live`traversalRecord
    ensures cnt == |Visit(g, env.deepest, cls, 0, seen, inhp)|
    ensures Marked(env.live, tvid) == seen + Elems(Visit(g, env.deepest, cls, 0, seen, inhp))
    ensures forall c, k :: c in env.live && k != tvid ==> (k in c.traversalRecord <==> k in old(c.traversalRecord))
    decreases env.deepest - cls.depth, 0
  {
    hide WellFormed, Bounded, Elems, Marked, VisitOne, DefclassData.Tabled;
    ghost var all := Visit(g, env.deepest, cls, 0, seen, inhp);
    cnt := 0;
    var i := 0;
    ghost var now := seen;
    while i < |cls.directSubclasses|
      invariant i <= |cls.directSubclasses| && now == Marked(env.live, tvid)
      invariant cnt + |Visit(g, env.deepest, cls, i, now, inhp)| == |all|
      invariant now + Elems(Visit(g, env.deepest, cls, i, now, inhp)) == seen + Elems(all)
      invariant forall c, k :: c in env.live && k != tvid ==> (k in c.traversalRecord <==> k in old(c.traversalRecord))
    {
      var subcls := cls.directSubclasses[i];
      SubclassIsLive(env, cls, subcls);
      ghost var one := VisitOne(g, env.deepest, subcls, now, inhp);
      var more := CountSubclass(env, subcls, inhp, tvid, g, now);
      ElemsAppend(one, Visit(g, env.deepest, cls, i + 1, now + Elems(one), inhp), now);
      cnt := cnt + more;
      i := i + 1;
      now := now + Elems(one);
    }
    ElemsEmpty(now);
  }

  // One direct subclass of the loop above.
  method CountSubclass(env: DefclassData, subcls: Defclass, inhp: bool, tvid: nat, ghost g: Graph,
                       ghost seen: set<Defclass>)
    returns (cnt: nat)
    requires Ready(env, subcls, tvid, g, seen)
    modifies env.live`traversalRecord
    ensures cnt == |VisitOne(g, env.deepest, subcls, seen, inhp)|
    ensures Marked(env.live, tvid) == seen + Elems(VisitOne(g, env.deepest, subcls, seen, inhp))
    ensures forall c, k :: c in env.live && k != tvid ==> (k in c.traversalRecord <==> k in old(c.traversalRecord))
    decreases env.deepest - subcls.depth, 1
  {
    hide WellFormed, Bounded, Elems, VisitOne, Visit, DefclassData.Tabled;
    cnt := 0;
    VisitOneUnfolds(g, env.deepest, subcls, seen, inhp);
    if tvid !in subcls.traversalRecord {
      cnt := 1;
      SetTraversalID(subcls, tvid);
      assert Marked(env.live, tvid) == seen + {subcls};
      if inhp && |subcls.directSubclasses| != 0 {
        var more := CountSubclasses(env, subcls, inhp, tvid, g, seen + {subcls});
        cnt := cnt + more;
      }
    }
  }

  // A buffer with some entries from position si (counted from one) on replaced by classes.
  ghost function Stored(was: seq<Defclass?>, si: nat, classes: seq<Defclass>): seq<Defclass?>
    requires 1 <= si && si - 1 + |classes| <= |was|
  {
    was[..si - 1] + classes + was[si - 1 + |classes|..]
  }

  /** Stores the subclasses of a class that are not marked yet in a buffer from position si on, marking them. */
  method StoreSubclasses(mfval: array<Defclass?>, si: nat, env: DefclassData, cls: Defclass, inhp: bool, tvid: nat,
                         ghost g: Graph, ghost seen: set<Defclass>)
    returns (cnt: nat)
    requires Ready(env, cls, tvid, g, seen)
    requires 1 <= si && si - 1 + |Visit(g, env.deepest, cls, 0, seen, inhp)| <= mfval.Length
    modifies mfval, env.live`traversalRecord
    ensures cnt == |Visit(g, env.deepest, cls, 0, seen, inhp)|
    ensures mfval[..] == Stored(old(mfval[..]), si, Visit(g, env.deepest, cls, 0, seen, inhp))
    ensures Marked(env.live, tvid) == seen + Elems(Visit(g, env.deepest, cls, 0, seen, inhp))
    ensures forall c, k :: c in env.live && k != tvid ==> (k in c.traversalRecord <==> k in old(c.traversalRecord))
    decreases env.deepest - cls.depth, 0
  {
    hide WellFormed, Bounded, Elems, Marked, VisitOne, DefclassData.Tabled, Stored;
    ghost var all := Visit(g, env.deepest, cls, 0, seen, inhp);
    ghost var was := mfval[..];
    var i := si;
    var classi := 0;
    ghost var now := seen;
    while classi < |cls.directSubclasses|
      invariant classi <= |cls.directSubclasses| && now == Marked(env.live, tvid)
      invariant si <= i && i + |Visit(g, env.deepest, cls, classi, now, inhp)| == si + |all|
      invariant Stored(mfval[..], i, Visit(g, env.deepest, cls, classi, now, inhp)) == Stored(was, si, all)
      invariant now + Elems(Visit(g, env.deepest, cls, classi, now, inhp)) == seen + Elems(all)
      invariant forall c, k :: c in env.live && k != tvid ==> (k in c.traversalRecord <==> k in old(c.traversalRecord))
    {
      var subcls := cls.directSubclasses[classi];
      SubclassIsLive(env, cls, subcls);
      ghost var one := VisitOne(g, env.deepest, subcls, now, inhp);
      ghost var rest := Visit(g, env.deepest, cls, classi + 1, now + Elems(one), inhp);
      StoredAppend(mfval[..], i, one, rest);
      var more := StoreSubclass(mfval, i, env, subcls, inhp, tvid, g, now);
      ElemsAppend(one, rest, now);
      i := i + more;
      classi := classi + 1;
      now := now + Elems(one);
    }
    ElemsEmpty(now);
    StoredNothing(mfval[..], i);
    cnt := i - si;
  }

  // One direct subclass of the loop above.
  method StoreSubclass(mfval: array<Defclass?>, i: nat, env: DefclassData, subcls: Defclass, inhp: bool, tvid: nat,
                       ghost g: Graph, ghost seen: set<Defclass>)
    returns (cnt: nat)
    requires Ready(env, subcls, tvid, g, seen)
    requires 1 <= i && i - 1 + |VisitOne(g, env.deepest, subcls, seen, inhp)| <= mfval.Length
    modifies mfval, env.live`traversalRecord
    ensures cnt == |VisitOne(g, env.deepest, subcls, seen, inhp)|
    ensures mfval[..] == Stored(old(mfval[..]), i, VisitOne(g, env.deepest, subcls, seen, inhp))
    ensures Marked(env.live, tvid) == seen + Elems(VisitOne(g, env.deepest, subcls, seen, inhp))
    ensures forall c, k :: c in env.live && k != tvid ==> (k in c.traversalRecord <==> k in old(c.traversalRecord))
    decreases env.deepest - subcls.depth, 1
  {
    hide WellFormed, Bounded, Elems, VisitOne, Visit, DefclassData.Tabled, Stored;
    cnt := 0;
    VisitOneUnfolds(g, env.deepest, subcls, seen, inhp);
    StoredNothing(mfval[..], i);
    if tvid !in subcls.traversalRecord {
      SetTraversalID(subcls, tvid);
      assert Marked(env.live, tvid) == seen + {subcls};
      StoredOne(mfval[..], i, subcls);
      mfval[i - 1] := subcls;
      cnt := 1;
      if inhp && |subcls.directSubclasses| != 0 {
        StoredAppend(old(mfval[..]), i, [subcls], Visit(g, env.deepest, subcls, 0, seen + {subcls}, inhp));
        var more := StoreSubclasses(mfval, i + 1, env, subcls, inhp, tvid, g, seen + {subcls});
        cnt := cnt + more;
      }
    }
  }

  lemma StoredNothing(was: seq<Defclass?>, i: nat)
    requires 1 <= i && i - 1 <= |was|
    ensures Stored(was, i, []) == was
  {
  }

  lemma StoredOne(was: seq<Defclass?>, i: nat, c: Defclass)
    requires 1 <= i <= |was|
    ensures Stored(was, i, [c]) == was[i - 1 := c]
  {
  }

  lemma StoredAppend(was: seq<Defclass?>, i: nat, s: seq<Defclass>, t: seq<Defclass>)
    requires 1 <= i && i - 1 + |s| + |t| <= |was|
    ensures |Stored(was, i, s)| == |was|
    ensures Stored(was, i, s + t) == Stored(Stored(was, i, s), i + |s|, t)
  {
  }

  // ---- Traversal ids ----

  /** A traversal id whose bit is clear on every class, or -1 when all are taken. */
  method GetTraversalID(env: DefclassData) returns (id: int)
    requires env.Valid()
    modifies env`CTID, env.live`traversalRecord
    ensures old(env.CTID) >= MAX_TRAVERSALS ==>
              id == -1 && env.CTID == old(env.CTID) && forall c :: c in env.live ==>
                  c.traversalRecord == old(c.traversalRecord)
    ensures old(env.CTID) < MAX_TRAVERSALS ==>
              id == old(env.CTID) && env.CTID == id + 1 && Marked(env.live, id) == {}
    ensures forall c, k :: c in env.live && k != id ==> (k in c.traversalRecord <==> k in old(c.traversalRecord))
  {
    hide WellFormed;
    if env.CTID >= MAX_TRAVERSALS {
      return -1;
    }
    var i := 0;
    while i < |env.ClassTable|
      invariant i <= |env.ClassTable| && env.CTID == old(env.CTID)
      invariant forall c :: c in env.ClassTable[..i] ==> env.CTID !in c.traversalRecord
      invariant forall c, k :: c in env.live && k != env.CTID ==>
                  (k in c.traversalRecord <==> k in old(c.traversalRecord))
    {
      var cls := env.ClassTable[i];
      cls.traversalRecord := cls.traversalRecord - {env.CTID};
      i := i + 1;
    }
    assert env.ClassTable[..i] == env.ClassTable;
    id := env.CTID;
    env.CTID := env.CTID + 1;
  }

  method ReleaseTraversalID(env: DefclassData)
    requires env.CTID > 0
    modifies env`CTID
    ensures env.CTID == old(env.CTID) - 1
  {
    env.CTID := env.CTID - 1;
  }

  // What the caller of a subclass query is promised.
  ghost predicate Lists(g: Graph, deepest: nat, cls: Defclass, inhp: bool, found: seq<Defclass>)
    requires Bounded(g, deepest) && cls in g.subs
  {
    && Distinct(found)
    && (inhp ==> Elems(found) == Below(g, cls) - {cls})
    && (inhp ==> found == New({}, Unfolds(g, deepest, cls, 0)))
    && (!inhp ==> found == g.subs[cls])
  }

  lemma VisitLists(g: Graph, deepest: nat, cls: Defclass, inhp: bool)
    requires Bounded(g, deepest) && cls in g.subs && Distinct(g.subs[cls])
    ensures Lists(g, deepest, cls, inhp, Visit(g, deepest, cls, 0, {}, inhp))
  {
    if inhp {
      VisitExact(g, deepest, cls);
      VisitInOrder(g, deepest, cls, 0, {});
    } else {
      VisitDirect(g, deepest, cls, 0, {});
    }
  }

  /**
   * The subclasses of a class: each proper descendant once, a class followed by what is first reached below it before
   * its next sibling, or the direct subclasses in order. Nothing is produced when no traversal id is left; the marks of
   * traversals under way stay as they are.
   */
  method EnvClassSubclasses(env: DefclassData, cls: Defclass, inhp: bool) returns (result: Option<array<Defclass?>>)
    requires env.Valid() && cls in env.live
    modifies env`CTID, env.live`traversalRecord
    ensures env.Valid() && env.CTID == old(env.CTID)
    ensures Bounded(env.Classes(), env.deepest) && cls in env.Classes().subs
    ensures result.None? <==> env.CTID >= MAX_TRAVERSALS
    ensures result.Some? ==> fresh(result.value) && null !in result.value[..]
    ensures result.Some? ==>
              exists found: seq<Defclass> ::
                Lists(env.Classes(), env.deepest, cls, inhp, found) && result.value[..] == found
    ensures forall c, k :: c in env.live && k < env.CTID ==> (k in c.traversalRecord <==> k in old(c.traversalRecord))
  {
    hide WellFormed, Bounded, Elems, Visit, DefclassData.Tabled, Lists, Stored, GraphOf, Marked;
    ValidIsBounded(env);
    ghost var g := env.Classes();
    DirectDistinct(env, cls);
    VisitLists(g, env.deepest, cls, inhp);
    var counted := CountAll(env, cls, inhp, g);
    if counted == None {
      return None;
    }
    var mfval := new Defclass?[counted.value];
    result := Some(mfval);
    if counted.value == 0 {
      assert mfval[..] == Visit(g, env.deepest, cls, 0, {}, inhp);
      return;
    }
    StoreAll(mfval, env, cls, inhp, g);
  }

  // Counts under an id of its own.
  method CountAll(env: DefclassData, cls: Defclass, inhp: bool, ghost g: Graph) returns (counted: Option<nat>)
    requires env.Valid() && cls in env.live && g == env.Classes() && Bounded(g, env.deepest) && cls in g.subs
    modifies env`CTID, env.live`traversalRecord
    ensures env.CTID == old(env.CTID)
    ensures counted == if env.CTID >= MAX_TRAVERSALS then None else Some(|Visit(g, env.deepest, cls, 0, {}, inhp)|)
    ensures forall c, k :: c in env.live && k < env.CTID ==> (k in c.traversalRecord <==> k in old(c.traversalRecord))
  {
    hide WellFormed, Bounded, Elems, Visit, DefclassData.Tabled, GraphOf, Marked;
    var id := GetTraversalID(env);
    if id == -1 {
      return None;
    }
    var i := CountSubclasses(env, cls, inhp, id, g, {});
    ReleaseTraversalID(env);
    counted := Some(i);
  }

  // Stores under an id of its own.
  method StoreAll(mfval: array<Defclass?>, env: DefclassData, cls: Defclass, inhp: bool, ghost g: Graph)
    requires env.Valid() && cls in env.live && g == env.Classes() && Bounded(g, env.deepest) && cls in g.subs
    requires env.CTID < MAX_TRAVERSALS && mfval.Length == |Visit(g, env.deepest, cls, 0, {}, inhp)|
    modifies env`CTID, env.live`traversalRecord, mfval
    ensures env.CTID == old(env.CTID)
    ensures mfval[..] == Visit(g, env.deepest, cls, 0, {}, inhp)
    ensures forall c, k :: c in env.live && k < env.CTID ==> (k in c.traversalRecord <==> k in old(c.traversalRecord))
  {
    hide WellFormed, Bounded, Elems, Visit, DefclassData.Tabled, GraphOf, Marked, Stored;
    var id := GetTraversalID(env);
    StoredAll(mfval[..], Visit(g, env.deepest, cls, 0, {}, inhp));
    var _ := StoreSubclasses(mfval, 1, env, cls, inhp, id, g, {});
    ReleaseTraversalID(env);
  }

  lemma StoredAll(was: seq<Defclass?>, classes: seq<Defclass>)
    requires |was| == |classes|
    ensures Stored(was, 1, classes) == classes
  {
  }

  lemma DirectDistinct(env: DefclassData, cls: Defclass)
    requires env.Valid() && cls in env.live
    ensures cls in env.Classes().subs && Distinct(env.Classes().subs[cls])
  {
  }
}
