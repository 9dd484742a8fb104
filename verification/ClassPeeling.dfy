/** The order in which deleting a class with its subclasses takes classes away, and where it stops. */
module ClassPeeling {
  import opened ClassGraph
  import opened Firsts

  // The class reached by going down to the first subclass that is left, again and again.
  ghost function FirstLeaf(g: Graph, deepest: nat, live: set<Defclass>, c: Defclass): (l: Defclass)
    requires Bounded(g, deepest) && c in g.subs && c in live
    ensures l in live && l in g.subs && Keep(g.subs[l], live) == [] && (l == c || c.depth < l.depth)
    decreases deepest - c.depth
  {
    var left := Keep(g.subs[c], live);
    if left == [] then c
    else
      assert left[0] in left;
      FirstLeaf(g, deepest, live, left[0])
  }

  /**
   * What is left of the classes when the first leaf below c is taken away as long as it is free, up to and
   * including c itself.
   */
  ghost function Peeled(g: Graph, deepest: nat, live: set<Defclass>, c: Defclass,
                        free: set<Defclass>): (r: set<Defclass>)
    requires Bounded(g, deepest) && c in g.subs && c in live
    ensures r <= live
    decreases |live|
  {
    var l := FirstLeaf(g, deepest, live, c);
    if l !in free then live
    else if l == c then live - {c}
    else Peeled(g, deepest, live - {l}, c, free)
  }

  // When c is still there, the first leaf below it is held.
  lemma {:induction false} PeelStops(g: Graph, deepest: nat, live: set<Defclass>, c: Defclass, free: set<Defclass>)
    requires Bounded(g, deepest) && c in g.subs && c in live
    ensures var r := Peeled(g, deepest, live, c, free); c in r ==> FirstLeaf(g, deepest, r, c) !in free
    decreases |live|
  {
    var l := FirstLeaf(g, deepest, live, c);
    if l in free && l != c {
      PeelStops(g, deepest, live - {l}, c, free);
    }
  }

  // Taking away some other class leaves the first member of a list where it is.
  lemma {:induction false} KeepFirst<T>(s: seq<T>, live: set<T>, x: T)
    requires Keep(s, live) != [] && x != Keep(s, live)[0]
    ensures Keep(s, live - {x}) != [] && Keep(s, live - {x})[0] == Keep(s, live)[0]
  {
    if s[0] !in live {
      KeepFirst(s[1..], live, x);
    }
  }

  // Working on the first subclass first makes no difference.
  lemma {:induction false} PeelThrough(g: Graph, deepest: nat, live: set<Defclass>, c: Defclass, sub: Defclass,
                                       free: set<Defclass>)
    requires Bounded(g, deepest) && c in g.subs && c in live && sub in live && sub in g.subs && c.depth < sub.depth
    requires Keep(g.subs[c], live) != [] && Keep(g.subs[c], live)[0] == sub
    ensures var r := Peeled(g, deepest, live, sub, free);
            c in r && Peeled(g, deepest, r, c, free) == Peeled(g, deepest, live, c, free)
    ensures var r := Peeled(g, deepest, live, sub, free);
            sub in r ==> Keep(g.subs[c], r) != [] && Keep(g.subs[c], r)[0] == sub
    decreases |live|
  {
    var l := FirstLeaf(g, deepest, live, sub);
    assert l == FirstLeaf(g, deepest, live, c);
    if l in free && l != sub {
      KeepFirst(g.subs[c], live, l);
      PeelThrough(g, deepest, live - {l}, c, sub, free);
    }
  }

  // Once the first subclass is held up, so is the class.
  lemma PeelHeld(g: Graph, deepest: nat, live: set<Defclass>, c: Defclass, sub: Defclass, free: set<Defclass>)
    requires Bounded(g, deepest) && c in g.subs && c in live && sub in live && sub in g.subs
    requires Keep(g.subs[c], live) != [] && Keep(g.subs[c], live)[0] == sub
    requires FirstLeaf(g, deepest, live, sub) !in free
    ensures Peeled(g, deepest, live, c, free) == live
  {
  }

  // The graph that is left gives the same answers.
  lemma {:induction false} FirstLeafReduced(g: Graph, live: set<Defclass>, g1: Graph, live1: set<Defclass>,
                                            deepest: nat, now: set<Defclass>, c: Defclass)
    requires Bounded(g, deepest) && Bounded(g1, deepest) && Reduced(g, live, g1, live1) && now <= live1 && c in now
    ensures c in g.subs && c in g1.subs && FirstLeaf(g1, deepest, now, c) == FirstLeaf(g, deepest, now, c)
    decreases deepest - c.depth
  {
    KeepKeep(g.subs[c], live1, now);
    var left := Keep(g.subs[c], now);
    if left != [] {
      assert left[0] in left;
      FirstLeafReduced(g, live, g1, live1, deepest, now, left[0]);
    }
  }

  lemma {:induction false} PeeledReduced(g: Graph, live: set<Defclass>, g1: Graph, live1: set<Defclass>, deepest: nat,
                                         now: set<Defclass>, c: Defclass, free: set<Defclass>)
    requires Bounded(g, deepest) && Bounded(g1, deepest) && Reduced(g, live, g1, live1) && now <= live1 && c in now
    ensures c in g.subs && c in g1.subs && Peeled(g1, deepest, now, c, free) == Peeled(g, deepest, now, c, free)
    decreases |now|
  {
    hide Reduced, Keep, Bounded;
    FirstLeafReduced(g, live, g1, live1, deepest, now, c);
    var l := FirstLeaf(g, deepest, now, c);
    if l in free && l != c {
      PeeledReduced(g, live, g1, live1, deepest, now - {l}, c, free);
    }
  }

  // Only what is free among the classes matters.
  lemma {:induction false} PeeledFree(g: Graph, deepest: nat, live: set<Defclass>, c: Defclass, free: set<Defclass>,
                                      free1: set<Defclass>)
    requires Bounded(g, deepest) && c in g.subs && c in live
    requires forall d :: d in live ==> (d in free <==> d in free1)
    ensures Peeled(g, deepest, live, c, free) == Peeled(g, deepest, live, c, free1)
    decreases |live|
  {
    var l := FirstLeaf(g, deepest, live, c);
    if l in free && l != c {
      PeeledFree(g, deepest, live - {l}, c, free, free1);
    }
  }

  /** Something is taken away exactly when the first leaf is free. */
  lemma PeelsIff(g: Graph, deepest: nat, live: set<Defclass>, c: Defclass, free: set<Defclass>)
    requires Bounded(g, deepest) && c in g.subs && c in live
    ensures Peeled(g, deepest, live, c, free) == live <==> FirstLeaf(g, deepest, live, c) !in free
  {
    var l := FirstLeaf(g, deepest, live, c);
    if l in free {
      assert l !in Peeled(g, deepest, live, c, free);
    }
  }

  // Everything at or below c in the order in which it would go if nothing were held; c comes last.
  ghost function PeelOrder(g: Graph, deepest: nat, live: set<Defclass>, c: Defclass): (r: seq<Defclass>)
    requires Bounded(g, deepest) && c in g.subs && c in live
    ensures r != [] && r[|r| - 1] == c && forall d :: d in r ==> d in live
    decreases |live|
  {
    var l := FirstLeaf(g, deepest, live, c);
    if l == c then [c] else [l] + PeelOrder(g, deepest, live - {l}, c)
  }

  // The classes of an order up to the first one that is held.
  ghost function FreePrefix(order: seq<Defclass>, free: set<Defclass>): (r: seq<Defclass>)
    ensures |r| <= |order| && r == order[..|r|] && (forall d :: d in r ==> d in free)
    ensures |r| < |order| ==> order[|r|] !in free
  {
    if order == [] || order[0] !in free then [] else [order[0]] + FreePrefix(order[1..], free)
  }

  ghost function Members(s: seq<Defclass>): set<Defclass> {
    set d | d in s
  }

  lemma MembersCons(d: Defclass, s: seq<Defclass>)
    ensures Members([d] + s) == {d} + Members(s)
  {
  }

  /** What goes is what comes before the first held class. */
  lemma {:induction false} PeeledIsPrefix(g: Graph, deepest: nat, live: set<Defclass>, c: Defclass, free: set<Defclass>)
    requires Bounded(g, deepest) && c in g.subs && c in live
    ensures Peeled(g, deepest, live, c, free) == live - Members(FreePrefix(PeelOrder(g, deepest, live, c), free))
    decreases |live|
  {
    hide Bounded, FirstLeaf, Members;
    var l := FirstLeaf(g, deepest, live, c);
    if l !in free {
      MembersNone();
    } else if l == c {
      MembersNone();
      MembersCons(c, []);
      assert PeelOrder(g, deepest, live, c) == [c] && [c][1..] == [];
      assert FreePrefix([c], free) == [c] + [];
    } else {
      PeeledIsPrefix(g, deepest, live - {l}, c, free);
      var rest := PeelOrder(g, deepest, live - {l}, c);
      assert ([l] + rest)[1..] == rest;
      MembersCons(l, FreePrefix(rest, free));
    }
  }

  lemma MembersNone()
    ensures Members([]) == {}
  {
  }

  lemma {:induction false} FirstLeafBelow(g: Graph, deepest: nat, live: set<Defclass>, c: Defclass)
    requires Bounded(g, deepest) && c in g.subs && c in live
    ensures FirstLeaf(g, deepest, live, c) in Below(g, c)
    decreases deepest - c.depth
  {
    hide Below;
    BelowSelf(g, c);
    var left := Keep(g.subs[c], live);
    if left != [] {
      assert left[0] in left;
      FirstLeafBelow(g, deepest, live, left[0]);
      BelowChild(g, c, left[0]);
    }
  }

  // Below a class without subclasses that are left, nothing else is left.
  lemma LeafAlone(g: Graph, live: set<Defclass>, l: Defclass, deepest: nat)
    requires Bounded(g, deepest) && l in live && l in g.subs && Keep(g.subs[l], live) == []
    requires DownClosed(g, g.subs.Keys - live)
    ensures Below(g, l) * live == {l} && DownClosed(g, g.subs.Keys - (live - {l}))
  {
    hide Below;
    BelowSelf(g, l);
    assert forall d :: d in g.subs[l] ==> d !in live;
    forall c, d | c in g.subs.Keys - (live - {l}) && d in g.subs[c] ensures d in g.subs.Keys - (live - {l}) {
    }
    forall d | d in Below(g, l) && d != l ensures d !in live {
      BelowIsChildren(g, l, d);
      var s :| s in g.subs[l] && d in Below(g, s);
      DownClosedBelow(g, g.subs.Keys - live, s);
    }
  }

  ghost predicate UpwardsOnly(g: Graph, order: seq<Defclass>) {
    forall i, j :: 0 <= i < j < |order| ==> order[j] !in Below(g, order[i])
  }

  lemma LeafFirst(g: Graph, l: Defclass, rest: seq<Defclass>, live: set<Defclass>)
    requires Below(g, l) * live == {l} && Distinct(rest) && UpwardsOnly(g, rest)
    requires forall d :: d in rest ==> d in live - {l}
    ensures Distinct([l] + rest) && UpwardsOnly(g, [l] + rest)
  {
    hide Below;
    var order := [l] + rest;
    forall j | 0 < j < |order| ensures order[j] != l && order[j] !in Below(g, l) {
      assert order[j] in rest;
    }
    forall i, j | 0 <= i < j < |order| ensures order[j] !in Below(g, order[i]) {
      if i > 0 {
        assert rest[j - 1] !in Below(g, rest[i - 1]);
      }
    }
  }

  /**
   * When only whole branches are missing, the order holds everything left at or below c, each class once, and no
   * class before one below it.
   */
  lemma {:induction false} PeelOrderIsBelow(g: Graph, deepest: nat, live: set<Defclass>, c: Defclass)
    requires Bounded(g, deepest) && c in g.subs && c in live && DownClosed(g, g.subs.Keys - live)
    ensures var order := PeelOrder(g, deepest, live, c);
            Members(order) == Below(g, c) * live && Distinct(order) && UpwardsOnly(g, order)
    decreases |live|
  {
    hide Below, DownClosed, FirstLeaf, Bounded, Members;
    var l := FirstLeaf(g, deepest, live, c);
    FirstLeafBelow(g, deepest, live, c);
    LeafAlone(g, live, l, deepest);
    if l == c {
      MembersNone();
      MembersCons(c, []);
      assert [c] == [c] + [];
    } else {
      var rest := PeelOrder(g, deepest, live - {l}, c);
      PeelOrderIsBelow(g, deepest, live - {l}, c);
      MembersCons(l, rest);
      LeafFirst(g, l, rest, live);
    }
  }

  // ---- The order as a walk of the graph ----

  // What is below the subclasses from the i-th on, each class behind all that is below it, however often it comes.
  ghost function Post(g: Graph, deepest: nat, c: Defclass, i: nat): seq<Defclass>
    requires Bounded(g, deepest) && c in g.subs && i <= |g.subs[c]|
    decreases deepest - c.depth, |g.subs[c]| - i
  {
    if i == |g.subs[c]| then [c]
    else Post(g, deepest, g.subs[c][i], 0) + Post(g, deepest, c, i + 1)
  }

  lemma {:induction false} PostBelow(g: Graph, deepest: nat, c: Defclass, i: nat)
    requires Bounded(g, deepest) && c in g.subs && i <= |g.subs[c]|
    ensures forall x :: x in Post(g, deepest, c, i) ==> x in Below(g, c)
    decreases deepest - c.depth, |g.subs[c]| - i
  {
    hide Below;
    BelowSelf(g, c);
    if i != |g.subs[c]| {
      var s := g.subs[c][i];
      BelowChild(g, c, s);
      PostBelow(g, deepest, s, 0);
      PostBelow(g, deepest, c, i + 1);
    }
  }

  // A class that has gone took everything below it along.
  lemma PostGone(g: Graph, deepest: nat, gone: set<Defclass>, c: Defclass)
    requires Bounded(g, deepest) && c in g.subs && DownClosed(g, gone) && c in gone
    ensures New(gone, Post(g, deepest, c, 0)) == [] && gone + Elems(Post(g, deepest, c, 0)) == gone
  {
    hide Below;
    PostBelow(g, deepest, c, 0);
    DownClosedBelow(g, gone, c);
    NothingNew(gone, Post(g, deepest, c, 0));
  }

  // The first class of the walk that is left is the first leaf.
  lemma {:induction false} FirstOfPost(g: Graph, deepest: nat, live: set<Defclass>, c: Defclass, i: nat)
    requires Bounded(g, deepest) && c in g.subs && i <= |g.subs[c]| && c in live && DownClosed(g, g.subs.Keys - live)
    ensures var left, new_ := Keep(g.subs[c][i..], live), New(g.subs.Keys - live, Post(g, deepest, c, i));
            && new_ != []
            && new_[0] == (if left == [] then c else assert left[0] in left; FirstLeaf(g, deepest, live, left[0]))
    decreases deepest - c.depth, |g.subs[c]| - i
  {
    hide DownClosed, Below;
    var gone := g.subs.Keys - live;
    if i == |g.subs[c]| {
      assert New(gone, [c]) == [c] + New(gone + {c}, [c][1..]);
    } else {
      var s := g.subs[c][i];
      assert g.subs[c][i..][0] == s && g.subs[c][i..][1..] == g.subs[c][i + 1..];
      NewAppend(gone, Post(g, deepest, s, 0), Post(g, deepest, c, i + 1));
      if s in live {
        FirstOfPost(g, deepest, live, s, 0);
        assert g.subs[s][0..] == g.subs[s];
      } else {
        PostGone(g, deepest, gone, s);
        FirstOfPost(g, deepest, live, c, i + 1);
      }
    }
  }

  /**
   * When only whole branches are missing, the classes go in the order of a walk that takes the subclasses from first to
   * last and a class only behind all that is below it, each class where it comes first.
   */
  lemma {:induction false} PeelOrderIsWalk(g: Graph, deepest: nat, live: set<Defclass>, c: Defclass)
    requires Bounded(g, deepest) && c in g.subs && c in live && DownClosed(g, g.subs.Keys - live)
    ensures PeelOrder(g, deepest, live, c) == New(g.subs.Keys - live, Post(g, deepest, c, 0))
    decreases |live|
  {
    hide Below, DownClosed, FirstLeaf, Bounded, New, Post;
    var l, gone := FirstLeaf(g, deepest, live, c), g.subs.Keys - live;
    LeafIsFirst(g, deepest, live, c);
    LeafAlone(g, live, l, deepest);
    NewStep(gone, Post(g, deepest, c, 0));
    assert gone + {l} == g.subs.Keys - (live - {l});
    if l == c {
      PostGone(g, deepest, gone + {c}, c);
    } else {
      PeelOrderIsWalk(g, deepest, live - {l}, c);
    }
  }

  lemma LeafIsFirst(g: Graph, deepest: nat, live: set<Defclass>, c: Defclass)
    requires Bounded(g, deepest) && c in g.subs && c in live && DownClosed(g, g.subs.Keys - live)
    ensures var new_ := New(g.subs.Keys - live, Post(g, deepest, c, 0));
            new_ != [] && new_[0] == FirstLeaf(g, deepest, live, c)
  {
    hide DownClosed, Below, New, Post;
    FirstOfPost(g, deepest, live, c, 0);
    assert g.subs[c][0..] == g.subs[c];
  }

  /** With nothing missing to begin with, what goes is the part of the walk before its first held class. */
  lemma PeeledIsWalked(g: Graph, deepest: nat, c: Defclass, free: set<Defclass>)
    requires Bounded(g, deepest) && c in g.subs
    ensures Peeled(g, deepest, g.subs.Keys, c, free) ==
            g.subs.Keys - Members(FreePrefix(New({}, Post(g, deepest, c, 0)), free))
  {
    hide Bounded, Members, FreePrefix, Peeled, New, Post;
    assert g.subs.Keys - g.subs.Keys == {};
    PeeledIsPrefix(g, deepest, g.subs.Keys, c, free);
    PeelOrderIsWalk(g, deepest, g.subs.Keys, c);
  }
}
