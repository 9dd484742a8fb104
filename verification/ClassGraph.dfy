/** The class graph as a value: direct links both ways, and the ancestor lists cached from them. */
module ClassGraph {
  class Defclass {
    const system: bool
    // Classes are defined after their superclasses, so some depth grows along every link.
    ghost const depth: nat
    var busy: nat
    var directSuperclasses: seq<Defclass>
    var directSubclasses: seq<Defclass>
    var allSuperclasses: seq<Defclass>
    // The traversal ids whose bit is set.
    var traversalRecord: set<nat>

    constructor (system: bool, supers: seq<Defclass>, precedence: seq<Defclass>, ghost depth: nat)
      ensures this.system == system && this.depth == depth && busy == 0 && traversalRecord == {}
      ensures directSuperclasses == supers && directSubclasses == []
      ensures allSuperclasses == [this] + precedence
    {
      this.system := system;
      this.depth := depth;
      busy := 0;
      directSuperclasses := supers;
      directSubclasses := [];
      traversalRecord := {};
      new;
      allSuperclasses := [this] + precedence;
    }
  }

  type Links = map<Defclass, seq<Defclass>>

  datatype Graph = Graph(supers: Links, subs: Links, ancestors: Links)

  ghost predicate Distinct<T>(s: seq<T>) {
    forall i, j :: 0 <= i < j < |s| ==> s[i] != s[j]
  }

  // The members of a list that are kept, in their order.
  ghost function Keep<T>(s: seq<T>, keep: set<T>): (r: seq<T>)
    ensures forall x :: x in r ==> x in s && x in keep
    ensures forall x :: x in s && x in keep ==> x in r
    ensures |r| <= |s|
  {
    if s == [] then []
    else if s[0] in keep then [s[0]] + Keep(s[1..], keep)
    else Keep(s[1..], keep)
  }

  ghost predicate Over(links: Links, live: set<Defclass>) {
    && links.Keys == live
    && forall c, d :: c in live && d in links[c] ==> d in live
  }

  ghost predicate Mirrored(g: Graph, live: set<Defclass>) {
    && Over(g.supers, live) && Over(g.subs, live)
    && (forall c :: c in live ==> Distinct(g.supers[c]) && Distinct(g.subs[c]))
    && (forall c, d :: c in live && d in g.subs[c] ==> c in g.supers[d])
    && (forall c, d :: d in live && c in g.supers[d] ==> d in g.subs[c])
  }

  ghost predicate Ranked(g: Graph) {
    forall c, d :: c in g.subs && d in g.subs[c] ==> c.depth < d.depth
  }

  // No class is deeper than deepest, and links grow deeper.
  ghost predicate Bounded(g: Graph, deepest: nat) {
    && Ranked(g)
    && (forall c :: c in g.subs ==> c.depth <= deepest)
    && (forall c, d :: c in g.subs && d in g.subs[c] ==> d in g.subs)
  }

  // Each ancestor list holds the class itself and what its superclasses' lists hold.
  ghost predicate Cached(g: Graph, live: set<Defclass>)
    requires g.supers.Keys == live
  {
    && Over(g.ancestors, live)
    && (forall c :: c in live ==> c in g.ancestors[c])
    && (forall c, a {:trigger Inherited(g, live, c, a)} :: c in live && a in g.ancestors[c] ==>
        a == c || Inherited(g, live, c, a))
    && (forall c, p, a :: c in live && p in g.supers[c] && p in live && a in g.ancestors[p] ==> a in g.ancestors[c])
  }

  // The list of some direct superclass holds a.
  ghost predicate Inherited(g: Graph, live: set<Defclass>, c: Defclass, a: Defclass) {
    c in g.supers && exists p :: p in g.supers[c] && p in live && p in g.ancestors && a in g.ancestors[p]
  }

  ghost predicate WellFormed(g: Graph, live: set<Defclass>) {
    Mirrored(g, live) && Ranked(g) && Cached(g, live)
  }

  // d is reached from c by following n links.
  ghost predicate Steps(links: Links, c: Defclass, d: Defclass, n: nat) {
    if n == 0 then c == d
    else c in links && exists s :: s in links[c] && Steps(links, s, d, n - 1)
  }

  ghost predicate Descendant(subs: Links, c: Defclass, d: Defclass) {
    exists n: nat :: Steps(subs, c, d, n)
  }

  // The class and all its descendants.
  ghost function Below(g: Graph, c: Defclass): set<Defclass> {
    set d | d in g.subs && Descendant(g.subs, c, d)
  }

  lemma BelowSelf(g: Graph, c: Defclass)
    requires c in g.subs
    ensures c in Below(g, c)
  {
    assert Steps(g.subs, c, c, 0);
  }

  lemma BelowChild(g: Graph, c: Defclass, s: Defclass)
    requires c in g.subs && s in g.subs[c]
    ensures Below(g, s) <= Below(g, c)
  {
    forall d | d in Below(g, s) ensures d in Below(g, c) {
      var n: nat :| Steps(g.subs, s, d, n);
      assert Steps(g.subs, c, d, n + 1);
    }
  }

  lemma {:induction false} StepsThenSteps(links: Links, c: Defclass, s: Defclass, d: Defclass, n: nat, m: nat)
    requires Steps(links, c, s, n) && Steps(links, s, d, m)
    ensures Steps(links, c, d, n + m)
    decreases n
  {
    if n != 0 {
      var t :| t in links[c] && Steps(links, t, s, n - 1);
      StepsThenSteps(links, t, s, d, n - 1, m);
    }
  }

  lemma BelowBelow(g: Graph, c: Defclass, s: Defclass)
    requires s in Below(g, c)
    ensures Below(g, s) <= Below(g, c)
  {
    var n: nat :| Steps(g.subs, c, s, n);
    forall d | d in Below(g, s) ensures d in Below(g, c) {
      var m: nat :| Steps(g.subs, s, d, m);
      StepsThenSteps(g.subs, c, s, d, n, m);
    }
  }

  lemma BelowIsChildren(g: Graph, c: Defclass, d: Defclass)
    requires d in Below(g, c)
    ensures d == c || (c in g.subs && exists s :: s in g.subs[c] && d in Below(g, s))
  {
    var n: nat :| Steps(g.subs, c, d, n);
    if n != 0 {
      var s :| s in g.subs[c] && Steps(g.subs, s, d, n - 1);
      assert d in Below(g, s);
    }
  }

  lemma BelowDeeper(g: Graph, c: Defclass, d: Defclass)
    requires Ranked(g) && d in Below(g, c)
    ensures d == c || c.depth < d.depth
  {
    var n: nat :| Steps(g.subs, c, d, n);
    StepsDeepen(g, c, d, n);
  }

  lemma {:induction false} StepsThenStep(links: Links, c: Defclass, p: Defclass, d: Defclass, n: nat)
    requires Steps(links, c, p, n) && p in links && d in links[p]
    ensures Steps(links, c, d, n + 1)
    decreases n
  {
    if n == 0 {
      assert Steps(links, d, d, 0);
    } else {
      var s :| s in links[c] && Steps(links, s, p, n - 1);
      StepsThenStep(links, s, p, d, n - 1);
    }
  }

  lemma {:induction false} StepsDeepen(g: Graph, c: Defclass, d: Defclass, n: nat)
    requires Ranked(g) && Steps(g.subs, c, d, n)
    ensures c.depth + n <= d.depth
    decreases n
  {
    if n != 0 {
      var s :| s in g.subs[c] && Steps(g.subs, s, d, n - 1);
      StepsDeepen(g, s, d, n - 1);
    }
  }

  // ---- The cached lists are the ancestors ----

  lemma {:induction false} CachedAreAncestors(g: Graph, live: set<Defclass>, a: Defclass, c: Defclass)
    requires WellFormed(g, live) && c in live && a in g.ancestors[c]
    ensures Descendant(g.subs, a, c)
    decreases c.depth
  {
    if a == c {
      assert Steps(g.subs, a, c, 0);
    } else {
      assert Inherited(g, live, c, a);
      var p :| p in g.supers[c] && p in live && p in g.ancestors && a in g.ancestors[p];
      assert c in g.subs[p];
      CachedAreAncestors(g, live, a, p);
      var n: nat :| Steps(g.subs, a, p, n);
      StepsThenStep(g.subs, a, p, c, n);
    }
  }

  lemma {:induction false} CachedClosed(g: Graph, live: set<Defclass>, c: Defclass, s: Defclass, a: Defclass)
    requires WellFormed(g, live) && c in live && s in g.ancestors[c] && a in g.supers[s]
    ensures a in g.ancestors[c]
    decreases c.depth
  {
    if s == c {
      assert a in g.ancestors[a];
    } else {
      assert Inherited(g, live, c, s);
      var p :| p in g.supers[c] && p in live && p in g.ancestors && s in g.ancestors[p];
      assert c in g.subs[p];
      CachedClosed(g, live, p, s, a);
    }
  }

  lemma {:induction false} AncestorsAreCached(g: Graph, live: set<Defclass>, a: Defclass, c: Defclass, n: nat)
    requires WellFormed(g, live) && c in live && a in live && Steps(g.subs, a, c, n)
    ensures a in g.ancestors[c]
    decreases n
  {
    hide WellFormed;
    if n == 0 {
      CachedSelf(g, live, c);
    } else {
      var s :| s in g.subs[a] && Steps(g.subs, s, c, n - 1);
      Mirror(g, live, a, s);
      AncestorsAreCached(g, live, s, c, n - 1);
      CachedClosed(g, live, c, s, a);
    }
  }

  lemma CachedSelf(g: Graph, live: set<Defclass>, c: Defclass)
    requires WellFormed(g, live) && c in live
    ensures c in g.ancestors && c in g.ancestors[c]
  {
  }

  lemma Mirror(g: Graph, live: set<Defclass>, c: Defclass, d: Defclass)
    requires WellFormed(g, live) && c in g.subs && d in g.subs[c]
    ensures c in live && d in live && d in g.subs && d in g.supers && c in g.supers[d]
    ensures d in g.ancestors
  {
  }

  /** A cached ancestor list names exactly the classes the class can be reached from. */
  lemma CachedExactly(g: Graph, live: set<Defclass>, a: Defclass, c: Defclass)
    requires WellFormed(g, live) && a in live && c in live
    ensures a in g.ancestors[c] <==> c in Below(g, a)
  {
    if a in g.ancestors[c] {
      CachedAreAncestors(g, live, a, c);
    }
    if c in Below(g, a) {
      var n: nat :| Steps(g.subs, a, c, n);
      AncestorsAreCached(g, live, a, c, n);
    }
  }

  // ---- Lists with members taken out ----

  function RemoveFirst<T(==)>(s: seq<T>, x: T): seq<T> {
    if s == [] then [] else if s[0] == x then s[1..] else [s[0]] + RemoveFirst(s[1..], x)
  }

  lemma {:induction false} RemoveFirstAt<T>(s: seq<T>, x: T, k: nat)
    requires k < |s| && s[k] == x && x !in s[..k]
    ensures RemoveFirst(s, x) == s[..k] + s[k + 1..]
  {
    if k != 0 {
      assert s[..k][0] == s[0];
      assert s[1..][..k - 1] == s[..k][1..];
      RemoveFirstAt(s[1..], x, k - 1);
      assert [s[0]] + s[1..][..k - 1] == s[..k];
    }
  }

  lemma {:induction false} RemoveAbsent<T>(s: seq<T>, x: T)
    requires x !in s
    ensures RemoveFirst(s, x) == s
  {
    if s != [] {
      RemoveAbsent(s[1..], x);
    }
  }

  lemma {:induction false} KeepAll<T>(s: seq<T>, keep: set<T>)
    requires forall x :: x in s ==> x in keep
    ensures Keep(s, keep) == s
  {
    if s != [] {
      KeepAll(s[1..], keep);
    }
  }

  lemma {:induction false} RemoveFirstKeeps<T>(s: seq<T>, all: set<T>, x: T)
    requires Distinct(s) && forall y :: y in s ==> y in all
    ensures RemoveFirst(s, x) == Keep(s, all - {x})
  {
    if s == [] {
    } else if s[0] == x {
      KeepAll(s[1..], all - {x});
    } else {
      RemoveFirstKeeps(s[1..], all, x);
    }
  }

  lemma {:induction false} KeepKeep<T>(s: seq<T>, a: set<T>, b: set<T>)
    requires b <= a
    ensures Keep(Keep(s, a), b) == Keep(s, b)
  {
    if s != [] {
      KeepKeep(s[1..], a, b);
      if s[0] in a {
        assert ([s[0]] + Keep(s[1..], a))[1..] == Keep(s[1..], a);
      }
    }
  }

  lemma {:induction false} KeepDistinct<T>(s: seq<T>, keep: set<T>)
    requires Distinct(s)
    ensures Distinct(Keep(s, keep))
  {
    if s != [] {
      KeepDistinct(s[1..], keep);
      assert s[0] !in s[1..];
    }
  }

  lemma {:induction false} KeepShrinks<T>(s: seq<T>, keep: set<T>, x: T)
    requires x in s && x !in keep
    ensures |Keep(s, keep)| < |s|
  {
    if s[0] != x {
      KeepShrinks(s[1..], keep, x);
    }
  }

  lemma UnlinkedFromSuper(g: Graph, live: set<Defclass>, cls: Defclass, c: Defclass)
    requires Mirrored(g, live) && Ranked(g) && cls in live && c in live
    ensures c in g.supers[cls] ==> c != cls && RemoveFirst(g.subs[c], cls) == Keep(g.subs[c], live - {cls})
    ensures c !in g.supers[cls] ==> Keep(g.subs[c], live - {cls}) == g.subs[c]
  {
    hide Keep, RemoveFirst, Distinct;
    if c in g.supers[cls] {
      assert cls in g.subs[c] && c.depth < cls.depth;
      RemoveFirstKeeps(g.subs[c], live, cls);
    } else {
      KeepAll(g.subs[c], live - {cls});
    }
  }

  lemma UnlinkedFromSub(g: Graph, live: set<Defclass>, cls: Defclass, c: Defclass)
    requires Mirrored(g, live) && Ranked(g) && cls in live && c in live
    ensures c in g.subs[cls] ==> c != cls && RemoveFirst(g.supers[c], cls) == Keep(g.supers[c], live - {cls})
    ensures c !in g.subs[cls] ==> Keep(g.supers[c], live - {cls}) == g.supers[c]
  {
    hide Keep, RemoveFirst, Distinct;
    if c in g.subs[cls] {
      assert cls.depth < c.depth;
      RemoveFirstKeeps(g.supers[c], live, cls);
    } else {
      KeepAll(g.supers[c], live - {cls});
    }
  }

  // ---- Graphs with classes taken out ----

  // g1 is g with the classes outside live1 gone: lists lose those classes and nothing else.
  ghost predicate Reduced(g: Graph, live: set<Defclass>, g1: Graph, live1: set<Defclass>) {
    && live1 <= live
    && g.supers.Keys == g.subs.Keys == g.ancestors.Keys == live
    && g1.supers.Keys == g1.subs.Keys == g1.ancestors.Keys == live1
    && (forall c :: c in live1 ==> g1.supers[c] == Keep(g.supers[c], live1))
    && (forall c :: c in live1 ==> g1.subs[c] == Keep(g.subs[c], live1))
    && (forall c :: c in live1 ==> g1.ancestors[c] == g.ancestors[c])
  }

  ghost predicate DownClosed(g: Graph, gone: set<Defclass>) {
    forall c, d :: c in gone && c in g.subs && d in g.subs[c] ==> d in gone
  }

  lemma ReducedMirrored(g: Graph, live: set<Defclass>, g1: Graph, live1: set<Defclass>)
    requires Mirrored(g, live) && Ranked(g) && Reduced(g, live, g1, live1)
    ensures Mirrored(g1, live1) && Ranked(g1)
  {
    forall c | c in live1 ensures Distinct(g1.supers[c]) && Distinct(g1.subs[c]) {
      KeepDistinct(g.supers[c], live1);
      KeepDistinct(g.subs[c], live1);
    }
  }

  lemma ReducedSupers(g: Graph, live: set<Defclass>, g1: Graph, live1: set<Defclass>, c: Defclass)
    requires Mirrored(g, live) && Reduced(g, live, g1, live1) && DownClosed(g, live - live1) && c in live1
    ensures g1.supers[c] == g.supers[c]
  {
    forall p | p in g.supers[c] ensures p in live1 {
      assert c in g.subs[p];
    }
    KeepAll(g.supers[c], live1);
  }

  // A survivor's list holds what its superclasses' lists hold, and only survivors.
  lemma ReducedAncestor(g: Graph, live: set<Defclass>, g1: Graph, live1: set<Defclass>, c: Defclass, a: Defclass)
    requires WellFormed(g, live) && Reduced(g, live, g1, live1) && DownClosed(g, live - live1)
    requires c in live1 && a in g1.ancestors[c]
    ensures a in live1 && (a == c || Inherited(g1, live1, c, a))
  {
    hide Keep, Distinct;
    CachedAreAncestors(g, live, a, c);
    var n: nat :| Steps(g.subs, a, c, n);
    if a !in live1 {
      DownClosedReaches(g, live - live1, a, c, n);
      assert false;
    }
    if a != c {
      ReducedSupers(g, live, g1, live1, c);
      assert Inherited(g, live, c, a);
      var p :| p in g.supers[c] && p in live && p in g.ancestors && a in g.ancestors[p];
      assert p in g1.supers[c] && p in live1 && a in g1.ancestors[p];
    }
  }

  lemma ReducedInherits(g: Graph, live: set<Defclass>, g1: Graph, live1: set<Defclass>, c: Defclass, p: Defclass,
                        a: Defclass)
    requires WellFormed(g, live) && Reduced(g, live, g1, live1)
    requires c in live1 && p in g1.supers[c] && p in live1 && a in g1.ancestors[p]
    ensures a in g1.ancestors[c]
  {
    hide Distinct;
    assert p in g.supers[c];
  }

  lemma ReducedWellFormed(g: Graph, live: set<Defclass>, g1: Graph, live1: set<Defclass>)
    requires WellFormed(g, live) && Reduced(g, live, g1, live1) && DownClosed(g, live - live1)
    ensures WellFormed(g1, live1)
  {
    hide Mirrored, Ranked, Keep, DownClosed, Inherited;
    ReducedMirrored(g, live, g1, live1);
    forall c, a | c in live1 && a in g1.ancestors[c] ensures a in live1 && (a == c || Inherited(g1, live1, c, a)) {
      ReducedAncestor(g, live, g1, live1, c, a);
    }
    forall c, p, a | c in live1 && p in g1.supers[c] && p in live1 && a in g1.ancestors[p]
      ensures a in g1.ancestors[c]
    {
      ReducedInherits(g, live, g1, live1, c, p, a);
    }
  }

  lemma ReducedAgain(g: Graph, live: set<Defclass>, g1: Graph, live1: set<Defclass>, g2: Graph, live2: set<Defclass>)
    requires Reduced(g, live, g1, live1) && Reduced(g1, live1, g2, live2)
    requires Over(g.subs, live)
    requires DownClosed(g, live - live1) && DownClosed(g1, live1 - live2)
    ensures Reduced(g, live, g2, live2) && DownClosed(g, live - live2)
  {
    forall c | c in live2
      ensures g2.supers[c] == Keep(g.supers[c], live2) && g2.subs[c] == Keep(g.subs[c], live2)
    {
      KeepKeep(g.supers[c], live1, live2);
      KeepKeep(g.subs[c], live1, live2);
    }
    DownClosedAgain(g, live, g1, live1, live2);
  }

  lemma DownClosedAgain(g: Graph, live: set<Defclass>, g1: Graph, live1: set<Defclass>, live2: set<Defclass>)
    requires Reduced(g, live, g1, live1) && live2 <= live1 && Over(g.subs, live)
    requires DownClosed(g, live - live1) && DownClosed(g1, live1 - live2)
    ensures DownClosed(g, live - live2)
  {
    forall c, d | c in live - live2 && c in g.subs && d in g.subs[c] ensures d in live - live2 {
      if c in live1 && d in live1 {
        assert d in g1.subs[c];
      }
    }
  }

  lemma {:induction false} DownClosedReaches(g: Graph, gone: set<Defclass>, c: Defclass, d: Defclass, n: nat)
    requires DownClosed(g, gone) && c in gone && Steps(g.subs, c, d, n)
    ensures d in gone
    decreases n
  {
    if n != 0 {
      var s :| s in g.subs[c] && Steps(g.subs, s, d, n - 1);
      DownClosedReaches(g, gone, s, d, n - 1);
    }
  }

  lemma DownClosedBelow(g: Graph, gone: set<Defclass>, c: Defclass)
    requires DownClosed(g, gone) && c in gone
    ensures Below(g, c) <= gone
  {
    forall d | d in Below(g, c) ensures d in gone {
      var n: nat :| Steps(g.subs, c, d, n);
      DownClosedReaches(g, gone, c, d, n);
    }
  }

  lemma ReducedLink(g: Graph, live: set<Defclass>, g1: Graph, live1: set<Defclass>, c: Defclass, s: Defclass)
    requires Reduced(g, live, g1, live1) && c in g1.subs && s in g1.subs[c]
    ensures c in g.subs && s in g.subs[c] && s in live1
  {
    assert g1.subs[c] == Keep(g.subs[c], live1);
  }

  lemma {:induction false} ReducedSteps(g: Graph, live: set<Defclass>, g1: Graph, live1: set<Defclass>, c: Defclass,
                                        d: Defclass, n: nat)
    requires Reduced(g, live, g1, live1) && Steps(g1.subs, c, d, n)
    ensures Steps(g.subs, c, d, n)
    decreases n
  {
    hide Reduced;
    if n != 0 {
      var s :| s in g1.subs[c] && Steps(g1.subs, s, d, n - 1);
      ReducedLink(g, live, g1, live1, c, s);
      ReducedSteps(g, live, g1, live1, s, d, n - 1);
    }
  }

  lemma ReducedBelow(g: Graph, live: set<Defclass>, g1: Graph, live1: set<Defclass>, c: Defclass)
    requires Reduced(g, live, g1, live1)
    ensures Below(g1, c) <= Below(g, c)
  {
    forall d | d in Below(g1, c) ensures d in Below(g, c) {
      var n: nat :| Steps(g1.subs, c, d, n);
      ReducedSteps(g, live, g1, live1, c, d, n);
    }
  }
}
