/** Adding classes to the class table and deleting them, in place, with the graph kept well formed. */
module ClassDeletion {
  import opened ClassGraph
  import opened ClassPeeling

  class DefclassData {
    // The chains of the class hash table, one after the other.
    var ClassTable: seq<Defclass>
    var CTID: nat
    ghost var live: set<Defclass>
    ghost var deepest: nat

    ghost predicate Tabled()
      reads this`ClassTable, this`live, this`deepest
    {
      && Distinct(ClassTable)
      && (forall c :: c in ClassTable ==> c in live)
      && (forall c :: c in live ==> c in ClassTable)
      && (forall c :: c in live ==> c.depth <= deepest)
    }

    ghost function Classes(): Graph
      reads this`live, live`directSuperclasses, live`directSubclasses, live`allSuperclasses
    {
      GraphOf(live)
    }

    ghost predicate Valid()
      reads this`ClassTable, this`live, this`deepest
      reads live`directSuperclasses, live`directSubclasses, live`allSuperclasses
    {
      Tabled() && WellFormed(Classes(), live)
    }

    constructor ()
      ensures Valid() && live == {} && CTID == 0
    {
      ClassTable, CTID, live, deepest := [], 0, {}, 0;
    }
  }

  ghost function GraphOf(live: set<Defclass>): Graph
    reads live`directSuperclasses, live`directSubclasses, live`allSuperclasses
  {
    Graph(map c | c in live :: c.directSuperclasses,
          map c | c in live :: c.directSubclasses,
          map c | c in live :: c.allSuperclasses)
  }

  // ---- Links ----

  /** Inserts a class in a list of links at a position, or at the end when the position is -1. */
  method AddClassLink(src: seq<Defclass>, cls: Defclass, posn: int) returns (dst: seq<Defclass>)
    requires -1 <= posn <= |src|
    ensures posn == -1 ==> dst == src + [cls]
    ensures posn != -1 ==> |dst| == |src| + 1 && dst[posn] == cls
    ensures posn != -1 ==> dst[..posn] == src[..posn] && dst[posn + 1..] == src[posn..]
  {
    if posn == -1 {
      dst := src + [cls];
    } else {
      dst := src[..posn] + [cls] + src[posn..];
    }
  }

  // The list of links without the first link to a class; unchanged when there is none.
  method DeleteClassLink(src: seq<Defclass>, cls: Defclass) returns (dst: seq<Defclass>)
    ensures dst == RemoveFirst(src, cls)
  {
    var deletedIndex := 0;
    while deletedIndex < |src| && src[deletedIndex] != cls
      invariant deletedIndex <= |src| && cls !in src[..deletedIndex]
    {
      deletedIndex := deletedIndex + 1;
    }
    if deletedIndex == |src| {
      RemoveAbsent(src, cls);
      return src;
    }
    RemoveFirstAt(src, cls, deletedIndex);
    dst := src[..deletedIndex] + src[deletedIndex + 1..];
  }

  method DeleteSubclassLink(sclass: Defclass, cls: Defclass)
    modifies sclass`directSubclasses
    ensures sclass.directSubclasses == RemoveFirst(old(sclass.directSubclasses), cls)
  {
    sclass.directSubclasses := DeleteClassLink(sclass.directSubclasses, cls);
  }

  method DeleteSuperclassLink(sclass: Defclass, cls: Defclass)
    modifies sclass`directSuperclasses
    ensures sclass.directSuperclasses == RemoveFirst(old(sclass.directSuperclasses), cls)
  {
    sclass.directSuperclasses := DeleteClassLink(sclass.directSuperclasses, cls);
  }

  // ---- Removing one class ----

  lemma Related(g: Graph, live: set<Defclass>, cls: Defclass)
    requires Mirrored(g, live) && cls in live
    ensures Distinct(g.supers[cls]) && Distinct(g.subs[cls])
    ensures forall c :: c in g.supers[cls] ==> c in live
    ensures forall c :: c in g.subs[cls] ==> c in live
  {
  }

  method UnlinkFromSuperclasses(cls: Defclass, ghost live: set<Defclass>, ghost g: Graph)
    requires cls in live && Mirrored(g, live) && Ranked(g)
    requires cls.directSuperclasses == g.supers[cls] && forall c :: c in live ==> c.directSubclasses == g.subs[c]
    modifies live`directSubclasses
    ensures forall c :: c in live && c != cls ==> c.directSubclasses == Keep(old(c.directSubclasses), live - {cls})
    ensures cls.directSubclasses == old(cls.directSubclasses)
  {
    hide Mirrored, Ranked, Keep, RemoveFirst;
    UnlinkFromSuperclassesFacts(cls, live, g);
    var i := 0;
    while i < |cls.directSuperclasses|
      invariant i <= |cls.directSuperclasses|
      invariant forall c :: c in live && c !in cls.directSuperclasses[..i] ==>
                  c.directSubclasses == old(c.directSubclasses)
      invariant forall c :: c in cls.directSuperclasses[..i] ==>
                  c.directSubclasses == RemoveFirst(old(c.directSubclasses), cls)
    {
      DeleteSubclassLink(cls.directSuperclasses[i], cls);
      i := i + 1;
    }
    assert cls.directSuperclasses[..i] == cls.directSuperclasses;
  }

  lemma UnlinkFromSuperclassesFacts(cls: Defclass, live: set<Defclass>, g: Graph)
    requires cls in live && Mirrored(g, live) && Ranked(g)
    requires cls.directSuperclasses == g.supers[cls] && forall c :: c in live ==> c.directSubclasses == g.subs[c]
    ensures Distinct(cls.directSuperclasses) && cls !in cls.directSuperclasses
    ensures forall c :: c in cls.directSuperclasses ==>
              c in live && RemoveFirst(c.directSubclasses, cls) == Keep(c.directSubclasses, live - {cls})
    ensures forall c :: c in live && c !in cls.directSuperclasses ==>
              Keep(c.directSubclasses, live - {cls}) == c.directSubclasses
  {
    hide Keep, RemoveFirst, Mirrored, Ranked;
    Related(g, live, cls);
    forall c | c in live
      ensures c in cls.directSuperclasses ==>
                c != cls && RemoveFirst(c.directSubclasses, cls) == Keep(c.directSubclasses, live - {cls})
      ensures c !in cls.directSuperclasses ==> Keep(c.directSubclasses, live - {cls}) == c.directSubclasses
    {
      UnlinkedFromSuper(g, live, cls, c);
    }
  }

  method UnlinkFromSubclasses(cls: Defclass, ghost live: set<Defclass>, ghost g: Graph)
    requires cls in live && Mirrored(g, live) && Ranked(g)
    requires cls.directSubclasses == g.subs[cls] && forall c :: c in live ==> c.directSuperclasses == g.supers[c]
    modifies live`directSuperclasses
    ensures forall c :: c in live && c != cls ==> c.directSuperclasses == Keep(old(c.directSuperclasses), live - {cls})
    ensures cls.directSuperclasses == old(cls.directSuperclasses)
  {
    hide Mirrored, Ranked, Keep, RemoveFirst;
    UnlinkFromSubclassesFacts(cls, live, g);
    var i := 0;
    while i < |cls.directSubclasses|
      invariant i <= |cls.directSubclasses|
      invariant forall c :: c in live && c !in cls.directSubclasses[..i] ==>
                  c.directSuperclasses == old(c.directSuperclasses)
      invariant forall c :: c in cls.directSubclasses[..i] ==>
                  c.directSuperclasses == RemoveFirst(old(c.directSuperclasses), cls)
    {
      DeleteSuperclassLink(cls.directSubclasses[i], cls);
      i := i + 1;
    }
    assert cls.directSubclasses[..i] == cls.directSubclasses;
  }

  lemma UnlinkFromSubclassesFacts(cls: Defclass, live: set<Defclass>, g: Graph)
    requires cls in live && Mirrored(g, live) && Ranked(g)
    requires cls.directSubclasses == g.subs[cls] && forall c :: c in live ==> c.directSuperclasses == g.supers[c]
    ensures Distinct(cls.directSubclasses) && cls !in cls.directSubclasses
    ensures forall c :: c in cls.directSubclasses ==>
              c in live && RemoveFirst(c.directSuperclasses, cls) == Keep(c.directSuperclasses, live - {cls})
    ensures forall c :: c in live && c !in cls.directSubclasses ==>
              Keep(c.directSuperclasses, live - {cls}) == c.directSuperclasses
  {
    hide Keep, RemoveFirst, Mirrored, Ranked;
    Related(g, live, cls);
    forall c | c in live
      ensures c in cls.directSubclasses ==>
                c != cls && RemoveFirst(c.directSuperclasses, cls) == Keep(c.directSuperclasses, live - {cls})
      ensures c !in cls.directSubclasses ==> Keep(c.directSuperclasses, live - {cls}) == c.directSuperclasses
    {
      UnlinkedFromSub(g, live, cls, c);
    }
  }

  method RemoveClassFromTable(env: DefclassData, cls: Defclass)
    requires env.Tabled() && cls in env.live
    modifies env`ClassTable, env`live
    ensures env.Tabled() && env.live == old(env.live) - {cls}
  {
    RemoveFirstKeeps(env.ClassTable, env.live, cls);
    KeepDistinct(env.ClassTable, env.live - {cls});
    env.ClassTable := DeleteClassLink(env.ClassTable, cls);
    env.live := env.live - {cls};
  }

  /**
   * Takes a class out of the table and out of every list of direct links. The links stay mirror images of
   * each other whether or not the class had subclasses.
   */
  method RemoveDefclass(env: DefclassData, cls: Defclass)
    requires env.Valid() && cls in env.live
    modifies env`ClassTable, env`live, env.live`directSuperclasses, env.live`directSubclasses, cls`allSuperclasses
    ensures env.live == old(env.live) - {cls} && env.Tabled()
    ensures Reduced(old(env.Classes()), old(env.live), env.Classes(), env.live)
    ensures Mirrored(env.Classes(), env.live) && Ranked(env.Classes())
    ensures cls.directSuperclasses == cls.directSubclasses == cls.allSuperclasses == []
  {
    hide Mirrored, Ranked, Cached, Keep, Reduced, DefclassData.Tabled;
    ghost var g, live := env.Classes(), env.live;
    UnlinkFromSuperclasses(cls, env.live, g);
    UnlinkFromSubclasses(cls, env.live, g);
    RemoveClassFromTable(env, cls);
    cls.directSuperclasses, cls.directSubclasses, cls.allSuperclasses := [], [], [];
    ReadReduced(g, live, env.live);
    ReducedMirrored(g, live, env.Classes(), env.live);
  }

  lemma ReadReduced(g: Graph, live: set<Defclass>, live1: set<Defclass>)
    requires live1 <= live && g.supers.Keys == g.subs.Keys == g.ancestors.Keys == live
    requires forall c :: c in live1 ==> c.directSuperclasses == Keep(g.supers[c], live1)
    requires forall c :: c in live1 ==> c.directSubclasses == Keep(g.subs[c], live1)
    requires forall c :: c in live1 ==> c.allSuperclasses == g.ancestors[c]
    ensures Reduced(g, live, GraphOf(live1), live1)
  {
  }

  /**
   * Removing one class leaves the ancestor lists right exactly when the class had no subclasses: otherwise some
   * survivor's list still names the removed class.
   */
  lemma RemovalNeedsNoSubclasses(g: Graph, live: set<Defclass>, g1: Graph, cls: Defclass)
    requires WellFormed(g, live) && cls in live && Reduced(g, live, g1, live - {cls})
    ensures WellFormed(g1, live - {cls}) <==> g.subs[cls] == []
    ensures (exists c :: c in live - {cls} && cls in g1.ancestors[c]) <==> g.subs[cls] != []
  {
    hide Keep, Distinct;
    if g.subs[cls] == [] {
      assert live - (live - {cls}) == {cls};
      ReducedWellFormed(g, live, g1, live - {cls});
    } else {
      var d := g.subs[cls][0];
      Mirror(g, live, cls, d);
      assert cls.depth < d.depth;
      assert cls in g.ancestors[cls];
      assert d in live - {cls} && cls in g1.ancestors[d];
    }
  }

  // ---- Deleting a class and its subclasses ----

  ghost predicate NoneBusy(classes: set<Defclass>)
    reads classes`busy
  {
    forall d :: d in classes ==> d.busy == 0
  }

  // What a valid environment says about its graph.
  lemma ClassesRead(env: DefclassData)
    requires env.Valid()
    ensures WellFormed(env.Classes(), env.live) && Bounded(env.Classes(), env.deepest)
    ensures forall c :: c in env.live ==> c in env.Classes().subs && env.Classes().subs[c] == c.directSubclasses
    ensures env.Classes().subs.Keys == env.live && forall c :: c in env.live ==> c.depth <= env.deepest
  {
  }

  /** Whether the class or any class that inherits from it is busy. */
  method IsClassBeingUsed(env: DefclassData, cls: Defclass) returns (used: bool)
    requires env.Valid() && cls in env.live
    ensures used <==> !NoneBusy(Below(env.Classes(), cls))
    decreases env.deepest - cls.depth
  {
    hide WellFormed, Below, DefclassData.Valid, GraphOf, Bounded;
    ghost var g := env.Classes();
    ClassesRead(env);
    BelowSelf(g, cls);
    BelowAreLive(env);
    if cls.busy > 0 {
      return true;
    }
    var i := 0;
    while i < |cls.directSubclasses|
      invariant i <= |cls.directSubclasses|
      invariant forall k :: 0 <= k < i ==> NoneBusy(Below(g, cls.directSubclasses[k]))
    {
      var sub := cls.directSubclasses[i];
      SubclassIsLive(env, cls, sub);
      BelowChild(g, cls, sub);
      used := IsClassBeingUsed(env, sub);
      if used {
        return true;
      }
      i := i + 1;
    }
    forall d | d in Below(g, cls) ensures d.busy == 0 {
      BelowIsChildren(g, cls, d);
    }
    used := false;
  }

  lemma SubclassIsLive(env: DefclassData, cls: Defclass, sub: Defclass)
    requires env.Valid() && cls in env.live && sub in cls.directSubclasses
    ensures sub in env.live && cls.depth < sub.depth <= env.deepest
    ensures cls in env.Classes().subs && sub in env.Classes().subs[cls]
  {
    Mirror(env.Classes(), env.live, cls, sub);
  }

  lemma BelowAreLive(env: DefclassData)
    ensures forall c :: Below(env.Classes(), c) <= env.live
  {
  }

  ghost predicate Free(c: Defclass, constructsDeletable: bool)
    reads c`busy
  {
    constructsDeletable && !c.system && c.busy == 0
  }

  /** A class can go when constructs can be deleted, it is no system class, and nothing at or below it is busy. */
  method EnvIsDefclassDeletable(env: DefclassData, cls: Defclass, constructsDeletable: bool) returns (ok: bool)
    requires env.Valid() && cls in env.live
    ensures ok <==> Free(cls, constructsDeletable) && NoneBusy(Below(env.Classes(), cls))
  {
    BelowSelf(env.Classes(), cls);
    if !constructsDeletable {
      return false;
    }
    if cls.system {
      return false;
    }
    var used := IsClassBeingUsed(env, cls);
    ok := !used;
  }

  ghost function FreeIn(classes: set<Defclass>, constructsDeletable: bool): set<Defclass>
    reads classes`busy
  {
    set c | c in classes && Free(c, constructsDeletable)
  }

  // What deleting below cls may have done so far.
  ghost predicate Progress(g: Graph, live: set<Defclass>, g1: Graph, live1: set<Defclass>, cls: Defclass,
                           free: set<Defclass>) {
    && Reduced(g, live, g1, live1) && DownClosed(g, live - live1)
    && WellFormed(g, live) && WellFormed(g1, live1)
    && live - live1 <= Below(g, cls) && live - live1 <= free
  }

  lemma ProgressStart(g: Graph, live: set<Defclass>, cls: Defclass, free: set<Defclass>)
    requires WellFormed(g, live) && cls in live
    ensures Progress(g, live, g, live, cls, free)
  {
    forall c | c in live
      ensures g.supers[c] == Keep(g.supers[c], live) && g.subs[c] == Keep(g.subs[c], live)
    {
      KeepAll(g.supers[c], live);
      KeepAll(g.subs[c], live);
    }
  }

  // One more class at or below cls has been worked on.
  lemma ProgressStep(g: Graph, live: set<Defclass>, g1: Graph, live1: set<Defclass>, g2: Graph, live2: set<Defclass>,
                     cls: Defclass, sub: Defclass, free: set<Defclass>)
    requires Progress(g, live, g1, live1, cls, free) && Progress(g1, live1, g2, live2, sub, free)
    requires cls in live1 && cls in g1.subs && (sub == cls || sub in g1.subs[cls])
    ensures Progress(g, live, g2, live2, cls, free)
  {
    hide WellFormed, Reduced, DownClosed, Below;
    IsOver(g, live);
    IsOver(g1, live1);
    BelowSelf(g1, sub);
    if sub != cls {
      BelowChild(g1, cls, sub);
    }
    ReducedAgain(g, live, g1, live1, g2, live2);
    ReducedBelow(g, live, g1, live1, cls);
    BelowBelow(g1, cls, sub);
  }

  lemma IsOver(g: Graph, live: set<Defclass>)
    requires WellFormed(g, live)
    ensures Over(g.subs, live)
  {
  }

  // A direct subclass that went has shortened the list, and cls itself is still there.
  lemma SubclassGone(g1: Graph, live1: set<Defclass>, g2: Graph, live2: set<Defclass>, cls: Defclass, sub: Defclass,
                     free: set<Defclass>)
    requires Progress(g1, live1, g2, live2, sub, free)
    requires cls in live1 && sub in g1.subs[cls]
    ensures cls in live2 && cls in g2.subs
    ensures |g2.subs[cls]| <= |g1.subs[cls]|
    ensures sub !in live2 ==> |g2.subs[cls]| < |g1.subs[cls]|
  {
    if cls in Below(g1, sub) {
      BelowDeeper(g1, sub, cls);
    }
    assert g2.subs[cls] == Keep(g1.subs[cls], live2);
    if sub !in live2 {
      KeepShrinks(g1.subs[cls], live2, sub);
    }
  }

  /**
   * Deletes a class with everything that inherits from it. It succeeds exactly when no class at or below is
   * busy, a system class or otherwise held; then exactly those classes are gone. When it fails the classes gone are
   * the ones peeled off before the first held class, each together with its own descendants, and the rest of the
   * graph is as before: nothing at all has changed exactly when the very first leaf is held.
   */
  method DeleteClassUAG(env: DefclassData, cls: Defclass, constructsDeletable: bool) returns (ok: bool)
    requires env.Valid() && cls in env.live
    modifies env`ClassTable, env`live, env.live`directSuperclasses, env.live`directSubclasses, env.live`allSuperclasses
    ensures env.Valid()
    ensures Reduced(old(env.Classes()), old(env.live), env.Classes(), env.live)
    ensures DownClosed(old(env.Classes()), old(env.live) - env.live)
    ensures forall c :: c in old(env.live) - env.live ==>
              c in Below(old(env.Classes()), cls) && Free(c, constructsDeletable)
    ensures ok <==> forall c :: c in Below(old(env.Classes()), cls) ==> Free(c, constructsDeletable)
    ensures ok ==> env.live == old(env.live) - Below(old(env.Classes()), cls)
    ensures ok <==> cls !in env.live
    ensures Bounded(old(env.Classes()), env.deepest) && cls in old(env.Classes()).subs
    ensures env.live ==
            Peeled(old(env.Classes()), env.deepest, old(env.live), cls, FreeIn(old(env.live), constructsDeletable))
    ensures env.live == old(env.live) <==>
            !Free(FirstLeaf(old(env.Classes()), env.deepest, old(env.live), cls), constructsDeletable)
    decreases env.deepest - cls.depth
  {
    hide WellFormed, Reduced, DownClosed, Below, Progress, DefclassData.Valid, GraphOf, Bounded, FirstLeaf, Peeled;
    ghost var g, live := env.Classes(), env.live;
    ghost var free := FreeIn(live, constructsDeletable);
    ClassesRead(env);
    PeelsIff(g, env.deepest, live, cls, free);
    ProgressStart(g, live, cls, free);
    while |cls.directSubclasses| != 0
      invariant env.Valid() && cls in env.live && env.live <= live
      invariant Progress(g, live, env.Classes(), env.live, cls, free)
      invariant Peeled(g, env.deepest, env.live, cls, free) == Peeled(g, env.deepest, live, cls, free)
      decreases |cls.directSubclasses|
    {
      var subCount := |cls.directSubclasses|;
      var sub := cls.directSubclasses[0];
      ghost var g1, live1 := env.Classes(), env.live;
      ClassesRead(env);
      SubclassIsLive(env, cls, sub);
      var gone := DeleteClassUAG(env, sub, constructsDeletable);
      ClassesRead(env);
      DeletionProgress(g1, live1, env.Classes(), env.live, sub, free);
      SubclassPeeled(g, live, g1, live1, env.live, env.deepest, cls, sub, free, FreeIn(live1, constructsDeletable));
      SubclassWorked(g, live, g1, live1, env.Classes(), env.live, cls, sub, free);
      if |cls.directSubclasses| == subCount {
        assert !gone;
        return false;
      }
    }
    ClassesRead(env);
    ghost var g1, live1 := env.Classes(), env.live;
    LastPeeled(g, live, g1, live1, env.deepest, cls, free);
    ok := DeleteChildless(env, cls, constructsDeletable, free);
    ClassWorked(g, live, g1, live1, env.Classes(), env.live, cls, free, ok);
  }

  // Working on the first subclass takes away what peeling takes away there.
  lemma SubclassPeeled(g: Graph, live: set<Defclass>, g1: Graph, live1: set<Defclass>, live2: set<Defclass>,
                       deepest: nat, cls: Defclass, sub: Defclass, free: set<Defclass>, free1: set<Defclass>)
    requires Bounded(g, deepest) && Bounded(g1, deepest) && Progress(g, live, g1, live1, cls, free) && cls in live1
    requires cls in g.subs && cls in g1.subs && g1.subs[cls] != [] && g1.subs[cls][0] == sub && sub in live1 &&
               sub in g1.subs
    requires forall d :: d in live1 ==> (d in free <==> d in free1)
    requires live2 == Peeled(g1, deepest, live1, sub, free1)
    ensures cls in live2 && Peeled(g, deepest, live2, cls, free) == Peeled(g, deepest, live1, cls, free)
    ensures sub in live2 ==> Peeled(g, deepest, live2, cls, free) == live2
  {
    hide Bounded, FirstLeaf, Peeled;
    PeeledFree(g1, deepest, live1, sub, free1, free);
    PeeledReduced(g, live, g1, live1, deepest, live1, sub, free);
    FirstKept(g, live, g1, live1, deepest, cls, sub);
    PeelThrough(g, deepest, live1, cls, sub, free);
    if sub in live2 {
      PeelStops(g, deepest, live1, sub, free);
      PeelHeld(g, deepest, live2, cls, sub, free);
    }
  }

  lemma SubclassWorked(g: Graph, live: set<Defclass>, g1: Graph, live1: set<Defclass>, g2: Graph, live2: set<Defclass>,
                       cls: Defclass, sub: Defclass, free: set<Defclass>)
    requires Progress(g, live, g1, live1, cls, free) && Progress(g1, live1, g2, live2, sub, free)
    requires cls in live1 && cls in g1.subs && sub in g1.subs[cls]
    ensures Progress(g, live, g2, live2, cls, free) && WellFormed(g2, live2) && live2 <= live
    ensures Reduced(g, live, g2, live2) && DownClosed(g, live - live2)
    ensures forall c :: c in live - live2 ==> c in Below(g, cls) && c in free
    ensures cls in live2 && cls in g2.subs && |g2.subs[cls]| <= |g1.subs[cls]|
    ensures sub !in live2 ==> |g2.subs[cls]| < |g1.subs[cls]|
    ensures Below(g1, sub) <= Below(g, cls)
  {
    hide WellFormed, Reduced, DownClosed, Below, Progress;
    SubclassGone(g1, live1, g2, live2, cls, sub, free);
    ProgressStep(g, live, g1, live1, g2, live2, cls, sub, free);
    ProgressMeans(g, live, g2, live2, cls, free);
    forall held | held in Below(g1, sub) ensures held in Below(g, cls) {
      HeldBelow(g, live, g1, live1, cls, sub, held, free);
    }
  }

  // The class itself has been worked on, after the last of its subclasses.
  lemma ClassWorked(g: Graph, live: set<Defclass>, g1: Graph, live1: set<Defclass>, g2: Graph, live2: set<Defclass>,
                    cls: Defclass, free: set<Defclass>, ok: bool)
    requires Progress(g, live, g1, live1, cls, free) && cls in live && cls in live1 && cls in g.subs && cls in g1.subs
    requires if ok then Progress(g1, live1, g2, live2, cls, free) && live2 == live1 - {cls}
             else g2 == g1 && live2 == live1
    ensures WellFormed(g2, live2) && live2 <= live && cls in Below(g, cls)
    ensures Reduced(g, live, g2, live2) && DownClosed(g, live - live2)
    ensures forall c :: c in live - live2 ==> c in Below(g, cls) && c in free
    ensures ok ==> live2 == live - Below(g, cls) && Below(g, cls) <= free
  {
    hide WellFormed, Reduced, DownClosed, Below, Progress;
    if ok {
      ProgressStep(g, live, g1, live1, g2, live2, cls, cls, free);
      ClassGone(g, live, g2, live2, cls, free);
    }
    BelowSelf(g, cls);
    ProgressMeans(g, live, g2, live2, cls, free);
  }

  lemma FirstKept(g: Graph, live: set<Defclass>, g1: Graph, live1: set<Defclass>, deepest: nat, cls: Defclass,
                  sub: Defclass)
    requires Bounded(g1, deepest) && Reduced(g, live, g1, live1) && cls in live1
    requires cls in g1.subs && g1.subs[cls] != [] && g1.subs[cls][0] == sub
    ensures cls in g.subs && Keep(g.subs[cls], live1) != [] && Keep(g.subs[cls], live1)[0] == sub &&
              cls.depth < sub.depth
  {
    assert sub in g1.subs[cls];
  }

  // With no subclass left the class itself is next.
  lemma LastPeeled(g: Graph, live: set<Defclass>, g1: Graph, live1: set<Defclass>, deepest: nat, cls: Defclass,
                   free: set<Defclass>)
    requires Bounded(g, deepest) && Progress(g, live, g1, live1, cls, free) && cls in live1
    requires cls in g.subs && cls in g1.subs && g1.subs[cls] == []
    ensures Peeled(g, deepest, live1, cls, free) == if cls in free then live1 - {cls} else live1
  {
    hide WellFormed, DownClosed, Below, Bounded;
    assert FirstLeaf(g, deepest, live1, cls) == cls;
  }

  method DeleteChildless(env: DefclassData, cls: Defclass, constructsDeletable: bool, ghost free: set<Defclass>)
    returns (ok: bool)
    requires env.Valid() && cls in env.live && cls.directSubclasses == []
    requires Free(cls, constructsDeletable) ==> cls in free
    modifies env`ClassTable, env`live, env.live`directSuperclasses, env.live`directSubclasses, env.live`allSuperclasses
    ensures env.Valid() && cls in old(env.Classes()).subs
    ensures ok <==> Free(cls, constructsDeletable)
    ensures ok ==> env.live == old(env.live) - {cls}
    ensures ok ==> Progress(old(env.Classes()), old(env.live), env.Classes(), env.live, cls, free)
    ensures !ok ==> env.live == old(env.live) && env.Classes() == old(env.Classes())
  {
    hide WellFormed, Reduced, DownClosed, Below, Progress, DefclassData.Tabled;
    ghost var g1, live1 := env.Classes(), env.live;
    NoSubclasses(g1, live1, cls);
    ok := EnvIsDefclassDeletable(env, cls, constructsDeletable);
    if ok {
      RemoveDefclass(env, cls);
      LeafGone(g1, live1, env.Classes(), env.live, cls, free);
      ProgressMeans(g1, live1, env.Classes(), env.live, cls, free);
    }
  }

  lemma ProgressMeans(g: Graph, live: set<Defclass>, g1: Graph, live1: set<Defclass>, cls: Defclass,
                      free: set<Defclass>)
    requires Progress(g, live, g1, live1, cls, free)
    ensures WellFormed(g1, live1) && Reduced(g, live, g1, live1) && DownClosed(g, live - live1) && live1 <= live
    ensures forall c :: c in live - live1 ==> c in Below(g, cls) && c in free
  {
  }

  lemma HeldBelow(g: Graph, live: set<Defclass>, g1: Graph, live1: set<Defclass>, cls: Defclass, sub: Defclass,
                  held: Defclass, free: set<Defclass>)
    requires Progress(g, live, g1, live1, cls, free) && cls in live1 && cls in g1.subs && sub in g1.subs[cls]
    requires held in Below(g1, sub)
    ensures held in Below(g, cls)
  {
    BelowChild(g1, cls, sub);
    ReducedBelow(g, live, g1, live1, cls);
  }

  lemma NoSubclasses(g: Graph, live: set<Defclass>, cls: Defclass)
    requires WellFormed(g, live) && cls in live && cls in g.subs && g.subs[cls] == []
    ensures Below(g, cls) == {cls}
  {
    BelowSelf(g, cls);
    forall d | d in Below(g, cls) ensures d == cls {
      BelowIsChildren(g, cls, d);
    }
  }

  lemma LeafGone(g1: Graph, live1: set<Defclass>, g2: Graph, live2: set<Defclass>, cls: Defclass, free: set<Defclass>)
    requires WellFormed(g1, live1) && Reduced(g1, live1, g2, live2)
    requires cls in live1 && live2 == live1 - {cls} && g1.subs[cls] == [] && cls in free
    ensures Progress(g1, live1, g2, live2, cls, free)
  {
    BelowSelf(g1, cls);
    assert live1 - live2 == {cls};
    ReducedWellFormed(g1, live1, g2, live2);
  }

  lemma ClassGone(g: Graph, live: set<Defclass>, g1: Graph, live1: set<Defclass>, cls: Defclass, free: set<Defclass>)
    requires Progress(g, live, g1, live1, cls, free) && cls in live && cls !in live1
    ensures live1 == live - Below(g, cls) && Below(g, cls) <= free
  {
    DownClosedBelow(g, live - live1, cls);
  }

  lemma DeletionProgress(g1: Graph, live1: set<Defclass>, g2: Graph, live2: set<Defclass>, sub: Defclass,
                         free: set<Defclass>)
    requires WellFormed(g1, live1) && WellFormed(g2, live2) && Reduced(g1, live1, g2, live2)
    requires DownClosed(g1, live1 - live2)
    requires forall c :: c in live1 - live2 ==> c in Below(g1, sub) && c in free
    ensures Progress(g1, live1, g2, live2, sub, free)
  {
  }
}
