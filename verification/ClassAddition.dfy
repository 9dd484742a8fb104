/** Defining a class: an old definition goes with its subclasses, then the new class is linked in. */
module ClassAddition {
  import opened Options
  import opened ClassGraph
  import opened ClassDeletion
  import opened ClassPeeling

  // What the parser and the precedence list hand over for a new class.
  ghost predicate Prepared(cls: Defclass, g: Graph, live: set<Defclass>)
    reads cls
  {
    && cls !in live && cls.directSubclasses == []
    && Distinct(cls.directSuperclasses)
    && (forall p :: p in cls.directSuperclasses ==> p in live && p in g.ancestors && p.depth < cls.depth)
    && cls in cls.allSuperclasses
    && (forall a :: a in cls.allSuperclasses ==>
          a == cls || exists p :: p in cls.directSuperclasses && p in g.ancestors && a in g.ancestors[p])
    && (forall p, a :: p in cls.directSuperclasses && p in g.ancestors && a in g.ancestors[p] ==>
        a in cls.allSuperclasses)
  }

  ghost predicate Added(g: Graph, live: set<Defclass>, g1: Graph, live1: set<Defclass>, cls: Defclass) {
    && cls !in live && live1 == live + {cls}
    && g.supers.Keys == g.subs.Keys == g.ancestors.Keys == live
    && g1.supers.Keys == g1.subs.Keys == g1.ancestors.Keys == live1
    && (forall c :: c in live ==> g1.supers[c] == g.supers[c])
    && (forall c :: c in live ==> g1.ancestors[c] == g.ancestors[c])
    && (forall c :: c in live ==> g1.subs[c] == if c in g1.supers[cls] then g.subs[c] + [cls] else g.subs[c])
    && g1.subs[cls] == []
  }

  ghost predicate NewLinks(cls: Defclass, g1: Graph)
    reads cls
  {
    cls in g1.supers && cls in g1.ancestors && g1.supers[cls] == cls.directSuperclasses &&
        g1.ancestors[cls] == cls.allSuperclasses
  }

  // A subclass link is an old one or leads to the new class.
  lemma AddedLink(g: Graph, live: set<Defclass>, g1: Graph, live1: set<Defclass>, cls: Defclass, c: Defclass,
                  d: Defclass)
    requires Added(g, live, g1, live1, cls) && c in live1 && d in g1.subs[c]
    ensures c in live && (d in g.subs[c] || (d == cls && c in g1.supers[cls]))
  {
  }

  lemma AddedDistinct(g: Graph, live: set<Defclass>, g1: Graph, live1: set<Defclass>, cls: Defclass, c: Defclass)
    requires Added(g, live, g1, live1, cls) && Over(g.subs, live) && c in live1
    requires c in live ==> Distinct(g.subs[c])
    ensures Distinct(g1.subs[c])
  {
  }

  lemma AddedDown(cls: Defclass, g: Graph, live: set<Defclass>, g1: Graph, live1: set<Defclass>, c: Defclass,
                  d: Defclass)
    requires Mirrored(g, live) && Ranked(g) && Prepared(cls, g, live)
    requires Added(g, live, g1, live1, cls) && NewLinks(cls, g1)
    requires c in live1 && d in g1.subs[c]
    ensures d in live1 && c in g1.supers[d] && c.depth < d.depth
  {
    hide Distinct;
    AddedLink(g, live, g1, live1, cls, c, d);
    if d in g.subs[c] {
      assert c in g.supers[d];
    }
  }

  lemma AddedUp(cls: Defclass, g: Graph, live: set<Defclass>, g1: Graph, live1: set<Defclass>, c: Defclass, d: Defclass)
    requires Mirrored(g, live) && Prepared(cls, g, live)
    requires Added(g, live, g1, live1, cls) && NewLinks(cls, g1)
    requires d in live1 && c in g1.supers[d]
    ensures c in live1 && d in g1.subs[c]
  {
    hide Distinct;
    if d == cls {
      assert g1.subs[c] == g.subs[c] + [cls];
    } else {
      assert c in g.supers[d] && d in g.subs[c];
    }
  }

  lemma AddedBothDistinct(cls: Defclass, g: Graph, live: set<Defclass>, g1: Graph, live1: set<Defclass>, c: Defclass)
    requires Mirrored(g, live) && Prepared(cls, g, live)
    requires Added(g, live, g1, live1, cls) && NewLinks(cls, g1) && c in live1
    ensures Distinct(g1.supers[c]) && Distinct(g1.subs[c])
  {
    AddedDistinct(g, live, g1, live1, cls, c);
  }

  lemma AddedMirrored(cls: Defclass, g: Graph, live: set<Defclass>, g1: Graph, live1: set<Defclass>)
    requires Mirrored(g, live) && Ranked(g) && Prepared(cls, g, live)
    requires Added(g, live, g1, live1, cls) && NewLinks(cls, g1)
    requires g1.supers.Keys == g1.subs.Keys == live1
    ensures Mirrored(g1, live1) && Ranked(g1)
  {
    hide Added, Prepared, Distinct, Mirrored, Ranked;
    forall c, d | c in live1 && d in g1.subs[c]
      ensures d in live1 && c in g1.supers[d] && c.depth < d.depth
    {
      AddedDown(cls, g, live, g1, live1, c, d);
    }
    forall c, d | d in live1 && c in g1.supers[d] ensures c in live1 && d in g1.subs[c] {
      AddedUp(cls, g, live, g1, live1, c, d);
    }
    forall c | c in live1 ensures Distinct(g1.supers[c]) && Distinct(g1.subs[c]) {
      AddedBothDistinct(cls, g, live, g1, live1, c);
    }
    MirroredIs(g1, live1);
  }

  lemma MirroredIs(g: Graph, live: set<Defclass>)
    requires g.supers.Keys == g.subs.Keys == live
    requires forall c, d :: c in live && d in g.subs[c] ==> d in live && c in g.supers[d] && c.depth < d.depth
    requires forall c, d :: d in live && c in g.supers[d] ==> c in live && d in g.subs[c]
    requires forall c :: c in live ==> Distinct(g.supers[c]) && Distinct(g.subs[c])
    ensures Mirrored(g, live) && Ranked(g)
  {
    hide Distinct;
  }

  lemma AddedAncestor(cls: Defclass, g: Graph, live: set<Defclass>, g1: Graph, live1: set<Defclass>, c: Defclass,
                      a: Defclass)
    requires WellFormed(g, live) && Prepared(cls, g, live)
    requires Added(g, live, g1, live1, cls) && NewLinks(cls, g1) && c in live1 && a in g1.ancestors[c]
    ensures a in live1 && (a == c || Inherited(g1, live1, c, a))
  {
    hide Mirrored, Ranked, Distinct;
    SupersLive(g, live);
    if a == c {
    } else if c != cls {
      assert Inherited(g, live, c, a);
      var p :| p in g.supers[c] && p in live && p in g.ancestors && a in g.ancestors[p];
      assert p in g1.supers[c] && a in g1.ancestors[p];
    } else {
      var p :| p in cls.directSuperclasses && p in g.ancestors && a in g.ancestors[p];
      assert p in g1.supers[c] && a in g1.ancestors[p];
    }
  }

  lemma AddedInherits(cls: Defclass, g: Graph, live: set<Defclass>, g1: Graph, live1: set<Defclass>, c: Defclass,
                      p: Defclass, a: Defclass)
    requires WellFormed(g, live) && Prepared(cls, g, live)
    requires Added(g, live, g1, live1, cls) && NewLinks(cls, g1)
    requires c in live1 && p in g1.supers[c] && p in live1 && a in g1.ancestors[p]
    ensures a in g1.ancestors[c]
  {
    hide Mirrored, Ranked, Distinct;
    SupersLive(g, live);
  }

  lemma AddedCached(cls: Defclass, g: Graph, live: set<Defclass>, g1: Graph, live1: set<Defclass>)
    requires WellFormed(g, live) && Prepared(cls, g, live)
    requires Added(g, live, g1, live1, cls) && NewLinks(cls, g1)
    requires g1.supers.Keys == g1.ancestors.Keys == live1
    ensures Cached(g1, live1)
  {
    hide WellFormed, Prepared, Added, Inherited;
    forall c, a | c in live1 && a in g1.ancestors[c]
      ensures a in live1 && (a == c || Inherited(g1, live1, c, a))
    {
      AddedAncestor(cls, g, live, g1, live1, c, a);
    }
    forall c, p, a | c in live1 && p in g1.supers[c] && p in live1 && a in g1.ancestors[p]
      ensures a in g1.ancestors[c]
    {
      AddedInherits(cls, g, live, g1, live1, c, p, a);
    }
    forall c | c in live1 ensures c in g1.ancestors[c] {
      AddedSelf(cls, g, live, g1, live1, c);
    }
  }

  lemma AddedSelf(cls: Defclass, g: Graph, live: set<Defclass>, g1: Graph, live1: set<Defclass>, c: Defclass)
    requires WellFormed(g, live) && Prepared(cls, g, live)
    requires Added(g, live, g1, live1, cls) && NewLinks(cls, g1) && c in live1
    ensures c in g1.ancestors[c]
  {
  }

  lemma SupersLive(g: Graph, live: set<Defclass>)
    requires WellFormed(g, live)
    ensures g.supers.Keys == live && forall c, p :: c in live && p in g.supers[c] ==> p in live
  {
  }

  lemma AddedWellFormed(cls: Defclass, g: Graph, live: set<Defclass>, g1: Graph, live1: set<Defclass>)
    requires WellFormed(g, live) && Prepared(cls, g, live)
    requires Added(g, live, g1, live1, cls) && NewLinks(cls, g1)
    ensures WellFormed(g1, live1)
  {
    AddedMirrored(cls, g, live, g1, live1);
    AddedCached(cls, g, live, g1, live1);
  }

  method BuildSubclassLinks(cls: Defclass, ghost live: set<Defclass>)
    requires cls !in live && Distinct(cls.directSuperclasses)
    requires forall p :: p in cls.directSuperclasses ==> p in live
    modifies live`directSubclasses
    ensures forall c :: c in live ==>
              c.directSubclasses == if c in cls.directSuperclasses then old(c.directSubclasses) + [cls]
                                    else old(c.directSubclasses)
    ensures cls.directSubclasses == old(cls.directSubclasses)
  {
    var i := 0;
    while i < |cls.directSuperclasses|
      invariant i <= |cls.directSuperclasses|
      invariant forall c :: c in live && c !in cls.directSuperclasses[..i] ==>
                  c.directSubclasses == old(c.directSubclasses)
      invariant forall c :: c in cls.directSuperclasses[..i] ==> c.directSubclasses == old(c.directSubclasses) + [cls]
      invariant cls.directSubclasses == old(cls.directSubclasses)
    {
      var sclass := cls.directSuperclasses[i];
      sclass.directSubclasses := AddClassLink(sclass.directSubclasses, cls, -1);
      i := i + 1;
    }
    assert cls.directSuperclasses[..i] == cls.directSuperclasses;
  }

  // Puts a class in the table and links it below its superclasses.
  method InsertClass(env: DefclassData, cls: Defclass)
    requires env.Valid() && Prepared(cls, env.Classes(), env.live)
    modifies env`ClassTable, env`live, env`deepest, env.live`directSubclasses
    ensures env.Valid() && env.live == old(env.live) + {cls}
    ensures Added(old(env.Classes()), old(env.live), env.Classes(), env.live, cls) && NewLinks(cls, env.Classes())
  {
    hide WellFormed, Prepared, Added;
    ghost var g, live := env.Classes(), env.live;
    PreparedMeans(cls, g, live);
    PutClassInTable(env, cls);
    BuildSubclassLinks(cls, live);
    ReadAdded(cls, g, live, env.live);
    AddedWellFormed(cls, g, live, env.Classes(), env.live);
  }

  method PutClassInTable(env: DefclassData, cls: Defclass)
    requires env.Tabled() && cls !in env.live
    modifies env`ClassTable, env`live, env`deepest
    ensures env.Tabled() && env.live == old(env.live) + {cls}
  {
    env.ClassTable := [cls] + env.ClassTable;
    env.live := env.live + {cls};
    env.deepest := env.deepest + cls.depth;
  }

  lemma ReadAdded(cls: Defclass, g: Graph, live: set<Defclass>, live1: set<Defclass>)
    requires g.supers.Keys == g.subs.Keys == g.ancestors.Keys == live && cls !in live && live1 == live + {cls}
    requires forall c :: c in live ==> c.directSuperclasses == g.supers[c]
    requires forall c :: c in live ==> c.allSuperclasses == g.ancestors[c]
    requires forall c :: c in live ==>
               c.directSubclasses == if c in cls.directSuperclasses then g.subs[c] + [cls] else g.subs[c]
    requires cls.directSubclasses == []
    ensures Added(g, live, GraphOf(live1), live1, cls) && NewLinks(cls, GraphOf(live1))
  {
  }

  /**
   * Defines a class. An old definition is deleted first, and the answer of that deletion is not looked at. The
   * superclasses must not inherit from the old definition, which the parser sees to.
   */
  method AddClass(env: DefclassData, cls: Defclass, existing: Option<Defclass>, constructsDeletable: bool)
    requires env.Valid() && Prepared(cls, env.Classes(), env.live)
    requires existing.Some? ==> existing.value in env.live
    requires existing.Some? ==> forall p :: p in cls.directSuperclasses ==> p !in Below(env.Classes(), existing.value)
    modifies env`ClassTable, env`live, env`deepest
    modifies env.live`directSuperclasses, env.live`directSubclasses, env.live`allSuperclasses
    ensures env.Valid() && Bounded(old(env.Classes()), old(env.deepest))
    ensures existing.Some? ==> existing.value in old(env.Classes()).subs
    ensures Redefined(old(env.Classes()), env.Classes(), env.live, cls,
                      Survivors(old(env.Classes()), old(env.deepest), old(env.live), existing,
                                old(FreeIn(env.live, constructsDeletable))))
    ensures existing.Some? && (forall c :: c in Below(old(env.Classes()), existing.value) ==>
              Free(c, constructsDeletable)) ==>
              env.live == old(env.live) - Below(old(env.Classes()), existing.value) + {cls}
    ensures NewLinks(cls, env.Classes())
  {
    hide WellFormed, Below, Prepared, Added, DefclassData.Valid, GraphOf, Bounded, Peeled, Keep, Reduced, Redefined;
    hide NewLinks, FreeIn;
    ghost var live := env.live;
    PreparedMeans(cls, env.Classes(), env.live);
    ClassesRead(env);
    BelowAreLive(env);
    ghost var g := env.Classes();
    if existing.Some? {
      DeleteExisting(env, cls, existing.value, constructsDeletable);
    } else {
      NothingDropped(env);
    }
    ghost var g1, live1 := env.Classes(), env.live;
    InsertClass(env, cls);
    AddedAfter(g, live, g1, live1, env.Classes(), env.live, cls);
  }

  // The new class has been added to the classes that were kept, whose other links are as before.
  ghost predicate Redefined(g: Graph, g1: Graph, live1: set<Defclass>, cls: Defclass, kept: set<Defclass>) {
    && cls !in kept && live1 == kept + {cls}
    && kept <= g.supers.Keys && g.supers.Keys == g.subs.Keys == g.ancestors.Keys
    && g1.supers.Keys == g1.subs.Keys == g1.ancestors.Keys == live1
    && (forall c :: c in kept ==> g1.supers[c] == g.supers[c])
    && (forall c :: c in kept ==> g1.ancestors[c] == g.ancestors[c])
    && (forall c :: c in kept ==>
          g1.subs[c] == Keep(g.subs[c], kept) + (if c in g1.supers[cls] then [cls] else []))
    && g1.subs[cls] == []
  }

  lemma AddedAfter(g: Graph, live: set<Defclass>, g1: Graph, live1: set<Defclass>, g2: Graph, live2: set<Defclass>,
                   cls: Defclass)
    requires WellFormed(g, live) && Reduced(g, live, g1, live1) && DownClosed(g, live - live1) &&
               Added(g1, live1, g2, live2, cls)
    ensures Redefined(g, g2, live2, cls, live1)
  {
    hide WellFormed, Keep, Reduced, DownClosed, Added, Redefined;
    SupersStay(g, live, g1, live1);
    AddedOver(g, g1, live1, g2, live2, cls);
  }

  lemma AddedOver(g: Graph, g1: Graph, live1: set<Defclass>, g2: Graph, live2: set<Defclass>, cls: Defclass)
    requires live1 <= g.supers.Keys && g.supers.Keys == g.subs.Keys == g.ancestors.Keys
    requires g1.supers.Keys == g1.subs.Keys == g1.ancestors.Keys == live1 && Added(g1, live1, g2, live2, cls)
    requires forall c :: c in live1 ==> g1.supers[c] == g.supers[c] && g1.ancestors[c] == g.ancestors[c]
    requires forall c :: c in live1 ==> g1.subs[c] == Keep(g.subs[c], live1)
    ensures Redefined(g, g2, live2, cls, live1)
  {
    hide Keep;
  }

  // The classes that are left when an old definition has been worked on.
  ghost function Survivors(g: Graph, deepest: nat, live: set<Defclass>, existing: Option<Defclass>,
                           free: set<Defclass>): set<Defclass>
    requires Bounded(g, deepest) && (existing.Some? ==> existing.value in g.subs && existing.value in live)
  {
    if existing.None? then live else Peeled(g, deepest, live, existing.value, free)
  }

  // Deletes the old definition; the new class can still be linked in.
  method DeleteExisting(env: DefclassData, cls: Defclass, existing: Defclass, constructsDeletable: bool)
    requires env.Valid() && Prepared(cls, env.Classes(), env.live) && existing in env.live && cls !in env.live
    requires forall p :: p in cls.directSuperclasses ==> p in env.live && p !in Below(env.Classes(), existing)
    modifies env`ClassTable, env`live, env.live`directSuperclasses, env.live`directSubclasses, env.live`allSuperclasses
    ensures env.Valid() && Prepared(cls, env.Classes(), env.live) && env.live <= old(env.live)
    ensures Bounded(old(env.Classes()), env.deepest) && existing in old(env.Classes()).subs
    ensures env.live ==
            Peeled(old(env.Classes()), env.deepest, old(env.live), existing, FreeIn(old(env.live), constructsDeletable))
    ensures (forall c :: c in Below(old(env.Classes()), existing) ==> Free(c, constructsDeletable)) ==>
              env.live == old(env.live) - Below(old(env.Classes()), existing)
    ensures Reduced(old(env.Classes()), old(env.live), env.Classes(), env.live)
    ensures DownClosed(old(env.Classes()), old(env.live) - env.live)
  {
    hide WellFormed, Below, Reduced, DownClosed, Prepared, DefclassData.Valid, GraphOf, Bounded, Peeled, Keep;
    ghost var g, live := env.Classes(), env.live;
    ClassesRead(env);
    var gone := DeleteClassUAG(env, existing, constructsDeletable);
    StillPrepared(cls, g, live, env.Classes(), env.live);
  }

  lemma NothingDropped(env: DefclassData)
    requires env.Valid()
    ensures Reduced(env.Classes(), env.live, env.Classes(), env.live)
    ensures DownClosed(env.Classes(), env.live - env.live)
  {
    ghost var g := env.Classes();
    forall c | c in env.live
      ensures Keep(g.subs[c], env.live) == g.subs[c] && Keep(g.supers[c], env.live) == g.supers[c]
    {
      KeepAll(g.subs[c], env.live);
      KeepAll(g.supers[c], env.live);
    }
  }

  lemma PreparedMeans(cls: Defclass, g: Graph, live: set<Defclass>)
    requires Prepared(cls, g, live)
    ensures cls !in live && Distinct(cls.directSuperclasses) && cls.directSubclasses == []
    ensures forall p :: p in cls.directSuperclasses ==> p in live
  {
  }

  lemma StillPrepared(cls: Defclass, g: Graph, live: set<Defclass>, g1: Graph, live1: set<Defclass>)
    requires Prepared(cls, g, live) && Reduced(g, live, g1, live1)
    requires forall p :: p in cls.directSuperclasses ==> p in live1
    ensures Prepared(cls, g1, live1)
  {
    forall a | a in cls.allSuperclasses
      ensures a == cls || exists p :: p in cls.directSuperclasses && p in g1.ancestors && a in g1.ancestors[p]
    {
      if a != cls {
        var p :| p in cls.directSuperclasses && p in g.ancestors && a in g.ancestors[p];
        assert g1.ancestors[p] == g.ancestors[p];
      }
    }
  }

  lemma SupersStay(g: Graph, live: set<Defclass>, g1: Graph, live1: set<Defclass>)
    requires WellFormed(g, live) && Reduced(g, live, g1, live1) && DownClosed(g, live - live1)
    ensures live1 <= live && g1.supers.Keys == g1.subs.Keys == g1.ancestors.Keys == live1
    ensures g.supers.Keys == g.subs.Keys == g.ancestors.Keys == live
    ensures forall c :: c in live1 ==> g1.supers[c] == g.supers[c] && g1.ancestors[c] == g.ancestors[c]
    ensures forall c :: c in live1 ==> g1.subs[c] == Keep(g.subs[c], live1)
  {
    forall c | c in live1 ensures g1.supers[c] == g.supers[c] {
      ReducedSupers(g, live, g1, live1, c);
    }
  }

  lemma HalfPeeled(g: Graph, deepest: nat, root: Defclass, first: Defclass, second: Defclass, free: set<Defclass>)
    requires Bounded(g, deepest) && root in g.subs && first in g.subs && second in g.subs
    requires g.subs[root] == [first, second] && g.subs[first] == g.subs[second] == []
    requires root != first && root != second && first != second && first in free && second !in free
    ensures Peeled(g, deepest, {root, first, second}, root, free) == {root, second}
  {
    hide Bounded;
    var all := {root, first, second};
    assert FirstLeaf(g, deepest, all, first) == first;
    assert Keep([first, second], all)[0] == first;
    assert FirstLeaf(g, deepest, all, root) == first;
    assert all - {first} == {root, second};
    assert FirstLeaf(g, deepest, {root, second}, second) == second;
    assert [first, second][1..] == [second];
    assert Keep([second], {root, second}) == [second];
    assert FirstLeaf(g, deepest, {root, second}, root) == second;
  }

  // The graph after one more class without subclasses has been linked in.
  method InsertLeaf(env: DefclassData, supers: seq<Defclass>, ghost g: Graph) returns (cls: Defclass)
    requires env.Valid() && g == env.Classes() && |supers| <= 1
    requires forall p :: p in supers ==> p in env.live && p in g.ancestors && g.ancestors[p] == [p] && p.depth == 0
    modifies env`ClassTable, env`live, env`deepest, env.live`directSubclasses
    ensures env.Valid() && fresh(cls) && env.live == old(env.live) + {cls} && cls.busy == 0 && !cls.system
    ensures supers == [] ==> cls.depth == 0 && env.Classes().ancestors[cls] == [cls]
    ensures env.Classes().subs.Keys == env.Classes().ancestors.Keys == env.live && env.Classes().subs[cls] == []
    ensures g.subs.Keys == g.ancestors.Keys == old(env.live)
    ensures forall c :: c in old(env.live) ==>
              env.Classes().subs[c] == g.subs[c] + (if c in supers then [cls] else []) &&
              env.Classes().ancestors[c] == g.ancestors[c]
  {
    hide WellFormed, DefclassData.Valid, GraphOf;
    cls := new Defclass(false, supers, supers, |supers|);
    InsertClass(env, cls);
  }

  // A class with two subclasses.
  method MakeThree() returns (env: DefclassData, root: Defclass, first: Defclass, second: Defclass)
    ensures env.Valid() && env.live == {root, first, second} && fresh(env.live) && fresh(env)
    ensures root != first && root != second && first != second
    ensures env.Classes().subs.Keys == env.live
    ensures env.Classes().subs[root] == [first, second]
    ensures env.Classes().subs[first] == env.Classes().subs[second] == []
    ensures first.busy == 0 && !first.system
  {
    hide WellFormed, Below, DefclassData.Valid, GraphOf;
    env := new DefclassData();
    root := InsertLeaf(env, [], env.Classes());
    assert env.live == {root};
    first := InsertLeaf(env, [root], env.Classes());
    second := InsertLeaf(env, [root], env.Classes());
  }

  /** A deletion that fails halfway: the first subclass is gone, the class and its second, busy subclass remain. */
  method DeleteHalf() returns (env: DefclassData, root: Defclass, first: Defclass, second: Defclass, ok: bool)
    ensures env.Valid() && !ok && second.busy == 1
    ensures first != root && first != second && second != root && env.live == {root, second}
  {
    hide WellFormed, Below, DefclassData.Valid, GraphOf, Peeled, Reduced, DownClosed, Bounded, FirstLeaf;
    env, root, first, second := MakeThree();
    second.busy := 1;
    ghost var g := env.Classes();
    ok := DeleteClassUAG(env, root, true);
    HalfPeeled(g, env.deepest, root, first, second, FreeIn({root, first, second}, true));
  }

  /** Removing the class alone leaves its subclasses naming a class that is gone. */
  method RemoveParent() returns (env: DefclassData, root: Defclass)
    ensures root !in env.live && exists c :: c in env.live && root in c.allSuperclasses
    ensures Mirrored(env.Classes(), env.live) && !WellFormed(env.Classes(), env.live)
  {
    hide Below, Mirrored, Ranked, Cached, DefclassData.Tabled;
    var first, second;
    env, root, first, second := MakeThree();
    ghost var g, live := env.Classes(), env.live;
    RemoveDefclass(env, root);
    RemovalNeedsNoSubclasses(g, live, env.Classes(), root);
  }
}
