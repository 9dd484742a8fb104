/** A class made from a precedence list is ready to be added to the class graph. */
module ClassPreparation {
  import opened Options
  import opened Precedence
  import opened PrecedenceRules
  import opened PrecedenceFinder
  import opened ClassGraph
  import opened ClassAddition

  // The classes as numbers: ids lists them once each, and h has their direct superclasses in order.
  ghost predicate Numbered(g: Graph, live: set<Defclass>, ids: seq<Defclass>, h: Hierarchy) {
    && Defined(h) && |h| == |ids| && Distinct(ids) && g.supers.Keys == live
    && (forall c :: c in live ==> c in ids)
    && (forall k :: 0 <= k < |ids| ==> ids[k] in live && NamedBy(g.supers[ids[k]], ids, h[k]))
  }

  ghost predicate NamedBy(s: seq<Defclass>, ids: seq<Defclass>, numbers: seq<nat>) {
    |s| == |numbers| && forall i :: 0 <= i < |s| ==> numbers[i] < |ids| && s[i] == ids[numbers[i]]
  }

  // Every ancestor of a class of the family has a number in the family.
  lemma {:induction false} AncestorsInFamily(g: Graph, live: set<Defclass>, ids: seq<Defclass>, h: Hierarchy,
                                             family: seq<nat>, k: nat, a: Defclass)
    requires WellFormed(g, live) && Numbered(g, live, ids, h) && ClosedFrom(h, family, 0)
    requires k in family && k < |h| && a in g.ancestors[ids[k]]
    ensures exists j :: j in family && j < |ids| && ids[j] == a
    decreases k
  {
    var c := ids[k];
    if a != c {
      InheritedFrom(g, live, c, a);
      var p :| p in g.supers[c] && p in live && a in g.ancestors[p];
      var i :| 0 <= i < |g.supers[c]| && g.supers[c][i] == p;
      assert h[k][i] in h[k];
      AncestorsInFamily(g, live, ids, h, family, h[k][i], a);
    }
  }

  lemma InheritedFrom(g: Graph, live: set<Defclass>, c: Defclass, a: Defclass)
    requires WellFormed(g, live) && c in live && a in g.ancestors[c] && a != c
    ensures c in g.supers && exists p :: p in g.supers[c] && p in live && p in g.ancestors && a in g.ancestors[p]
  {
    assert Inherited(g, live, c, a);
  }

  lemma WalkOn(h: Hierarchy, w: seq<nat>, s: nat, d: nat)
    requires LeadsTo(h, w, s, d) && |w| > 1
    ensures s < |h| && w[1] in h[s] && LeadsTo(h, w[1..], w[1], d)
  {
    assert w[0 + 1] in h[w[0]];
    forall i | 0 <= i < |w[1..]| - 1 ensures w[1..][i + 1] in h[w[1..][i]] {
      assert w[i + 1 + 1] in h[w[i + 1]];
    }
  }

  // A class has the ancestors of its superclass t.
  lemma OneUp(g: Graph, live: set<Defclass>, ids: seq<Defclass>, h: Hierarchy, s: nat, t: nat, a: Defclass)
    requires WellFormed(g, live) && Numbered(g, live, ids, h) && s < |ids| && t < |ids| && t in h[s]
    requires ids[t] in g.ancestors && a in g.ancestors[ids[t]]
    ensures ids[s] in g.ancestors && a in g.ancestors[ids[s]]
  {
    var i :| 0 <= i < |h[s]| && h[s][i] == t;
    assert g.supers[ids[s]][i] == ids[t];
  }

  // What a walk along superclasses leads to is a cached ancestor.
  lemma {:induction false} WalkIsAncestor(g: Graph, live: set<Defclass>, ids: seq<Defclass>, h: Hierarchy,
                                          w: seq<nat>, s: nat, d: nat)
    requires WellFormed(g, live) && Numbered(g, live, ids, h) && LeadsTo(h, w, s, d)
    ensures s < |ids| && d < |ids| && ids[s] in g.ancestors && ids[d] in g.ancestors[ids[s]]
    decreases |w|
  {
    hide WellFormed;
    if |w| > 1 {
      WalkOn(h, w, s, d);
      WalkIsAncestor(g, live, ids, h, w[1..], w[1], d);
      OneUp(g, live, ids, h, s, w[1], ids[d]);
    } else {
      CachedSelf(g, live, ids[s]);
    }
  }

  /**
   * The list found for some superclasses names, as classes, exactly what the ancestor lists of those superclasses
   * hold.
   */
  lemma ListIsAncestors(g: Graph, live: set<Defclass>, ids: seq<Defclass>, h: Hierarchy, cls: Option<nat>,
                        supers: seq<nat>, r: seq<nat>, a: Defclass)
    requires WellFormed(g, live) && Numbered(g, live, ids, h) && AllBelow(supers, |h|)
    requires Linear(h, Family(h, supers), cls, supers, r)
    ensures (exists j :: j in r && j < |ids| && ids[j] == a) <==>
            (exists s :: s in supers && s < |ids| && ids[s] in g.ancestors && a in g.ancestors[ids[s]])
  {
    hide WellFormed, Entered;
    FamilyCloses(h, supers);
    if j :| j in r && j < |ids| && ids[j] == a {
      TableExact(h, supers, j);
      var s :| s in supers && Reaches(h, s, j);
      var w :| LeadsTo(h, w, s, j);
      WalkIsAncestor(g, live, ids, h, w, s, j);
    }
    if s :| s in supers && s < |ids| && ids[s] in g.ancestors && a in g.ancestors[ids[s]] {
      AncestorsInFamily(g, live, ids, h, Family(h, supers), s, a);
    }
  }

  /** A new class whose ancestor list is the class itself and the precedence list found for it is ready to be added. */
  lemma ListPrepares(g: Graph, live: set<Defclass>, ids: seq<Defclass>, h: Hierarchy, redefined: Option<nat>,
                     supers: seq<nat>, r: seq<nat>, cls: Defclass, precedence: seq<Defclass>)
    requires WellFormed(g, live) && Numbered(g, live, ids, h) && AllBelow(supers, |h|) && Unrepeated(supers)
    requires Linear(h, Family(h, supers), redefined, supers, r)
    requires cls !in live && cls.directSubclasses == [] && NamedBy(cls.directSuperclasses, ids, supers)
    requires forall c :: c in live ==> c.depth < cls.depth
    requires cls.allSuperclasses == [cls] + precedence && NamedBy(precedence, ids, r)
    ensures Prepared(cls, g, live)
  {
    hide WellFormed, Linear, Family, Numbered, Entered;
    SupersKnown(g, live, ids, h, supers, cls);
    assert cls.allSuperclasses[0] == cls;
    forall a | a in cls.allSuperclasses && a != cls
      ensures exists p :: p in cls.directSuperclasses && p in g.ancestors && a in g.ancestors[p]
    {
      var i :| 0 <= i < |precedence| && precedence[i] == a;
      assert r[i] in r;
      ListIsAncestors(g, live, ids, h, redefined, supers, r, a);
      var s :| s in supers && s < |ids| && ids[s] in g.ancestors && a in g.ancestors[ids[s]];
      NamedIn(cls.directSuperclasses, ids, supers, s);
    }
    forall p, a | p in cls.directSuperclasses && p in g.ancestors && a in g.ancestors[p]
      ensures a in cls.allSuperclasses
    {
      var k :| 0 <= k < |supers| && cls.directSuperclasses[k] == p;
      assert supers[k] in supers;
      ListIsAncestors(g, live, ids, h, redefined, supers, r, a);
      var j :| j in r && j < |ids| && ids[j] == a;
      NamedIn(precedence, ids, r, j);
    }
  }

  lemma NamedIn(s: seq<Defclass>, ids: seq<Defclass>, numbers: seq<nat>, j: nat)
    requires NamedBy(s, ids, numbers) && j in numbers
    ensures j < |ids| && ids[j] in s
  {
    var i :| 0 <= i < |numbers| && numbers[i] == j;
    assert s[i] == ids[j];
  }

  lemma SupersKnown(g: Graph, live: set<Defclass>, ids: seq<Defclass>, h: Hierarchy, supers: seq<nat>, cls: Defclass)
    requires WellFormed(g, live) && Numbered(g, live, ids, h) && AllBelow(supers, |h|) && Unrepeated(supers)
    requires NamedBy(cls.directSuperclasses, ids, supers)
    ensures Distinct(cls.directSuperclasses)
    ensures forall p :: p in cls.directSuperclasses ==> p in live && p in g.ancestors
  {
  }
}
