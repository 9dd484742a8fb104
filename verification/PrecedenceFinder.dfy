/** Finding the class precedence list of a new or redefined class. */
module PrecedenceFinder {
  import opened Options
  import opened Orders
  import opened PrecedenceSort
  import opened Precedence
  import opened PrecedenceList
  import opened PrecedenceRules

  /** Appends the classes of a list that are not in the table yet, each followed by its ancestors. */
  method InitializePartialOrderTable(h: Hierarchy, po_table: seq<nat>, supers: seq<nat>, ghost b: nat)
    returns (table: seq<nat>)
    requires Defined(h) && b <= |h| && AllBelow(supers, b)
    ensures table == Entered(h, po_table, supers, 0, b)
    decreases b
  {
    table := po_table;
    var i := 0;
    while i < |supers|
      invariant i <= |supers|
      invariant Entered(h, table, supers, i, b) == Entered(h, po_table, supers, 0, b)
    {
      var pop := 0;
      while pop < |table| && table[pop] != supers[i]
        invariant pop <= |table| && supers[i] !in table[..pop]
      {
        pop := pop + 1;
      }
      assert table[..|table|] == table;
      if pop == |table| {
        table := InitializePartialOrderTable(h, table + [supers[i]], h[supers[i]], supers[i]);
      }
      i := i + 1;
    }
  }

  // What one class of the table contributes to the pairs.
  ghost predicate ClassPair(h: Hierarchy, t: nat, p: (nat, nat)) {
    t < |h| && ((p.0 == t && p.1 in h[t]) || Earlier(h[t], p.0, p.1))
  }

  // Each class of a list comes before the later ones.
  method RecordList(po: PartialOrderTable, list: seq<nat>)
    requires po.Valid() && forall k :: 0 <= k < |list| ==> list[k] in po.classes
    modifies po
    ensures po.Valid()
    ensures forall p: (nat, nat) :: p in po.pairs <==> p in old(po.pairs) || Earlier(list, p.0, p.1)
  {
    hide PartialOrderTable.Valid;
    var i := 0;
    while i < |list|
      invariant i <= |list| && po.Valid()
      invariant forall p: (nat, nat) :: p in po.pairs <==> p in old(po.pairs) || EarlierUpTo(list, i, p.0, p.1)
    {
      po.RecordPartialOrders(list[i], list, i + 1);
      i := i + 1;
    }
    EarlierAll(list);
  }

  ghost predicate EarlierUpTo(s: seq<nat>, n: nat, c: nat, d: nat) {
    exists i, j :: 0 <= i < j < |s| && i < n && s[i] == c && s[j] == d
  }

  lemma EarlierAll(s: seq<nat>)
    ensures forall c, d :: EarlierUpTo(s, |s|, c, d) <==> Earlier(s, c, d)
  {
  }

  // The pairs that the classes of the table from a position on give.
  method RecordClasses(po: PartialOrderTable, h: Hierarchy, first: nat)
    requires po.Valid() && first <= |po.classes|
    requires forall k :: first <= k < |po.classes| ==> Known(h, po.classes, po.classes[k])
    modifies po
    ensures po.Valid()
    ensures forall p: (nat, nat) :: p in po.pairs <==>
              p in old(po.pairs) || exists k :: first <= k < |po.classes| && ClassPair(h, po.classes[k], p)
  {
    hide PartialOrderTable.Valid, ClassPair;
    var pop := first;
    while pop < |po.classes|
      invariant first <= pop <= |po.classes| && po.Valid()
      invariant forall p: (nat, nat) :: p in po.pairs <==>
                  p in old(po.pairs) || exists k :: first <= k < pop && ClassPair(h, po.classes[k], p)
    {
      RecordClass(po, h, po.classes[pop]);
      pop := pop + 1;
    }
  }

  // A class whose superclasses are all in the table.
  ghost predicate Known(h: Hierarchy, classes: seq<nat>, c: nat) {
    c < |h| && c in classes && forall k :: 0 <= k < |h[c]| ==> h[c][k] in classes
  }

  method RecordClass(po: PartialOrderTable, h: Hierarchy, c: nat)
    requires po.Valid() && Known(h, po.classes, c)
    modifies po
    ensures po.Valid()
    ensures forall p: (nat, nat) :: p in po.pairs <==> p in old(po.pairs) || ClassPair(h, c, p)
  {
    hide PartialOrderTable.Valid, Earlier;
    po.RecordPartialOrders(c, h[c], 0);
    RecordList(po, h[c]);
  }

  // A list of the family in which everything comes where the rules allow.
  ghost predicate Linear(h: Hierarchy, family: seq<nat>, cls: Option<nat>, supers: seq<nat>, r: seq<nat>) {
    && Unrepeated(r) && (forall d :: d in r <==> d in family)
    && forall c, d :: c in family && Precedes(h, family, cls, supers, c, d) ==> Earlier(r, c, d)
  }

  // The family as it was entered is already in an order that the rules allow.
  ghost predicate Keepable(h: Hierarchy, family: seq<nat>, cls: Option<nat>, supers: seq<nat>) {
    Linear(h, family, cls, supers, family) && (cls.Some? ==> cls.value !in family)
  }

  // All that must come before the class is done.
  ghost predicate Placeable(h: Hierarchy, family: seq<nat>, cls: Option<nat>, supers: seq<nat>, done: seq<nat>,
                            d: nat)
  {
    d in family && d !in done && forall c :: c in family && Precedes(h, family, cls, supers, c, d) ==> c in done
  }

  // The class at position i of the family is the first placeable one behind position last, going round.
  ghost predicate NextInFamily(h: Hierarchy, family: seq<nat>, cls: Option<nat>, supers: seq<nat>, done: seq<nat>,
                               last: int, i: nat)
  {
    && i < |family| && Placeable(h, family, cls, supers, done, family[i])
    && forall z: nat :: z < |family| && Placeable(h, family, cls, supers, done, family[z]) ==> !Sooner(last, z, i)
  }

  ghost function PlaceIn(family: seq<nat>, d: nat): int {
    if d in family then NodeOf(family, d) else -1
  }

  ghost predicate PickedNext(h: Hierarchy, family: seq<nat>, cls: Option<nat>, supers: seq<nat>, r: seq<nat>, k: nat)
    requires k < |r|
  {
    && r[k] in family
    && NextInFamily(h, family, cls, supers, r[..k], if k == 0 then -1 else PlaceIn(family, r[k - 1]),
                    NodeOf(family, r[k]))
  }

  /**
   * The list is picked from the family: each class is the first one that the rules allow by then, behind the class
   * picked before it and round the family.
   */
  ghost predicate Picked(h: Hierarchy, family: seq<nat>, cls: Option<nat>, supers: seq<nat>, r: seq<nat>) {
    forall k: nat {:trigger r[k]} :: k < |r| ==> PickedNext(h, family, cls, supers, r, k)
  }

  // The rules of inheritance, said of the list: a class stands before its superclasses, and these in the order given.
  ghost predicate Respects(h: Hierarchy, supers: seq<nat>, r: seq<nat>) {
    && (forall c, d :: c in r && c < |h| && d in h[c] ==> Earlier(r, c, d))
    && (forall c, i, j :: c in r && c < |h| && 0 <= i < j < |h[c]| ==> Earlier(r, h[c][i], h[c][j]))
    && (forall i, j :: 0 <= i < j < |supers| ==> Earlier(r, supers[i], supers[j]))
  }

  lemma LinearRespects(h: Hierarchy, supers: seq<nat>, cls: Option<nat>, r: seq<nat>)
    requires Defined(h) && AllBelow(supers, |h|) && Linear(h, Family(h, supers), cls, supers, r)
    ensures Respects(h, supers, r)
  {
    hide Entered, Earlier;
    var family := Family(h, supers);
    FamilyCloses(h, supers);
    forall c, d | c in r && c < |h| && d in h[c] ensures Earlier(r, c, d) {
      assert Precedes(h, family, cls, supers, c, d);
    }
    forall c, i, j | c in r && c < |h| && 0 <= i < j < |h[c]| ensures Earlier(r, h[c][i], h[c][j]) {
      InListOrder(h[c], i, j);
      assert Precedes(h, family, cls, supers, h[c][i], h[c][j]);
      var k :| 0 <= k < |family| && family[k] == c;
      assert h[c][i] in family;
    }
    forall i, j | 0 <= i < j < |supers| ensures Earlier(r, supers[i], supers[j]) {
      InListOrder(supers, i, j);
      assert Precedes(h, family, cls, supers, supers[i], supers[j]);
    }
  }

  lemma InListOrder(s: seq<nat>, i: nat, j: nat)
    requires i < j < |s|
    ensures Earlier(s, s[i], s[j])
  {
  }

  function ClassesOf(classes: seq<nat>, order: seq<nat>): (r: seq<nat>)
    requires AllBelow(order, |classes|)
    ensures |r| == |order| && forall i :: 0 <= i < |order| ==> r[i] == classes[order[i]]
  {
    seq(|order|, i requires 0 <= i < |order| => classes[order[i]])
  }

  /**
   * Finds the precedence list of a class from its direct superclasses; cls is its old definition, if there is one.
   * A list is found exactly when the rules of inheritance do not contradict each other. It then names every
   * ancestor once, each class before its superclasses, and the superclasses of each class in the order given. Among the
   * lists like that it is the one picked by going round the family; the order in which the classes were entered, each
   * followed by its ancestors, is kept whenever the rules allow.
   */
  method FindPrecedenceList(h: Hierarchy, cls: Option<nat>, supers: seq<nat>) returns (r: Option<seq<nat>>)
    requires Defined(h) && AllBelow(supers, |h|) && (cls.Some? ==> cls.value < |h|)
    ensures r.None? <==> Contradictory(h, Family(h, supers), cls, supers)
    ensures r.Some? ==> Linear(h, Family(h, supers), cls, supers, r.value)
    ensures r.Some? ==> Respects(h, supers, r.value) && Picked(h, Family(h, supers), cls, supers, r.value)
    ensures r.Some? && cls.Some? ==> cls.value !in r.value
    ensures Keepable(h, Family(h, supers), cls, supers) ==> r == Some(Family(h, supers))
  {
    hide PartialOrderTable.Valid, Records, Contradictory, Linear, Entered, HasCycle, InOrder, ClassPair, Precedes;
    hide Resumed, Exhausted, Keepable;
    var table := InitializePartialOrderTable(h, [], supers, |h|);
    ghost var family := Family(h, supers);
    FamilyCloses(h, supers);
    var po := new PartialOrderTable(if cls.Some? then [cls.value] + table else table);
    Everyone(h, supers, cls, po.classes);
    var first := 0;
    if cls.Some? {
      po.RecordPartialOrders(cls.value, supers, 0);
      first := 1;
    }
    ghost var own := po.pairs;
    RecordClasses(po, h, first);
    ghost var both := po.pairs;
    RecordList(po, supers);
    AllRecorded(h, supers, cls, po.classes, first, own, both, po.pairs);
    TableMeans(po);
    var order, left := SortTable(po.preds, po.suc, po.pre);
    CyclesAgree(po, h, family, cls, supers);
    if Keepable(h, family, cls, supers) {
      FamilyKept(po, h, supers, cls, order);
    }
    if left != [] {
      return None;
    }
    OrderBounded(po.preds, order);
    var list := ClassesOf(po.classes, order);
    Sorted(po, h, supers, cls, order, list);
    r := Some(if cls.Some? then list[1..] else list);
    LinearRespects(h, supers, cls, r.value);
    PickedInTurn(po, h, supers, cls, order, list);
  }

  // A node of the family is free exactly when its class can be placed.
  lemma FreeIsPlaceable(po: PartialOrderTable, h: Hierarchy, supers: seq<nat>, cls: Option<nat>, done: seq<nat>,
                        made: seq<nat>, z: nat)
    requires Defined(h) && AllBelow(supers, |h|) && po.Valid() && TableOf(h, supers, cls, po.classes)
    requires Records(h, Family(h, supers), cls, supers, po.pairs) && Unrepeated(po.classes)
    requires AllBelow(done, |po.classes|) && (cls.Some? ==> 0 in done)
    requires forall m :: 0 <= m < |po.classes| && (cls.Some? ==> m > 0) ==> (m in done <==> po.classes[m] in made)
    requires z < |po.classes| && (cls.Some? ==> z > 0)
    ensures Free(po.preds, done, z) <==> Placeable(h, Family(h, supers), cls, supers, made, po.classes[z])
  {
    hide Entered, Precedes, Records, PartialOrderTable.Valid;
    var family, first := Family(h, supers), if cls.Some? then 1 else 0;
    var d := po.classes[z];
    TableMeans(po);
    assert d == family[z - first];
    if Free(po.preds, done, z) {
      forall c | c in family && Precedes(h, family, cls, supers, c, d) ensures c in made {
        RuleIsNodeStep(po, h, family, cls, supers, c, d);
        NodeIs(po.classes, z);
        var m := NodeOf(po.classes, c);
        var k :| 0 <= k < |family| && family[k] == c;
        assert po.classes[k + first] == c;
        assert m == k + first;
      }
    }
    if Placeable(h, family, cls, supers, made, d) {
      forall m | m in po.preds[z] ensures m in done {
        NodeStepIsRule(po, h, family, cls, supers, m, z);
        if m >= first {
          assert po.classes[m] == family[m - first];
        }
      }
    }
  }

  lemma NodeIs(classes: seq<nat>, z: nat)
    requires z < |classes| && Unrepeated(classes)
    ensures NodeOf(classes, classes[z]) == z
  {
  }

  // The nodes taken by then are those of the classes listed by then.
  lemma TakenIsListed(classes: seq<nat>, order: seq<nat>, list: seq<nat>, first: nat, k: nat, m: nat)
    requires Unrepeated(classes) && AllBelow(order, |classes|) && Unrepeated(order) && list == ClassesOf(classes, order)
    requires first <= 1 && first <= k <= |order| && m < |classes| && m >= first
    requires first == 1 ==> order[0] == 0
    ensures m in order[..k] <==> classes[m] in list[first..k]
  {
    if m in order[..k] {
      var i :| 0 <= i < k && order[..k][i] == m;
      assert list[first..k][i - first] == classes[m];
    }
    if classes[m] in list[first..k] {
      var i :| 0 <= i < k - first && list[first..k][i] == classes[m];
      assert list[i + first] == classes[order[i + first]];
      assert order[..k][i + first] == m;
    }
  }

  lemma PickedInTurn(po: PartialOrderTable, h: Hierarchy, supers: seq<nat>, cls: Option<nat>, order: seq<nat>,
                     list: seq<nat>)
    requires Defined(h) && AllBelow(supers, |h|) && po.Valid() && TableOf(h, supers, cls, po.classes)
    requires Records(h, Family(h, supers), cls, supers, po.pairs) && !Contradictory(h, Family(h, supers), cls, supers)
    requires AllBelow(order, |po.classes|) && Unrepeated(order) && list == ClassesOf(po.classes, order)
    requires Resumed(po.preds, order) && Exhausted(po.preds, order)
    ensures var r := if cls.Some? && list != [] then list[1..] else list;
            Picked(h, Family(h, supers), cls, supers, r)
  {
    hide Entered, Precedes, Records, Contradictory, PartialOrderTable.Valid, Resumed, Exhausted, PickedNext;
    var family, first := Family(h, supers), if cls.Some? then 1 else 0;
    FamilyCloses(h, supers);
    TableMeans(po);
    TableApart(po, h, supers, cls, order);
    var r := if cls.Some? && list != [] then list[1..] else list;
    assert r == list[first..];
    forall k: nat | k < |r| ensures PickedNext(h, family, cls, supers, r, k) {
      PickedAt(po, h, supers, cls, order, list, r, k);
    }
  }

  // The class itself, when it is in the table, comes first and is no one else's.
  lemma TableApart(po: PartialOrderTable, h: Hierarchy, supers: seq<nat>, cls: Option<nat>, order: seq<nat>)
    requires Defined(h) && AllBelow(supers, |h|) && po.Valid() && TableOf(h, supers, cls, po.classes)
    requires Records(h, Family(h, supers), cls, supers, po.pairs) && !Contradictory(h, Family(h, supers), cls, supers)
    requires Resumed(po.preds, order) && Exhausted(po.preds, order)
    ensures Unrepeated(po.classes) && (cls.Some? ==> order != [] && order[0] == 0)
  {
    hide Entered, Precedes, Records, Contradictory, PartialOrderTable.Valid, Resumed, Exhausted;
    FamilyCloses(h, supers);
    if cls.Some? {
      if cls.value in Family(h, supers) {
        InheritingFromItself(h, cls.value, supers);
        assert false;
      }
      NothingFirst(po, h, supers, cls.value);
      HeadFirst(po.preds, order);
    }
  }

  lemma PickedAt(po: PartialOrderTable, h: Hierarchy, supers: seq<nat>, cls: Option<nat>, order: seq<nat>,
                 list: seq<nat>, r: seq<nat>, k: nat)
    requires Defined(h) && AllBelow(supers, |h|) && po.Valid() && TableOf(h, supers, cls, po.classes)
    requires Records(h, Family(h, supers), cls, supers, po.pairs) && Unrepeated(po.classes)
    requires AllBelow(order, |po.classes|) && Unrepeated(order) && list == ClassesOf(po.classes, order)
    requires Resumed(po.preds, order) && (cls.Some? ==> order != [] && order[0] == 0)
    requires |po.preds| == |po.classes| && (cls.Some? ==> list != [])
    requires r == list[if cls.Some? then 1 else 0..] && k < |r|
    ensures PickedNext(h, Family(h, supers), cls, supers, r, k)
  {
    hide Entered, Precedes, Records, PartialOrderTable.Valid, Placeable, Free, Resumed, NodeOf, FirstFree, NextInFamily,
         AllBelow, TableOf, Unrepeated, Family, Defined, Sooner, PlaceIn;
    var family, first := Family(h, supers), if cls.Some? then 1 else 0;
    var n := first + k;
    FreeAt(po.preds, order, n);
    assert r[..k] == list[first..n];
    FreeAsPlaceable(po, h, supers, cls, order, list, n);
    TakenNode(po.classes, family, order, list, first, n);
    if k > 0 {
      TakenNode(po.classes, family, order, list, first, n - 1);
    }
    assert LastOf(order[..n]) - first == if k == 0 then -1 else PlaceIn(family, r[k - 1]);
    FirstOfFamily(po.preds, order[..n], LastOf(order[..n]), order[n], first, h, family, cls, supers, r[..k]);
  }

  // The class listed at position i of the order has its node, less the class itself, as its place in the family.
  lemma TakenNode(classes: seq<nat>, family: seq<nat>, order: seq<nat>, list: seq<nat>, first: nat, i: nat)
    requires Unrepeated(classes) && AllBelow(order, |classes|) && Unrepeated(order) && list == ClassesOf(classes, order)
    requires first <= 1 && first <= |classes| && family == classes[first..] && first <= i < |order|
    requires first == 1 ==> order[0] == 0
    ensures first <= order[i] < |classes| && list[i] in family && NodeOf(family, list[i]) == order[i] - first
    ensures PlaceIn(family, list[i]) == order[i] - first
  {
    hide NodeOf;
    assert list[i] == family[order[i] - first];
    assert Unrepeated(family);
    NodeIs(family, order[i] - first);
  }

  lemma FreeAsPlaceable(po: PartialOrderTable, h: Hierarchy, supers: seq<nat>, cls: Option<nat>, order: seq<nat>,
                        list: seq<nat>, n: nat)
    requires Defined(h) && AllBelow(supers, |h|) && po.Valid() && TableOf(h, supers, cls, po.classes)
    requires Records(h, Family(h, supers), cls, supers, po.pairs) && Unrepeated(po.classes)
    requires AllBelow(order, |po.classes|) && Unrepeated(order) && list == ClassesOf(po.classes, order)
    requires |po.preds| == |po.classes| && (if cls.Some? then 1 else 0) <= n <= |order| && (cls.Some? ==> order[0] == 0)
    ensures var family, first := Family(h, supers), if cls.Some? then 1 else 0;
            && first <= |po.classes| && family == po.classes[first..]
            && forall z: nat :: z < |family| ==>
                 (Free(po.preds, order[..n], z + first) <==>
                  Placeable(h, family, cls, supers, list[first..n], family[z]))
  {
    hide Entered, Precedes, Records, PartialOrderTable.Valid, Placeable, Free, Unrepeated, Defined, Family;
    var family, first := Family(h, supers), if cls.Some? then 1 else 0;
    var done, made := order[..n], list[first..n];
    assert family == po.classes[first..];
    assert cls.Some? ==> done[0] == 0;
    forall m | 0 <= m < |po.classes| && (cls.Some? ==> m > 0) ensures m in done <==> po.classes[m] in made {
      TakenIsListed(po.classes, order, list, first, n, m);
    }
    forall z: nat | z < |family|
      ensures Free(po.preds, done, z + first) <==> Placeable(h, family, cls, supers, made, family[z])
    {
      FreeIsPlaceable(po, h, supers, cls, done, made, z + first);
      assert po.classes[z + first] == family[z];
    }
  }

  lemma FirstOfFamily(preds: seq<seq<nat>>, done: seq<nat>, last: int, node: nat, first: nat, h: Hierarchy,
                      family: seq<nat>, cls: Option<nat>, supers: seq<nat>, made: seq<nat>)
    requires FirstFree(preds, done, last, node) && first <= node < first + |family| == |preds|
    requires forall z: nat :: z < |family| ==>
               (Free(preds, done, z + first) <==> Placeable(h, family, cls, supers, made, family[z]))
    ensures NextInFamily(h, family, cls, supers, made, last - first, node - first)
  {
    hide Placeable, Free;
    assert node - first + first == node;
    forall z: nat | z < |family| && Placeable(h, family, cls, supers, made, family[z])
      ensures !Sooner(last - first, z, node - first)
    {
      assert Free(preds, done, z + first);
    }
  }

  lemma FreeAt(preds: seq<seq<nat>>, order: seq<nat>, n: nat)
    requires Resumed(preds, order) && n < |order|
    ensures FirstFree(preds, order[..n], LastOf(order[..n]), order[n])
  {
  }

  // The classes of the table: the family, behind the class itself when it exists already.
  ghost predicate TableOf(h: Hierarchy, supers: seq<nat>, cls: Option<nat>, classes: seq<nat>)
    requires Defined(h) && AllBelow(supers, |h|)
  {
    classes == if cls.Some? then [cls.value] + Family(h, supers) else Family(h, supers)
  }

  lemma Everyone(h: Hierarchy, supers: seq<nat>, cls: Option<nat>, classes: seq<nat>)
    requires Defined(h) && AllBelow(supers, |h|) && TableOf(h, supers, cls, classes)
    ensures cls.Some? ==> cls.value in classes && |classes| > 0
    ensures forall k :: 0 <= k < |supers| ==> supers[k] in classes
    ensures forall k :: (if cls.Some? then 1 else 0) <= k < |classes| ==> Known(h, classes, classes[k])
  {
    hide Entered;
    FamilyCloses(h, supers);
    var family := Family(h, supers);
    var first := if cls.Some? then 1 else 0;
    forall k | first <= k < |classes| ensures Known(h, classes, classes[k]) {
      assert classes[k] == family[k - first];
    }
  }

  lemma AllRecorded(h: Hierarchy, supers: seq<nat>, cls: Option<nat>, classes: seq<nat>, first: nat,
                    own: set<(nat, nat)>, both: set<(nat, nat)>, pairs: set<(nat, nat)>)
    requires Defined(h) && AllBelow(supers, |h|) && TableOf(h, supers, cls, classes)
    requires first == if cls.Some? then 1 else 0
    requires forall p: (nat, nat) :: p in own <==> cls.Some? && PairFrom(cls.value, supers, 0, p)
    requires forall p: (nat, nat) :: p in both <==>
               p in own || exists k :: first <= k < |classes| && ClassPair(h, classes[k], p)
    requires forall p: (nat, nat) :: p in pairs <==> p in both || Earlier(supers, p.0, p.1)
    ensures Records(h, Family(h, supers), cls, supers, pairs)
  {
    hide Entered, Earlier;
    FamilyCloses(h, supers);
    var family := Family(h, supers);
    forall p: (nat, nat) ensures p in pairs <==> Precedes(h, family, cls, supers, p.0, p.1) {
      ClassPairs(h, supers, cls, classes, first, p);
    }
  }

  lemma ClassPairs(h: Hierarchy, supers: seq<nat>, cls: Option<nat>, classes: seq<nat>, first: nat, p: (nat, nat))
    requires Defined(h) && AllBelow(supers, |h|) && TableOf(h, supers, cls, classes)
    requires first == if cls.Some? then 1 else 0
    ensures (exists k :: first <= k < |classes| && ClassPair(h, classes[k], p)) <==>
              exists t :: t in Family(h, supers) && t < |h| && ((p.0 == t && p.1 in h[t]) || Earlier(h[t], p.0, p.1))
  {
    hide Entered, Earlier;
    var family := Family(h, supers);
    if exists k :: first <= k < |classes| && ClassPair(h, classes[k], p) {
      var k :| first <= k < |classes| && ClassPair(h, classes[k], p);
      assert classes[k] == family[k - first];
    }
    if t :| t in family && t < |h| && ((p.0 == t && p.1 in h[t]) || Earlier(h[t], p.0, p.1)) {
      var k :| 0 <= k < |family| && family[k] == t;
      assert classes[k + first] == t && ClassPair(h, classes[k + first], p);
    }
  }

  lemma TableMeans(po: PartialOrderTable)
    requires po.Valid()
    ensures Matching(po.preds, po.suc) && |po.pre| == |po.preds| == |po.classes|
    ensures forall j :: 0 <= j < |po.pre| ==> po.pre[j] == |po.preds[j]|
  {
  }

  lemma OrderBounded(preds: seq<seq<nat>>, order: seq<nat>)
    requires InOrder(preds, order)
    ensures AllBelow(order, |preds|) && Unrepeated(order)
  {
  }

  // Whatever something must come before is in the family.
  lemma LaterIsFamily(h: Hierarchy, supers: seq<nat>, cls: Option<nat>, c: nat, d: nat)
    requires Defined(h) && AllBelow(supers, |h|) && Precedes(h, Family(h, supers), cls, supers, c, d)
    ensures d in Family(h, supers)
  {
    hide Entered;
    FamilyCloses(h, supers);
    var family := Family(h, supers);
    if d !in supers {
      var t :| t in family && t < |h| && ((c == t && d in h[t]) || Earlier(h[t], c, d));
      assert d in h[t];
      var k :| 0 <= k < |family| && family[k] == t;
    }
  }

  // The class itself has no predecessor.
  lemma NothingFirst(po: PartialOrderTable, h: Hierarchy, supers: seq<nat>, cls: nat)
    requires Defined(h) && AllBelow(supers, |h|) && po.Valid() && TableOf(h, supers, Some(cls), po.classes)
    requires Records(h, Family(h, supers), Some(cls), supers, po.pairs) && cls !in Family(h, supers)
    ensures |po.preds| > 0 && po.preds[0] == []
  {
    hide Entered, Precedes;
    if po.preds[0] != [] {
      var a := po.preds[0][0];
      PairOfNodes(po, a, 0);
      assert Precedes(h, Family(h, supers), Some(cls), supers, (po.classes[a], cls).0, (po.classes[a], cls).1);
      LaterIsFamily(h, supers, Some(cls), po.classes[a], cls);
      assert false;
    }
  }

  // Pairs stand in the order of the list.
  lemma PairsEarlier(po: PartialOrderTable, order: seq<nat>, list: seq<nat>, c: nat, d: nat)
    requires po.Valid() && InOrder(po.preds, order) && AllBelow(order, |po.classes|) &&
               list == ClassesOf(po.classes, order)
    requires (forall m :: 0 <= m < |po.preds| ==> m in order) && (c, d) in po.pairs
    ensures Earlier(list, c, d)
  {
    NodesOfPair(po, c, d);
    var a, b := NodeOf(po.classes, c), NodeOf(po.classes, d);
    assert b in order;
    var i :| 0 <= i < |order| && order[i] == b;
    assert a in order[..i];
    var k :| 0 <= k < i && order[..i][k] == a;
    assert list[k] == c && list[i] == d;
  }

  lemma ListMembers(classes: seq<nat>, order: seq<nat>, list: seq<nat>)
    requires Unrepeated(classes) && Unrepeated(order) && AllBelow(order, |classes|) && list == ClassesOf(classes, order)
    requires forall m :: 0 <= m < |classes| ==> m in order
    ensures Unrepeated(list) && forall d :: d in list <==> d in classes
  {
    forall d | d in classes ensures d in list {
      var m :| 0 <= m < |classes| && classes[m] == d;
      assert m in order;
      var i :| 0 <= i < |order| && order[i] == m;
      assert list[i] == d;
    }
  }

  lemma Sorted(po: PartialOrderTable, h: Hierarchy, supers: seq<nat>, cls: Option<nat>, order: seq<nat>, list: seq<nat>)
    requires Defined(h) && AllBelow(supers, |h|) && po.Valid() && TableOf(h, supers, cls, po.classes)
    requires Records(h, Family(h, supers), cls, supers, po.pairs) && !Contradictory(h, Family(h, supers), cls, supers)
    requires InOrder(po.preds, order) && AllBelow(order, |po.classes|) && Unrepeated(order) &&
               list == ClassesOf(po.classes, order)
    requires forall m :: 0 <= m < |po.preds| ==> m in order
    requires Resumed(po.preds, order) && Exhausted(po.preds, order)
    ensures cls.Some? ==> list != [] && cls.value !in list[1..]
    ensures Linear(h, Family(h, supers), cls, supers, if cls.Some? then list[1..] else list)
  {
    hide Entered, Precedes, Contradictory, InOrder, Earlier, Resumed, Exhausted;
    var family := Family(h, supers);
    FamilyCloses(h, supers);
    TableMeans(po);
    forall c, d | Precedes(h, family, cls, supers, c, d) ensures Earlier(list, c, d) {
      assert (c, d).0 == c && (c, d).1 == d;
      PairsEarlier(po, order, list, c, d);
    }
    if cls.Some? {
      if cls.value in family {
        InheritingFromItself(h, cls.value, supers);
        assert false;
      }
      NothingFirst(po, h, supers, cls.value);
      HeadFirst(po.preds, order);
      ListMembers(po.classes, order, list);
      assert list[0] == cls.value;
      WithoutHead(list, family);
    } else {
      ListMembers(po.classes, order, list);
    }
  }

  // The list behind its first class.
  lemma WithoutHead(list: seq<nat>, family: seq<nat>)
    requires list != [] && Unrepeated(list) && list[0] !in family && forall d :: d in list <==>
               d == list[0] || d in family
    ensures Unrepeated(list[1..]) && forall d :: d in list[1..] <==> d in family
    ensures forall c, d :: c in family && Earlier(list, c, d) ==> Earlier(list[1..], c, d)
  {
    assert list == [list[0]] + list[1..];
    forall d | d in family ensures d in list[1..] {
      assert d in list;
    }
    forall c, d | c in family && Earlier(list, c, d) ensures Earlier(list[1..], c, d) {
      var i, j :| 0 <= i < j < |list| && list[i] == c && list[j] == d;
      assert list[1..][i - 1] == c && list[1..][j - 1] == d;
    }
  }

  lemma FamilyInOrder(po: PartialOrderTable, h: Hierarchy, supers: seq<nat>, cls: Option<nat>)
    requires Defined(h) && AllBelow(supers, |h|) && po.Valid() && TableOf(h, supers, cls, po.classes)
    requires Records(h, Family(h, supers), cls, supers, po.pairs) && Keepable(h, Family(h, supers), cls, supers)
    ensures InOrder(po.preds, FirstNodes(|po.classes|))
  {
    hide Entered, Precedes, PartialOrderTable.Valid;
    TableMeans(po);
    var nodes := FirstNodes(|po.classes|);
    forall i, m | 0 <= i < |nodes| && m in po.preds[nodes[i]] ensures m in nodes[..i] {
      EarlierNode(po, h, supers, cls, m, i);
      assert nodes[..i][m] == m;
    }
  }

  // A predecessor stands in front in the table.
  lemma EarlierNode(po: PartialOrderTable, h: Hierarchy, supers: seq<nat>, cls: Option<nat>, a: nat, j: nat)
    requires Defined(h) && AllBelow(supers, |h|) && po.Valid() && TableOf(h, supers, cls, po.classes)
    requires Records(h, Family(h, supers), cls, supers, po.pairs) && Keepable(h, Family(h, supers), cls, supers)
    requires j < |po.preds| && a in po.preds[j]
    ensures a < j
  {
    hide Entered, Precedes, PartialOrderTable.Valid, Records, Linear;
    var family := Family(h, supers);
    NodeStepIsRule(po, h, family, cls, supers, a, j);
    LaterIsFamily(h, supers, cls, po.classes[a], po.classes[j]);
    var first := if cls.Some? then 1 else 0;
    assert j >= first;
    if a >= first {
      assert po.classes[a] == family[a - first] && po.classes[j] == family[j - first];
      LinearAt(h, family, cls, supers, a - first, j - first);
    }
  }

  lemma LinearAt(h: Hierarchy, family: seq<nat>, cls: Option<nat>, supers: seq<nat>, i: nat, j: nat)
    requires Linear(h, family, cls, supers, family) && i < |family| && j < |family|
    requires Precedes(h, family, cls, supers, family[i], family[j])
    ensures i < j
  {
    hide Precedes;
    assert family[i] in family;
    var x, y :| 0 <= x < y < |family| && family[x] == family[i] && family[y] == family[j];
    assert x == i && y == j;
  }

  lemma FamilyKept(po: PartialOrderTable, h: Hierarchy, supers: seq<nat>, cls: Option<nat>, order: seq<nat>)
    requires Defined(h) && AllBelow(supers, |h|) && po.Valid() && TableOf(h, supers, cls, po.classes)
    requires Records(h, Family(h, supers), cls, supers, po.pairs) && Keepable(h, Family(h, supers), cls, supers)
    requires Resumed(po.preds, order) && Exhausted(po.preds, order)
    ensures !HasCycle(po.preds) && AllBelow(order, |po.classes|)
    ensures ClassesOf(po.classes, order) == po.classes
  {
    hide Entered, Precedes, Records, Keepable, Resumed, Exhausted, HasCycle, InOrder;
    var nodes := FirstNodes(|po.classes|);
    TableMeans(po);
    FamilyInOrder(po, h, supers, cls);
    assert order[..0] == FirstNodes(0);
    TableOrderKept(po.preds, order, 0);
    forall m | 0 <= m < |po.preds| ensures m in nodes {
      assert nodes[m] == m;
    }
    AllOrderedNoCycle(po.preds, nodes);
  }
}
