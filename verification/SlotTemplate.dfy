/** The instance template of a class: which slot its instances have for every name, and the index by name id. */
module SlotTemplate {
  import opened Options
  import opened Shorts
  import opened SlotNames

  // A slot name with its canonical id, which the table of slot names cuts to 16 bits.
  datatype SlotRef = SlotRef(name: Symbol, id: int)

  datatype SlotDesc = SlotDesc(slotName: SlotRef, noInherit: bool, shared: bool, definedIn: string)

  // ---- Meaning ----

  ghost function Names(s: seq<SlotDesc>): set<SlotRef> {
    set i | 0 <= i < |s| :: s[i].slotName
  }

  // Whether the k-th class of a precedence list lets the class at its head have the slot.
  predicate Offered(k: nat, d: SlotDesc) {
    k == 0 || !d.noInherit
  }

  ghost predicate Offers(precedence: seq<seq<SlotDesc>>, k: nat, name: SlotRef)
    requires k < |precedence|
  {
    exists d :: d in precedence[k] && d.slotName == name && Offered(k, d)
  }

  // The slot a name stands for: it comes from the first class in the list that offers one.
  ghost predicate Wins(precedence: seq<seq<SlotDesc>>, d: SlotDesc) {
    exists k :: 0 <= k < |precedence| && Supplies(precedence, k, d)
  }

  ghost predicate Supplies(precedence: seq<seq<SlotDesc>>, k: nat, d: SlotDesc)
    requires k < |precedence|
  {
    && d in precedence[k] && Offered(k, d)
    && forall j :: 0 <= j < k ==> !Offers(precedence, j, d.slotName)
  }

  ghost predicate Visible(precedence: seq<seq<SlotDesc>>, name: SlotRef) {
    exists k :: 0 <= k < |precedence| && Offers(precedence, k, name)
  }

  ghost predicate OnePerName(s: seq<SlotDesc>) {
    forall i, j :: 0 <= i < j < |s| ==> s[i].slotName != s[j].slotName
  }

  // ---- Merging ----

  // The slots of the k-th class from position i on, put in front of a list unless their name is there already.
  ghost function Merged(old_: seq<SlotDesc>, slots: seq<SlotDesc>, i: nat, k: nat): seq<SlotDesc>
    requires i <= |slots|
    decreases |slots| - i
  {
    if i == |slots| then old_
    else
      var rest := Merged(old_, slots, i + 1, k);
      if Offered(k, slots[i]) && slots[i].slotName !in Names(rest) then [slots[i]] + rest else rest
  }

  ghost function MergedAll(precedence: seq<seq<SlotDesc>>, n: nat): seq<SlotDesc>
    requires n <= |precedence|
  {
    if n == 0 then [] else Merged(MergedAll(precedence, n - 1), precedence[n - 1], 0, n - 1)
  }

  lemma {:induction false} MergedOnePerName(old_: seq<SlotDesc>, slots: seq<SlotDesc>, i: nat, k: nat)
    requires i <= |slots| && OnePerName(old_)
    ensures OnePerName(Merged(old_, slots, i, k))
    decreases |slots| - i
  {
    if i < |slots| {
      MergedOnePerName(old_, slots, i + 1, k);
      NamesIn(Merged(old_, slots, i + 1, k));
    }
  }

  lemma {:induction false} MergedMembers(old_: seq<SlotDesc>, slots: seq<SlotDesc>, i: nat, k: nat)
    requires i <= |slots|
    ensures var r := Merged(old_, slots, i, k);
            && (forall d :: d in old_ ==> d in r)
            && (forall d :: d in r && d !in old_ ==> d in slots[i..] && Offered(k, d) && d.slotName !in Names(old_))
            && (forall j :: i <= j < |slots| && Offered(k, slots[j]) ==> slots[j].slotName in Names(r))
    decreases |slots| - i
  {
    if i < |slots| {
      MergedMembers(old_, slots, i + 1, k);
      var rest := Merged(old_, slots, i + 1, k);
      var r := Merged(old_, slots, i, k);
      NamesIn(rest);
      NamesIn(r);
      NamesIn(old_);
      assert slots[i..] == [slots[i]] + slots[i + 1..];
      forall j | i <= j < |slots| && Offered(k, slots[j]) ensures slots[j].slotName in Names(r) {
        if j != i {
          assert slots[j].slotName in Names(rest);
        }
      }
    }
  }

  lemma NamesIn(s: seq<SlotDesc>)
    ensures forall d :: d in s ==> d.slotName in Names(s)
    ensures forall n :: n in Names(s) ==> exists d :: d in s && d.slotName == n
  {
  }

  lemma {:induction false} MergedAllMembers(precedence: seq<seq<SlotDesc>>, n: nat)
    requires n <= |precedence|
    ensures var r := MergedAll(precedence, n);
            && OnePerName(r)
            && (forall d :: d in r ==> SuppliedBelow(precedence, n, d))
            && (forall k, name :: 0 <= k < n && Offers(precedence, k, name) ==> name in Names(r))
  {
    hide Supplies, Offers, OnePerName, Merged, Names;
    if n == 0 {
      NoneTwice();
    } else {
      MergedAllMembers(precedence, n - 1);
      var before := MergedAll(precedence, n - 1);
      var r := MergedAll(precedence, n);
      MergedOnePerName(before, precedence[n - 1], 0, n - 1);
      MergedMembers(before, precedence[n - 1], 0, n - 1);
      forall d | d in r ensures SuppliedBelow(precedence, n, d) {
        if d in before {
          var k :| 0 <= k < n - 1 && Supplies(precedence, k, d);
        } else {
          NewlySupplied(precedence, n - 1, d, before);
        }
      }
      forall k, name | 0 <= k < n && Offers(precedence, k, name) ensures name in Names(r) {
        StillNamed(precedence, n, k, name);
      }
    }
  }

  lemma NoneTwice()
    ensures OnePerName([])
  {
  }

  ghost predicate SuppliedBelow(precedence: seq<seq<SlotDesc>>, n: nat, d: SlotDesc)
    requires n <= |precedence|
  {
    exists k :: 0 <= k < n && Supplies(precedence, k, d)
  }

  lemma NewlySupplied(precedence: seq<seq<SlotDesc>>, k: nat, d: SlotDesc, before: seq<SlotDesc>)
    requires k < |precedence| && d in precedence[k] && Offered(k, d) && d.slotName !in Names(before)
    requires forall j, name :: 0 <= j < k && Offers(precedence, j, name) ==> name in Names(before)
    ensures Supplies(precedence, k, d)
  {
  }

  lemma StillNamed(precedence: seq<seq<SlotDesc>>, n: nat, k: nat, name: SlotRef)
    requires k < n <= |precedence| && Offers(precedence, k, name)
    requires OnePerName(MergedAll(precedence, n - 1))
    requires k < n - 1 ==> name in Names(MergedAll(precedence, n - 1))
    ensures name in Names(MergedAll(precedence, n))
  {
    MergedMembers(MergedAll(precedence, n - 1), precedence[n - 1], 0, n - 1);
    NamesIn(MergedAll(precedence, n - 1));
    NamesIn(MergedAll(precedence, n));
    if k < n - 1 {
      var d :| d in MergedAll(precedence, n - 1) && d.slotName == name;
      assert d in MergedAll(precedence, n);
    } else {
      var d :| d in precedence[k] && d.slotName == name && Offered(k, d);
    }
  }

  /**
   * The template has one descriptor per visible name, and it is the slot that name stands for: the class's own,
   * or else the one from the first class in the precedence list with an inheritable slot of that name.
   */
  lemma TemplateExact(precedence: seq<seq<SlotDesc>>, d: SlotDesc, name: SlotRef)
    requires forall k :: 0 <= k < |precedence| ==> OnePerName(precedence[k])
    ensures OnePerName(MergedAll(precedence, |precedence|))
    ensures d in MergedAll(precedence, |precedence|) <==> Wins(precedence, d)
    ensures name in Names(MergedAll(precedence, |precedence|)) <==> Visible(precedence, name)
  {
    var r := MergedAll(precedence, |precedence|);
    MergedAllMembers(precedence, |precedence|);
    NamesIn(r);
    if Wins(precedence, d) {
      var k :| 0 <= k < |precedence| && Supplies(precedence, k, d);
      assert Offers(precedence, k, d.slotName);
      var e :| e in r && e.slotName == d.slotName;
      SameSlot(precedence, d, e);
    }
    if name in Names(r) {
      var e :| e in r && e.slotName == name;
      var k :| 0 <= k < |precedence| && Supplies(precedence, k, e);
      assert Offers(precedence, k, name);
    }
  }

  lemma SameSlot(precedence: seq<seq<SlotDesc>>, d: SlotDesc, e: SlotDesc)
    requires forall k :: 0 <= k < |precedence| ==> OnePerName(precedence[k])
    requires Wins(precedence, d) && Wins(precedence, e) && d.slotName == e.slotName
    ensures d == e
  {
    var k :| 0 <= k < |precedence| && Supplies(precedence, k, d);
    var j :| 0 <= j < |precedence| && Supplies(precedence, j, e);
    assert Offers(precedence, k, d.slotName) && Offers(precedence, j, d.slotName);
    assert j == k;
  }

  // ---- The order of the template ----

  // The slots of the k-th class that are new beside the names taken, in the order of the class.
  ghost function NewSlots(slots: seq<SlotDesc>, k: nat, taken: set<SlotRef>): (r: seq<SlotDesc>)
    ensures forall d :: d in r ==> d in slots
  {
    if slots == [] then []
    else
      (if (k == 0 || !slots[0].noInherit) && slots[0].slotName !in taken then [slots[0]] else [])
      + NewSlots(slots[1..], k, taken)
  }

  // With one slot per name, merging puts the new slots of a class, in their order, in front of what was there.
  lemma {:induction false} MergedIsFront(old_: seq<SlotDesc>, slots: seq<SlotDesc>, i: nat, k: nat)
    requires i <= |slots| && OnePerName(slots)
    ensures Merged(old_, slots, i, k) == NewSlots(slots[i..], k, Names(old_)) + old_
    decreases |slots| - i
  {
    hide Names;
    if i == |slots| {
      assert NewSlots([], k, Names(old_)) + old_ == old_;
    } else {
      MergedIsFront(old_, slots, i + 1, k);
      var rest := NewSlots(slots[i + 1..], k, Names(old_));
      assert slots[i..][0] == slots[i] && slots[i..][1..] == slots[i + 1..];
      NamesOfBoth(rest, old_);
      NamesIn(rest);
      assert slots[i].slotName !in Names(rest);
      assert [slots[i]] + (rest + old_) == ([slots[i]] + rest) + old_;
      assert [] + rest == rest;
    }
  }

  lemma NamesOfBoth(a: seq<SlotDesc>, b: seq<SlotDesc>)
    ensures Names(a + b) == Names(a) + Names(b)
  {
    NamesIn(a + b);
    NamesIn(a);
    NamesIn(b);
    forall n | n in Names(a) + Names(b) ensures n in Names(a + b) {
      var d :| d in a + b && d.slotName == n;
    }
  }

  // The x-th slot of the k-th class is an entry of the template and stands at position a.
  ghost predicate StandsAt(precedence: seq<seq<SlotDesc>>, t: seq<SlotDesc>, a: nat, k: nat, x: nat) {
    k < |precedence| && x < |precedence[k]| && a < |t| && t[a] == precedence[k][x] && Supplies(precedence, k, t[a])
  }

  /**
   * The order of a template: what a later class of the precedence list supplies stands before what an earlier one
   * supplies, and the slots of one class stand in the order of the class.
   */
  ghost predicate InTemplateOrder(precedence: seq<seq<SlotDesc>>, t: seq<SlotDesc>) {
    forall a: nat, b: nat, k: nat, j: nat, x: nat, y: nat ::
      StandsAt(precedence, t, a, k, x) && StandsAt(precedence, t, b, j, y) ==>
      (k > j || (k == j && x < y) ==> a < b)
  }

  lemma {:induction false} NewAppend(s: seq<SlotDesc>, t: seq<SlotDesc>, k: nat, taken: set<SlotRef>)
    ensures NewSlots(s + t, k, taken) == NewSlots(s, k, taken) + NewSlots(t, k, taken)
  {
    if s == [] {
      assert s + t == t;
    } else {
      assert (s + t)[1..] == s[1..] + t;
      NewAppend(s[1..], t, k, taken);
    }
  }

  lemma {:induction false} NewOnePerName(slots: seq<SlotDesc>, k: nat, taken: set<SlotRef>)
    requires OnePerName(slots)
    ensures OnePerName(NewSlots(slots, k, taken))
  {
    if slots != [] {
      NewOnePerName(slots[1..], k, taken);
      var rest := NewSlots(slots[1..], k, taken);
      assert forall i :: 0 <= i < |rest| ==> rest[i] in rest;
    }
  }

  // Where a new slot stands among the new slots of its class.
  lemma NewAt(slots: seq<SlotDesc>, k: nat, taken: set<SlotRef>, x: nat, a: nat)
    requires OnePerName(slots) && x < |slots|
    requires a < |NewSlots(slots, k, taken)| && NewSlots(slots, k, taken)[a] == slots[x]
    requires (k == 0 || !slots[x].noInherit) && slots[x].slotName !in taken
    ensures a == |NewSlots(slots[..x], k, taken)| < |NewSlots(slots[..x + 1], k, taken)|
  {
    var r, p := NewSlots(slots, k, taken), |NewSlots(slots[..x], k, taken)|;
    NewOnePerName(slots, k, taken);
    assert slots == slots[..x] + ([slots[x]] + slots[x + 1..]);
    assert slots[..x + 1] == slots[..x] + [slots[x]];
    NewAppend(slots[..x], [slots[x]] + slots[x + 1..], k, taken);
    NewAppend([slots[x]], slots[x + 1..], k, taken);
    NewAppend(slots[..x], [slots[x]], k, taken);
    assert NewSlots([slots[x]], k, taken) == [slots[x]];
    assert r[p] == slots[x];
  }

  lemma NewInOrder(slots: seq<SlotDesc>, k: nat, taken: set<SlotRef>, a: nat, b: nat, x: nat, y: nat)
    requires OnePerName(slots) && x < y < |slots|
    requires var r := NewSlots(slots, k, taken);
             a < |r| && b < |r| && r[a] == slots[x] && r[b] == slots[y]
    requires forall d :: d in {slots[x], slots[y]} ==> (k == 0 || !d.noInherit) && d.slotName !in taken
    ensures a < b
  {
    hide OnePerName, NewSlots;
    assert slots[x] in {slots[x], slots[y]} && slots[y] in {slots[x], slots[y]};
    NewAt(slots, k, taken, x, a);
    NewAt(slots, k, taken, y, b);
    assert slots[..y] == slots[..x + 1] + slots[x + 1..y];
    NewAppend(slots[..x + 1], slots[x + 1..y], k, taken);
  }

  // The same among the first n classes.
  ghost predicate OrderedUpTo(precedence: seq<seq<SlotDesc>>, t: seq<SlotDesc>, n: nat) {
    forall a: nat, b: nat, k: nat, j: nat, x: nat, y: nat ::
      StandsAt(precedence, t, a, k, x) && StandsAt(precedence, t, b, j, y) ==>
      (k < n && j < n && (k > j || (k == j && x < y)) ==> a < b)
  }

  lemma {:induction false} NewNotTaken(slots: seq<SlotDesc>, k: nat, taken: set<SlotRef>, d: SlotDesc)
    requires d in NewSlots(slots, k, taken)
    ensures (k == 0 || !d.noInherit) && d.slotName !in taken
  {
    if d in NewSlots(slots[1..], k, taken) {
      NewNotTaken(slots[1..], k, taken, d);
    }
  }

  lemma SuppliedOnce(precedence: seq<seq<SlotDesc>>, k: nat, j: nat, d: SlotDesc)
    requires k < |precedence| && j < |precedence| && Supplies(precedence, k, d) && Supplies(precedence, j, d)
    ensures k == j
  {
    assert Offers(precedence, k, d.slotName) && Offers(precedence, j, d.slotName);
  }

  // The entries in front are those of the class merged last.
  lemma FrontIsLast(precedence: seq<seq<SlotDesc>>, n: nat, front: seq<SlotDesc>, before: seq<SlotDesc>, a: nat,
                    k: nat, x: nat)
    requires 0 < n <= |precedence| && before == MergedAll(precedence, n - 1)
    requires front == NewSlots(precedence[n - 1], n - 1, Names(before))
    requires StandsAt(precedence, front + before, a, k, x) && k < n
    ensures a < |front| <==> k == n - 1
  {
    hide Supplies, Offers, MergedAll, NewSlots, Names;
    MergedAllMembers(precedence, n - 1);
    var d := (front + before)[a];
    assert Offers(precedence, k, d.slotName) by {
      SuppliesOffers(precedence, k, d);
    }
    if a < |front| {
      assert d in front;
      NewNotTaken(precedence[n - 1], n - 1, Names(before), d);
    } else {
      assert d in before;
      var j :| 0 <= j < n - 1 && Supplies(precedence, j, d);
      SuppliedOnce(precedence, k, j, d);
    }
  }

  lemma SuppliesOffers(precedence: seq<seq<SlotDesc>>, k: nat, d: SlotDesc)
    requires k < |precedence| && Supplies(precedence, k, d)
    ensures Offers(precedence, k, d.slotName)
  {
  }

  lemma {:induction false} MergedOrdered(precedence: seq<seq<SlotDesc>>, n: nat)
    requires n <= |precedence| && forall k :: 0 <= k < |precedence| ==> OnePerName(precedence[k])
    ensures OrderedUpTo(precedence, MergedAll(precedence, n), n)
  {
    hide StandsAt, OnePerName;
    if n > 0 {
      MergedOrdered(precedence, n - 1);
      var before, slots := MergedAll(precedence, n - 1), precedence[n - 1];
      var front := NewSlots(slots, n - 1, Names(before));
      assert slots[0..] == slots;
      MergedIsFront(before, slots, 0, n - 1);
      forall a: nat, b: nat, k: nat, j: nat, x: nat, y: nat | k < n && j < n && (k > j || (k == j && x < y)) &&
        StandsAt(precedence, front + before, a, k, x) && StandsAt(precedence, front + before, b, j, y)
        ensures a < b
      {
        EntriesOrdered(precedence, n, front, before, a, b, k, j, x, y);
      }
    }
  }

  lemma EntriesOrdered(precedence: seq<seq<SlotDesc>>, n: nat, front: seq<SlotDesc>, before: seq<SlotDesc>, a: nat,
                       b: nat, k: nat, j: nat, x: nat, y: nat)
    requires 0 < n <= |precedence| && before == MergedAll(precedence, n - 1) && OnePerName(precedence[n - 1])
    requires front == NewSlots(precedence[n - 1], n - 1, Names(before)) && OrderedUpTo(precedence, before, n - 1)
    requires k < n && j < n && (k > j || (k == j && x < y))
    requires StandsAt(precedence, front + before, a, k, x) && StandsAt(precedence, front + before, b, j, y)
    ensures a < b
  {
    hide Supplies, MergedAll, NewSlots, Names, OnePerName;
    FrontIsLast(precedence, n, front, before, a, k, x);
    FrontIsLast(precedence, n, front, before, b, j, y);
    if k < n - 1 {
      assert StandsAt(precedence, before, a - |front|, k, x);
      assert StandsAt(precedence, before, b - |front|, j, y);
    } else if j == n - 1 {
      var slots := precedence[n - 1];
      assert front[a] in front && front[b] in front;
      NewNotTaken(slots, n - 1, Names(before), front[a]);
      NewNotTaken(slots, n - 1, Names(before), front[b]);
      NewInOrder(slots, n - 1, Names(before), a, b, x, y);
    }
  }

  /** The template stands in the order of its classes and of their slots. */
  lemma TemplateOrdered(precedence: seq<seq<SlotDesc>>)
    requires forall k :: 0 <= k < |precedence| ==> OnePerName(precedence[k])
    ensures InTemplateOrder(precedence, MergedAll(precedence, |precedence|))
  {
    hide StandsAt, OnePerName, MergedAll;
    MergedOrdered(precedence, |precedence|);
    var t := MergedAll(precedence, |precedence|);
    forall a: nat, k: nat, x: nat | StandsAt(precedence, t, a, k, x) ensures k < |precedence| {
      ClassOfEntry(precedence, t, a, k, x);
    }
  }

  lemma ClassOfEntry(precedence: seq<seq<SlotDesc>>, t: seq<SlotDesc>, a: nat, k: nat, x: nat)
    requires StandsAt(precedence, t, a, k, x)
    ensures k < |precedence|
  {
  }

  // What the template holds, said of the slots: all own slots, of the others only inheritable ones, and something for
  // every name an inheritable slot has.
  ghost predicate HoldsSlots(precedence: seq<seq<SlotDesc>>, t: seq<SlotDesc>) {
    && (|precedence| > 0 ==> forall d :: d in precedence[0] ==> d in t)
    && (forall d :: d in t && d.noInherit ==> |precedence| > 0 && d in precedence[0])
    && (forall k, d :: 0 <= k < |precedence| && d in precedence[k] && !d.noInherit ==> d.slotName in Names(t))
  }

  lemma TemplateHolds(precedence: seq<seq<SlotDesc>>)
    requires forall k :: 0 <= k < |precedence| ==> OnePerName(precedence[k])
    ensures HoldsSlots(precedence, MergedAll(precedence, |precedence|))
  {
    hide MergedAll, Names, OnePerName;
    var t := MergedAll(precedence, |precedence|);
    MergedAllMembers(precedence, |precedence|);
    forall k, d | 0 <= k < |precedence| && d in precedence[k] && !d.noInherit ensures d.slotName in Names(t) {
      assert Offers(precedence, k, d.slotName);
    }
    if |precedence| > 0 {
      forall d | d in precedence[0] ensures d in t {
        assert Supplies(precedence, 0, d);
        TemplateExact(precedence, d, d.slotName);
      }
    }
  }

  lemma TemplateIs(precedence: seq<seq<SlotDesc>>)
    ensures var t := MergedAll(precedence, |precedence|);
            (forall k :: 0 <= k < |precedence| ==> OnePerName(precedence[k])) ==>
              && (forall d :: d in t <==> Wins(precedence, d))
              && HoldsSlots(precedence, t) && InTemplateOrder(precedence, t)
  {
    hide MergedAll, OnePerName, Wins, HoldsSlots, InTemplateOrder;
    if forall k :: 0 <= k < |precedence| ==> OnePerName(precedence[k]) {
      TemplateOrdered(precedence);
      TemplateHolds(precedence);
      forall d ensures d in MergedAll(precedence, |precedence|) <==> Wins(precedence, d) {
        TemplateExact(precedence, d, d.slotName);
      }
    }
  }

  // ---- The code ----

  // The number of entries that are not shared.
  ghost function LocalCount(s: seq<SlotDesc>): nat {
    |set i | 0 <= i < |s| && !s[i].shared|
  }

  lemma LocalCountStep(s: seq<SlotDesc>, i: nat)
    requires i < |s|
    ensures LocalCount(s[..i + 1]) == LocalCount(s[..i]) + if s[i].shared then 0 else 1
  {
    var t, u := s[..i], s[..i + 1];
    var before := set j | 0 <= j < |t| && !t[j].shared;
    var after := set j | 0 <= j < |u| && !u[j].shared;
    assert after == before + if s[i].shared then {} else {i};
  }

  /** Puts the slots of the k-th class of the precedence list in front of a list, last slot first. */
  method MergeSlots(old_: seq<SlotDesc>, slots: seq<SlotDesc>, scnt: nat, k: nat)
    returns (islots: seq<SlotDesc>, count: nat)
    requires scnt == |old_|
    ensures islots == Merged(old_, slots, 0, k) && count == |islots|
    ensures OnePerName(slots) ==> islots == NewSlots(slots, k, Names(old_)) + old_
  {
    islots, count := old_, scnt;
    var i := |slots|;
    while i > 0
      invariant 0 <= i <= |slots|
      invariant islots == Merged(old_, slots, i, k) && count == |islots|
    {
      i := i - 1;
      var newSlot := slots[i];
      if Offered(k, newSlot) {
        var cur := 0;
        while cur < |islots| && newSlot.slotName != islots[cur].slotName
          invariant cur <= |islots|
          invariant forall j :: 0 <= j < cur ==> islots[j].slotName != newSlot.slotName
        {
          cur := cur + 1;
        }
        if cur == |islots| {
          islots := [newSlot] + islots;
          count := count + 1;
        }
      }
    }
    if OnePerName(slots) {
      MergedIsFront(old_, slots, 0, k);
      assert slots[0..] == slots;
    }
  }

  class ClassLayout {
    var instanceTemplate: array<SlotDesc>
    var localInstanceSlotCount: nat
    var maxSlotNameID: nat
    var slotNameMap: Option<array<nat>>

    constructor ()
      ensures instanceTemplate.Length == 0 && localInstanceSlotCount == 0 && maxSlotNameID == 0 && slotNameMap == None
    {
      instanceTemplate := new SlotDesc[0];
      localInstanceSlotCount, maxSlotNameID, slotNameMap := 0, 0, None;
    }

    /** Forms the template from the slot lists of the classes in the precedence list, the class itself first. */
    method FormInstanceTemplate(precedence: seq<seq<SlotDesc>>)
      requires |precedence| > 0
      modifies this`instanceTemplate, this`localInstanceSlotCount
      ensures fresh(instanceTemplate)
      ensures instanceTemplate[..] == MergedAll(precedence, |precedence|)
      ensures (forall k :: 0 <= k < |precedence| ==> OnePerName(precedence[k])) ==>
                && (forall d :: d in instanceTemplate[..] <==> Wins(precedence, d))
                && HoldsSlots(precedence, instanceTemplate[..]) && InTemplateOrder(precedence, instanceTemplate[..])
      ensures localInstanceSlotCount == LocalCount(instanceTemplate[..])
    {
      var islots, scnt := MergeSlots([], precedence[0], 0, 0);
      assert MergedAll(precedence, 0) == [];
      var i := 1;
      while i < |precedence|
        invariant 1 <= i <= |precedence|
        invariant islots == MergedAll(precedence, i) && scnt == |islots|
      {
        islots, scnt := MergeSlots(islots, precedence[i], scnt, i);
        i := i + 1;
      }
      var template := new SlotDesc[scnt](j requires 0 <= j < |islots| => islots[j]);
      localInstanceSlotCount := 0;
      i := 0;
      assert LocalCount(islots[..0]) == 0;
      while i < scnt
        invariant 0 <= i <= scnt && template.Length == scnt == |islots|
        invariant template[..i] == islots[..i]
        invariant localInstanceSlotCount == LocalCount(islots[..i])
        invariant fresh(template)
      {
        template[i] := islots[i];
        if !islots[i].shared {
          localInstanceSlotCount := localInstanceSlotCount + 1;
        }
        LocalCountStep(islots, i);
        i := i + 1;
      }
      assert islots[..i] == islots && template[..i] == template[..];
      instanceTemplate := template;
      TemplateIs(precedence);
    }

    /**
     * Forms the index of the template by slot name id, up to the first access outside the array, which is reported
     * as false. An id leads to the last entry that has it. Every access is inside the array and the index finds every
     * entry exactly when no id is negative and no two entries share one.
     */
    method FormSlotNameMap() returns (inside: bool, ghost stop: nat)
      modifies this`maxSlotNameID, this`slotNameMap
      ensures inside <==> forall j :: 0 <= j < instanceTemplate.Length ==> instanceTemplate[j].slotName.id >= 0
      ensures instanceTemplate.Length == 0 ==> inside && maxSlotNameID == 0 && slotNameMap == None
      ensures instanceTemplate.Length > 0 ==>
                && slotNameMap.Some? && fresh(slotNameMap.value) && slotNameMap.value.Length == maxSlotNameID + 1
                && (maxSlotNameID == 0 ||
                    exists j :: 0 <= j < instanceTemplate.Length && instanceTemplate[j].slotName.id == maxSlotNameID)
                && stop <= instanceTemplate.Length && LastIndexOf(instanceTemplate[..stop], slotNameMap.value[..])
                && (if inside then stop == instanceTemplate.Length
                    else stop < instanceTemplate.Length && instanceTemplate[stop].slotName.id < 0)
                && (inside && IndexOf(instanceTemplate[..], slotNameMap.value[..]) <==> Indexable(instanceTemplate[..]))
    {
      maxSlotNameID := 0;
      slotNameMap := None;
      stop := 0;
      if instanceTemplate.Length == 0 {
        return true, 0;
      }
      ghost var s := instanceTemplate[..];
      var i := 0;
      while i < instanceTemplate.Length
        invariant 0 <= i <= |s| && slotNameMap == None
        invariant forall j :: 0 <= j < i ==> s[j].slotName.id <= maxSlotNameID
        invariant maxSlotNameID == 0 || exists j :: 0 <= j < i && s[j].slotName.id == maxSlotNameID
      {
        if instanceTemplate[i].slotName.id > maxSlotNameID {
          maxSlotNameID := instanceTemplate[i].slotName.id;
        }
        i := i + 1;
      }
      var index;
      index, inside, stop := IndexTemplate();
      if inside {
        assert s[..stop] == s;
        LastIsIndex(s, index[..]);
      }
      slotNameMap := Some(index);
    }

    method IndexTemplate() returns (index: array<nat>, inside: bool, ghost stop: nat)
      requires forall j :: 0 <= j < instanceTemplate.Length ==> instanceTemplate[j].slotName.id <= maxSlotNameID
      ensures fresh(index) && index.Length == maxSlotNameID + 1
      ensures stop <= instanceTemplate.Length && LastIndexOf(instanceTemplate[..stop], index[..])
      ensures forall j :: 0 <= j < stop ==> instanceTemplate[j].slotName.id >= 0
      ensures if inside then stop == instanceTemplate.Length
              else stop < instanceTemplate.Length && instanceTemplate[stop].slotName.id < 0
    {
      ghost var s := instanceTemplate[..];
      index := new nat[maxSlotNameID + 1];
      var i := 0;
      while i <= maxSlotNameID
        invariant 0 <= i <= index.Length
        invariant forall j :: 0 <= j < i ==> index[j] == 0
      {
        index[i] := 0;
        i := i + 1;
      }
      i := 0;
      while i < instanceTemplate.Length
        invariant 0 <= i <= |s|
        invariant LastIndexOf(s[..i], index[..])
        invariant forall j :: 0 <= j < i ==> s[j].slotName.id >= 0
      {
        if instanceTemplate[i].slotName.id < 0 {
          return index, false, i;
        }
        ghost var before := index[..];
        var at: nat := i + 1;
        index[instanceTemplate[i].slotName.id] := at;
        assert index[..] == before[s[i].slotName.id := at];
        LastIndexStep(s, i, before);
        i := i + 1;
      }
      return index, true, i;
    }
  }

  // Different entries have different ids.
  ghost predicate IdsFaithful(s: seq<SlotDesc>) {
    forall i, j :: 0 <= i < j < |s| ==> s[i].slotName.id != s[j].slotName.id
  }

  // Every entry has an id of its own that can be an index.
  ghost predicate Indexable(s: seq<SlotDesc>) {
    IdsFaithful(s) && forall j :: 0 <= j < |s| ==> s[j].slotName.id >= 0
  }

  // An id maps to 0 when no entry has it, and to one more than its entry's position otherwise.
  ghost predicate IndexOf(s: seq<SlotDesc>, index: seq<nat>) {
    && (forall id :: 0 <= id < |index| ==> (index[id] == 0 <==> forall j :: 0 <= j < |s| ==> s[j].slotName.id != id))
    && (forall j :: 0 <= j < |s| ==> 0 <= s[j].slotName.id < |index| && index[s[j].slotName.id] == j + 1)
  }

  // One more than the position of the last entry with an id, or 0 when there is none.
  ghost predicate LastAt(s: seq<SlotDesc>, id: nat, at: nat) {
    && at <= |s| && (at != 0 ==> s[at - 1].slotName.id == id)
    && forall j :: at <= j < |s| ==> s[j].slotName.id != id
  }

  ghost predicate LastIndexOf(s: seq<SlotDesc>, index: seq<nat>) {
    && (forall id :: 0 <= id < |index| ==> LastAt(s, id, index[id]))
    && (forall j :: 0 <= j < |s| ==> 0 <= s[j].slotName.id < |index|)
  }

  lemma LastIndexStep(s: seq<SlotDesc>, i: nat, index: seq<nat>)
    requires i < |s| && LastIndexOf(s[..i], index) && 0 <= s[i].slotName.id < |index|
    ensures LastIndexOf(s[..i + 1], index[s[i].slotName.id := i + 1])
  {
    var next := index[s[i].slotName.id := i + 1];
    forall id | 0 <= id < |index| ensures LastAt(s[..i + 1], id, next[id]) {
      assert LastAt(s[..i], id, index[id]);
    }
  }

  /** Keeping the last entry of every id finds all of them exactly when no id is used twice. */
  lemma LastIsIndex(s: seq<SlotDesc>, index: seq<nat>)
    requires LastIndexOf(s, index)
    ensures IndexOf(s, index) <==> IdsFaithful(s)
  {
    if IdsFaithful(s) {
      forall j | 0 <= j < |s| ensures index[s[j].slotName.id] == j + 1 {
        assert LastAt(s, s[j].slotName.id, index[s[j].slotName.id]);
      }
      forall id | 0 <= id < |index| ensures index[id] == 0 <==> forall j :: 0 <= j < |s| ==> s[j].slotName.id != id {
        assert LastAt(s, id, index[id]);
      }
    }
  }

  // The names a class can see are told apart by their ids, and these are not negative.
  ghost predicate IdsTellNames(precedence: seq<seq<SlotDesc>>) {
    && (forall m, n :: Visible(precedence, m) && Visible(precedence, n) && m.id == n.id ==> m == n)
    && (forall m :: Visible(precedence, m) ==> m.id >= 0)
  }

  /** A template can be indexed exactly when the ids of the visible names are not negative and tell them apart. */
  lemma TemplateIndexable(precedence: seq<seq<SlotDesc>>)
    requires forall k :: 0 <= k < |precedence| ==> OnePerName(precedence[k])
    ensures Indexable(MergedAll(precedence, |precedence|)) <==> IdsTellNames(precedence)
  {
    hide Visible, MergedAll, Wins, OnePerName, Names;
    var r := MergedAll(precedence, |precedence|);
    if IdsTellNames(precedence) {
      forall i | 0 <= i < |r| ensures Visible(precedence, r[i].slotName) {
        EntryVisible(precedence, r, i);
      }
      forall i, j | 0 <= i < j < |r| ensures r[i].slotName.id != r[j].slotName.id {
        EntriesApart(precedence, r, i, j);
      }
    }
    if Indexable(r) {
      forall m, n | Visible(precedence, m) && Visible(precedence, n) && m.id == n.id ensures m == n {
        FaithfulTells(precedence, r, m, n);
      }
      forall m | Visible(precedence, m) ensures m.id >= 0 {
        TemplateExact(precedence, SlotDesc(m, false, false, ""), m);
        var i := EntryOf(r, m);
      }
    }
  }

  lemma EntryVisible(precedence: seq<seq<SlotDesc>>, r: seq<SlotDesc>, i: nat)
    requires forall k :: 0 <= k < |precedence| ==> OnePerName(precedence[k])
    requires r == MergedAll(precedence, |precedence|) && i < |r|
    ensures Visible(precedence, r[i].slotName)
  {
    hide Visible, MergedAll, Wins;
    TemplateExact(precedence, r[i], r[i].slotName);
    NamesIn(r);
  }

  lemma EntriesApart(precedence: seq<seq<SlotDesc>>, r: seq<SlotDesc>, i: nat, j: nat)
    requires forall k :: 0 <= k < |precedence| ==> OnePerName(precedence[k])
    requires r == MergedAll(precedence, |precedence|) && i < j < |r| && IdsTellNames(precedence)
    ensures r[i].slotName.id != r[j].slotName.id
  {
    hide Visible, MergedAll, Wins;
    EntryVisible(precedence, r, i);
    EntryVisible(precedence, r, j);
    TemplateExact(precedence, r[i], r[i].slotName);
  }

  lemma FaithfulTells(precedence: seq<seq<SlotDesc>>, r: seq<SlotDesc>, m: SlotRef, n: SlotRef)
    requires forall k :: 0 <= k < |precedence| ==> OnePerName(precedence[k])
    requires r == MergedAll(precedence, |precedence|) && IdsFaithful(r)
    requires Visible(precedence, m) && Visible(precedence, n) && m.id == n.id
    ensures m == n
  {
    hide Visible, MergedAll, Wins, Names, OnePerName;
    TemplateExact(precedence, SlotDesc(m, false, false, ""), m);
    TemplateExact(precedence, SlotDesc(n, false, false, ""), n);
    var i := EntryOf(r, m);
    var j := EntryOf(r, n);
  }

  lemma EntryOf(s: seq<SlotDesc>, name: SlotRef) returns (i: nat)
    requires name in Names(s)
    ensures i < |s| && s[i].slotName == name
  {
    i :| 0 <= i < |s| && s[i].slotName == name;
  }

  // ---- The ids of the table ----

  // The slots of the classes have their names from the table.
  ghost predicate FromTable(m: map<Symbol, Entry>, precedence: seq<seq<SlotDesc>>) {
    forall k :: 0 <= k < |precedence| ==> OnePerName(precedence[k]) && ClassFromTable(m, precedence[k])
  }

  ghost predicate ClassFromTable(m: map<Symbol, Entry>, slots: seq<SlotDesc>) {
    forall d :: d in slots ==> d.slotName.name in m && d.slotName.id == m[d.slotName.name].id
  }

  ghost predicate IdsOk(m: map<Symbol, Entry>) {
    && (forall a, b :: a in m && b in m && m[a].id == m[b].id ==> a == b)
    && (forall a :: a in m ==> m[a].id >= 0)
  }

  // Whatever class is made of slots with names from the table, its template can be indexed.
  ghost predicate ServesAll(m: map<Symbol, Entry>) {
    forall precedence :: FromTable(m, precedence) ==> Indexable(MergedAll(precedence, |precedence|))
  }

  lemma VisibleFromTable(m: map<Symbol, Entry>, precedence: seq<seq<SlotDesc>>, n: SlotRef)
    requires FromTable(m, precedence) && Visible(precedence, n)
    ensures n.name in m && n.id == m[n.name].id
  {
    var k :| 0 <= k < |precedence| && Offers(precedence, k, n);
    assert ClassFromTable(m, precedence[k]);
  }

  /** Every class over a table can be indexed exactly when the ids of the table are distinct and not negative. */
  lemma ServesAllIff(m: map<Symbol, Entry>)
    ensures ServesAll(m) <==> IdsOk(m)
  {
    hide FromTable, MergedAll, Indexable;
    if IdsOk(m) {
      forall precedence | FromTable(m, precedence) ensures Indexable(MergedAll(precedence, |precedence|)) {
        OkServes(m, precedence);
      }
    } else if a :| a in m && m[a].id < 0 {
      NegativeFails(m, a);
    } else {
      var a, b :| a in m && b in m && m[a].id == m[b].id && a != b;
      SharedFails(m, a, b);
    }
  }

  lemma OkServes(m: map<Symbol, Entry>, precedence: seq<seq<SlotDesc>>)
    requires IdsOk(m) && FromTable(m, precedence)
    ensures Indexable(MergedAll(precedence, |precedence|))
  {
    hide Visible, MergedAll, Indexable;
    forall n | Visible(precedence, n) ensures n.name in m && n.id == m[n.name].id {
      VisibleFromTable(m, precedence, n);
    }
    TemplateIndexable(precedence);
  }

  function SlotOf(m: map<Symbol, Entry>, a: Symbol): SlotDesc
    requires a in m
  {
    SlotDesc(SlotRef(a, m[a].id), false, false, "")
  }

  lemma NegativeFails(m: map<Symbol, Entry>, a: Symbol)
    requires a in m && m[a].id < 0
    ensures !ServesAll(m)
  {
    hide MergedAll, Indexable;
    var d := SlotOf(m, a);
    var precedence := [[d]];
    assert precedence[0] == [d];
    assert FromTable(m, precedence);
    assert Offers(precedence, 0, d.slotName);
    TemplateIndexable(precedence);
  }

  lemma SharedFails(m: map<Symbol, Entry>, a: Symbol, b: Symbol)
    requires a in m && b in m && a != b && m[a].id == m[b].id
    ensures !ServesAll(m)
  {
    hide MergedAll, Indexable;
    var d, e := SlotOf(m, a), SlotOf(m, b);
    var precedence := [[d, e]];
    assert precedence[0] == [d, e];
    assert FromTable(m, precedence);
    assert Offers(precedence, 0, d.slotName) && Offers(precedence, 0, e.slotName);
    TemplateIndexable(precedence);
  }

  /**
   * Adds a name to a valid table with the least unused id. Afterwards every class over the table can be indexed
   * exactly when fewer than 32768 names were in it.
   */
  method AddServed(table: SlotNameTable, name: Symbol)
    requires table.Valid() && name !in table.Abs()
    modifies table, table.entries`use
    ensures table.Chained()
    ensures ServesAll(table.Abs()) <==> |old(table.entries)| < SHORT_LIMIT
  {
    hide SlotNameTable.Chained, SlotNameTable.Abs, ServesAll, ToShort, LeastUnused, NameStepOf, Numbered;
    ghost var m := table.Abs();
    table.AbsIsOk();
    var snp, chosen := table.AddSlotName(name, 0, false);
    ServesAllIff(table.Abs());
    if chosen < SHORT_LIMIT {
      table.AbsIsOk();
    } else {
      LeastOutOfReach(m, chosen);
      FullWraps(m, name, chosen);
      assert table.Abs()[name].id < 0;
    }
  }

  /** The failure is reached: two slots of one class with the id -32768, and an access far outside the array. */
  method IndexOutside() returns (layout: ClassLayout, inside: bool)
    ensures !inside
    ensures layout.instanceTemplate.Length == 2 && layout.slotNameMap.Some? && layout.slotNameMap.value.Length == 1
    ensures layout.instanceTemplate[0].slotName.name != layout.instanceTemplate[1].slotName.name
    ensures layout.instanceTemplate[0].slotName.id == layout.instanceTemplate[1].slotName.id == -SHORT_LIMIT
  {
    var table, first, second := RunOutOfIds();
    var d := SlotDesc(SlotRef(first.name, first.id), false, false, "");
    var e := SlotDesc(SlotRef(second.name, second.id), false, false, "");
    layout := new ClassLayout();
    layout.FormInstanceTemplate([[d, e]]);
    TwoSlots(d, e);
    ghost var stop;
    inside, stop := layout.FormSlotNameMap();
  }

  lemma TwoSlots(d: SlotDesc, e: SlotDesc)
    requires d.slotName != e.slotName && !d.noInherit && !e.noInherit
    ensures MergedAll([[d, e]], 1) == [d, e]
  {
    var slots := [d, e];
    assert MergedAll([[d, e]], 0) == [];
    assert Merged([], slots, 2, 0) == [];
    assert Merged([], slots, 1, 0) == [e];
    NamesIn([e]);
    assert Merged([], slots, 0, 0) == [d] + [e];
  }
}
