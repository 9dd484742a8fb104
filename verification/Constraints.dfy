/** Constraint records: structural comparison, the hash that goes with it, and the counted intern table. */
module Constraints {
  import opened Options

  const SIZE_CONSTRAINT_HASH := 167
  const WORD := 0x1_0000_0000_0000_0000

  // One element of a list in a record: a type and the address of an interned value.
  datatype Atom = Atom(kind: nat, value: nat)

  datatype Flags = Flags(
    anyAllowed: bool, symbolsAllowed: bool, stringsAllowed: bool, floatsAllowed: bool,
    integersAllowed: bool, instanceNamesAllowed: bool, instanceAddressesAllowed: bool,
    externalAddressesAllowed: bool, factAddressesAllowed: bool, voidAllowed: bool, anyRestriction: bool,
    symbolRestriction: bool, stringRestriction: bool, floatRestriction: bool, integerRestriction: bool,
    classRestriction: bool, instanceNameRestriction: bool, multifieldsAllowed: bool,
    singlefieldsAllowed: bool)

  datatype Constraint = Constraint(
    flags: Flags,
    classList: seq<Atom>, restrictionList: seq<Atom>, minValue: seq<Atom>, maxValue: seq<Atom>,
    minFields: seq<Atom>, maxFields: seq<Atom>,
    multifield: Option<Constraint>)

  // The hash value of an atom at a position of its record.
  type AtomicHash = (Atom, nat) -> nat

  // ---- Comparing ----

  // Two lists walked together: equal when no pair differs and both end at once.
  method CompareLists(a: seq<Atom>, b: seq<Atom>) returns (same: bool)
    ensures same <==> a == b
  {
    var i := 0;
    while i < |a| && i < |b|
      invariant i <= |a| && i <= |b| && a[..i] == b[..i]
    {
      if a[i].kind != b[i].kind || a[i].value != b[i].value {
        return false;
      }
      i := i + 1;
    }
    same := i == |a| && i == |b|;
  }

  predicate SameTypes(a: Flags, b: Flags) {
    a.anyAllowed == b.anyAllowed && a.symbolsAllowed == b.symbolsAllowed &&
    a.stringsAllowed == b.stringsAllowed && a.floatsAllowed == b.floatsAllowed &&
    a.integersAllowed == b.integersAllowed && a.instanceNamesAllowed == b.instanceNamesAllowed &&
    a.instanceAddressesAllowed == b.instanceAddressesAllowed &&
    a.externalAddressesAllowed == b.externalAddressesAllowed && a.voidAllowed == b.voidAllowed &&
    a.multifieldsAllowed == b.multifieldsAllowed && a.singlefieldsAllowed == b.singlefieldsAllowed &&
    a.factAddressesAllowed == b.factAddressesAllowed
  }

  predicate SameRestrictions(a: Flags, b: Flags) {
    a.anyRestriction == b.anyRestriction && a.symbolRestriction == b.symbolRestriction &&
    a.stringRestriction == b.stringRestriction && a.floatRestriction == b.floatRestriction &&
    a.integerRestriction == b.integerRestriction && a.classRestriction == b.classRestriction &&
    a.instanceNameRestriction == b.instanceNameRestriction
  }

  lemma SameFlags(a: Flags, b: Flags)
    ensures SameTypes(a, b) && SameRestrictions(a, b) <==> a == b
  {
  }

  /** The comparison holds exactly of records with the same structure, nested records included. */
  method ConstraintCompare(a: Constraint, b: Constraint) returns (same: bool)
    ensures same <==> a == b
    decreases a
  {
    hide SameTypes, SameRestrictions;
    SameFlags(a.flags, b.flags);
    if !SameTypes(a.flags, b.flags) || !SameRestrictions(a.flags, b.flags) {
      return false;
    }
    same := CompareLists(a.classList, b.classList);
    if !same {
      return false;
    }
    same := CompareLists(a.restrictionList, b.restrictionList);
    if !same {
      return false;
    }
    same := CompareLists(a.minValue, b.minValue);
    if !same {
      return false;
    }
    same := CompareLists(a.maxValue, b.maxValue);
    if !same {
      return false;
    }
    same := CompareLists(a.minFields, b.minFields);
    if !same {
      return false;
    }
    same := CompareLists(a.maxFields, b.maxFields);
    if !same {
      return false;
    }
    if a.multifield.Some? != b.multifield.Some? {
      return false;
    }
    if a.multifield.None? {
      return true;
    }
    same := ConstraintCompare(a.multifield.value, b.multifield.value);
  }

  // ---- Hashing ----

  function Bit(b: bool): nat {
    if b then 1 else 0
  }

  // The part of the hash that the flags give. One flag has no part in it.
  function FlagSum(f: Flags): nat {
    Bit(f.anyAllowed) * 17 + Bit(f.symbolsAllowed) * 5 + Bit(f.stringsAllowed) * 23 +
    Bit(f.floatsAllowed) * 19 + Bit(f.integersAllowed) * 29 + Bit(f.instanceNamesAllowed) * 31 +
    Bit(f.instanceAddressesAllowed) * 17 + Bit(f.externalAddressesAllowed) * 29 +
    Bit(f.voidAllowed) * 29 + Bit(f.multifieldsAllowed) * 29 + Bit(f.factAddressesAllowed) * 79 +
    Bit(f.anyRestriction) * 59 + Bit(f.symbolRestriction) * 61 + Bit(f.stringRestriction) * 3 +
    Bit(f.floatRestriction) * 37 + Bit(f.integerRestriction) * 9 + Bit(f.classRestriction) * 11 +
    Bit(f.instanceNameRestriction) * 7
  }

  function AtomSum(atomic: AtomicHash, list: seq<Atom>, at: nat): nat {
    if list == [] then 0 else atomic(list[0], at) + AtomSum(atomic, list[1..], at + 1)
  }

  function Atoms(c: Constraint): seq<Atom> {
    c.classList + c.restrictionList + c.minValue + c.maxValue + c.minFields + c.maxFields
  }

  // The hash of a record: flags, then all list elements by their running position, then the nested record.
  function HashOf(atomic: AtomicHash, c: Constraint): (h: nat)
    ensures h < SIZE_CONSTRAINT_HASH
  {
    (FlagSum(c.flags) + AtomSum(atomic, Atoms(c), 0) +
     if c.multifield.Some? then HashOf(atomic, c.multifield.value) else 0)
      % WORD % SIZE_CONSTRAINT_HASH
  }

  lemma {:induction false} AtomSumAppend(atomic: AtomicHash, a: seq<Atom>, b: seq<Atom>, at: nat)
    ensures AtomSum(atomic, a + b, at) == AtomSum(atomic, a, at) + AtomSum(atomic, b, at + |a|)
  {
    if a == [] {
      assert a + b == b;
    } else {
      assert (a + b)[1..] == a[1..] + b;
      AtomSumAppend(atomic, a[1..], b, at + 1);
    }
  }

  // An addition of machine words.
  function Plus(a: nat, b: nat): nat {
    (a + b) % WORD
  }

  lemma PlusWraps(total: nat, b: nat)
    ensures Plus(total % WORD, b) == (total + b) % WORD
  {
  }

  method HashList(atomic: AtomicHash, list: seq<Atom>, i0: nat, count0: nat, ghost total: nat)
    returns (i: nat, count: nat)
    requires count0 == total % WORD
    ensures i == i0 + |list| && count == (total + AtomSum(atomic, list, i0)) % WORD
  {
    hide Plus;
    i, count := i0, count0;
    var k := 0;
    ghost var sum: nat := total;
    while k < |list|
      invariant k <= |list| && i == i0 + k && count == sum % WORD
      invariant sum + AtomSum(atomic, list[k..], i) == total + AtomSum(atomic, list, i0)
    {
      PlusWraps(sum, atomic(list[k], i));
      count := Plus(count, atomic(list[k], i));
      sum := sum + atomic(list[k], i);
      assert list[k..][1..] == list[k + 1..];
      i := i + 1;
      k := k + 1;
    }
  }

  /** Computes the hash of a record with additions that wrap around. */
  method HashConstraint(atomic: AtomicHash, c: Constraint) returns (hashValue: nat)
    ensures hashValue == HashOf(atomic, c)
    decreases c
  {
    hide Plus, FlagSum, AtomSum;
    var i := 0;
    var count := Plus(0, FlagSum(c.flags));
    PlusWraps(0, FlagSum(c.flags));
    ghost var done: seq<Atom> := [];
    NoAtoms(atomic);
    AtomSumAppend(atomic, done, c.classList, 0);
    i, count := HashList(atomic, c.classList, i, count, FlagSum(c.flags) + AtomSum(atomic, done, 0));
    done := done + c.classList;
    AtomSumAppend(atomic, done, c.restrictionList, 0);
    i, count := HashList(atomic, c.restrictionList, i, count, FlagSum(c.flags) + AtomSum(atomic, done, 0));
    done := done + c.restrictionList;
    AtomSumAppend(atomic, done, c.minValue, 0);
    i, count := HashList(atomic, c.minValue, i, count, FlagSum(c.flags) + AtomSum(atomic, done, 0));
    done := done + c.minValue;
    AtomSumAppend(atomic, done, c.maxValue, 0);
    i, count := HashList(atomic, c.maxValue, i, count, FlagSum(c.flags) + AtomSum(atomic, done, 0));
    done := done + c.maxValue;
    AtomSumAppend(atomic, done, c.minFields, 0);
    i, count := HashList(atomic, c.minFields, i, count, FlagSum(c.flags) + AtomSum(atomic, done, 0));
    done := done + c.minFields;
    AtomSumAppend(atomic, done, c.maxFields, 0);
    i, count := HashList(atomic, c.maxFields, i, count, FlagSum(c.flags) + AtomSum(atomic, done, 0));
    done := done + c.maxFields;
    assert done == Atoms(c);
    if c.multifield.Some? {
      var inner := HashConstraint(atomic, c.multifield.value);
      PlusWraps(FlagSum(c.flags) + AtomSum(atomic, done, 0), inner);
      count := Plus(count, inner);
    }
    hashValue := count % SIZE_CONSTRAINT_HASH;
  }

  lemma NoAtoms(atomic: AtomicHash)
    ensures AtomSum(atomic, [], 0) == 0
  {
  }
}
