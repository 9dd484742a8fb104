/** Writing expression trees as arrays of structures that refer to each other by file and position. */
module Flatten {
  import opened Options

  // What an expression structure can hold, by how it is printed.
  datatype Kind = Referenced(tag: nat) | FactAddress | InstanceAddress | Unprinted(tag: nat)

  datatype Value = Address(item: nat) | Null | DummyFact | DummyInstance

  datatype Expr = Nil | Node(kind: Kind, value: Value, argList: Expr, nextArg: Expr)

  // A place in a file: the array of that version, at that index.
  datatype Ref = Ref(version: nat, index: nat)

  datatype Entry = Entry(kind: Kind, value: Value, argList: Option<Ref>, nextArg: Option<Ref>)

  type Files = map<nat, seq<Entry>>

  // Values that are filled in when the arrays have been loaded.
  type Fixups = map<Ref, Value>

  function ExpressionSize(e: Expr): nat {
    match e
    case Nil => 0
    case Node(_, _, args, next) => 1 + ExpressionSize(args) + ExpressionSize(next)
  }

  // ---- What is written ----

  function PrintedValue(kind: Kind, value: Value): Value {
    if kind.Referenced? then value else Null
  }

  function Reference(e: Expr, version: nat, index: nat): Option<Ref> {
    if e == Nil then None else Some(Ref(version, index))
  }

  // A structure followed by its arguments.
  function FlatOne(e: Expr, v: nat, k: nat): (r: seq<Entry>)
    requires e.Node?
    ensures |r| == 1 + ExpressionSize(e.argList)
    decreases e, 0
  {
    [Entry(e.kind, PrintedValue(e.kind, e.value), Reference(e.argList, v, k + 1),
           Reference(e.nextArg, v, k + 1 + ExpressionSize(e.argList)))]
      + Flat(e.argList, v, k + 1)
  }

  // A list of structures, each followed by its arguments.
  function Flat(e: Expr, v: nat, k: nat): (r: seq<Entry>)
    ensures |r| == ExpressionSize(e)
    decreases e, 1
  {
    if e == Nil then [] else FlatOne(e, v, k) + Flat(e.nextArg, v, k + 1 + ExpressionSize(e.argList))
  }

  function FixedUp(kind: Kind): Option<Value> {
    if kind.FactAddress? then Some(DummyFact) else if kind.InstanceAddress? then Some(DummyInstance) else None
  }

  function FixupsOne(e: Expr, v: nat, k: nat): Fixups
    requires e.Node?
    decreases e, 0
  {
    (if FixedUp(e.kind).Some? then map[Ref(v, k) := FixedUp(e.kind).value] else map[]) + FixupsOf(e.argList, v, k + 1)
  }

  function FixupsOf(e: Expr, v: nat, k: nat): Fixups
    decreases e, 1
  {
    if e == Nil then map[] else FixupsOne(e, v, k) + FixupsOf(e.nextArg, v, k + 1 + ExpressionSize(e.argList))
  }

  // ---- What is read back ----

  ghost function ValueAt(files: Files, fixups: Fixups, at: Ref): Value
    requires at.version in files && at.index < |files[at.version]|
  {
    if at in fixups then fixups[at] else files[at.version][at.index].value
  }

  // Follows references for at most fuel structures.
  ghost function Rebuild(files: Files, fixups: Fixups, at: Option<Ref>, fuel: nat): Option<Expr>
    decreases fuel
  {
    if at == None then Some(Nil)
    else if fuel == 0 || at.value.version !in files || at.value.index >= |files[at.value.version]| then None
    else
      var entry := files[at.value.version][at.value.index];
      var args := Rebuild(files, fixups, entry.argList, fuel - 1);
      var next := Rebuild(files, fixups, entry.nextArg, fuel - 1);
      if args.None? || next.None? then None
      else Some(Node(entry.kind, ValueAt(files, fixups, at.value), args.value, next.value))
  }

  // f is what e has to be after loading: the same tree of the same kinds, with the value of every structure that is
  // printed as a reference, the dummy objects for addresses of facts and instances, and nothing for the rest.
  ghost predicate LoadedAs(e: Expr, f: Expr) {
    match e
    case Nil => f == Nil
    case Node(kind, value, args, next) =>
      && f.Node? && f.kind == kind && LoadedAs(args, f.argList) && LoadedAs(next, f.nextArg)
      && f.value == (match kind
                     case Referenced(_) => value
                     case FactAddress => DummyFact
                     case InstanceAddress => DummyInstance
                     case Unprinted(_) => Null)
  }

  ghost predicate OnlyReferences(e: Expr) {
    e.Node? ==> e.kind.Referenced? && OnlyReferences(e.argList) && OnlyReferences(e.nextArg)
  }

  lemma {:induction false} ReferencesLoaded(e: Expr, f: Expr)
    requires LoadedAs(e, f) && OnlyReferences(e)
    ensures f == e
  {
    if e.Node? {
      ReferencesLoaded(e.argList, f.argList);
      ReferencesLoaded(e.nextArg, f.nextArg);
    }
  }

  // The expression can be read from a reference, with enough steps.
  ghost predicate Reads(files: Files, fixups: Fixups, at: Option<Ref>, e: Expr) {
    forall fuel: nat :: fuel >= ExpressionSize(e) ==>
      && Rebuild(files, fixups, at, fuel).Some? && LoadedAs(e, Rebuild(files, fixups, at, fuel).value)
      && (OnlyReferences(e) ==> Rebuild(files, fixups, at, fuel) == Some(e))
  }

  // ---- Reading undoes writing ----

  // The structures of e lie in the files from v, k on.
  ghost predicate Holds(files: Files, v: nat, k: nat, entries: seq<Entry>) {
    v in files && k + |entries| <= |files[v]| && files[v][k..k + |entries|] == entries
  }

  // At the places of e the fixups are those of e.
  ghost predicate Agrees(fixups: Fixups, e: Expr, v: nat, k: nat) {
    forall i :: k <= i < k + ExpressionSize(e) ==> FixAt(fixups, Ref(v, i)) == FixAt(FixupsOf(e, v, k), Ref(v, i))
  }

  ghost function FixAt(fixups: Fixups, at: Ref): Option<Value> {
    if at in fixups then Some(fixups[at]) else None
  }

  lemma {:induction false} FixupsWithin(e: Expr, v: nat, k: nat, at: Ref)
    requires at in FixupsOf(e, v, k)
    ensures at.version == v && k <= at.index < k + ExpressionSize(e)
    decreases e
  {
    var after := k + 1 + ExpressionSize(e.argList);
    if at in FixupsOf(e.nextArg, v, after) {
      FixupsWithin(e.nextArg, v, after, at);
    } else if at in FixupsOf(e.argList, v, k + 1) {
      FixupsWithin(e.argList, v, k + 1, at);
    }
  }

  lemma FixAtUnion(h: Fixups, a: Fixups, n: Fixups, at: Ref)
    ensures FixAt(h + a + n, at) == if at in n then Some(n[at]) else if at in a then Some(a[at]) else FixAt(h, at)
  {
  }

  lemma FixupsParts(e: Expr, v: nat, k: nat, i: nat)
    requires e.Node? && k <= i < k + ExpressionSize(e)
    ensures var after := k + 1 + ExpressionSize(e.argList);
            FixAt(FixupsOf(e, v, k), Ref(v, i)) ==
              if i == k then FixedUp(e.kind)
              else if i < after then FixAt(FixupsOf(e.argList, v, k + 1), Ref(v, i))
              else FixAt(FixupsOf(e.nextArg, v, after), Ref(v, i))
  {
    var after := k + 1 + ExpressionSize(e.argList);
    var head: Fixups := if FixedUp(e.kind).Some? then map[Ref(v, k) := FixedUp(e.kind).value] else map[];
    var args, next := FixupsOf(e.argList, v, k + 1), FixupsOf(e.nextArg, v, after);
    assert FixupsOf(e, v, k) == head + args + next;
    FixupsJoined(e, v, k, i, head, args, next);
  }

  lemma FixupsJoined(e: Expr, v: nat, k: nat, i: nat, head: Fixups, args: Fixups, next: Fixups)
    requires e.Node? && args == FixupsOf(e.argList, v, k + 1)
    requires next == FixupsOf(e.nextArg, v, k + 1 + ExpressionSize(e.argList))
    requires head == if FixedUp(e.kind).Some? then map[Ref(v, k) := FixedUp(e.kind).value] else map[]
    ensures FixAt(head + args + next, Ref(v, i)) ==
              if i == k then FixedUp(e.kind)
              else if i < k + 1 + ExpressionSize(e.argList) then FixAt(args, Ref(v, i))
              else FixAt(next, Ref(v, i))
  {
    hide FixupsOf, ExpressionSize;
    FixAtUnion(head, args, next, Ref(v, i));
    if Ref(v, i) in next {
      FixupsWithin(e.nextArg, v, k + 1 + ExpressionSize(e.argList), Ref(v, i));
    }
    if Ref(v, i) in args {
      FixupsWithin(e.argList, v, k + 1, Ref(v, i));
    }
  }

  lemma AgreesParts(fixups: Fixups, e: Expr, v: nat, k: nat)
    requires e.Node? && Agrees(fixups, e, v, k)
    ensures FixAt(fixups, Ref(v, k)) == FixedUp(e.kind)
    ensures Agrees(fixups, e.argList, v, k + 1)
    ensures Agrees(fixups, e.nextArg, v, k + 1 + ExpressionSize(e.argList))
  {
    forall i | k <= i < k + ExpressionSize(e)
      ensures i == k ==> FixAt(fixups, Ref(v, i)) == FixedUp(e.kind)
      ensures k < i < k + 1 + ExpressionSize(e.argList) ==>
                FixAt(fixups, Ref(v, i)) == FixAt(FixupsOf(e.argList, v, k + 1), Ref(v, i))
      ensures k + 1 + ExpressionSize(e.argList) <= i ==>
                FixAt(fixups, Ref(v, i)) == FixAt(FixupsOf(e.nextArg, v, k + 1 + ExpressionSize(e.argList)), Ref(v, i))
    {
      FixupsParts(e, v, k, i);
    }
  }

  lemma HoldsParts(files: Files, v: nat, k: nat, a: seq<Entry>, b: seq<Entry>)
    requires Holds(files, v, k, a + b)
    ensures Holds(files, v, k, a) && Holds(files, v, k + |a|, b)
  {
    var s := files[v];
    assert s[k..k + |a|] == s[k..k + |a + b|][..|a|];
    assert s[k + |a|..k + |a| + |b|] == s[k..k + |a + b|][|a|..];
    assert (a + b)[..|a|] == a && (a + b)[|a|..] == b;
  }

  lemma HoldsNode(files: Files, e: Expr, v: nat, k: nat)
    requires e.Node? && Holds(files, v, k, Flat(e, v, k))
    ensures var after := k + 1 + ExpressionSize(e.argList);
            && v in files && k < |files[v]|
            && files[v][k] == Entry(e.kind, PrintedValue(e.kind, e.value), Reference(e.argList, v, k + 1),
                Reference(e.nextArg, v, after))
            && Holds(files, v, k + 1, Flat(e.argList, v, k + 1))
            && Holds(files, v, after, Flat(e.nextArg, v, after))
  {
    var after := k + 1 + ExpressionSize(e.argList);
    var head := Entry(e.kind, PrintedValue(e.kind, e.value), Reference(e.argList, v, k + 1),
        Reference(e.nextArg, v, after));
    var args, next := Flat(e.argList, v, k + 1), Flat(e.nextArg, v, after);
    assert Flat(e, v, k) == [head] + args + next;
    HoldsParts(files, v, k, [head] + args, next);
    HoldsParts(files, v, k, [head], args);
    assert files[v][k..k + 1][0] == head;
  }

  /** Following the references from where an expression was written rebuilds it. */
  lemma {:induction false} RebuildsFlat(files: Files, fixups: Fixups, e: Expr, v: nat, k: nat, fuel: nat)
    requires Holds(files, v, k, Flat(e, v, k)) && Agrees(fixups, e, v, k) && fuel >= ExpressionSize(e)
    ensures var r := Rebuild(files, fixups, Reference(e, v, k), fuel); r.Some? && LoadedAs(e, r.value)
    decreases e
  {
    hide Holds, Agrees, FixupsOf, Flat;
    match e
    case Nil =>
    case Node(kind, value, args, next) =>
      var after := k + 1 + ExpressionSize(args);
      HoldsNode(files, e, v, k);
      AgreesParts(fixups, e, v, k);
      RebuildsFlat(files, fixups, args, v, k + 1, fuel - 1);
      RebuildsFlat(files, fixups, next, v, after, fuel - 1);
  }

  // Later writing only appends to files, opens new ones, and fixes up what it wrote itself.
  ghost predicate Extends(files: Files, fixups: Fixups, files1: Files, fixups1: Fixups) {
    && (forall v :: v in files ==> v in files1 && files[v] <= files1[v])
    && (forall v, i :: v in files && 0 <= i < |files[v]| ==> FixAt(fixups1, Ref(v, i)) == FixAt(fixups, Ref(v, i)))
  }

  /** What has been written still reads the same after more has been written. */
  lemma {:induction false} RebuildKept(files: Files, fixups: Fixups, files1: Files, fixups1: Fixups, at: Option<Ref>,
                                       fuel: nat)
    requires Extends(files, fixups, files1, fixups1) && Rebuild(files, fixups, at, fuel).Some?
    ensures Rebuild(files1, fixups1, at, fuel) == Rebuild(files, fixups, at, fuel)
    decreases fuel
  {
    if at.Some? {
      var entry := files[at.value.version][at.value.index];
      assert at.value == Ref(at.value.version, at.value.index);
      RebuildKept(files, fixups, files1, fixups1, entry.argList, fuel - 1);
      RebuildKept(files, fixups, files1, fixups1, entry.nextArg, fuel - 1);
    }
  }

  // ---- The code ----

  class ConstructCompiler {
    const MaxIndices: nat
    var ExpressionCount: nat
    var ExpressionVersion: nat
    var ExpressionHeader: bool
    var files: Files
    var fixups: Fixups

    constructor (maxIndices: nat)
      requires maxIndices > 0
      ensures MaxIndices == maxIndices && Valid() && files == map[]
    {
      MaxIndices := maxIndices;
      ExpressionCount, ExpressionVersion, ExpressionHeader, files, fixups := 0, 1, true, map[], map[];
    }

    // Between two expressions: the open file is as long as the count says and has room for another start.
    ghost predicate Valid()
      reads this
    {
      && ExpressionCount < MaxIndices
      && (ExpressionHeader ==> ExpressionCount == 0 && ExpressionVersion !in files)
      && (!ExpressionHeader ==> ExpressionVersion in files && |files[ExpressionVersion]| == ExpressionCount)
      && Known()
    }

    ghost predicate Known()
      reads this
    {
      && (forall v :: v in files ==> v <= ExpressionVersion)
      && (forall at :: at in fixups ==> at.version in files && at.index < |files[at.version]|)
    }

    /** Writes the structures of an expression at the end of the open file. */
    method DumpExpression(e: Expr)
      requires ExpressionVersion in files && |files[ExpressionVersion]| == ExpressionCount
      modifies this`ExpressionCount, this`files, this`fixups
      ensures files == old(files)[ExpressionVersion :=
                old(files)[ExpressionVersion] + Flat(e, ExpressionVersion, old(ExpressionCount))]
      ensures fixups == old(fixups) + FixupsOf(e, ExpressionVersion, old(ExpressionCount))
      ensures ExpressionCount == old(ExpressionCount) + ExpressionSize(e)
      decreases e, 1
    {
      hide Flat, FixupsOf, FlatOne, FixupsOne;
      var v := ExpressionVersion;
      var exprPtr := e;
      ghost var all := files[v] + Flat(e, v, ExpressionCount);
      ghost var fixes := fixups + FixupsOf(e, v, ExpressionCount);
      while exprPtr != Nil
        invariant exprPtr == e || exprPtr < e
        invariant v in files && |files[v]| == ExpressionCount
        invariant files == old(files)[v := files[v]]
        invariant files[v] + Flat(exprPtr, v, ExpressionCount) == all
        invariant fixups + FixupsOf(exprPtr, v, ExpressionCount) == fixes
        invariant ExpressionCount + ExpressionSize(exprPtr) == old(ExpressionCount) + ExpressionSize(e)
        decreases exprPtr
      {
        FlatUnfolds(exprPtr, v, ExpressionCount, files[v], fixups);
        DumpStructure(exprPtr);
        exprPtr := exprPtr.nextArg;
      }
      FlatNil(v, ExpressionCount, files[v], fixups);
    }

    // One structure and, after it, its arguments.
    method DumpStructure(e: Expr)
      requires e.Node? && ExpressionVersion in files && |files[ExpressionVersion]| == ExpressionCount
      modifies this`ExpressionCount, this`files, this`fixups
      ensures files == old(files)[ExpressionVersion :=
                old(files)[ExpressionVersion] + FlatOne(e, ExpressionVersion, old(ExpressionCount))]
      ensures fixups == old(fixups) + FixupsOne(e, ExpressionVersion, old(ExpressionCount))
      ensures ExpressionCount == old(ExpressionCount) + 1 + ExpressionSize(e.argList)
      decreases e, 0
    {
      hide Flat, FixupsOf;
      var v, k := ExpressionVersion, ExpressionCount;
      ghost var was, fixed := files[v], fixups;
      FlatNil(v, k + 1, [], map[]);
      if e.kind.FactAddress? {
        fixups := fixups[Ref(v, k) := DummyFact];
      } else if e.kind.InstanceAddress? {
        fixups := fixups[Ref(v, k) := DummyInstance];
      }
      ghost var head: Fixups := if FixedUp(e.kind).Some? then map[Ref(v, k) := FixedUp(e.kind).value] else map[];
      assert fixups == fixed + head;
      UnionAssociates(fixed, head, FixupsOf(e.argList, v, k + 1));
      var value := PrintedValue(e.kind, e.value);
      ExpressionCount := ExpressionCount + 1;
      var entry := Entry(e.kind, value, Reference(e.argList, v, ExpressionCount),
                         Reference(e.nextArg, v, ExpressionCount + ExpressionSize(e.argList)));
      files := files[v := files[v] + [entry]];
      if e.argList != Nil {
        DumpExpression(e.argList);
      }
      assert was + [entry] + Flat(e.argList, v, k + 1) == was + FlatOne(e, v, k);
      assert files[v] == was + FlatOne(e, v, k);
    }

    /**
     * Writes an expression and gives the reference that is printed for it. From that reference the expression
     * can be read back, and everything written before still reads the same.
     */
    method ExpressionToCode(e: Expr) returns (at: Option<Ref>)
      requires Valid()
      modifies this
      ensures Valid() && Extends(old(files), old(fixups), files, fixups)
      ensures at == Reference(e, old(ExpressionVersion), old(ExpressionCount))
      ensures Reads(files, fixups, at, e)
      ensures var end := old(ExpressionCount) + ExpressionSize(e);
              if e != Nil && end >= MaxIndices
              then ExpressionVersion == old(ExpressionVersion) + 1 && ExpressionCount == 0
              else ExpressionVersion == old(ExpressionVersion) && ExpressionCount == end
    {
      hide Flat, FixupsOf, Rebuild, Reads, ExpressionSize, Extends;
      at := Reference(e, ExpressionVersion, ExpressionCount);
      if e == Nil {
        NilReads(files, fixups);
        return;
      }
      ghost var files0, fixups0, v, k := files, fixups, ExpressionVersion, ExpressionCount;
      if ExpressionHeader {
        files := files[ExpressionVersion := []];
        ExpressionHeader := false;
      }
      ghost var was := files[v];
      DumpExpression(e);
      WrittenExtends(files0, fixups0, files, fixups, was, e, v, k);
      WrittenReads(files0, fixups0, files, fixups, was, e, v, k);
      assert Known();
      if ExpressionCount >= MaxIndices {
        ExpressionCount := 0;
        ExpressionVersion := ExpressionVersion + 1;
        ExpressionHeader := true;
      }
    }

    /**
     * Writes every expression of the hash table and gives each its id. Divided by the number of indices, the id is
     * the file the expression starts in, and the remainder is its position there.
     */
    method HashedExpressionsToCode(table: seq<Expr>) returns (bsaveIDs: seq<nat>)
      requires Valid() && forall i :: 0 <= i < |table| ==> table[i] != Nil
      modifies this
      ensures Valid() && Extends(old(files), old(fixups), files, fixups)
      ensures |bsaveIDs| == |table|
      ensures forall i :: 0 <= i < |table| ==>
                Reads(files, fixups, Some(HashedExpressionReference(bsaveIDs[i], MaxIndices)), table[i])
    {
      hide Reads, ExpressionSize, Extends, Known;
      bsaveIDs := [];
      ExtendsSelf(files, fixups);
      var i := 0;
      while i < |table|
        invariant i <= |table| && |bsaveIDs| == i && Valid()
        invariant Extends(old(files), old(fixups), files, fixups)
        invariant forall j :: 0 <= j < i ==>
                    Reads(files, fixups, Some(HashedExpressionReference(bsaveIDs[j], MaxIndices)), table[j])
      {
        ghost var files0, fixups0 := files, fixups;
        var id := ExpressionCount + MaxIndices * ExpressionVersion;
        Decodes(ExpressionCount, ExpressionVersion, MaxIndices);
        var at := ExpressionToCode(table[i]);
        ExtendsAgain(old(files), old(fixups), files0, fixups0, files, fixups);
        forall j | 0 <= j < i
          ensures Reads(files, fixups, Some(HashedExpressionReference(bsaveIDs[j], MaxIndices)), table[j])
        {
          var at := Some(HashedExpressionReference(bsaveIDs[j], MaxIndices));
          StillReads(files0, fixups0, files, fixups, at, table[j]);
        }
        bsaveIDs := bsaveIDs + [id];
        i := i + 1;
      }
    }
  }

  // The reference printed for an id.
  function HashedExpressionReference(id: nat, maxIndices: nat): Ref
    requires maxIndices > 0
  {
    Ref(id / maxIndices, id % maxIndices)
  }

  /** An id made from a count below the number of indices decodes to that version and count, and only to them. */
  lemma Decodes(count: nat, version: nat, maxIndices: nat)
    requires count < maxIndices
    ensures HashedExpressionReference(count + maxIndices * version, maxIndices) == Ref(version, count)
  {
    var id := count + maxIndices * version;
    DivisionIs(id, maxIndices, version, count);
  }

  lemma {:induction false} MultipleBound(m: nat, d: nat)
    requires d > 0
    ensures m * d >= m
  {
    assert m * d == m * (d - 1) + m;
    if d > 1 {
      MultipleBound(m, d - 1);
    }
  }

  lemma DivisionIs(n: nat, m: nat, q: nat, r: nat)
    requires n == r + m * q && r < m
    ensures n / m == q && n % m == r
  {
    var q1, r1 := n / m, n % m;
    Apart(m, q, q1, r, r1);
  }

  lemma MultiplesApart(m: nat, q: nat, q1: nat)
    requires q < q1
    ensures m * q1 >= m * q + m
  {
    MultipleBound(m, q1 - q);
    assert m * q1 == m * q + m * (q1 - q);
  }

  // Two ways to write a number as a multiple and a remainder are the same.
  lemma Apart(m: nat, q: nat, q1: nat, r: nat, r1: nat)
    requires m * q + r == m * q1 + r1 && r < m && r1 < m
    ensures q == q1 && r == r1
  {
    if q1 > q {
      MultiplesApart(m, q, q1);
    } else if q1 < q {
      MultiplesApart(m, q1, q);
    }
  }

  lemma NilReads(files: Files, fixups: Fixups)
    ensures Extends(files, fixups, files, fixups)
    ensures Reads(files, fixups, None, Nil) && ExpressionSize(Nil) == 0
  {
  }

  lemma StillReads(files: Files, fixups: Fixups, files1: Files, fixups1: Fixups, at: Option<Ref>, e: Expr)
    requires Extends(files, fixups, files1, fixups1) && Reads(files, fixups, at, e)
    ensures Reads(files1, fixups1, at, e)
  {
    hide Extends, Rebuild, LoadedAs, OnlyReferences, ExpressionSize;
    forall fuel: nat | fuel >= ExpressionSize(e)
      ensures Rebuild(files1, fixups1, at, fuel) == Rebuild(files, fixups, at, fuel)
    {
      RebuildKept(files, fixups, files1, fixups1, at, fuel);
    }
  }

  lemma ExtendsSelf(files: Files, fixups: Fixups)
    ensures Extends(files, fixups, files, fixups)
  {
  }

  lemma ExtendsAgain(f: Files, x: Fixups, f1: Files, x1: Fixups, f2: Files, x2: Fixups)
    requires Extends(f, x, f1, x1) && Extends(f1, x1, f2, x2)
    ensures Extends(f, x, f2, x2)
  {
  }

  // An expression has been appended to a file.
  ghost predicate Appended(files0: Files, fixups0: Fixups, files: Files, fixups: Fixups, was: seq<Entry>, e: Expr,
                           v: nat, k: nat) {
    && k == |was| && files == files0[v := was + Flat(e, v, k)] && fixups == fixups0 + FixupsOf(e, v, k)
    && (if v in files0 then files0[v] == was else was == [])
    && (forall at :: at in fixups0 ==> at.version in files0 && at.index < |files0[at.version]|)
  }

  // The old contents are left alone.
  lemma WrittenExtends(files0: Files, fixups0: Fixups, files: Files, fixups: Fixups, was: seq<Entry>, e: Expr, v: nat,
                       k: nat)
    requires Appended(files0, fixups0, files, fixups, was, e, v, k)
    ensures Extends(files0, fixups0, files, fixups)
    ensures forall at :: at in fixups ==> at.version in files && at.index < |files[at.version]|
    ensures (forall w :: w in files0 ==> w <= v) ==> forall w :: w in files ==> w <= v
  {
    hide Flat, FixupsOf;
    forall at | at in FixupsOf(e, v, k) ensures at.version == v && k <= at.index < k + ExpressionSize(e) {
      FixupsWithin(e, v, k, at);
    }
  }

  // The expression can be read.
  lemma WrittenReads(files0: Files, fixups0: Fixups, files: Files, fixups: Fixups, was: seq<Entry>, e: Expr, v: nat,
                     k: nat)
    requires Appended(files0, fixups0, files, fixups, was, e, v, k)
    ensures Reads(files, fixups, Reference(e, v, k), e)
  {
    hide Flat, FixupsOf, Rebuild, LoadedAs, OnlyReferences, Reference;
    assert Agrees(fixups, e, v, k);
    assert files[v][k..k + |Flat(e, v, k)|] == Flat(e, v, k);
    forall fuel: nat | fuel >= ExpressionSize(e)
      ensures var r := Rebuild(files, fixups, Reference(e, v, k), fuel);
              r.Some? && LoadedAs(e, r.value) && (OnlyReferences(e) ==> r == Some(e))
    {
      RebuildsFlat(files, fixups, e, v, k, fuel);
      if OnlyReferences(e) {
        ReferencesLoaded(e, Rebuild(files, fixups, Reference(e, v, k), fuel).value);
      }
    }
  }

  lemma FlatUnfolds(e: Expr, v: nat, k: nat, was: seq<Entry>, fixups: Fixups)
    requires e.Node?
    ensures was + Flat(e, v, k) == (was + FlatOne(e, v, k)) + Flat(e.nextArg, v, k + 1 + ExpressionSize(e.argList))
    ensures fixups + FixupsOf(e, v, k) ==
            (fixups + FixupsOne(e, v, k)) + FixupsOf(e.nextArg, v, k + 1 + ExpressionSize(e.argList))
  {
    UnionAssociates(fixups, FixupsOne(e, v, k), FixupsOf(e.nextArg, v, k + 1 + ExpressionSize(e.argList)));
  }

  lemma UnionAssociates(a: Fixups, b: Fixups, c: Fixups)
    ensures a + (b + c) == (a + b) + c
  {
  }

  lemma FlatNil(v: nat, k: nat, was: seq<Entry>, fixups: Fixups)
    ensures Flat(Nil, v, k) == [] && was + Flat(Nil, v, k) == was
    ensures FixupsOf(Nil, v, k) == map[] && fixups + FixupsOf(Nil, v, k) == fixups
  {
  }
}
