/** Writing the function list as arrays of structures split over numbered files. */
module FunctionFiles {
  import opened Options
  import opened Shorts
  import opened Flatten
  import opened FunctionTable
  import opened FunctionImage

  // A printed reference: the array of a version, and an index into it.
  datatype PrintedRef = PrintedRef(version: int, index: int)

  // A structure: which function of the list it is, and the reference to the next one.
  datatype FunctionEntry = FunctionEntry(function_: nat, next: Option<PrintedRef>)

  // Integer division that truncates toward zero.
  function Quotient(n: int, m: nat): int
    requires m > 0
  {
    if n >= 0 then n / m else Negated((Negated(n)) / m)
  }

  function Negated(n: int): int {
    -n
  }

  function PrintFunctionReference(bsaveIndex: int, maxIndices: nat): PrintedRef
    requires maxIndices > 0
  {
    var q := Quotient(bsaveIndex, maxIndices);
    PrintedRef(q + 1, bsaveIndex - q * maxIndices)
  }

  // Where the reference of every function leads to that function.
  ghost predicate Placed(n: nat, files: map<int, seq<FunctionEntry>>, maxIndices: nat)
    requires maxIndices > 0
  {
    forall j :: 0 <= j < n ==> PlacedAt(j, PrintFunctionReference(ToShort(j), maxIndices), files)
  }

  ghost predicate PlacedAt(j: nat, at: PrintedRef, files: map<int, seq<FunctionEntry>>) {
    && at.version in files && 0 <= at.index < |files[at.version]|
    && files[at.version][at.index].function_ == j
  }

  ghost predicate Fits(n: nat, maxIndices: nat) {
    n < SHORT_LIMIT || (n == SHORT_LIMIT && maxIndices != SHORT_LIMIT - 1)
  }

  lemma ReferenceIs(j: nat, maxIndices: nat, q: nat, r: nat)
    requires j < SHORT_LIMIT && j == maxIndices * q + r && r < maxIndices
    ensures PrintFunctionReference(ToShort(j), maxIndices) == PrintedRef(q + 1, r)
  {
    ShortId(j);
    DivisionIs(j, maxIndices, q, r);
  }

  // The reference of function 32768 has a negative part or names a file that is never written.
  lemma ReferenceWraps(maxIndices: nat)
    requires maxIndices > 0
    ensures var at := PrintFunctionReference(ToShort(SHORT_LIMIT), maxIndices); at.index < 0 || at.version < 1
  {
    assert ToShort(SHORT_LIMIT) == -SHORT_LIMIT;
    var q, r := SHORT_LIMIT / maxIndices, SHORT_LIMIT % maxIndices;
    assert SHORT_LIMIT == maxIndices * q + r;
    if q == 0 {
      assert maxIndices * q == 0;
    }
    assert Quotient(-SHORT_LIMIT, maxIndices) == Negated(q);
    NegatedProduct(q, maxIndices);
  }

  lemma NegatedProduct(q: nat, m: nat)
    ensures Negated(q) * m == Negated(m * q)
  {
  }

  method NumberFunctions(list: seq<FunctionDefinition>)
    requires Separate(list)
    modifies list`bsaveIndex
    ensures forall j :: 0 <= j < |list| ==> list[j].bsaveIndex == ToShort(j)
  {
    hide ToShort;
    var i := 0;
    ShortId(0);
    var j := 0;
    while j < |list|
      invariant j <= |list| && i == ToShort(j)
      invariant forall k :: 0 <= k < j ==> list[k].bsaveIndex == ToShort(k)
    {
      list[j].bsaveIndex := i;
      ShortStep(j);
      i := ToShort(i + 1);
      j := j + 1;
    }
  }

  function NextReference(list: seq<FunctionDefinition>, j: nat, maxIndices: nat): Option<PrintedRef>
    requires maxIndices > 0
    reads list
  {
    if j + 1 < |list| then Some(PrintFunctionReference(list[j + 1].bsaveIndex, maxIndices)) else None
  }

  // Where writing stands before a function: in which file, and after how many structures.
  ghost predicate Standing(n: nat, m: nat, j: nat, version: int, within: nat, i: int, newHeader: bool, files: map<int,
                           seq<FunctionEntry>>) {
    && version >= 1 && within < m && j == m * (version - 1) + within
    && i == ToShort(within + 1)
    && (newHeader ==> within == 0 && version !in files)
    && (!newHeader ==> version in files && |files[version]| == within)
  }

  // The counter sees the end of a file exactly when the file is full.
  lemma StandingNext(n: nat, m: nat, j: nat, version: int, within: nat, i: int, files: map<int, seq<FunctionEntry>>)
    requires Standing(n, m, j, version, within, i, false, files) && Fits(n, m) && j + 1 < n
    ensures ToShort(i + 1) > m <==> within + 1 == m
    ensures ToShort(i + 1) == ToShort(within + 2)
    ensures j + 1 == m * (version - 1) + (within + 1)
    ensures within + 1 == m ==> j + 1 == m * version
  {
    ShortStep(within + 1);
    if version > 1 {
      MultipleBound(m, version - 1);
    }
    ShortId(within + 2);
  }

  lemma NonePlaced(files: map<int, seq<FunctionEntry>>, m: nat)
    requires m > 0
    ensures Placed(0, files, m)
  {
  }

  lemma HeaderKeepsPlaced(j: nat, files: map<int, seq<FunctionEntry>>, files1: map<int, seq<FunctionEntry>>, m: nat)
    requires m > 0 && Placed(j, files, m)
    requires forall v :: v in files ==> v in files1 && files1[v] == files[v]
    ensures Placed(j, files1, m)
  {
    forall k | 0 <= k < j ensures PlacedAt(k, PrintFunctionReference(ToShort(k), m), files1) {
      assert PlacedAt(k, PrintFunctionReference(ToShort(k), m), files);
    }
  }

  ghost predicate Missed(n: nat, m: nat) {
    n == SHORT_LIMIT && m == SHORT_LIMIT - 1
  }

  lemma NotPlaced(n: nat, m: nat, files: map<int, seq<FunctionEntry>>)
    requires m > 0 && !Fits(n, m) && (forall v :: v in files ==> v >= 1) && (Missed(n, m) ==> files.Keys <= {1})
    ensures !Placed(n, files, m)
  {
    hide PrintFunctionReference, ToShort;
    if Missed(n, m) {
      ReferenceIs(SHORT_LIMIT - 1, m, 1, 0);
      assert !PlacedAt(SHORT_LIMIT - 1, PrintFunctionReference(ToShort(SHORT_LIMIT - 1), m), files);
    } else {
      ReferenceWraps(m);
      assert !PlacedAt(SHORT_LIMIT, PrintFunctionReference(ToShort(SHORT_LIMIT), m), files);
    }
  }

  // The structure of function j goes to the end of the file of a version.
  lemma PutIn(n: nat, m: nat, j: nat, version: int, within: nat, files: map<int, seq<FunctionEntry>>,
              entry: FunctionEntry)
    requires m > 0 && j < SHORT_LIMIT && within < m && version >= 1 && j == m * (version - 1) + within
    requires version in files && |files[version]| == within && entry.function_ == j
    requires Placed(j, files, m)
    ensures Placed(j + 1, files[version := files[version] + [entry]], m)
  {
    hide PrintFunctionReference, ToShort;
    ReferenceIs(j, m, version - 1, within);
  }

  /**
   * Writes the function list. Every printed reference leads to the structure of its function exactly when the
   * 16-bit counters suffice: for fewer than 32768 functions, or for 32768 unless a file would hold one less.
   */
  method FunctionsToCode(list: seq<FunctionDefinition>, maxIndices: nat) returns (files: map<int, seq<FunctionEntry>>)
    requires Separate(list) && maxIndices > 0
    modifies list`bsaveIndex
    ensures forall j :: 0 <= j < |list| ==> list[j].bsaveIndex == ToShort(j)
    ensures Placed(|list|, files, maxIndices) <==> Fits(|list|, maxIndices)
    ensures forall v, p :: v in files && 0 <= p < |files[v]| ==>
              files[v][p].next == NextReference(list, files[v][p].function_, maxIndices)
  {
    NumberFunctions(list);
    files := WriteFunctions(list, maxIndices);
  }

  method WriteFunctions(list: seq<FunctionDefinition>, maxIndices: nat) returns (files: map<int, seq<FunctionEntry>>)
    requires maxIndices > 0
    ensures Placed(|list|, files, maxIndices) <==> Fits(|list|, maxIndices)
    ensures forall v, p :: v in files && 0 <= p < |files[v]| ==>
              files[v][p].next == NextReference(list, files[v][p].function_, maxIndices)
  {
    hide ToShort, PrintFunctionReference, Placed, NextReference;
    files := map[];
    var i := 1;
    var version := 1;
    var newHeader := true;
    var fctnPtr := 0;
    ghost var within := 0;
    ghost var n := |list|;
    ShortId(1);
    NonePlaced(files, maxIndices);
    while fctnPtr < |list|
      invariant fctnPtr <= n && version >= 1
      invariant forall v :: v in files ==> 1 <= v <= version
      invariant newHeader ==> version !in files
      invariant !newHeader && fctnPtr < n ==> version in files
      invariant Fits(n, maxIndices) && fctnPtr < n ==>
                  Standing(n, maxIndices, fctnPtr, version, within, i, newHeader, files)
      invariant Fits(n, maxIndices) ==> Placed(fctnPtr, files, maxIndices)
      invariant Missed(n, maxIndices) ==> files.Keys <= {1} && (fctnPtr < n ==> version == 1)
      invariant forall v, p :: v in files && 0 <= p < |files[v]| ==>
                  files[v][p].next == NextReference(list, files[v][p].function_, maxIndices)
    {
      ghost var before := files;
      if newHeader {
        files := files[version := []];
        newHeader := false;
      }
      var entry := FunctionEntry(fctnPtr, NextReference(list, fctnPtr, maxIndices));
      if Fits(n, maxIndices) {
        HeaderKeepsPlaced(fctnPtr, before, files, maxIndices);
        PutIn(n, maxIndices, fctnPtr, version, within, files, entry);
        if fctnPtr + 1 < n {
          StandingNext(n, maxIndices, fctnPtr, version, within, i, files);
        }
      }
      ShortBounded(i + 1);
      files := files[version := files[version] + [entry]];
      i := ToShort(i + 1);
      fctnPtr := fctnPtr + 1;
      within := within + 1;
      if i > maxIndices || fctnPtr == |list| {
        i := 1;
        version := version + 1;
        if fctnPtr < |list| {
          newHeader := true;
        }
        within := 0;
      }
    }
    if !Fits(n, maxIndices) {
      NotPlaced(n, maxIndices, files);
    }
  }
}
