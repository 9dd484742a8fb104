/** Writing the table of needed functions to a binary image and reading it back. */
module FunctionImage {
  import opened Options
  import opened Shorts
  import opened FunctionTable

  // The functions of the list are different objects.
  ghost predicate Separate(list: seq<FunctionDefinition>) {
    forall i, j :: 0 <= i < j < |list| ==> list[i] != list[j]
  }

  lemma SeparateAt(list: seq<FunctionDefinition>, i: nat)
    requires Separate(list) && i < |list|
    ensures forall j :: 0 <= j < |list| && j != i ==> list[j] != list[i]
  {
  }

  ghost function Indexes(list: seq<FunctionDefinition>): (r: seq<int>)
    reads list
    ensures |r| == |list| && forall i :: 0 <= i < |list| ==> r[i] == list[i].bsaveIndex
  {
    seq(|list|, i requires 0 <= i < |list| reads list => list[i].bsaveIndex)
  }

  ghost function NeededFlags(ix: seq<int>): (r: seq<bool>)
    ensures |r| == |ix| && forall i :: 0 <= i < |ix| ==> (r[i] <==> ix[i] != 0)
  {
    seq(|ix|, i requires 0 <= i < |ix| => ix[i] != 0)
  }

  ghost function WrittenFlags(ix: seq<int>): (r: seq<bool>)
    ensures |r| == |ix| && forall i :: 0 <= i < |ix| ==> (r[i] <==> ix[i] >= 0)
  {
    seq(|ix|, i requires 0 <= i < |ix| => ix[i] >= 0)
  }

  method InitializeFunctionNeededFlags(list: seq<FunctionDefinition>)
    modifies list`bsaveIndex
    ensures forall i :: 0 <= i < |list| ==> list[i].bsaveIndex == 0
  {
    var i := 0;
    while i < |list|
      invariant i <= |list|
      invariant forall j :: 0 <= j < i ==> list[j].bsaveIndex == 0
    {
      list[i].bsaveIndex := 0;
      i := i + 1;
    }
  }

  // Needed functions are numbered in list order, in 16 bits; the others get -1.
  ghost predicate Numbering(ix: seq<int>, flags: seq<bool>, n: nat)
    requires |flags| == |ix| && n <= |ix|
  {
    && (forall i :: 0 <= i < |Positions(flags, n)| ==> ix[Positions(flags, n)[i]] == ToShort(i))
    && (forall j :: 0 <= j < n && !flags[j] ==> ix[j] == -1)
  }

  lemma NumberingStep(ix: seq<int>, flags: seq<bool>, n: nat, v: int)
    requires |flags| == |ix| && n < |ix| && Numbering(ix, flags, n)
    requires v == if flags[n] then ToShort(|Positions(flags, n)|) else -1
    ensures Numbering(ix[n := v], flags, n + 1)
    ensures |Positions(flags, n + 1)| == |Positions(flags, n)| + if flags[n] then 1 else 0
  {
    hide ToShort;
  }

  method NumberNeeded(list: seq<FunctionDefinition>) returns (count: nat)
    requires Separate(list)
    modifies list`bsaveIndex
    ensures count == |Positions(NeededFlags(old(Indexes(list))), |list|)|
    ensures Numbering(Indexes(list), NeededFlags(old(Indexes(list))), |list|)
  {
    hide Numbering, Positions, ToShort, NeededFlags, Separate, Indexes;
    count := 0;
    ghost var was := Indexes(list);
    ghost var flags := NeededFlags(was);
    ghost var ix := was;
    NumberingStart(ix, flags);
    var i := 0;
    while i < |list|
      invariant i <= |list| && count == |Positions(flags, i)| && |ix| == |list|
      invariant forall j :: 0 <= j < |list| ==> list[j].bsaveIndex == ix[j]
      invariant Numbering(ix, flags, i) && forall j :: i <= j < |list| ==> ix[j] == was[j]
    {
      SeparateAt(list, i);
      var needed := list[i].bsaveIndex != 0;
      NumberingStep(ix, flags, i, if needed then ToShort(count) else -1);
      if needed {
        list[i].bsaveIndex := ToShort(count);
        ix := ix[i := ToShort(count)];
        count := count + 1;
      } else {
        list[i].bsaveIndex := -1;
        ix := ix[i := -1];
      }
      i := i + 1;
    }
    assert Indexes(list) == ix;
  }

  lemma NumberingStart(ix: seq<int>, flags: seq<bool>)
    requires |flags| == |ix|
    ensures Numbering(ix, flags, 0) && Positions(flags, 0) == []
  {
  }

  ghost function WrittenNames(names: seq<string>, ix: seq<int>, n: nat): seq<string>
    requires n <= |names| == |ix|
  {
    At(names, Positions(WrittenFlags(ix), n))
  }

  lemma WrittenNamesStep(names: seq<string>, ix: seq<int>, n: nat)
    requires n < |names| == |ix|
    ensures NameBlock(WrittenNames(names, ix, n + 1)) ==
              NameBlock(WrittenNames(names, ix, n)) + if ix[n] >= 0 then names[n] + [NUL] else []
  {
    if ix[n] >= 0 {
      assert WrittenNames(names, ix, n + 1) == WrittenNames(names, ix, n) + [names[n]];
      NameBlockAppend(WrittenNames(names, ix, n), names[n]);
      assert NameBlock(WrittenNames(names, ix, n)) + names[n] + [NUL] ==
             NameBlock(WrittenNames(names, ix, n)) + (names[n] + [NUL]);
    } else {
      assert WrittenNames(names, ix, n + 1) == WrittenNames(names, ix, n);
    }
  }

  /** The bytes the names of the numbered functions take, a terminator after each. */
  method FunctionBinarySize(list: seq<FunctionDefinition>) returns (size: nat)
    ensures size == |NameBlock(WrittenNames(Names(list), Indexes(list), |list|))|
  {
    hide WrittenNames, NameBlock;
    size := 0;
    ghost var names, ix := Names(list), Indexes(list);
    NoNames(names, ix);
    var i := 0;
    while i < |list|
      invariant i <= |list| && size == |NameBlock(WrittenNames(names, ix, i))|
    {
      WrittenNamesStep(names, ix, i);
      if list[i].bsaveIndex >= 0 {
        size := size + |list[i].callFunctionName| + 1;
      }
      i := i + 1;
    }
  }

  lemma NoNames(names: seq<string>, ix: seq<int>)
    requires |names| == |ix|
    ensures NameBlock(WrittenNames(names, ix, 0)) == []
  {
  }

  function NameBytes(name: string): (r: seq<Item>)
    ensures r == Bytes(name + [NUL])
  {
    seq(|name| + 1, i requires 0 <= i < |name| + 1 => if i < |name| then Byte(name[i]) else Byte(NUL))
  }

  method WriteNames(list: seq<FunctionDefinition>) returns (block: seq<Item>)
    ensures block == Bytes(NameBlock(WrittenNames(Names(list), Indexes(list), |list|)))
  {
    hide WrittenNames, NameBlock, Bytes, NameBytes, Indexes, Names;
    block := [];
    NoBytes();
    ghost var names, ix := Names(list), Indexes(list);
    NoNames(names, ix);
    var i := 0;
    while i < |list|
      invariant i <= |list| && block == Bytes(NameBlock(WrittenNames(names, ix, i)))
    {
      WrittenNamesStep(names, ix, i);
      if list[i].bsaveIndex >= 0 {
        BytesAppend(NameBlock(WrittenNames(names, ix, i)), list[i].callFunctionName + [NUL]);
        block := block + NameBytes(list[i].callFunctionName);
      } else {
        assert NameBlock(WrittenNames(names, ix, i)) + [] == NameBlock(WrittenNames(names, ix, i));
      }
      i := i + 1;
    }
  }

  lemma NoBytes()
    ensures Bytes([]) == []
  {
  }

  lemma BytesAppend(s: seq<char>, t: seq<char>)
    ensures Bytes(s + t) == Bytes(s) + Bytes(t)
  {
  }

  ghost predicate Among(positions: seq<nat>, n: nat) {
    forall i :: 0 <= i < |positions| ==> positions[i] < n
  }

  // Of the needed functions, those whose number does not come out negative in 16 bits.
  ghost function Fitting(needed: seq<nat>, n: nat): (r: seq<nat>)
    requires Among(needed, n)
    ensures Among(r, n)
  {
    if needed == [] then []
    else
      var k := |needed| - 1;
      Fitting(needed[..k], n) + if ToShort(k) >= 0 then [needed[k]] else []
  }

  lemma {:induction false} FittingAll(needed: seq<nat>, n: nat)
    requires Among(needed, n) && |needed| <= SHORT_LIMIT
    ensures Fitting(needed, n) == needed
  {
    hide ToShort;
    if needed != [] {
      var k := |needed| - 1;
      ShortId(k);
      FittingAll(needed[..k], n);
    }
  }

  lemma {:induction false} FittingFewer(needed: seq<nat>, n: nat)
    requires Among(needed, n)
    ensures |Fitting(needed, n)| <= |needed|
    ensures |needed| > SHORT_LIMIT ==> |Fitting(needed, n)| < |needed|
  {
    hide ToShort;
    if needed != [] {
      var k := |needed| - 1;
      FittingFewer(needed[..k], n);
      assert ToShort(SHORT_LIMIT) < 0 by {
        LimitIsNegative();
      }
    }
  }

  lemma LimitIsNegative()
    ensures ToShort(SHORT_LIMIT) < 0
  {
  }

  lemma {:induction false} PositionsPrefix(flags: seq<bool>, n: nat, m: nat)
    requires n <= m <= |flags|
    ensures Positions(flags, n) <= Positions(flags, m)
  {
    if n < m {
      PositionsPrefix(flags, n, m - 1);
    }
  }

  lemma {:induction false} WrittenAreFitting(ix: seq<int>, flags: seq<bool>, n: nat)
    requires |flags| == |ix| && n <= |ix| && Numbering(ix, flags, |ix|)
    ensures Positions(WrittenFlags(ix), n) == Fitting(Positions(flags, n), |ix|)
  {
    hide ToShort, Numbering, Fitting;
    if n == 0 {
      FittingNone(|ix|);
    } else {
      WrittenAreFitting(ix, flags, n - 1);
      NumberOf(ix, flags, n - 1);
      assert Positions(flags, n - 1) + [] == Positions(flags, n - 1);
      assert flags[n - 1] ==> Positions(flags, n) == Positions(flags, n - 1) + [n - 1];
      FittingNext(Positions(flags, n - 1), n - 1, |ix|);
    }
  }

  lemma FittingNone(n: nat)
    ensures Fitting([], n) == []
  {
  }

  lemma FittingNext(needed: seq<nat>, p: nat, n: nat)
    requires Among(needed, n) && p < n
    ensures Fitting(needed + [p], n) == Fitting(needed, n) + if ToShort(|needed|) >= 0 then [p] else []
  {
    hide ToShort;
    assert (needed + [p])[..|needed|] == needed;
  }

  // The number a function is given.
  lemma NumberOf(ix: seq<int>, flags: seq<bool>, p: nat)
    requires |flags| == |ix| && p < |ix| && Numbering(ix, flags, |ix|)
    ensures ix[p] == if flags[p] then ToShort(|Positions(flags, p)|) else -1
  {
    hide ToShort;
    if flags[p] {
      PositionsPrefix(flags, p + 1, |ix|);
      assert Positions(flags, p + 1)[|Positions(flags, p)|] == p;
      assert Positions(flags, |ix|)[|Positions(flags, p)|] == p;
    }
  }

  // The table as it lies in the file, with a count that need not be that of the names.
  ghost function TableOf(count: nat, names: seq<string>): seq<Item> {
    [Word(count), Word(|NameBlock(names)|)] + Bytes(NameBlock(names))
  }

  /**
   * Numbers the needed functions and writes the names of those whose number is not negative. The numbers are the
   * positions in the written table exactly when they fit 16 bits, that is, for at most 32768 needed functions; only
   * then does the file hold as many names as it says.
   */
  method WriteNeededFunctions(list: seq<FunctionDefinition>) returns (file: seq<Item>)
    requires Separate(list)
    modifies list`bsaveIndex
    ensures Numbering(Indexes(list), NeededFlags(old(Indexes(list))), |list|)
    ensures var needed := Positions(NeededFlags(old(Indexes(list))), |list|);
            && (NumbersArePositions(Indexes(list), needed) <==> |needed| <= SHORT_LIMIT)
            && file == TableOf(|needed|, At(Names(list), Fitting(needed, |list|)))
            && (|needed| <= SHORT_LIMIT ==> file == FunctionFile(At(Names(list), needed)))
  {
    hide WrittenNames, NameBlock, Numbering, Positions, ToShort, FunctionFile, TableOf, Bytes, At, Fitting;
    ghost var flags := NeededFlags(Indexes(list));
    ghost var needed := Positions(flags, |list|);
    var count := NumberNeeded(list);
    NumbersFit(Indexes(list), flags);
    file := [Word(count)];
    WrittenFitting(Names(list), Indexes(list), flags);
    if count == 0 {
      file := file + [Word(count)];
      EmptyFile(Names(list), needed);
      return;
    }
    var space := FunctionBinarySize(list);
    file := file + [Word(space)];
    var block := WriteNames(list);
    file := file + block;
    TableIs(Names(list), needed, count, space, block);
  }

  lemma TableIs(names: seq<string>, needed: seq<nat>, count: nat, space: nat, block: seq<Item>)
    requires count == |needed| && Among(needed, |names|)
    requires space == |NameBlock(At(names, Fitting(needed, |names|)))| &&
               block == Bytes(NameBlock(At(names, Fitting(needed, |names|))))
    ensures TableOf(count, At(names, Fitting(needed, |names|))) == [Word(count)] + [Word(space)] + block
    ensures count <= SHORT_LIMIT ==>
              TableOf(count, At(names, Fitting(needed, |names|))) == FunctionFile(At(names, needed))
  {
    if count <= SHORT_LIMIT {
      FittingAll(needed, |names|);
    }
  }

  // The number of each needed function is its position among the needed ones.
  ghost predicate NumbersArePositions(ix: seq<int>, needed: seq<nat>) {
    forall i :: 0 <= i < |needed| ==> needed[i] < |ix| && ix[needed[i]] == i
  }

  lemma EmptyFile(names: seq<string>, needed: seq<nat>)
    requires needed == []
    ensures [Word(0)] + [Word(0)] == TableOf(0, At(names, Fitting(needed, |names|))) == FunctionFile(At(names, needed))
  {
  }

  lemma NumbersFit(ix: seq<int>, flags: seq<bool>)
    requires |flags| == |ix| && Numbering(ix, flags, |ix|)
    ensures var needed := Positions(flags, |ix|);
            NumbersArePositions(ix, needed) <==> |needed| <= SHORT_LIMIT
  {
    hide ToShort, Positions;
    var needed := Positions(flags, |ix|);
    if |needed| <= SHORT_LIMIT {
      forall i | 0 <= i < |needed| ensures ix[needed[i]] == i {
        ShortId(i);
      }
    } else {
      ShortId(SHORT_LIMIT);
      assert ix[needed[SHORT_LIMIT]] == ToShort(SHORT_LIMIT);
    }
  }

  lemma WrittenFitting(names: seq<string>, ix: seq<int>, flags: seq<bool>)
    requires |flags| == |ix| == |names| && Numbering(ix, flags, |ix|)
    ensures WrittenNames(names, ix, |ix|) == At(names, Fitting(Positions(flags, |ix|), |ix|))
  {
    hide Fitting, Positions;
    WrittenAreFitting(ix, flags, |ix|);
  }

  // ---- Reading ----

  // What has been found so far together with what the rest of the names give.
  ghost function Joined(found: seq<nat>, missing: bool, rest: Load): Load {
    if rest.Crashed? then Crashed
    else if missing || rest.Missing? then Missing
    else Loaded(found + rest.functions)
  }

  // The characters of a block of bytes.
  function Chars(items: seq<Item>): (r: seq<char>)
    requires forall i :: 0 <= i < |items| ==> items[i].Byte?
    ensures |r| == |items| && forall i :: 0 <= i < |items| ==> r[i] == items[i].c
  {
    seq(|items|, i requires 0 <= i < |items| => items[i].c)
  }

  /**
   * A file whose block holds at least as many terminated names as the file says; more may follow, in the block and
   * after it. With fewer the reader runs off the end of the block.
   */
  ghost predicate Readable(file: seq<Item>, wanted: seq<string>, spare: seq<char>) {
    && |file| >= 2 && file[0] == Word(|wanted|) && file[1].Word?
    && (wanted != [] ==> |file| >= 2 + file[1].n && file[2..2 + file[1].n] == Bytes(NameBlock(wanted) + spare))
    && forall i :: 0 <= i < |wanted| ==> CString(wanted[i])
  }

  lemma FileIsReadable(wanted: seq<string>)
    requires forall i :: 0 <= i < |wanted| ==> CString(wanted[i])
    ensures Readable(FunctionFile(wanted), wanted, [])
  {
    assert NameBlock(wanted) + [] == NameBlock(wanted);
  }

  /** What is written can be read exactly when at most 32768 functions are needed. */
  lemma ReadableIff(names: seq<string>, needed: seq<nat>)
    requires Among(needed, |names|)
    requires forall i :: 0 <= i < |names| ==> CString(names[i])
    ensures var file := TableOf(|needed|, At(names, Fitting(needed, |names|)));
            (exists wanted, spare :: Readable(file, wanted, spare)) <==> |needed| <= SHORT_LIMIT
  {
    hide Fitting, NameBlock, FunctionFile, TableOf, Readable;
    var written := At(names, Fitting(needed, |names|));
    var file := TableOf(|needed|, written);
    if |needed| <= SHORT_LIMIT {
      FittingAll(needed, |names|);
      FileIsReadable(written);
      FileIsTable(written);
    } else {
      forall wanted, spare ensures !Readable(file, wanted, spare) {
        FittingFewer(needed, |names|);
        NotReadable(|needed|, written, wanted, spare);
      }
    }
  }

  /** With 32769 functions needed, of any names, the file cannot be read. */
  lemma OneTooMany(names: seq<string>)
    requires |names| == SHORT_LIMIT + 1 && forall i :: 0 <= i < |names| ==> CString(names[i])
    ensures var needed := seq(|names|, i requires 0 <= i < |names| => i);
            && Among(needed, |names|) && NumberedLast(needed) < 0
            && forall wanted, spare :: !Readable(TableOf(|needed|, At(names, Fitting(needed, |names|))), wanted, spare)
  {
    hide Fitting, At, TableOf, Readable, ToShort;
    var needed := seq(|names|, i requires 0 <= i < |names| => i);
    LimitIsNegative();
    ReadableIff(names, needed);
  }

  // The number the last needed function is given.
  ghost function NumberedLast(needed: seq<nat>): int {
    ToShort(|needed| - 1)
  }

  lemma FileIsTable(names: seq<string>)
    ensures FunctionFile(names) == TableOf(|names|, names)
  {
  }

  lemma NotReadable(count: nat, written: seq<string>, wanted: seq<string>, spare: seq<char>)
    requires |written| < count && forall i :: 0 <= i < |written| ==> CString(written[i])
    ensures !Readable(TableOf(count, written), wanted, spare)
  {
    hide NameBlock, Readable, Terminated, CString;
    var file := TableOf(count, written);
    if Readable(file, wanted, spare) {
      FileParts(file, wanted, spare);
      assert BlockOf(file) == NameBlock(written) == NameBlock(written) + [];
      TerminatedBlock(written, [], count);
      TerminatedBlock(wanted, spare, count);
      assert false;
    }
  }

  // Where the first terminator lies.
  ghost function End(block: seq<char>): (k: nat)
    requires NUL in block
    ensures k < |block| && block[k] == NUL && CString(block[..k])
  {
    if block[0] == NUL then 0
    else
      var k := End(block[1..]);
      assert block[..k + 1] == [block[0]] + block[1..][..k];
      k + 1
  }

  // The terminated names at the front of a block, at most this many.
  ghost function Terminated(block: seq<char>, count: nat): (r: seq<string>)
    ensures |r| <= count
  {
    if count == 0 || NUL !in block then []
    else [block[..End(block)]] + Terminated(block[End(block) + 1..], count - 1)
  }

  lemma {:induction false} EndOf(name: string, rest: seq<char>)
    requires CString(name)
    ensures NUL in name + [NUL] + rest && End(name + [NUL] + rest) == |name|
  {
    var block := name + [NUL] + rest;
    assert block[|name|] == NUL;
    if name != [] {
      EndOf(name[1..], rest);
      assert block[1..] == name[1..] + [NUL] + rest;
    }
  }

  lemma TerminatedFirst(name: string, rest: seq<char>, count: nat)
    requires CString(name) && count > 0
    ensures Terminated(name + [NUL] + rest, count) == [name] + Terminated(rest, count - 1)
  {
    hide End;
    var block := name + [NUL] + rest;
    EndOf(name, rest);
    assert block[..|name|] == name && block[|name| + 1..] == rest;
  }

  lemma FirstOfBlock(name: string, names: seq<string>, spare: seq<char>)
    ensures NameBlock([name] + names) + spare == name + [NUL] + (NameBlock(names) + spare)
  {
    assert ([name] + names)[1..] == names;
  }

  lemma NoneTerminated(spare: seq<char>, count: nat)
    requires count == 0 || NUL !in spare
    ensures Terminated(NameBlock([]) + spare, count) == []
  {
    assert NameBlock([]) + spare == spare;
  }

  /** A block of whole names gives them back, and if more are asked for, no others. */
  lemma {:induction false} TerminatedBlock(written: seq<string>, spare: seq<char>, count: nat)
    requires forall i :: 0 <= i < |written| ==> CString(written[i])
    requires |written| == count || (|written| < count && NUL !in spare)
    ensures Terminated(NameBlock(written) + spare, count) == written
  {
    hide NameBlock, Terminated, CString;
    if written == [] {
      NoneTerminated(spare, count);
    } else {
      assert written == [written[0]] + written[1..];
      FirstOfBlock(written[0], written[1..], spare);
      TerminatedFirst(written[0], NameBlock(written[1..]) + spare, count);
      TerminatedBlock(written[1..], spare, count - 1);
    }
  }

  /** Too few terminated names: exactly then no reading in whole names gives the number that is asked for. */
  lemma {:induction false} TerminatedIff(block: seq<char>, count: nat)
    ensures |Terminated(block, count)| == count <==> exists wanted, spare :: Split(block, count, wanted, spare)
  {
    if wanted, spare :| Split(block, count, wanted, spare) {
      TerminatedBlock(wanted, spare, count);
    }
    TerminatedIsFront(block, count);
  }

  // The block starts with this many terminated names.
  ghost predicate Split(block: seq<char>, count: nat, wanted: seq<string>, spare: seq<char>) {
    |wanted| == count && block == NameBlock(wanted) + spare && forall i :: 0 <= i < |wanted| ==> CString(wanted[i])
  }

  lemma SplitFirst(block: seq<char>, k: nat, count: nat, rest: seq<string>, spare: seq<char>)
    requires k < |block| && block[k] == NUL && CString(block[..k]) && count > 0
    requires Split(block[k + 1..], count - 1, rest, spare)
    ensures Split(block, count, [block[..k]] + rest, spare)
  {
    hide NameBlock, CString;
    assert block == block[..k] + [NUL] + block[k + 1..];
    FirstOfBlock(block[..k], rest, spare);
  }

  lemma SplitNone(block: seq<char>)
    ensures Split(block, 0, [], block)
  {
  }

  lemma {:induction false} TerminatedIsFront(block: seq<char>, count: nat)
    ensures |Terminated(block, count)| == count ==>
              exists spare :: Split(block, count, Terminated(block, count), spare)
  {
    hide NameBlock, CString, End;
    if count == 0 {
      SplitNone(block);
    } else if |Terminated(block, count)| == count {
      var k := End(block);
      var rest := Terminated(block[k + 1..], count - 1);
      TerminatedIsFront(block[k + 1..], count - 1);
      var spare :| Split(block[k + 1..], count - 1, rest, spare);
      SplitFirst(block, k, count, rest, spare);
    }
  }

  // What reading comes to: the outcome of looking the names up, or the end of the block is overrun before.
  datatype Reading = Read(load: Load) | Overrun

  ghost function ReadBlock(names: seq<string>, block: seq<char>, count: nat): Reading {
    var wanted := Terminated(block, count);
    var load := LoadAll(names, wanted, None);
    if load.Crashed? || |wanted| == count then Read(load) else Overrun
  }

  /** When more names are asked for than were written, reading crashes or overruns the block. */
  lemma TooFewNames(names: seq<string>, written: seq<string>, count: nat)
    requires |written| < count && forall i :: 0 <= i < |written| ==> CString(written[i])
    ensures ReadBlock(names, NameBlock(written), count) in {Read(Crashed), Overrun}
  {
    assert NameBlock(written) + [] == NameBlock(written);
    TerminatedBlock(written, [], count);
  }

  // A file that is as long as its head says.
  ghost predicate Complete(file: seq<Item>) {
    && |file| >= 2 && file[0].Word? && file[1].Word?
    && (file[0].n > 0 ==> 2 + file[1].n <= |file| && forall i :: 2 <= i < 2 + file[1].n ==> file[i].Byte?)
  }

  ghost function BlockOf(file: seq<Item>): seq<char>
    requires Complete(file)
  {
    if file[0].n == 0 then [] else Chars(file[2..2 + file[1].n])
  }

  lemma FileParts(file: seq<Item>, wanted: seq<string>, spare: seq<char>)
    requires Readable(file, wanted, spare)
    ensures Complete(file) && file[0].n == |wanted|
    ensures wanted != [] ==> Split(BlockOf(file), |wanted|, wanted, spare)
  {
    if wanted != [] {
      var part := file[2..2 + file[1].n];
      assert forall i :: 2 <= i < 2 + file[1].n ==> file[i] == part[i - 2];
    }
  }

  /** A readable file gives the outcome of looking its names up. */
  lemma ReadableRead(names: seq<string>, file: seq<Item>, wanted: seq<string>, spare: seq<char>)
    requires Readable(file, wanted, spare)
    ensures Complete(file) && ReadBlock(names, BlockOf(file), file[0].n) == Read(LoadAll(names, wanted, None))
  {
    hide Readable;
    FileParts(file, wanted, spare);
    if wanted != [] {
      TerminatedBlock(wanted, spare, |wanted|);
    }
  }

  // The length of the string that starts at a position of the block, if it ends there.
  method StringLength(block: seq<char>, at: nat) returns (length: Option<nat>)
    requires at <= |block|
    ensures length.None? <==> NUL !in block[at..]
    ensures length.Some? ==> length.value == End(block[at..])
  {
    hide End;
    var k := 0;
    while at + k < |block| && block[at + k] != NUL
      invariant at + k <= |block| && NUL !in block[at..at + k]
    {
      k := k + 1;
    }
    if at + k == |block| {
      assert block[at..at + k] == block[at..];
      return None;
    }
    assert block[at..] == block[at..at + k] + [NUL] + block[at + k + 1..];
    EndOf(block[at..at + k], block[at + k + 1..]);
    return Some(k);
  }

  // One more name, or the end of those there are.
  lemma TerminatedStep(block: seq<char>, at: nat, all: seq<string>, i: nat, count: nat)
    requires at <= |block| && i <= |all| && i < count && Terminated(block[at..], count - i) == all[i..]
    ensures NUL !in block[at..] <==> i == |all|
    ensures NUL in block[at..] ==>
              var k := End(block[at..]);
              && at + k < |block| && all[i] == block[at..at + k]
              && Terminated(block[at + k + 1..], count - (i + 1)) == all[i + 1..]
  {
    if NUL in block[at..] {
      var k := End(block[at..]);
      assert block[at..][k + 1..] == block[at + k + 1..];
      assert block[at..][..k] == block[at..at + k];
      assert all[i..][0] == all[i] && all[i..][1..] == all[i + 1..];
      assert count - i - 1 == count - (i + 1);
    }
  }

  /** Reads a table of function names and looks every function up in the list. */
  method ReadNeededFunctions(file: seq<Item>, list: seq<FunctionDefinition>) returns (r: Reading)
    requires Complete(file)
    ensures r == ReadBlock(Names(list), BlockOf(file), file[0].n)
  {
    hide Search, LoadAll, Terminated, End, Joined;
    var numberOfFunctions := file[0].n;
    var space := file[1].n;
    ghost var names := Names(list);
    LoadNothing(names, None);
    if numberOfFunctions == 0 {
      return Read(Loaded([]));
    }
    var functionNames := Chars(file[2..2 + space]);
    var namePtr := 0;
    var functionPtr: Option<nat> := None;
    var functionsNotFound := false;
    var newFunctionArray := [];
    var i := 0;
    ghost var wanted := Terminated(functionNames, numberOfFunctions);
    assert wanted[0..] == wanted && functionNames[0..] == functionNames;
    JoinedStart(LoadAll(names, wanted, None));
    while i < numberOfFunctions
      invariant 0 <= i <= |wanted| && 0 <= namePtr <= |functionNames| && i <= numberOfFunctions
      invariant functionPtr.Some? ==> functionPtr.value < |list|
      invariant Terminated(functionNames[namePtr..], numberOfFunctions - i) == wanted[i..]
      invariant LoadAll(names, wanted, None) ==
                Joined(newFunctionArray, functionsNotFound, LoadAll(names, wanted[i..], functionPtr))
    {
      TerminatedStep(functionNames, namePtr, wanted, i, numberOfFunctions);
      var length := StringLength(functionNames, namePtr);
      if length.None? {
        NothingLeft(names, wanted, i, functionPtr, newFunctionArray, functionsNotFound);
        return Overrun;
      }
      var name := functionNames[namePtr..namePtr + length.value];
      var found := FastFindFunction(list, name, functionPtr);
      LoadStep(names, wanted, i, functionPtr, newFunctionArray, functionsNotFound);
      if found == Stuck {
        return Read(Crashed);
      }
      if found == NotFound {
        functionsNotFound := true;
        functionPtr := None;
      } else {
        functionPtr := Some(found.position);
        newFunctionArray := newFunctionArray + [found.position];
      }
      namePtr := namePtr + length.value + 1;
      i := i + 1;
    }
    NothingLeft(names, wanted, i, functionPtr, newFunctionArray, functionsNotFound);
    r := Read(if functionsNotFound then Missing else Loaded(newFunctionArray));
  }

  // After the last name, what has been found is the outcome.
  lemma NothingLeft(names: seq<string>, wanted: seq<string>, i: nat, last: Option<nat>, found: seq<nat>, missing: bool)
    requires i == |wanted| && (last.Some? ==> last.value < |names|)
    ensures Joined(found, missing, LoadAll(names, wanted[i..], last)) == if missing then Missing else Loaded(found)
  {
    assert wanted[i..] == [] && found + [] == found;
  }

  lemma LoadNothing(names: seq<string>, last: Option<nat>)
    requires last.Some? ==> last.value < |names|
    ensures LoadAll(names, [], last) == Loaded([])
  {
  }

  lemma JoinedStart(rest: Load)
    ensures Joined([], false, rest) == rest
  {
    if rest.Loaded? {
      assert [] + rest.functions == rest.functions;
    }
  }

  lemma LoadStep(names: seq<string>, wanted: seq<string>, i: nat, last: Option<nat>, found: seq<nat>, missing: bool)
    requires i < |wanted| && (last.Some? ==> last.value < |names|)
    ensures var one := Search(names, wanted[i], last);
            && (one.Stuck? ==> Joined(found, missing, LoadAll(names, wanted[i..], last)) == Crashed)
            && (one.NotFound? ==> Joined(found, missing, LoadAll(names, wanted[i..], last))
                                    == Joined(found, true, LoadAll(names, wanted[i + 1..], None)))
            && (one.Found? ==> Joined(found, missing, LoadAll(names, wanted[i..], last))
                                 == Joined(found + [one.position], missing,
                                     LoadAll(names, wanted[i + 1..], Some(one.position))))
  {
    hide Search;
    assert wanted[i..][0] == wanted[i] && wanted[i..][1..] == wanted[i + 1..];
    var one := Search(names, wanted[i], last);
    if one.Found? {
      var rest := LoadAll(names, wanted[i + 1..], Some(one.position));
      if rest.Loaded? {
        assert found + ([one.position] + rest.functions) == (found + [one.position]) + rest.functions;
      }
    }
  }

  lemma Unneeded(ix: seq<int>, flags: seq<bool>)
    requires |flags| == |ix| && Numbering(ix, flags, |ix|)
    ensures forall j :: 0 <= j < |ix| && !flags[j] ==> ix[j] == -1
  {
  }

  /**
   * Saving and loading over the same list, with distinct names: every needed function is found at its number.
   */
  method SaveAndLoad(list: seq<FunctionDefinition>) returns (r: Load)
    requires Separate(list)
    requires Unalike(Names(list)) && forall i :: 0 <= i < |list| ==> CString(list[i].callFunctionName)
    requires |Positions(NeededFlags(Indexes(list)), |list|)| <= SHORT_LIMIT
    modifies list`bsaveIndex
    ensures r.Loaded?
    ensures forall j :: 0 <= j < |list| && old(list[j].bsaveIndex) != 0 ==>
              0 <= list[j].bsaveIndex < |r.functions| && r.functions[list[j].bsaveIndex] == j
    ensures forall j :: 0 <= j < |list| && old(list[j].bsaveIndex) == 0 ==> list[j].bsaveIndex == -1
  {
    hide Positions, LoadAll, FunctionFile, CString, Numbering, ToShort, At, Unalike, Ascending, Separate, Names;
    hide Readable, TableOf, Fitting, NumbersArePositions, NeededFlags, Indexes, ReadBlock, Complete, BlockOf;
    ghost var flags := NeededFlags(Indexes(list));
    ghost var needed := Positions(flags, |list|);
    ghost var wanted := At(Names(list), needed);
    PositionsAscend(flags, |list|);
    var file := WriteNeededFunctions(list);
    FileIsReadable(wanted);
    ReadableRead(Names(list), file, wanted, []);
    var reading := ReadNeededFunctions(file, list);
    r := reading.load;
    LoadsInOrder(Names(list), needed, None);
    Unneeded(Indexes(list), flags);
    forall j | 0 <= j < |list| && flags[j]
      ensures 0 <= list[j].bsaveIndex < |needed| && needed[list[j].bsaveIndex] == j
    {
      AtItsNumber(Indexes(list), flags, j);
    }
  }

  // A needed function is found among the needed ones at its number.
  lemma AtItsNumber(ix: seq<int>, flags: seq<bool>, j: nat)
    requires |flags| == |ix| && j < |ix| && flags[j] && NumbersArePositions(ix, Positions(flags, |ix|))
    ensures 0 <= ix[j] < |Positions(flags, |ix|)| && Positions(flags, |ix|)[ix[j]] == j
  {
    hide Positions;
    PositionsExact(flags, |ix|, j);
    var needed := Positions(flags, |ix|);
    var i :| 0 <= i < |needed| && needed[i] == j;
  }
}
