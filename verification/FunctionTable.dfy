/** Saving the names of the functions a binary image needs, and finding the functions again on loading. */
module FunctionTable {
  import opened Options

  class FunctionDefinition {
    const callFunctionName: string
    var bsaveIndex: int

    constructor (name: string)
      ensures callFunctionName == name && bsaveIndex == 0
    {
      callFunctionName, bsaveIndex := name, 0;
    }
  }

  // What a binary file holds: words and characters.
  datatype Item = Word(n: nat) | Byte(c: char)

  const NUL := '\0'

  ghost predicate CString(s: string) {
    NUL !in s
  }

  ghost function Names(list: seq<FunctionDefinition>): (r: seq<string>)
    ensures |r| == |list| && forall i :: 0 <= i < |list| ==> r[i] == list[i].callFunctionName
  {
    seq(|list|, i requires 0 <= i < |list| => list[i].callFunctionName)
  }

  ghost function NameBlock(names: seq<string>): seq<char> {
    if names == [] then [] else names[0] + [NUL] + NameBlock(names[1..])
  }

  ghost function Bytes(s: seq<char>): (r: seq<Item>)
    ensures |r| == |s| && forall i :: 0 <= i < |s| ==> r[i] == Byte(s[i])
  {
    seq(|s|, i requires 0 <= i < |s| => Byte(s[i]))
  }

  // The table of function names as it is in the file: how many, how many bytes, and the names.
  ghost function FunctionFile(names: seq<string>): seq<Item> {
    [Word(|names|), Word(|NameBlock(names)|)] + Bytes(NameBlock(names))
  }

  lemma {:induction false} NameBlockAppend(names: seq<string>, name: string)
    ensures NameBlock(names + [name]) == NameBlock(names) + name + [NUL]
  {
    if names == [] {
      assert names + [name] == [name] && [name][1..] == [];
    } else {
      assert (names + [name])[1..] == names[1..] + [name];
      NameBlockAppend(names[1..], name);
    }
  }

  ghost predicate Unalike(names: seq<string>) {
    forall i, j :: 0 <= i < j < |names| ==> names[i] != names[j]
  }

  ghost predicate Ascending(positions: seq<nat>) {
    forall i, j :: 0 <= i < j < |positions| ==> positions[i] < positions[j]
  }

  // ---- Which functions are needed ----

  // The positions below n with a set flag, in order.
  ghost function Positions(flags: seq<bool>, n: nat): (r: seq<nat>)
    requires n <= |flags|
    ensures forall i :: 0 <= i < |r| ==> r[i] < n
  {
    if n == 0 then []
    else Positions(flags, n - 1) + if flags[n - 1] then [n - 1] else []
  }

  lemma {:induction false} PositionsAscend(flags: seq<bool>, n: nat)
    requires n <= |flags|
    ensures Ascending(Positions(flags, n))
  {
    if n != 0 {
      PositionsAscend(flags, n - 1);
    }
  }

  lemma {:induction false} PositionsExact(flags: seq<bool>, n: nat, p: nat)
    requires n <= |flags|
    ensures p in Positions(flags, n) <==> p < n && flags[p]
  {
    if n != 0 {
      PositionsExact(flags, n - 1, p);
    }
  }

  ghost function At(names: seq<string>, positions: seq<nat>): (r: seq<string>)
    requires forall i :: 0 <= i < |positions| ==> positions[i] < |names|
    ensures |r| == |positions| && forall i :: 0 <= i < |r| ==> r[i] == names[positions[i]]
  {
    seq(|positions|, i requires 0 <= i < |positions| => names[positions[i]])
  }

  // ---- Searching ----

  datatype Outcome = Found(position: nat) | NotFound | Stuck

  function FirstFrom(names: seq<string>, name: string, lo: int, hi: int): (r: Option<nat>)
    requires 0 <= lo <= hi <= |names|
    ensures r.Some? ==> lo <= r.value < hi && names[r.value] == name && name !in names[lo..r.value]
    ensures r.None? ==> name !in names[lo..hi]
    decreases hi - lo
  {
    if lo == hi then None
    else if names[lo] == name then Some(lo)
    else
      assert names[lo..hi] == [names[lo]] + names[lo + 1..hi];
      var later := FirstFrom(names, name, lo + 1, hi);
      assert later.Some? ==> names[lo..later.value] == [names[lo]] + names[lo + 1..later.value];
      later
  }

  // The answer of a search that resumes after a position. Stuck: it follows a null link or never ends.
  function Search(names: seq<string>, name: string, last: Option<nat>): (r: Outcome)
    requires last.Some? ==> last.value < |names|
    ensures r.Found? ==> r.position < |names| && names[r.position] == name
  {
    if names == [] then NotFound
    else
      var start := if last.Some? then last.value + 1 else 0;
      if start == |names| then Stuck
      else
        var ahead := FirstFrom(names, name, start, |names|);
        if ahead.Some? then Found(ahead.value)
        else if last.None? then NotFound
        else if last.value == 0 then (if names[0] == name then Found(0) else Stuck)
        else
          var behind := FirstFrom(names, name, 0, last.value);
          if behind.Some? then Found(behind.value) else NotFound
  }

  // With distinct names, a function after the last one found is found where it is, without wrapping around.
  lemma FoundAhead(names: seq<string>, position: nat, last: Option<nat>)
    requires Unalike(names)
    requires position < |names| && (last.Some? ==> last.value < position)
    ensures Search(names, names[position], last) == Found(position)
  {
    var start := if last.Some? then last.value + 1 else 0;
    var ahead := FirstFrom(names, names[position], start, |names|);
    assert names[start..][position - start] == names[position];
  }

  // What the search can see: everything, except that a last function which is not the first is never looked at.
  ghost predicate InSight(names: seq<string>, name: string, last: Option<nat>)
    requires last.Some? ==> last.value < |names|
  {
    if last.None? then name in names
    else name in names[last.value + 1..] || name in names[..if last.value == 0 then 1 else last.value]
  }

  /**
   * The three outcomes. The search gets stuck exactly when the last function ends the list, or is the first one and
   * nobody has the name; otherwise it finds exactly the names in its sight.
   */
  lemma SearchOutcomes(names: seq<string>, name: string, last: Option<nat>)
    requires last.Some? ==> last.value < |names|
    ensures var r := Search(names, name, last);
            r.Stuck? <==> last.Some? && (last.value + 1 == |names| || (last.value == 0 && name !in names))
    ensures var r := Search(names, name, last);
            r.Found? <==> (last.Some? ==> last.value + 1 < |names|) && InSight(names, name, last)
  {
    hide FirstFrom;
    if last.Some? {
      assert names == names[..last.value] + [names[last.value]] + names[last.value + 1..];
      if last.value == 0 {
        assert names[..1] == [names[0]];
      }
      assert names[last.value + 1..|names|] == names[last.value + 1..];
      assert names[0..last.value] == names[..last.value];
    } else {
      assert names[0..|names|] == names;
    }
  }

  /**
   * Where several functions have the name, the one found is the first behind the last one found, or the first of all
   * when there is none behind it.
   */
  lemma NearestFound(names: seq<string>, name: string, last: Option<nat>, p: nat)
    requires (last.Some? ==> last.value < |names|) && Search(names, name, last) == Found(p)
    ensures p < |names| && names[p] == name
    ensures var start := if last.Some? then last.value + 1 else 0;
            if p >= start then name !in names[start..p] else name !in names[start..] && name !in names[..p]
  {
    assert names[0..p] == names[..p];
    if last.Some? && p <= last.value {
      assert names[last.value + 1..|names|] == names[last.value + 1..];
    }
  }

  /**
   * With distinct names, a function of the list is found, and where it is, exactly when the last one found does not
   * end the list and is not the function asked for, unless that is the first.
   */
  lemma PresentFoundIff(names: seq<string>, p: nat, last: Option<nat>)
    requires Unalike(names) && p < |names| && (last.Some? ==> last.value < |names|)
    ensures Search(names, names[p], last) == Found(p) <==>
            last.None? || (last.value + 1 < |names| && (p != last.value || p == 0))
    ensures Search(names, names[p], last).Found? ==> Search(names, names[p], last) == Found(p)
  {
    hide Search, FirstFrom;
    SearchOutcomes(names, names[p], last);
    if last.Some? {
      var n := if last.value == 0 then 1 else last.value;
      if p > last.value {
        assert names[last.value + 1..][p - last.value - 1] == names[p];
      } else if p < n {
        assert names[..n][p] == names[p];
      } else {
        NotInParts(names, p);
      }
    }
  }

  lemma NotInParts(names: seq<string>, p: nat)
    requires Unalike(names) && p < |names|
    ensures names[p] !in names[p + 1..] && names[p] !in names[..p]
  {
  }

  /** Asking again for the function just found fails, in the middle of the list. */
  lemma AskingAgainFails(names: seq<string>, p: nat)
    requires Unalike(names) && 0 < p && p + 1 < |names|
    ensures Search(names, names[p], Some(p)) == NotFound
  {
    hide Search, FirstFrom;
    PresentFoundIff(names, p, Some(p));
    SearchOutcomes(names, names[p], Some(p));
  }

  // ---- Loading ----

  datatype Load = Loaded(functions: seq<nat>) | Missing | Crashed

  // Looks up names one after the other; a name that is not found makes the next search start over.
  ghost function LoadAll(names: seq<string>, wanted: seq<string>, last: Option<nat>): Load
    requires last.Some? ==> last.value < |names|
  {
    if wanted == [] then Loaded([])
    else
      var first := Search(names, wanted[0], last);
      if first.Stuck? then Crashed
      else
        var rest := LoadAll(names, wanted[1..], if first.Found? then Some(first.position) else None);
        if rest.Crashed? then Crashed
        else if first.NotFound? || rest.Missing? then Missing
        else Loaded([first.position] + rest.functions)
  }

  /** Names written in list order are all found, each where it was. */
  lemma {:induction false} LoadsInOrder(names: seq<string>, positions: seq<nat>, last: Option<nat>)
    requires Unalike(names) && Ascending(positions)
    requires forall i :: 0 <= i < |positions| ==> positions[i] < |names|
    requires last.Some? ==> last.value < |names| && forall i :: 0 <= i < |positions| ==> last.value < positions[i]
    ensures LoadAll(names, At(names, positions), last) == Loaded(positions)
  {
    hide Search;
    if positions != [] {
      var p := positions[0];
      FoundAhead(names, p, last);
      assert At(names, positions)[1..] == At(names, positions[1..]);
      LoadsInOrder(names, positions[1..], Some(p));
      assert [p] + positions[1..] == positions;
    }
  }

  // ---- The search as code ----

  datatype Cursor = Looking(i: nat) | Answer(found: Option<nat>)

  // One turn of the search loop.
  function Turn(names: seq<string>, name: string, last: Option<nat>, i: nat): (c: Cursor)
    requires i < |names|
    ensures c.Looking? ==> c.i < |names|
  {
    if names[i] == name then Answer(Some(i))
    else if (if i + 1 == |names| then last == None else last == Some(i + 1)) then Answer(None)
    else Looking(if i + 1 == |names| then 0 else i + 1)
  }

  function Turns(names: seq<string>, name: string, last: Option<nat>, i: nat, k: nat): Cursor
    requires i < |names|
    decreases k
  {
    if k == 0 then Looking(i)
    else
      var c := Turn(names, name, last, i);
      if c.Answer? then c else Turns(names, name, last, c.i, k - 1)
  }

  /** Resumed after the first function, the search for a name that nobody has goes round for ever. */
  lemma {:induction false} SearchNeverEnds(names: seq<string>, name: string, i: nat, k: nat)
    requires |names| > 1 && i < |names| && name !in names
    ensures Turns(names, name, Some(0), i, k).Looking?
    decreases k
  {
    if k != 0 {
      SearchNeverEnds(names, name, if i + 1 == |names| then 0 else i + 1, k - 1);
    }
  }

  /**
   * Searches the function list from the place after the last one found, wrapping around at the end. Following
   * the null link after the last function of the list, or going round for ever, is reported as Stuck.
   */
  method FastFindFunction(list: seq<FunctionDefinition>, functionName: string, lastFunction: Option<nat>)
    returns (r: Outcome)
    requires lastFunction.Some? ==> lastFunction.value < |list|
    ensures r == Search(Names(list), functionName, lastFunction)
  {
    hide FirstFrom;
    ghost var names := Names(list);
    if list == [] {
      return NotFound;
    }
    var start := if lastFunction.Some? then lastFunction.value + 1 else 0;
    if start == |list| {
      return Stuck;
    }
    var i := start;
    ghost var wrapped := false;
    while list[i].callFunctionName != functionName
      invariant 0 <= i < |list|
      invariant !wrapped ==>
                  && start <= i
                  && FirstFrom(names, functionName, start, |names|) == FirstFrom(names, functionName, i, |names|)
      invariant wrapped ==>
                  && FirstFrom(names, functionName, start, |names|) == None
                  && lastFunction.Some? && i <= lastFunction.value
      invariant wrapped && lastFunction == Some(0) ==> names[i] == functionName
      invariant wrapped && lastFunction != Some(0) ==>
                  && i < lastFunction.value
                  && FirstFrom(names, functionName, 0, lastFunction.value) ==
                     FirstFrom(names, functionName, i, lastFunction.value)
      decreases !wrapped, |list| - i
    {
      if wrapped {
        FirstStep(names, functionName, i, lastFunction.value);
        FirstNone(names, functionName, lastFunction.value);
      } else {
        FirstStep(names, functionName, i, |names|);
        FirstNone(names, functionName, |names|);
      }
      i := i + 1;
      if (if i == |list| then lastFunction == None else lastFunction == Some(i)) {
        return NotFound;
      }
      if i == |list| {
        i := 0;
        wrapped := true;
        if lastFunction == Some(0) && list[0].callFunctionName != functionName {
          return Stuck;
        }
      }
    }
    if wrapped && lastFunction != Some(0) {
      FirstStep(names, functionName, i, lastFunction.value);
    } else if !wrapped {
      FirstStep(names, functionName, i, |names|);
    }
    return Found(i);
  }

  lemma FirstStep(names: seq<string>, name: string, lo: int, hi: int)
    requires 0 <= lo < hi <= |names|
    ensures FirstFrom(names, name, lo, hi) == if names[lo] == name then Some(lo) else FirstFrom(names, name, lo + 1, hi)
  {
  }

  lemma FirstNone(names: seq<string>, name: string, hi: int)
    requires 0 <= hi <= |names|
    ensures FirstFrom(names, name, hi, hi) == None
  {
  }
}
