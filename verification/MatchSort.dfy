/** The in-place bubble sort of a partial match's time tags and the comparison built on it. */
module MatchSort {
  import opened Ordering

  // What one pass leaves behind: the tail after `k` is sorted and no larger than what precedes it.
  ghost predicate TailSettled(s: seq<nat>, k: int) {
    forall i, j :: 0 <= i < j < |s| && k < j ==> s[i] >= s[j]
  }

  // Within a pass that has reached `j`: entry `j` is a minimum of the first `j + 1`.
  ghost predicate MinimumAt(s: seq<nat>, j: int) {
    forall i :: 0 <= i < j < |s| ==> s[i] >= s[j]
  }

  ghost predicate DescendingUpTo(s: seq<nat>, k: int) {
    forall i, j :: 0 <= i < j <= k && j < |s| ==> s[i] >= s[j]
  }

  // Exchanging two neighbours keeps the multiset.
  lemma SwapKeepsMultiset(s: seq<nat>, j: nat)
    requires j + 1 < |s|
    ensures multiset(s[j := s[j + 1]][j + 1 := s[j]]) == multiset(s)
  {
  }

  // Neighbours out of order are exchanged.
  function SwapAt(s: seq<nat>, j: nat): (r: seq<nat>)
    requires j + 1 < |s|
    ensures |r| == |s|
  {
    if s[j] < s[j + 1] then s[j := s[j + 1]][j + 1 := s[j]] else s
  }

  // One comparison of a pass over entries 0..k.
  lemma PassStep(s: seq<nat>, j: nat, k: int)
    requires j < k < |s|
    requires TailSettled(s, k) && MinimumAt(s, j)
    ensures multiset(SwapAt(s, j)) == multiset(s)
    ensures TailSettled(SwapAt(s, j), k)
    ensures MinimumAt(SwapAt(s, j), j + 1)
    ensures s[j] >= s[j + 1] && DescendingUpTo(s, j) ==> DescendingUpTo(s, j + 1)
  {
    var r := SwapAt(s, j);
    if s[j] < s[j + 1] { SwapKeepsMultiset(s, j); }
    forall a, b | 0 <= a < b < |r| && k < b ensures r[a] >= r[b] {
      assert r[b] == s[b];
      assert s[a] >= s[b] && s[j] >= s[b] && s[j + 1] >= s[b];
    }
  }

  lemma PassDone(s: seq<nat>, k: int)
    requires 0 <= k < |s|
    requires TailSettled(s, k) && MinimumAt(s, k)
    ensures TailSettled(s, k - 1)
    ensures DescendingUpTo(s, k) ==> Descending(s)
  {
  }

  lemma PassStarts(s: seq<nat>)
    ensures MinimumAt(s, 0) && DescendingUpTo(s, 0)
  {
  }

  /** Sorts a copy of the tags; zero stands for a negated pattern.  The early exit after a pass
      without exchanges is sound, and every basis (which has at least one entry) is handled. */
  method SortPartialMatch(binds: Basis) returns (nbinds: array<nat>)
    ensures fresh(nbinds)
    ensures nbinds[..] == SortedTags(binds)
    ensures Descending(nbinds[..]) && forall v: nat :: multiset(nbinds[..])[v] == Times(binds, v)
  {
    nbinds := new nat[|binds|];
    for j := 0 to |binds|
      invariant forall i :: 0 <= i < j ==> nbinds[i] == TagOf(binds[i])
    {
      nbinds[j] := TagOf(binds[j]);
    }
    assert nbinds[..] == Tags(binds);

    var flag := true;
    var k := |binds| - 1;
    while flag
      invariant -1 <= k < nbinds.Length
      invariant k == -1 ==> !flag
      invariant multiset(nbinds[..]) == multiset(Tags(binds))
      invariant TailSettled(nbinds[..], k)
      invariant !flag ==> Descending(nbinds[..])
      decreases k, flag
    {
      flag := BubblePass(nbinds, k);
      k := k - 1;
    }
    SortTagsSorts(Tags(binds));
    DescendingUnique(nbinds[..], SortTags(Tags(binds)));
    SortedCounted(binds);
  }

  method BubblePass(nbinds: array<nat>, k: nat) returns (flag: bool)
    requires k < nbinds.Length
    requires TailSettled(nbinds[..], k)
    modifies nbinds
    ensures multiset(nbinds[..]) == old(multiset(nbinds[..]))
    ensures TailSettled(nbinds[..], k - 1)
    ensures !flag ==> Descending(nbinds[..])
    ensures flag ==> k > 0
  {
    hide TailSettled, MinimumAt, DescendingUpTo, Descending;
    flag := false;
    var j := 0;
    PassStarts(nbinds[..]);
    while j < k
      invariant j <= k
      invariant multiset(nbinds[..]) == old(multiset(nbinds[..]))
      invariant TailSettled(nbinds[..], k)
      invariant MinimumAt(nbinds[..], j)
      invariant !flag ==> DescendingUpTo(nbinds[..], j)
      invariant flag ==> j > 0
    {
      ghost var s := nbinds[..];
      PassStep(s, j, k);
      if nbinds[j] < nbinds[j + 1] {
        var temp := nbinds[j];
        nbinds[j] := nbinds[j + 1];
        nbinds[j + 1] := temp;
        flag := true;
      }
      assert nbinds[..] == SwapAt(s, j);
      j := j + 1;
    }
    PassDone(nbinds[..], k);
  }

  /** The lex comparison: sorted tags one by one, then their number, then the rule's complexity. */
  method ComparePartialMatches(actPtr: Act, newActivation: Act) returns (flag: Flag)
    ensures flag == CompareMatches(actPtr, newActivation)
  {
    var basis1 := SortPartialMatch(newActivation.basis);
    var basis2 := SortPartialMatch(actPtr.basis);
    var cCount, oCount := |newActivation.basis|, |actPtr.basis|;
    var mCount := if oCount > cCount then cCount else oCount;
    ghost var n, a := SortedTags(newActivation.basis), SortedTags(actPtr.basis);
    assert n[0..] == n && a[0..] == a;
    for i := 0 to mCount
      invariant basis1[..] == n && basis2[..] == a
      invariant CompareTags(n, a) == CompareTags(n[i..], a[i..])
    {
      assert n[i..][1..] == n[i + 1..] && a[i..][1..] == a[i + 1..];
      assert basis1[i] == n[i] && basis2[i] == a[i];
      if basis1[i] < basis2[i] {
        return LessThan;
      } else if basis1[i] > basis2[i] {
        return GreaterThan;
      }
    }
    if cCount < oCount { return LessThan; }
    else if cCount > oCount { return GreaterThan; }
    if newActivation.complexity < actPtr.complexity { return LessThan; }
    else if newActivation.complexity > actPtr.complexity { return GreaterThan; }
    return Equal;
  }
}
