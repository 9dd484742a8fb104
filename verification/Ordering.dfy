/** The order in which activations stand on an agenda.

    `Ahead` is the test each placement loop makes ("does the activation already there stay in
    front of the new one?").  `Key` is an independent reference: a sequence of integers per
    activation, compared lexicographically.  The two are proved to agree, which gives every
    strategy a strict total order at once.
 */
module Ordering {
  import opened Options

  datatype Strategy = Depth | Breadth | Lex | Mea | Complexity | Simplicity | Random

  datatype Flag = LessThan | GreaterThan | Equal

  // Time tags of facts and instances are positive and fit a signed 64-bit integer.
  const MAX_TAG := 0x8000_0000_0000_0000

  type EntityTag = t: int | 0 < t < MAX_TAG witness 1

  // One entry per pattern; `None` stands for a negated pattern.
  type Basis = b: seq<Option<EntityTag>> | |b| >= 1 witness [None]

  // Everything about an activation that its place on the agenda depends on.
  datatype Act = Act(salience: int, timetag: nat, complexity: nat, randomID: int, basis: Basis)

  // ---------------------------------------------------------------- sorted time tags

  function TagOf(b: Option<EntityTag>): (t: nat)
    ensures t == 0 <==> b.None?
  {
    match b case None => 0 case Some(t) => t
  }

  function Tags(b: seq<Option<EntityTag>>): (r: seq<nat>)
    ensures |r| == |b|
    ensures forall i :: 0 <= i < |b| ==> r[i] == TagOf(b[i])
  {
    if b == [] then [] else [TagOf(b[0])] + Tags(b[1..])
  }

  ghost predicate Descending(s: seq<nat>) {
    forall i, j :: 0 <= i < j < |s| ==> s[i] >= s[j]
  }

  function InsertTag(t: nat, s: seq<nat>): (r: seq<nat>)
    ensures |r| == |s| + 1
    ensures r[0] == if s == [] || t >= s[0] then t else s[0]
  {
    if s == [] || t >= s[0] then [t] + s else [s[0]] + InsertTag(t, s[1..])
  }

  function SortTags(s: seq<nat>): (r: seq<nat>)
    ensures |r| == |s|
  {
    if s == [] then [] else InsertTag(s[0], SortTags(s[1..]))
  }

  function SortedTags(b: seq<Option<EntityTag>>): (r: seq<nat>)
    ensures |r| == |b|
  {
    SortTags(Tags(b))
  }

  lemma DescendingCons(t: nat, s: seq<nat>)
    requires Descending(s)
    requires s != [] ==> t >= s[0]
    ensures Descending([t] + s)
  {
    var r := [t] + s;
    forall i, j | 0 <= i < j < |r| ensures r[i] >= r[j] {
      assert r[j] == s[j - 1] && s[0] >= s[j - 1];
    }
  }

  lemma {:induction false} InsertTagSorts(t: nat, s: seq<nat>)
    requires Descending(s)
    ensures Descending(InsertTag(t, s))
    ensures multiset(InsertTag(t, s)) == multiset{t} + multiset(s)
  {
    if s == [] || t >= s[0] {
      DescendingCons(t, s);
    } else {
      assert s == [s[0]] + s[1..];
      InsertTagSorts(t, s[1..]);
      DescendingCons(s[0], InsertTag(t, s[1..]));
    }
  }

  lemma {:induction false} SortTagsSorts(s: seq<nat>)
    ensures Descending(SortTags(s))
    ensures multiset(SortTags(s)) == multiset(s)
  {
    if s != [] {
      assert s == [s[0]] + s[1..];
      SortTagsSorts(s[1..]);
      InsertTagSorts(s[0], SortTags(s[1..]));
    }
  }

  lemma DescendingHead(a: seq<nat>, x: nat)
    requires Descending(a) && x in multiset(a)
    ensures a[0] >= x
  {
    var i :| 0 <= i < |a| && a[i] == x;
  }

  lemma TailMultiset(a: seq<nat>)
    requires a != []
    ensures multiset(a[1..]) == multiset(a) - multiset{a[0]}
    ensures Descending(a) ==> Descending(a[1..])
  {
    assert a == [a[0]] + a[1..];
  }

  lemma SameHead(a: seq<nat>, b: seq<nat>)
    requires Descending(a) && Descending(b)
    requires a != [] && b != [] && multiset(a) == multiset(b)
    ensures a[0] == b[0]
  {
    assert a[0] in multiset(a) && b[0] in multiset(b);
    DescendingHead(b, a[0]);
    DescendingHead(a, b[0]);
  }

  // Sorting has one answer only.
  lemma {:induction false} DescendingUnique(a: seq<nat>, b: seq<nat>)
    requires Descending(a) && Descending(b)
    requires multiset(a) == multiset(b)
    ensures a == b
    decreases |a|
  {
    assert |a| == |multiset(a)| && |b| == |multiset(b)|;
    if a != [] {
      SameHead(a, b);
      TailMultiset(a);
      TailMultiset(b);
      DescendingUnique(a[1..], b[1..]);
      assert a == [a[0]] + a[1..] && b == [b[0]] + b[1..];
    }
  }

  // ---------------------------------------------------------------- comparisons made by the source

  // Tag-by-tag comparison of the sorted tags of a new activation, `n`, with those of one on the
  // agenda, `a`.
  function CompareTags(n: seq<nat>, a: seq<nat>): (f: Flag)
  {
    if n == [] || a == [] then
      if |n| < |a| then LessThan else if |n| > |a| then GreaterThan else Equal
    else if n[0] < a[0] then LessThan
    else if n[0] > a[0] then GreaterThan
    else CompareTags(n[1..], a[1..])
  }

  // `LessThan`: the new activation ranks below the one on the agenda.
  function CompareMatches(a: Act, n: Act): (f: Flag)
  {
    var c := CompareTags(SortedTags(n.basis), SortedTags(a.basis));
    if c != Equal then c
    else if n.complexity < a.complexity then LessThan
    else if n.complexity > a.complexity then GreaterThan
    else Equal
  }

  // The first-pattern comparison of the mea scan loop; -1 stands for an unset first match.
  function MeaScanFlag(o: int, c: int, otherwise: Flag): (f: Flag)
  {
    if o < c then (if c > 0 then GreaterThan else LessThan)
    else if o > c then (if o > 0 then LessThan else GreaterThan)
    else otherwise
  }

  // The first-pattern comparison of the mea end-of-group shortcut.
  function MeaShortcutFlag(o: Option<int>, c: Option<int>, otherwise: Flag): (f: Flag)
  {
    if c.None? && o.None? then otherwise
    else if c.Some? && o.None? then GreaterThan
    else if c.None? && o.Some? then LessThan
    else if o.value < c.value then GreaterThan
    else if o.value > c.value then LessThan
    else otherwise
  }

  function Whoset(o: Option<int>): (w: int)
  {
    match o case None => -1 case Some(t) => t
  }

  predicate MeaAgree(o: Option<int>, c: Option<int>, otherwise: Flag) {
    MeaScanFlag(Whoset(o), Whoset(c), otherwise) == MeaShortcutFlag(o, c, otherwise)
  }

  /** The two ways mea compares first tags agree, whatever the fallback comparison says, exactly
      when the tags are equal or both unset, or one of them is positive, or one is unset and the
      other below -1.  Tags are unsigned 64-bit numbers read as signed ones, so only the tag 0 and
      tags from 2^63 up can make them differ. */
  lemma MeaComparisonsAgree(o: Option<int>, c: Option<int>)
    ensures (forall x :: MeaAgree(o, c, x))
       <==> (o == c || Whoset(o) > 0 || Whoset(c) > 0
             || (o.None? && c.value < -1) || (c.None? && o.value < -1))
  {
    if forall x :: MeaAgree(o, c, x) {
      assert MeaAgree(o, c, LessThan) && MeaAgree(o, c, GreaterThan);
    }
  }

  /** Tag 0 against no tag at all: the scan and the shortcut answer differently. */
  lemma MeaComparisonsDiffer()
    ensures MeaScanFlag(Whoset(None), Whoset(Some(0)), Equal) == LessThan
    ensures MeaShortcutFlag(None, Some(0), Equal) == GreaterThan
  {
  }

  function MeaCompare(a: Act, n: Act): (f: Flag)
  {
    MeaScanFlag(Whoset(a.basis[0]), Whoset(n.basis[0]), CompareMatches(a, n))
  }

  function FlagAhead(f: Flag, a: Act, n: Act): bool {
    f == LessThan || (f == Equal && n.timetag > a.timetag)
  }

  // Within one salience group: does `a`, already on the agenda, stay in front of `n`?
  predicate Ahead(s: Strategy, a: Act, n: Act) {
    match s
    case Depth => n.timetag < a.timetag
    case Breadth => !(n.timetag < a.timetag)
    case Lex => FlagAhead(CompareMatches(a, n), a, n)
    case Mea => FlagAhead(MeaCompare(a, n), a, n)
    case Complexity => n.complexity < a.complexity || (n.complexity == a.complexity && n.timetag > a.timetag)
    case Simplicity => n.complexity > a.complexity || (n.complexity == a.complexity && n.timetag > a.timetag)
    case Random => n.randomID > a.randomID || (n.randomID == a.randomID && n.timetag > a.timetag)
  }

  // Over the whole agenda: salience first.
  predicate Before(s: Strategy, a: Act, n: Act) {
    a.salience > n.salience || (a.salience == n.salience && Ahead(s, a, n))
  }

  // ---------------------------------------------------------------- the reference order

  function Neg(x: int): int { -x }

  ghost predicate LexLess(x: seq<int>, y: seq<int>) {
    if y == [] then false
    else if x == [] then true
    else x[0] < y[0] || (x[0] == y[0] && LexLess(x[1..], y[1..]))
  }

  ghost function Negated(s: seq<nat>): (r: seq<int>)
    ensures |r| == |s|
  {
    if s == [] then [] else [Neg(s[0])] + Negated(s[1..])
  }

  // Large tags first; a longer match before its own prefix (1 follows every negated tag).
  ghost function MatchKey(a: Act, rest: seq<int>): seq<int> {
    Negated(SortedTags(a.basis)) + ([1, Neg(a.complexity)] + rest)
  }

  // Large first tags first; an unset first match last.
  ghost function FirstTagKey(a: Act): int {
    match a.basis[0] case None => 1 case Some(t) => Neg(t)
  }

  ghost function StrategyKey(s: Strategy, a: Act): seq<int> {
    match s
    case Depth => [Neg(a.timetag)]
    case Breadth => [a.timetag]
    case Lex => MatchKey(a, [a.timetag])
    case Mea => [FirstTagKey(a)] + MatchKey(a, [a.timetag])
    case Complexity => [Neg(a.complexity), a.timetag]
    case Simplicity => [a.complexity, a.timetag]
    case Random => [a.randomID, a.timetag]
  }

  ghost function Key(s: Strategy, a: Act): seq<int> {
    [Neg(a.salience)] + StrategyKey(s, a)
  }

  lemma {:induction false} LexLessIrreflexive(x: seq<int>)
    ensures !LexLess(x, x)
  {
    if x != [] { LexLessIrreflexive(x[1..]); }
  }

  lemma {:induction false} LexLessTransitive(x: seq<int>, y: seq<int>, z: seq<int>)
    requires LexLess(x, y) && LexLess(y, z)
    ensures LexLess(x, z)
  {
    if x != [] && x[0] == y[0] == z[0] {
      LexLessTransitive(x[1..], y[1..], z[1..]);
    }
  }

  lemma {:induction false} LexLessTotal(x: seq<int>, y: seq<int>)
    requires x != y
    ensures LexLess(x, y) || LexLess(y, x)
  {
    if x != [] && y != [] && x[0] == y[0] {
      assert x == [x[0]] + x[1..] && y == [y[0]] + y[1..];
      LexLessTotal(x[1..], y[1..]);
    }
  }

  lemma LexLessPair(x0: int, x1: int, y0: int, y1: int)
    ensures LexLess([x0, x1], [y0, y1]) <==> x0 < y0 || (x0 == y0 && x1 < y1)
  {
    assert [x0, x1][1..] == [x1] && [y0, y1][1..] == [y1];
    assert LexLess([x1], [y1]) <==> x1 < y1;
  }

  // The length-then-tags comparison is lexicographic order on negated tags closed by a 1.
  lemma {:induction false} CompareTagsIsLex(n: seq<nat>, a: seq<nat>, rn: seq<int>, ra: seq<int>)
    ensures LexLess(Negated(a) + ([1] + ra), Negated(n) + ([1] + rn))
       <==> CompareTags(n, a) == LessThan || (CompareTags(n, a) == Equal && LexLess(ra, rn))
    decreases |n|
  {
    var x, y := Negated(a) + ([1] + ra), Negated(n) + ([1] + rn);
    if n == [] || a == [] {
      if a == [] { assert x[1..] == ra; }
      if n == [] { assert y[1..] == rn; }
    } else {
      assert x[1..] == Negated(a[1..]) + ([1] + ra);
      assert y[1..] == Negated(n[1..]) + ([1] + rn);
      CompareTagsIsLex(n[1..], a[1..], rn, ra);
    }
  }

  lemma CompareMatchesIsLex(a: Act, n: Act)
    ensures LexLess(MatchKey(a, [a.timetag]), MatchKey(n, [n.timetag])) <==> FlagAhead(CompareMatches(a, n), a, n)
  {
    var ra, rn := [Neg(a.complexity), a.timetag], [Neg(n.complexity), n.timetag];
    assert [1, Neg(a.complexity)] + [a.timetag] == [1] + ra;
    assert [1, Neg(n.complexity)] + [n.timetag] == [1] + rn;
    CompareTagsIsLex(SortedTags(n.basis), SortedTags(a.basis), rn, ra);
    LexLessPair(ra[0], a.timetag, rn[0], n.timetag);
    assert LexLess(ra, rn) <==> Neg(a.complexity) < Neg(n.complexity)
                                || (a.complexity == n.complexity && a.timetag < n.timetag);
  }

  /** The branching test of every strategy's placement loop decides the reference order. */
  lemma BeforeIsKeyOrder(s: Strategy, a: Act, n: Act)
    requires a.timetag != n.timetag
    ensures Before(s, a, n) <==> LexLess(Key(s, a), Key(s, n))
  {
    assert Key(s, a)[1..] == StrategyKey(s, a) && Key(s, n)[1..] == StrategyKey(s, n);
    match s {
      case Lex => CompareMatchesIsLex(a, n);
      case Mea =>
        CompareMatchesIsLex(a, n);
        assert StrategyKey(s, a)[1..] == MatchKey(a, [a.timetag]);
        assert StrategyKey(s, n)[1..] == MatchKey(n, [n.timetag]);
      case Depth =>
      case Breadth =>
      case Complexity => LexLessPair(Neg(a.complexity), a.timetag, Neg(n.complexity), n.timetag);
      case Simplicity => LexLessPair(a.complexity, a.timetag, n.complexity, n.timetag);
      case Random => LexLessPair(a.randomID, a.timetag, n.randomID, n.timetag);
    }
  }

  lemma KeyInjective(s: Strategy, a: Act, b: Act)
    requires a.timetag != b.timetag
    ensures Key(s, a) != Key(s, b)
  {
    var x, y := Key(s, a), Key(s, b);
    assert s != Depth ==> x[|x| - 1] == a.timetag && y[|y| - 1] == b.timetag;
    assert s == Depth ==> x[|x| - 1] == Neg(a.timetag) && y[|y| - 1] == Neg(b.timetag);
  }

  /** For every strategy, of two activations with distinct time tags exactly one goes first. */
  lemma BeforeTotal(s: Strategy, a: Act, b: Act)
    requires a.timetag != b.timetag
    ensures Before(s, a, b) <==> !Before(s, b, a)
  {
    BeforeIsKeyOrder(s, a, b);
    BeforeIsKeyOrder(s, b, a);
    KeyInjective(s, a, b);
    LexLessTotal(Key(s, a), Key(s, b));
    if LexLess(Key(s, a), Key(s, b)) && LexLess(Key(s, b), Key(s, a)) {
      LexLessTransitive(Key(s, a), Key(s, b), Key(s, a));
      LexLessIrreflexive(Key(s, a));
    }
  }

  lemma BeforeTransitive(s: Strategy, a: Act, b: Act, c: Act)
    requires a.timetag != b.timetag && b.timetag != c.timetag && a.timetag != c.timetag
    requires Before(s, a, b) && Before(s, b, c)
    ensures Before(s, a, c)
  {
    BeforeIsKeyOrder(s, a, b);
    BeforeIsKeyOrder(s, b, c);
    BeforeIsKeyOrder(s, a, c);
    LexLessTransitive(Key(s, a), Key(s, b), Key(s, c));
  }

  // ---------------------------------------------------------------- the comparison as a preorder

  function Flip(f: Flag): Flag {
    match f case LessThan => GreaterThan case GreaterThan => LessThan case Equal => Equal
  }

  lemma {:induction false} CompareTagsFlips(x: seq<nat>, y: seq<nat>)
    ensures CompareTags(y, x) == Flip(CompareTags(x, y))
    decreases |x|
  {
    if x != [] && y != [] { CompareTagsFlips(x[1..], y[1..]); }
  }

  lemma {:induction false} CompareTagsTransitive(x: seq<nat>, y: seq<nat>, z: seq<nat>)
    requires CompareTags(x, y) != GreaterThan && CompareTags(y, z) != GreaterThan
    ensures CompareTags(x, z) != GreaterThan
    ensures CompareTags(x, z) == Equal <==> CompareTags(x, y) == Equal && CompareTags(y, z) == Equal
    decreases |x|
  {
    if x != [] && y != [] && z != [] && x[0] == y[0] == z[0] {
      CompareTagsTransitive(x[1..], y[1..], z[1..]);
    }
  }

  /** Swapping the arguments of the match comparison flips its answer. */
  lemma CompareMatchesFlips(a: Act, b: Act)
    ensures CompareMatches(b, a) == Flip(CompareMatches(a, b))
  {
    CompareTagsFlips(SortedTags(a.basis), SortedTags(b.basis));
  }

  /** The match comparison is transitive across matches of any lengths and complexities, and the
      combined answer is equality only if both comparisons were. */
  lemma CompareMatchesTransitive(a: Act, b: Act, c: Act)
    requires CompareMatches(a, b) != GreaterThan && CompareMatches(b, c) != GreaterThan
    ensures CompareMatches(a, c) != GreaterThan
    ensures CompareMatches(a, c) == Equal <==> CompareMatches(a, b) == Equal && CompareMatches(b, c) == Equal
  {
    CompareTagsTransitive(SortedTags(c.basis), SortedTags(b.basis), SortedTags(a.basis));
  }

  // ---------------------------------------------------------------- recency

  // How many entries of a basis carry a time tag; 0 stands for the entries without one.
  ghost function Times(b: seq<Option<EntityTag>>, v: nat): nat {
    if b == [] then 0
    else (if (if v == 0 then b[0].None? else b[0].Some? && b[0].value == v) then 1 else 0) + Times(b[1..], v)
  }

  lemma {:induction false} TagsCounted(b: seq<Option<EntityTag>>, v: nat)
    ensures multiset(Tags(b))[v] == Times(b, v)
  {
    if b != [] {
      TagsCounted(b[1..], v);
      assert Tags(b) == [TagOf(b[0])] + Tags(b[1..]);
    }
  }

  lemma SortedCounted(b: seq<Option<EntityTag>>)
    ensures Descending(SortedTags(b)) && forall v: nat :: multiset(SortedTags(b))[v] == Times(b, v)
  {
    SortTagsSorts(Tags(b));
    forall v: nat ensures multiset(SortedTags(b))[v] == Times(b, v) {
      TagsCounted(b, v);
    }
  }

  // Of two descending lists, the one with more of the largest number on which they differ is ahead.
  lemma {:induction false} LargestDifference(n: seq<nat>, a: seq<nat>, v: nat)
    requires Descending(n) && Descending(a) && multiset(n)[v] != multiset(a)[v]
    requires forall u: nat :: u > v ==> multiset(n)[u] == multiset(a)[u]
    ensures CompareTags(n, a) == if multiset(n)[v] > multiset(a)[v] then GreaterThan else LessThan
    decreases |n|
  {
    if n != [] && a != [] {
      assert n[0] in multiset(n) && a[0] in multiset(a);
      if n[0] == a[0] {
        TailMultiset(n);
        TailMultiset(a);
        LargestDifference(n[1..], a[1..], v);
      } else {
        NoneAbove(n);
        NoneAbove(a);
        assert v == if n[0] > a[0] then n[0] else a[0];
      }
    }
  }

  lemma NoneAbove(s: seq<nat>)
    requires Descending(s) && s != []
    ensures forall u: nat :: u > s[0] ==> multiset(s)[u] == 0
  {
    forall u: nat | u > s[0] ensures u !in multiset(s) {
      assert forall i :: 0 <= i < |s| ==> s[i] <= s[0];
    }
  }

  /**
   * What the match comparison decides, said of the entries themselves: at the largest time tag that the two bases do
   * not have equally often, the one that has it more often wins, whatever the order of the patterns and the lengths.
   */
  lemma RecencyDecides(a: Act, n: Act, v: nat)
    requires Times(n.basis, v) != Times(a.basis, v)
    requires forall u: nat :: u > v ==> Times(n.basis, u) == Times(a.basis, u)
    ensures CompareMatches(a, n) == if Times(n.basis, v) > Times(a.basis, v) then GreaterThan else LessThan
  {
    hide SortedTags, Times;
    SortedCounted(a.basis);
    SortedCounted(n.basis);
    LargestDifference(SortedTags(n.basis), SortedTags(a.basis), v);
  }

  /** Bases with the same time tags are told apart by the complexity of their rules alone. */
  lemma SameTagsCompare(a: Act, n: Act)
    requires forall v: nat :: Times(n.basis, v) == Times(a.basis, v)
    ensures CompareMatches(a, n) ==
            if n.complexity < a.complexity then LessThan else if n.complexity > a.complexity then GreaterThan else Equal
  {
    hide SortedTags, Times;
    SortedCounted(a.basis);
    SortedCounted(n.basis);
    DescendingUnique(SortedTags(n.basis), SortedTags(a.basis));
    CompareTagsFlips(SortedTags(n.basis), SortedTags(a.basis));
  }

  /** A match with a more recent fact than any of the other match ranks above it. */
  lemma NewestWins(a: Act, n: Act, i: nat)
    requires i < |n.basis| && n.basis[i].Some?
    requires forall j :: 0 <= j < |a.basis| && a.basis[j].Some? ==> a.basis[j].value < n.basis[i].value
    ensures CompareMatches(a, n) == GreaterThan
  {
    var k := Newest(n.basis);
    var v := n.basis[k].value;
    forall u: nat | u >= v ensures Times(a.basis, u) == 0 && (u > v ==> Times(n.basis, u) == 0) {
      NeverSeen(a.basis, u);
      if u > v {
        NeverSeen(n.basis, u);
      }
    }
    SeenOnce(n.basis, k);
    RecencyDecides(a, n, v);
  }

  /** So under lex, and under mea with the same first tags, it stands ahead among equal saliences. */
  lemma NewestStandsAhead(s: Strategy, a: Act, n: Act, i: nat)
    requires s == Lex || (s == Mea && a.basis[0] == n.basis[0])
    requires a.salience == n.salience && i < |n.basis| && n.basis[i].Some?
    requires forall j :: 0 <= j < |a.basis| && a.basis[j].Some? ==> a.basis[j].value < n.basis[i].value
    ensures Before(s, n, a) && !Before(s, a, n)
  {
    hide CompareMatches;
    NewestWins(a, n, i);
    CompareMatchesFlips(a, n);
  }

  // The place of a largest time tag.
  ghost function Newest(b: seq<Option<EntityTag>>): (k: nat)
    requires exists i :: 0 <= i < |b| && b[i].Some?
    ensures k < |b| && b[k].Some? && forall j :: 0 <= j < |b| && b[j].Some? ==> b[j].value <= b[k].value
  {
    if forall i :: 1 <= i < |b| ==> b[i].None? then 0
    else
      var i :| 1 <= i < |b| && b[i].Some?;
      assert b[1..][i - 1].Some?;
      var k := Newest(b[1..]) + 1;
      assert forall j :: 1 <= j < |b| ==> b[j] == b[1..][j - 1];
      if b[0].Some? && b[0].value > b[k].value then 0 else k
  }

  lemma {:induction false} NeverSeen(b: seq<Option<EntityTag>>, v: nat)
    requires v > 0 && forall i :: 0 <= i < |b| && b[i].Some? ==> b[i].value != v
    ensures Times(b, v) == 0
  {
    if b != [] {
      assert forall i :: 0 <= i < |b[1..]| ==> b[1..][i] == b[i + 1];
      NeverSeen(b[1..], v);
    }
  }

  lemma {:induction false} SeenOnce(b: seq<Option<EntityTag>>, k: nat)
    requires k < |b| && b[k].Some?
    ensures Times(b, b[k].value) > 0
  {
    if k > 0 {
      SeenOnce(b[1..], k - 1);
    }
  }
}
