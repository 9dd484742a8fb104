/** Which text is a complete command, said of its characters: parentheses, strings, comments and the ends of lines. */
module CommandText {
  // A byte of the text.
  type Char = n: int | 0 <= n < 256

  predicate LineEnd(c: Char) {
    c == 10 || c == 13
  }

  // A printing character that is no parenthesis, quote or semicolon, or the first byte of a longer UTF-8 sequence.
  predicate Symbol(c: Char) {
    (33 <= c <= 126 && c != 34 && c != 40 && c != 41 && c != 59) || 0xC0 <= c <= 0xF7
  }

  // ---- Strings and comments ----

  datatype Lexeme = Code | Quoted | Backslashed | Remark

  function NextLexeme(l: Lexeme, c: Char): Lexeme {
    match l
    case Code => if c == 34 then Quoted else if c == 59 then Remark else Code
    case Quoted => if c == 34 then Code else if c == 92 then Backslashed else Quoted
    case Backslashed => Quoted
    case Remark => if LineEnd(c) then Code else Remark
  }

  // What the end of a text lies in.
  function Lex(s: seq<Char>): Lexeme {
    if s == [] then Code else NextLexeme(Lex(s[..|s| - 1]), s[|s| - 1])
  }

  // A string counts as a pair of parentheses around nothing, and a comment as nothing but the end of its line.
  function Shown(l: Lexeme, c: Char): Char {
    match l
    case Code => if c == 34 then 40 else if c == 59 then 32 else c
    case Quoted => if c == 34 then 41 else 32
    case Backslashed => 32
    case Remark => if LineEnd(c) then c else 32
  }

  // The text with its strings and comments blanked out, every other character in its place.
  function Blanked(s: seq<Char>): (r: seq<Char>)
    ensures |r| == |s|
    ensures forall i :: 0 <= i < |s| ==> r[i] == Shown(Lex(s[..i]), s[i])
  {
    seq(|s|, i requires 0 <= i < |s| => Shown(Lex(s[..i]), s[i]))
  }

  lemma BlankedPrefix(s: seq<Char>, k: nat)
    requires k <= |s|
    ensures Blanked(s)[..k] == Blanked(s[..k])
  {
    forall i | 0 <= i < k ensures Blanked(s)[i] == Blanked(s[..k])[i] {
      assert s[..k][..i] == s[..i];
    }
  }

  lemma BlankedAppend(s: seq<Char>, c: Char)
    ensures Lex(s + [c]) == NextLexeme(Lex(s), c)
    ensures Blanked(s + [c]) == Blanked(s) + [Shown(Lex(s), c)]
  {
    assert (s + [c])[..|s|] == s;
    BlankedPrefix(s + [c], |s|);
    assert Blanked(s + [c]) == Blanked(s + [c])[..|s|] + [Blanked(s + [c])[|s|]];
  }

  // ---- Parentheses ----

  // How many more parentheses are opened than closed.
  function Balance(t: seq<Char>): int {
    multiset(t)[40] as int - multiset(t)[41] as int
  }

  ghost predicate FirstOpen(t: seq<Char>, i: nat) {
    i < |t| && t[i] == 40 && 40 !in t[..i]
  }

  ghost predicate BalancedFrom(t: seq<Char>, i: nat, j: nat) {
    FirstOpen(t, i) && i < j <= |t| && Balance(t[i..j]) == 0
  }

  // The first parenthesis that is opened has been closed.
  ghost predicate Closed(t: seq<Char>) {
    exists i: nat, j: nat :: BalancedFrom(t, i, j)
  }

  // Some symbol begins outside of that pair of parentheses.
  ghost predicate SymbolAt(t: seq<Char>, c: nat) {
    c < |t| && Symbol(t[c]) && (40 !in t[..c] || Closed(t[..c]))
  }

  ghost predicate SymbolOutside(t: seq<Char>) {
    exists c: nat :: SymbolAt(t, c)
  }

  // A parenthesis is closed before anything else.
  ghost predicate StrayAt(t: seq<Char>, i: nat) {
    i < |t| && t[i] == 41 && 40 !in t[..i] && forall l :: 0 <= l < i ==> !Symbol(t[l])
  }

  ghost predicate Stray(t: seq<Char>) {
    exists i: nat :: StrayAt(t, i)
  }

  // ---- Answers ----

  /**
   * The character c ends the line and the command, after a text blanked to t that lies in l: a symbol has begun
   * outside parentheses, or the line ends outside strings after the command's parentheses have been closed, or after
   * a stray one that no comment hides.
   */
  ghost predicate OverAt(t: seq<Char>, l: Lexeme, c: Char) {
    && LineEnd(c)
    && (SymbolOutside(t) || (LineEnd(Shown(l, c)) && (Closed(t) || (Stray(t) && l == Code))))
  }

  ghost predicate Over(s: seq<Char>, k: nat) {
    k < |s| && OverAt(Blanked(s[..k]), Lex(s[..k]), s[k])
  }

  ghost predicate FirstOver(s: seq<Char>, k: nat) {
    Over(s, k) && forall l: nat :: l < k ==> !Over(s, l)
  }

  // 1 for a complete command, -1 for one with a stray parenthesis, 0 when it is not over.
  ghost predicate TextAnswer(s: seq<Char>, r: int) {
    && ((forall k: nat :: !Over(s, k)) ==> r == 0)
    && (forall k: nat :: FirstOver(s, k) ==> r == if Stray(Blanked(s[..k])) then -1 else 1)
  }

  // ---- One character more ----

  lemma BalanceAppend(t: seq<Char>, c: Char)
    ensures Balance(t + [c]) == Balance(t) + if c == 40 then 1 else if c == 41 then -1 else 0
  {
  }

  lemma FirstOpenAppend(t: seq<Char>, c: Char, i: nat)
    ensures FirstOpen(t + [c], i) <==> FirstOpen(t, i) || (i == |t| && c == 40 && 40 !in t)
  {
    if i <= |t| {
      assert (t + [c])[..i] == t[..i];
    }
    assert t[..|t|] == t;
  }

  lemma FirstOpenUnique(t: seq<Char>, i: nat, j: nat)
    requires FirstOpen(t, i) && FirstOpen(t, j)
    ensures i == j
  {
    assert forall k :: 0 <= k < j ==> t[k] == t[..j][k];
    assert forall k :: 0 <= k < i ==> t[k] == t[..i][k];
  }

  lemma {:induction false} SomeFirstOpen(t: seq<Char>) returns (i: nat)
    requires 40 in t
    ensures FirstOpen(t, i)
  {
    var n := |t| - 1;
    assert t == t[..n] + [t[n]];
    if 40 in t[..n] {
      i := SomeFirstOpen(t[..n]);
    } else {
      i := n;
    }
    FirstOpenAppend(t[..n], t[n], i);
  }

  lemma ClosedStays(t: seq<Char>, c: Char)
    requires Closed(t)
    ensures Closed(t + [c])
  {
    var i: nat, j: nat :| BalancedFrom(t, i, j);
    FirstOpenAppend(t, c, i);
    assert (t + [c])[i..j] == t[i..j];
    assert BalancedFrom(t + [c], i, j);
  }

  // Until then more have been opened than closed.
  lemma {:induction false} OpenUntilClosed(t: seq<Char>, i: nat)
    requires FirstOpen(t, i) && !Closed(t)
    ensures Balance(t[i..]) > 0
    decreases |t|
  {
    var n := |t| - 1;
    var u, c := t[..n], t[n];
    assert t == u + [c] && t[i..|t|] == t[i..];
    if i == n {
      assert t[i..] == [40];
    } else {
      FirstOpenAppend(u, c, i);
      if !Closed(u) {
        OpenUntilClosed(u, i);
      } else {
        ClosedStays(u, c);
      }
      assert t[i..] == u[i..] + [c];
      BalanceAppend(u[i..], c);
      assert !BalancedFrom(t, i, |t|);
    }
  }

  // The parenthesis that closes the first one.
  lemma ClosedNext(t: seq<Char>, c: Char)
    requires !Closed(t)
    ensures Closed(t + [c]) <==> exists i: nat :: FirstOpen(t, i) && c == 41 && Balance(t[i..]) == 1
  {
    var u := t + [c];
    if i: nat :| FirstOpen(t, i) && c == 41 && Balance(t[i..]) == 1 {
      FirstOpenAppend(t, c, i);
      assert u[i..|u|] == t[i..] + [c];
      BalanceAppend(t[i..], c);
      assert BalancedFrom(u, i, |u|);
    }
    if i: nat, j: nat :| BalancedFrom(u, i, j) {
      ClosedBy(t, c, i, j);
    }
  }

  lemma ClosedBy(t: seq<Char>, c: Char, i: nat, j: nat)
    requires !Closed(t) && BalancedFrom(t + [c], i, j)
    ensures FirstOpen(t, i) && c == 41 && Balance(t[i..]) == 1
  {
    hide Closed, Balance;
    var u := t + [c];
    assert forall a, b :: 0 <= a <= b <= |t| ==> u[a..b] == t[a..b];
    OneOpen();
    assert u[|t|..|u|] == [c];
    FirstOpenAppend(t, c, i);
    NotBalanced(t, i, j);
    assert j == |u|;
    assert i < |t| ==> u[i..|u|] == t[i..] + [c];
    if i < |t| {
      BalanceAppend(t[i..], c);
      OpenUntilClosed(t, i);
    }
  }

  lemma OneOpen()
    ensures Balance([40]) == 1
  {
  }

  lemma NotBalanced(t: seq<Char>, i: nat, j: nat)
    requires !Closed(t)
    ensures FirstOpen(t, i) && i < j <= |t| ==> Balance(t[i..j]) != 0
  {
    assert !BalancedFrom(t, i, j);
  }

  lemma SymbolNext(t: seq<Char>, c: Char)
    ensures SymbolOutside(t + [c]) <==> SymbolOutside(t) || (Symbol(c) && (40 !in t || Closed(t)))
  {
    var u := t + [c];
    forall k: nat | k < |t| ensures SymbolAt(u, k) <==> SymbolAt(t, k) {
      assert u[..k] == t[..k];
    }
    assert u[..|t|] == t;
    assert SymbolOutside(t) ==> exists k: nat :: k < |t| && SymbolAt(t, k);
    assert SymbolAt(u, |t|) <==> Symbol(c) && (40 !in t || Closed(t));
  }

  lemma StrayNext(t: seq<Char>, c: Char)
    requires !SymbolOutside(t)
    ensures Stray(t + [c]) <==> Stray(t) || (c == 41 && 40 !in t)
  {
    var u := t + [c];
    forall k: nat | k < |t| ensures StrayAt(u, k) <==> StrayAt(t, k) {
      assert u[..k] == t[..k];
    }
    assert Stray(t) ==> exists k: nat :: k < |t| && StrayAt(t, k);
    assert u[..|t|] == t;
    if 40 !in t {
      forall l | 0 <= l < |t| ensures !Symbol(t[l]) {
        assert 40 !in t[..l];
        assert !SymbolAt(t, l);
      }
    }
    assert StrayAt(u, |t|) <==> c == 41 && 40 !in t;
  }
}
