/** What the automaton answers, in terms of the text. */
module CommandAnswers {
  import opened CommandText
  import opened CommandAutomaton

  // What the scan remembers of a text outside strings: how deep it is, whether a parenthesis has been opened, and
  // whether one was closed before that.
  ghost predicate Counts(t: seq<Char>, depth: nat, more: bool, error: bool) {
    && (more <==> 40 in t) && (error <==> Stray(t)) && (depth > 0 <==> 40 in t && !Closed(t))
    && (forall i: nat :: FirstOpen(t, i) && !Closed(t) ==> depth == Balance(t[i..]))
  }

  lemma CountsOther(t: seq<Char>, c: Char, depth: nat, more: bool, error: bool)
    requires Counts(t, depth, more, error) && !SymbolOutside(t) && c != 40 && c != 41
    ensures Counts(t + [c], depth, more, error)
  {
    hide Balance;
    StrayNext(t, c);
    if Closed(t) {
      ClosedStays(t, c);
    } else {
      ClosedNext(t, c);
    }
    forall i: nat | FirstOpen(t + [c], i) && !Closed(t + [c]) ensures depth == Balance((t + [c])[i..]) {
      SuffixNext(t, c, i);
    }
  }

  // The balance from the first parenthesis on.
  lemma SuffixNext(t: seq<Char>, c: Char, i: nat)
    requires FirstOpen(t + [c], i)
    ensures if FirstOpen(t, i)
            then Balance((t + [c])[i..]) == Balance(t[i..]) + if c == 40 then 1 else if c == 41 then -1 else 0
            else c == 40 && 40 !in t && Balance((t + [c])[i..]) == 1
  {
    FirstOpenAppend(t, c, i);
    if FirstOpen(t, i) {
      assert (t + [c])[i..] == t[i..] + [c];
      BalanceAppend(t[i..], c);
    } else {
      assert (t + [c])[i..] == [40];
      OneOpen();
    }
  }

  lemma CountsOpen(t: seq<Char>, depth: nat, more: bool, error: bool)
    requires Counts(t, depth, more, error) && !SymbolOutside(t)
    ensures if depth > 0 || !more then Counts(t + [40], depth + 1, true, error) else Counts(t + [40], 0, true, error)
  {
    hide Balance;
    StrayNext(t, 40);
    if Closed(t) {
      ClosedStays(t, 40);
      ClosedOpens(t);
    } else {
      ClosedNext(t, 40);
    }
    forall i: nat | FirstOpen(t + [40], i) && !Closed(t + [40]) ensures depth + 1 == Balance((t + [40])[i..]) {
      SuffixNext(t, 40, i);
    }
  }

  lemma CountsClose(t: seq<Char>, depth: nat, more: bool, error: bool)
    requires Counts(t, depth, more, error) && !SymbolOutside(t)
    ensures Counts(t + [41], if depth > 0 then depth - 1 else 0, more, error || !more)
  {
    hide Balance;
    StrayNext(t, 41);
    if 40 in t && !Closed(t) {
      var i := SomeFirstOpen(t);
      ClosedNext(t, 41);
      forall j: nat | FirstOpen(t, j) ensures j == i {
        FirstOpenUnique(t, i, j);
      }
    } else if Closed(t) {
      ClosedStays(t, 41);
      ClosedOpens(t);
    } else {
      ClosedNext(t, 41);
      NeverOpen(t);
    }
    forall i: nat | FirstOpen(t + [41], i) && !Closed(t + [41])
      ensures (if depth > 0 then depth - 1 else 0) == Balance((t + [41])[i..])
    {
      SuffixNext(t, 41, i);
    }
  }

  lemma ClosedOpens(t: seq<Char>)
    requires Closed(t)
    ensures 40 in t
  {
    var i: nat, j: nat :| BalancedFrom(t, i, j);
  }

  lemma NeverOpen(t: seq<Char>)
    requires 40 !in t
    ensures forall i: nat :: !FirstOpen(t, i)
  {
  }

  // The scan has met no answer, and stands where the text says. Inside a string it still has the depth of before.
  ghost predicate Stands(t: seq<Char>, l: Lexeme, st: State) {
    && st.Scanning?
    && if SymbolOutside(t) then st.mode == RestOfLine && (st.error <==> Stray(t))
       else
         match l
         case Code => st.mode == Between && Counts(t, st.depth, st.moreThanZero, st.error)
         case Remark => st.mode == InComment && Counts(t, st.depth, st.moreThanZero, st.error)
         case Quoted => st.mode == InString && Entered(t, st)
         case Backslashed => st.mode == Escaped && Entered(t, st)
  }

  ghost predicate Entered(t: seq<Char>, st: State)
    requires st.Scanning?
  {
    && (st.depth > 0 ==> st.moreThanZero)
    && if st.depth > 0 || !st.moreThanZero then Counts(t, st.depth + 1, true, st.error)
       else Counts(t, 0, true, st.error)
  }

  // One character more: an answer, or the scan stands where the longer text says.
  ghost predicate Follows(t: seq<Char>, l: Lexeme, st: State, c: Char) {
    if OverAt(t, l, c) then Step(st, c) == Decided(if Stray(t) then -1 else 1)
    else Stands(t + [Shown(l, c)], NextLexeme(l, c), Step(st, c))
  }

  lemma SymbolFollows(t: seq<Char>, l: Lexeme, st: State, c: Char)
    requires Stands(t, l, st) && SymbolOutside(t)
    ensures Follows(t, l, st, c)
  {
    hide SymbolOutside, Stray, Closed;
    SymbolNext(t, Shown(l, c));
    StrayKept(t, Shown(l, c));
  }

  lemma StrayKept(t: seq<Char>, c: Char)
    requires SymbolOutside(t)
    ensures Stray(t + [c]) <==> Stray(t)
  {
    var u := t + [c];
    forall k: nat | k < |t| ensures StrayAt(u, k) <==> StrayAt(t, k) {
      assert u[..k] == t[..k];
    }
    assert Stray(t) ==> exists k: nat :: k < |t| && StrayAt(t, k);
    var s: nat :| SymbolAt(t, s);
    assert u[..|t|] == t && u[s] == t[s];
    if Closed(t[..s]) {
      ClosedOpens(t[..s]);
      assert 40 in t;
    } else {
      assert Symbol(u[s]);
    }
    assert !StrayAt(u, |t|);
  }

  // A character outside strings and comments.
  lemma CodeFollows(t: seq<Char>, st: State, c: Char)
    requires Stands(t, Code, st) && !SymbolOutside(t)
    ensures Follows(t, Code, st, c)
  {
    hide SymbolOutside, Stray, Closed, Counts;
    SymbolNext(t, Shown(Code, c));
    ClosedMeans(t, st);
    if c == 40 || c == 34 {
      CountsOpen(t, st.depth, st.moreThanZero, st.error);
    } else if c == 41 {
      CountsClose(t, st.depth, st.moreThanZero, st.error);
    } else {
      CountsOther(t, Shown(Code, c), st.depth, st.moreThanZero, st.error);
      StrayNext(t, Shown(Code, c));
    }
  }

  lemma RemarkFollows(t: seq<Char>, st: State, c: Char)
    requires Stands(t, Remark, st) && !SymbolOutside(t)
    ensures Follows(t, Remark, st, c)
  {
    hide SymbolOutside, Stray, Closed, Counts;
    SymbolNext(t, Shown(Remark, c));
    ClosedMeans(t, st);
    CountsOther(t, Shown(Remark, c), st.depth, st.moreThanZero, st.error);
  }

  lemma QuotedFollows(t: seq<Char>, l: Lexeme, st: State, c: Char)
    requires Stands(t, l, st) && !SymbolOutside(t) && (l == Quoted || l == Backslashed)
    ensures Follows(t, l, st, c)
  {
    hide SymbolOutside, Stray, Closed, Counts;
    SymbolNext(t, Shown(l, c));
    var depth := if st.depth > 0 || !st.moreThanZero then st.depth + 1 else 0;
    if l == Quoted && c == 34 {
      CountsClose(t, depth, true, st.error);
    } else {
      CountsOther(t, Shown(l, c), depth, true, st.error);
    }
  }

  lemma Following(t: seq<Char>, l: Lexeme, st: State, c: Char)
    requires Stands(t, l, st)
    ensures Follows(t, l, st, c)
  {
    hide Stands, Follows;
    if SymbolOutside(t) {
      SymbolFollows(t, l, st, c);
    } else if l == Code {
      CodeFollows(t, st, c);
    } else if l == Remark {
      RemarkFollows(t, st, c);
    } else {
      QuotedFollows(t, l, st, c);
    }
  }

  lemma ClosedMeans(t: seq<Char>, st: State)
    requires st.Scanning? && Counts(t, st.depth, st.moreThanZero, st.error)
    ensures Closed(t) <==> st.moreThanZero && st.depth == 0
    ensures (st.moreThanZero <==> 40 in t) && (st.error <==> Stray(t)) && (st.depth > 0 ==> 40 in t && !Closed(t))
  {
    if Closed(t) {
      ClosedOpens(t);
    }
  }

  lemma OverPrefix(s: seq<Char>, c: Char, k: nat)
    requires k <= |s|
    ensures k < |s| ==> (Over(s + [c], k) <==> Over(s, k))
    ensures Over(s + [c], |s|) <==> OverAt(Blanked(s), Lex(s), c)
  {
    assert (s + [c])[..k] == s[..k] && (s + [c])[..|s|] == s;
  }

  lemma NothingStands()
    ensures Stands(Blanked([]), Lex([]), START) && forall k: nat :: !Over([], k)
  {
    var t := Blanked([]);
    assert t == [];
  }

  /**
   * The automaton decides what the text says: at the first line end where the command is over it answers, and before
   * that it remembers exactly what the text so far says.
   */
  lemma {:induction false} TextDecides(s: seq<Char>)
    ensures (forall k: nat :: !Over(s, k)) ==> Stands(Blanked(s), Lex(s), Run(START, s))
    ensures forall k: nat :: FirstOver(s, k) ==> Run(START, s) == Decided(if Stray(Blanked(s[..k])) then -1 else 1)
    decreases |s|
  {
    hide Stands, OverAt, Over, Lex, Blanked;
    if s == [] {
      NothingStands();
    } else {
      var u, c := s[..|s| - 1], s[|s| - 1];
      assert s == u + [c];
      TextDecides(u);
      RunOne(START, u, c);
      BlankedAppend(u, c);
      forall k: nat | k <= |u| ensures k < |u| ==> (Over(s, k) <==> Over(u, k)) {
        OverPrefix(u, c, k);
      }
      OverPrefix(u, c, |u|);
      OverWithin(s);
      OverWithin(u);
      if forall k: nat :: !Over(u, k) {
        Following(Blanked(u), Lex(u), Run(START, u), c);
      }
      forall k: nat | FirstOver(s, k) ensures Run(START, s) == Decided(if Stray(Blanked(s[..k])) then -1 else 1) {
        if k < |u| {
          assert s[..k] == u[..k] && FirstOver(u, k);
        } else {
          assert s[..k] == u;
        }
      }
    }
  }

  lemma OverWithin(s: seq<Char>)
    ensures forall k: nat :: Over(s, k) ==> k < |s|
  {
  }

  /** What is answered, in terms of the text. */
  lemma AnswerOfText(s: seq<Char>)
    ensures TextAnswer(s, Answer(Run(START, s)))
  {
    hide Over, Blanked, Lex, Run;
    TextDecides(s);
    if forall k: nat :: !Over(s, k) {
      StandsScans(Blanked(s), Lex(s), Run(START, s));
    }
  }

  lemma StandsScans(t: seq<Char>, l: Lexeme, st: State)
    requires Stands(t, l, st)
    ensures st.Scanning?
  {
  }

  // ---- Commands without strings and comments ----

  ghost predicate Unquoted(s: seq<Char>) {
    forall i :: 0 <= i < |s| ==> s[i] != 34 && s[i] != 59
  }

  lemma {:induction false} UnquotedShown(s: seq<Char>)
    requires Unquoted(s)
    ensures Lex(s) == Code && Blanked(s) == s
  {
    if s != [] {
      var u, c := s[..|s| - 1], s[|s| - 1];
      assert s == u + [c];
      UnquotedShown(u);
      BlankedAppend(u, c);
    }
  }

  // Blanks and line ends.
  predicate Blank(c: Char) {
    c == 9 || c == 10 || c == 12 || c == 13 || c == 32
  }

  // The command starts with a parenthesis at p, with blanks before it.
  ghost predicate StartsAt(s: seq<Char>, p: nat) {
    p < |s| && s[p] == 40 && forall i :: 0 <= i < p ==> Blank(s[i])
  }

  lemma StartIsFirst(s: seq<Char>, p: nat, k: nat, i: nat)
    requires StartsAt(s, p) && k <= |s|
    ensures FirstOpen(s[..k], i) <==> i == p && p < k
  {
    if p < k {
      assert s[..k][..p] == s[..p];
      assert FirstOpen(s[..k], p);
      if FirstOpen(s[..k], i) {
        FirstOpenUnique(s[..k], i, p);
      }
    } else {
      assert forall j :: 0 <= j < k ==> s[..k][j] == s[j];
    }
  }

  lemma BalanceFromStart(s: seq<Char>, p: nat, j: nat)
    requires StartsAt(s, p) && p <= j <= |s|
    ensures Balance(s[..j]) == Balance(s[p..j])
  {
    assert s[..j] == s[..p] + s[p..j];
    assert forall i :: 0 <= i < p ==> s[..p][i] == s[i];
    assert 40 !in multiset(s[..p]) && 41 !in multiset(s[..p]);
  }

  // As many parentheses have been closed as opened, somewhere up to k.
  ghost predicate BalancedBy(s: seq<Char>, p: nat, k: nat) {
    exists j: nat :: p < j <= k && j <= |s| && Balance(s[..j]) == 0
  }

  lemma ClosedIsBalanced(s: seq<Char>, p: nat, k: nat)
    requires StartsAt(s, p) && k <= |s|
    ensures Closed(s[..k]) <==> BalancedBy(s, p, k)
  {
    hide Balance, StartsAt;
    if i: nat, j: nat :| BalancedFrom(s[..k], i, j) {
      StartIsFirst(s, p, k, i);
      BalanceFromStart(s, p, j);
      assert s[..k][p..j] == s[p..j];
    }
    if j: nat :| p < j <= k && j <= |s| && Balance(s[..j]) == 0 {
      StartIsFirst(s, p, k, p);
      BalanceFromStart(s, p, j);
      assert s[..k][p..j] == s[p..j];
      assert BalancedFrom(s[..k], p, j);
    }
  }

  lemma NoStray(s: seq<Char>, p: nat, k: nat)
    requires StartsAt(s, p) && k <= |s|
    ensures !Stray(s[..k])
    ensures SymbolOutside(s[..k]) ==> Closed(s[..k])
  {
    var t := s[..k];
    forall i: nat | i < k ensures !StrayAt(t, i) {
      assert p < i ==> t[..i][p] == 40;
    }
    if c: nat :| SymbolAt(t, c) {
      assert p < c ==> t[..c][p] == 40;
      ClosedPrefix(t, c);
    }
  }

  lemma ClosedPrefix(t: seq<Char>, c: nat)
    requires c <= |t| && Closed(t[..c])
    ensures Closed(t)
  {
    var i: nat, j: nat :| BalancedFrom(t[..c], i, j);
    assert t[..c][..i] == t[..i] && t[..c][i..j] == t[i..j];
    assert BalancedFrom(t, i, j);
  }

  /**
   * A command without strings and comments that starts with a parenthesis is complete exactly when some line of it ends
   * after as many parentheses have been closed as opened; it is never an error.
   */
  lemma ParenthesesBalance(s: seq<Char>, p: nat)
    requires Unquoted(s) && StartsAt(s, p)
    ensures Answer(Run(START, s)) == 1 <==> exists k: nat :: k < |s| && LineEnd(s[k]) && BalancedBy(s, p, k)
    ensures Answer(Run(START, s)) == 0 || Answer(Run(START, s)) == 1
  {
    hide Run, Blanked, Lex, StartsAt, Closed, Stray, SymbolOutside, BalancedBy;
    forall k: nat | k <= |s|
      ensures k < |s| ==> (Over(s, k) <==> LineEnd(s[k]) && BalancedBy(s, p, k))
      ensures !Stray(Blanked(s[..k]))
    {
      UnquotedShown(s[..k]);
      NoStray(s, p, k);
      ClosedIsBalanced(s, p, k);
    }
    OverWithin(s);
    AnswerOfText(s);
    if k: nat :| Over(s, k) {
      var first := SomeFirstOver(s, k);
    }
  }

  lemma {:induction false} SomeFirstOver(s: seq<Char>, k: nat) returns (first: nat)
    requires Over(s, k)
    ensures FirstOver(s, first) && first <= k
  {
    if l: nat :| l < k && Over(s, l) {
      first := SomeFirstOver(s, l);
    } else {
      first := k;
    }
  }

  // ---- Strings and comments, and other first tokens ----

  lemma BlankedUnquoted(s: seq<Char>)
    ensures Unquoted(Blanked(s))
  {
  }

  /**
   * Blanking out strings and comments leaves the answer as it is, for a text without a stray parenthesis in which no
   * line ends inside a string after a symbol outside parentheses.
   */
  lemma BlankingKeeps(s: seq<Char>)
    requires !Stray(Blanked(s))
    requires !SymbolOutside(Blanked(s)) || forall i :: 0 <= i < |s| && LineEnd(s[i]) ==> LineEnd(Blanked(s)[i])
    ensures Answer(Run(START, Blanked(s))) == Answer(Run(START, s))
  {
    hide Run, Blanked, Lex, Closed, Stray, SymbolOutside;
    var b := Blanked(s);
    BlankedUnquoted(s);
    forall k: nat | k <= |s|
      ensures k < |s| ==> (Over(b, k) <==> Over(s, k))
      ensures !Stray(Blanked(s[..k])) && !Stray(Blanked(b[..k]))
    {
      BlankedPrefix(s, k);
      UnquotedShown(b[..k]);
      StrayPrefix(b, k);
      SymbolPrefix(b, k);
    }
    OverWithin(s);
    OverWithin(b);
    AnswerOfText(s);
    AnswerOfText(b);
    if k: nat :| Over(s, k) {
      var first := SomeFirstOver(s, k);
      assert FirstOver(b, first);
    }
  }

  lemma StrayPrefix(t: seq<Char>, k: nat)
    requires k <= |t|
    ensures Stray(t[..k]) ==> Stray(t)
  {
    if i: nat :| StrayAt(t[..k], i) {
      assert t[..k][..i] == t[..i];
      assert StrayAt(t, i);
    }
  }

  lemma SymbolPrefix(t: seq<Char>, k: nat)
    requires k <= |t|
    ensures SymbolOutside(t[..k]) ==> SymbolOutside(t)
  {
    if i: nat :| SymbolAt(t[..k], i) {
      assert t[..k][..i] == t[..i];
      assert SymbolAt(t, i);
    }
  }

  // Nothing but blanks: nothing has begun.
  lemma BlankBegins(t: seq<Char>)
    requires forall i :: 0 <= i < |t| ==> Blank(t[i])
    ensures Blanked(t) == t && Lex(t) == Code && !SymbolOutside(t) && !Closed(t) && !Stray(t) && 40 !in t
  {
    UnquotedShown(t);
  }

  // From the first symbol on the command is begun, and has no stray parenthesis.
  lemma SymbolBegins(u: seq<Char>, c: nat)
    requires c < |u| && Symbol(u[c]) && forall i :: 0 <= i < c ==> Blank(u[i])
    ensures SymbolOutside(Blanked(u)) && !Stray(Blanked(u))
  {
    hide Blanked, Lex, Closed;
    var t := Blanked(u);
    BlankedPrefix(u, c);
    BlankBegins(u[..c]);
    assert t[c] == u[c];
    assert SymbolAt(t, c);
    forall i: nat | i < |t| ensures !StrayAt(t, i) {
      assert i < c ==> t[i] == t[..c][i] == u[..c][i];
    }
  }

  /** A command that starts with a symbol is complete at the end of its line, and not before. */
  lemma SymbolEndsLine(s: seq<Char>, c: nat, k: nat)
    requires c < k < |s| && Symbol(s[c]) && LineEnd(s[k])
    requires (forall i :: 0 <= i < c ==> Blank(s[i])) && (forall i :: c < i < k ==> !LineEnd(s[i]))
    ensures Answer(Run(START, s[..k])) == 0 && Answer(Run(START, s[..k + 1])) == 1
  {
    hide Run, Blanked, Lex, Closed, Stray, SymbolOutside;
    var u, v := s[..k], s[..k + 1];
    forall n: nat | n < k ensures !Over(v, n) && !Over(u, n) {
      assert u[..n] == v[..n] == s[..n];
      if n < c {
        BlankBegins(s[..n]);
      }
    }
    OverWithin(u);
    AnswerOfText(u);
    AnswerOfText(v);
    assert v[..k] == u;
    SymbolBegins(u, c);
    assert FirstOver(v, k);
  }
}
