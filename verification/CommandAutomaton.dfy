/** The scan for a complete command as an automaton that looks at every character once. */
module CommandAutomaton {
  import opened CommandText

  const EOS: Char := 0
  const TAB: Char := 9
  const LINE_FEED: Char := 10
  const FORM_FEED: Char := 12
  const RETURN: Char := 13
  const SPACE: Char := 32
  const QUOTE: Char := 34
  const OPEN: Char := 40
  const CLOSE: Char := 41
  const SEMICOLON: Char := 59
  const BACKSLASH: Char := 92

  predicate EndsLine(c: Char) {
    c == LINE_FEED || c == RETURN
  }

  predicate IsWhite(c: Char) {
    c == SPACE || c == FORM_FEED || c == TAB
  }

  // A printing character, or the first byte of a longer UTF-8 sequence.
  predicate StartsToken(c: Char) {
    32 <= c < 127 || 0xC0 <= c <= 0xF7
  }

  // ---- The automaton ----

  datatype Mode = Between | InString | Escaped | InComment | RestOfLine

  datatype State =
    | Scanning(mode: Mode, depth: nat, moreThanZero: bool, error: bool)
    | Decided(answer: int)

  const START := Scanning(Between, 0, false, false)

  function Verdict(error: bool): State {
    Decided(if error then -1 else 1)
  }

  function StepBetween(st: State, c: Char): State
    requires st.Scanning? && st.mode == Between
  {
    if EndsLine(c) then
      if st.error then Decided(-1) else if st.moreThanZero && st.depth == 0 then Decided(1) else st
    else if IsWhite(c) then st
    else if c == QUOTE then st.(mode := InString)
    else if c == SEMICOLON then st.(mode := InComment)
    else if c == OPEN then
      if st.depth > 0 || !st.moreThanZero then st.(depth := st.depth + 1, moreThanZero := true) else st
    else if c == CLOSE then
      if st.depth > 0 then st.(depth := st.depth - 1) else if !st.moreThanZero then st.(error := true) else st
    else if st.depth == 0 && StartsToken(c) then st.(mode := RestOfLine)
    else st
  }

  // One character, never looking back or ahead.
  function Step(st: State, c: Char): State {
    match st
    case Decided(_) => st
    case Scanning(mode, depth, moreThanZero, error) =>
      match mode
      case Between => StepBetween(st, c)
      case InString =>
        if c == QUOTE then Scanning(Between, depth, moreThanZero || depth == 0, error)
        else if c == BACKSLASH then st.(mode := Escaped)
        else st
      case Escaped => st.(mode := InString)
      case InComment =>
        if EndsLine(c) then if moreThanZero && depth == 0 then Verdict(error) else st.(mode := Between)
        else st
      case RestOfLine => if EndsLine(c) then Verdict(error) else st
  }

  function Run(st: State, s: seq<Char>): State
    decreases |s|
  {
    if s == [] then st else Run(Step(st, s[0]), s[1..])
  }

  function Answer(st: State): int {
    if st.Decided? then st.answer else 0
  }

  lemma {:induction false} RunAppend(st: State, s: seq<Char>, t: seq<Char>)
    ensures Run(st, s + t) == Run(Run(st, s), t)
    decreases |s|
  {
    if s == [] {
      assert s + t == t;
    } else {
      assert (s + t)[1..] == s[1..] + t;
      RunAppend(Step(st, s[0]), s[1..], t);
    }
  }

  lemma {:induction false} DecidedStays(a: int, s: seq<Char>)
    ensures Run(Decided(a), s) == Decided(a)
  {
    if s != [] {
      DecidedStays(a, s[1..]);
    }
  }

  lemma {:induction false} AnswersInRange(st: State, s: seq<Char>)
    requires st.Decided? ==> st.answer == 1 || st.answer == -1
    ensures Run(st, s).Decided? ==> Run(st, s).answer == 1 || Run(st, s).answer == -1
    decreases |s|
  {
    if s != [] {
      AnswersInRange(Step(st, s[0]), s[1..]);
    }
  }

  /** A text that has an answer keeps it whatever is typed after it. */
  lemma AnswerIsStable(s: seq<Char>, t: seq<Char>)
    requires Answer(Run(START, s)) != 0
    ensures Answer(Run(START, s + t)) == Answer(Run(START, s))
  {
    RunAppend(START, s, t);
    DecidedStays(Run(START, s).answer, t);
  }

  /**
   * Typed one piece at a time, a text is answered at the first piece that completes it, and all earlier
   * pieces were incomplete.
   */
  lemma AnswersMonotone(s: seq<Char>, k: nat, n: nat)
    requires k <= n <= |s|
    ensures Answer(Run(START, s[..k])) == 0 || Answer(Run(START, s[..n])) == Answer(Run(START, s[..k]))
  {
    if Answer(Run(START, s[..k])) != 0 {
      AnswerIsStable(s[..k], s[k..n]);
      assert s[..n] == s[..k] + s[k..n];
    }
  }

  // ---- A closing parenthesis that opens a command ----

  // A scan that has met such a parenthesis and has not yet said so.
  predicate Wrong(st: State) {
    st.Scanning? && st.error
  }

  // The end of a line makes the scan speak of the error: not in a string, and in a comment only after a whole command.
  predicate Reports(st: State)
    requires Wrong(st)
  {
    st.mode == Between || st.mode == RestOfLine || (st.mode == InComment && st.moreThanZero && st.depth == 0)
  }

  lemma RunOne(st: State, s: seq<Char>, c: Char)
    ensures Run(st, s + [c]) == Step(Run(st, s), c)
  {
    RunAppend(st, s, [c]);
    assert Run(Run(st, s), [c]) == Run(Step(Run(st, s), c), [c][1..]);
  }

  /** Ending the line reports the error exactly when the scan stands where it reports; otherwise nothing is answered. */
  lemma LineEndReports(s: seq<Char>, c: Char)
    requires Wrong(Run(START, s)) && EndsLine(c)
    ensures Run(START, s + [c]) == Decided(-1) <==> Reports(Run(START, s))
    ensures !Reports(Run(START, s)) ==> Wrong(Run(START, s + [c])) && Answer(Run(START, s + [c])) == 0
  {
    RunOne(START, s, c);
  }

  // From a scan that has met the error, the answer is that error or none.
  lemma {:induction false} WrongStays(st: State, t: seq<Char>)
    requires Wrong(st)
    ensures Wrong(Run(st, t)) || Run(st, t) == Decided(-1)
    decreases |t|
  {
    if t != [] {
      var st1 := Step(st, t[0]);
      if st1.Decided? {
        DecidedStays(-1, t[1..]);
      } else {
        WrongStays(st1, t[1..]);
      }
    }
  }

  // Some line of the text ends where the scan reports.
  ghost predicate ReportedWithin(st: State, t: seq<Char>) {
    exists k :: 0 <= k < |t| && EndsLine(t[k]) && Wrong(Run(st, t[..k])) && Reports(Run(st, t[..k]))
  }

  lemma ReportedSplit(st: State, s: seq<Char>, c: Char)
    ensures ReportedWithin(st, s + [c]) <==>
            ReportedWithin(st, s) || (EndsLine(c) && Wrong(Run(st, s)) && Reports(Run(st, s)))
  {
    var t := s + [c];
    assert t[..|s|] == s;
    assert forall k :: 0 <= k < |s| ==> s[..k] == t[..k];
    if ReportedWithin(st, s) {
      var k :| 0 <= k < |s| && EndsLine(s[k]) && Wrong(Run(st, s[..k])) && Reports(Run(st, s[..k]));
      assert t[k] == s[k] && t[..k] == s[..k];
    }
    if EndsLine(c) && Wrong(Run(st, s)) && Reports(Run(st, s)) {
      assert t[|s|] == c;
    }
  }

  /**
   * What turns an error met earlier into an answer: a later line end where the scan reports, and nothing else. Until
   * then the command counts as unfinished, and it is never accepted.
   */
  lemma {:induction false} ErrorAnswered(st: State, t: seq<Char>)
    requires Wrong(st)
    ensures Answer(Run(st, t)) == -1 <==> ReportedWithin(st, t)
    ensures Answer(Run(st, t)) == 0 <==> !ReportedWithin(st, t)
    decreases |t|
  {
    if t != [] {
      var n := |t| - 1;
      var s, c := t[..n], t[n];
      assert t == s + [c];
      ErrorAnswered(st, s);
      WrongStays(st, s);
      RunOne(st, s, c);
      ReportedSplit(st, s, c);
    }
  }

  // A line with neither a string nor a comment in it.
  predicate Plain(t: seq<Char>) {
    forall i :: 0 <= i < |t| ==> t[i] != QUOTE && t[i] != SEMICOLON && !EndsLine(t[i])
  }

  lemma {:induction false} PlainStays(st: State, t: seq<Char>)
    requires Wrong(st) && (st.mode == Between || st.mode == RestOfLine) && Plain(t)
    ensures Wrong(Run(st, t)) && Reports(Run(st, t))
    decreases |t|
  {
    if t != [] {
      assert t[0] == t[..1][0];
      PlainStays(Step(st, t[0]), t[1..]);
    }
  }

  /**
   * An error that a comment swallowed comes out at the end of the next line, whatever that line holds, as long as no
   * string and no comment begins in it.
   */
  lemma SwallowedComesOut(s: seq<Char>, c: Char, line: seq<Char>, d: Char)
    requires Wrong(Run(START, s)) && Run(START, s).mode == InComment && !Reports(Run(START, s))
    requires EndsLine(c) && Plain(line) && EndsLine(d)
    ensures Answer(Run(START, s + [c])) == 0 && Answer(Run(START, s + [c] + line + [d])) == -1
  {
    RunOne(START, s, c);
    RunAppend(START, s + [c], line);
    PlainStays(Run(START, s + [c]), line);
    LineEndReports(s + [c] + line, d);
  }

  /** A closing parenthesis alone on a line is an error, but not with a comment after it. */
  lemma CommentSwallowsError()
    ensures Answer(Run(START, [CLOSE, LINE_FEED])) == -1
    ensures Answer(Run(START, [CLOSE, SEMICOLON, LINE_FEED])) == 0
    ensures Answer(Run(START, [CLOSE, SEMICOLON, LINE_FEED, LINE_FEED])) == -1
  {
    var st := Scanning(Between, 0, false, true);
    RunOne(START, [], CLOSE);
    assert [] + [CLOSE] == [CLOSE];
    assert Run(START, [CLOSE]) == st;
    RunOne(START, [CLOSE], LINE_FEED);
    assert [CLOSE] + [LINE_FEED] == [CLOSE, LINE_FEED];
    RunOne(START, [CLOSE], SEMICOLON);
    var s := [CLOSE, SEMICOLON];
    assert [CLOSE] + [SEMICOLON] == s;
    SwallowedComesOut(s, LINE_FEED, [], LINE_FEED);
    assert s + [LINE_FEED] == [CLOSE, SEMICOLON, LINE_FEED];
    assert s + [LINE_FEED] + [] + [LINE_FEED] == [CLOSE, SEMICOLON, LINE_FEED, LINE_FEED];
  }
}
