/** Deciding whether the text typed so far is a complete command, by scanning it again from the start. */
module CommandScanner {
  import opened Options
  import opened CommandText
  import opened CommandAutomaton
  import opened CommandAnswers

  // A string as it lies in memory: its characters and the terminator.
  ghost predicate Terminated(mstring: seq<Char>) {
    |mstring| > 0 && mstring[|mstring| - 1] == EOS && forall i :: 0 <= i < |mstring| - 1 ==> mstring[i] != EOS
  }

  // What is left of the string from a position on.
  function Rest(mstring: seq<Char>, i: nat): seq<Char>
    requires i < |mstring|
  {
    mstring[i..|mstring| - 1]
  }

  lemma RestStep(mstring: seq<Char>, i: nat, st: State)
    requires Terminated(mstring) && i < |mstring| && mstring[i] != EOS
    ensures i + 1 < |mstring|
    ensures Run(st, Rest(mstring, i)) == Run(Step(st, mstring[i]), Rest(mstring, i + 1))
  {
    assert Rest(mstring, i)[1..] == Rest(mstring, i + 1);
  }

  lemma RestEnd(mstring: seq<Char>, i: nat, st: State)
    requires Terminated(mstring) && i < |mstring| && mstring[i] == EOS
    ensures Run(st, Rest(mstring, i)) == st
  {
  }

  method DoWhiteSpace(str: seq<Char>, pos: nat, ghost st: State) returns (next: nat)
    requires Terminated(str) && pos < |str| && st.Scanning? && st.mode == Between
    ensures pos <= next < |str| && Run(st, Rest(str, next)) == Run(st, Rest(str, pos))
    ensures !IsWhite(str[next]) && forall i :: pos <= i < next ==> IsWhite(str[i])
  {
    hide Run, Rest, Terminated;
    next := pos;
    TerminatorLast(str);
    while IsWhite(str[next])
      invariant pos <= next < |str| && Run(st, Rest(str, next)) == Run(st, Rest(str, pos))
      invariant forall i :: pos <= i < next ==> IsWhite(str[i])
      decreases |str| - next
    {
      RestStep(str, next, st);
      next := next + 1;
    }
  }

  method DoComment(str: seq<Char>, pos: nat, ghost st: State) returns (next: nat)
    requires Terminated(str) && pos < |str| && st.Scanning? && st.mode == InComment
    ensures pos <= next < |str| && Run(st, Rest(str, next)) == Run(st, Rest(str, pos))
    ensures EndsLine(str[next]) || str[next] == EOS
  {
    hide Run, Rest, Terminated;
    next := pos;
    while !EndsLine(str[next])
      invariant pos <= next < |str| && Run(st, Rest(str, next)) == Run(st, Rest(str, pos))
      decreases |str| - next
    {
      if str[next] == EOS {
        return;
      }
      RestStep(str, next, st);
      next := next + 1;
    }
  }

  method DoString(str: seq<Char>, pos: nat, ghost st: State) returns (next: nat, complete: bool)
    requires Terminated(str) && pos < |str| && st.Scanning? && st.mode == InString
    ensures pos <= next < |str|
    ensures complete ==>
              Run(st, Rest(str, pos)) ==
              Run(Scanning(Between, st.depth, st.moreThanZero || st.depth == 0, st.error), Rest(str, next))
    ensures !complete ==> str[next] == EOS && Answer(Run(st, Rest(str, pos))) == 0
  {
    hide Run, Rest, Terminated;
    next := pos;
    while str[next] != QUOTE
      invariant pos <= next < |str| && Run(st, Rest(str, next)) == Run(st, Rest(str, pos))
      decreases |str| - next
    {
      ghost var at := st;
      if str[next] == BACKSLASH {
        RestStep(str, next, st);
        at := st.(mode := Escaped);
        next := next + 1;
      }
      if str[next] == EOS {
        RestEnd(str, next, at);
        return next, false;
      }
      RestStep(str, next, at);
      next := next + 1;
    }
    RestStep(str, next, st);
    next := next + 1;
    complete := true;
  }

  lemma TerminatorLast(str: seq<Char>)
    requires Terminated(str)
    ensures |str| > 0 && forall i :: 0 <= i < |str| ==> (str[i] == EOS <==> i == |str| - 1)
  {
  }

  /**
   * Scans the command text. The answer is that of the automaton on the characters before the terminator, which is what
   * the text says, and no character after the terminator is read.
   */
  method CompleteCommand(mstring: Option<seq<Char>>) returns (r: int)
    requires mstring.Some? ==> Terminated(mstring.value)
    ensures r == if mstring.None? then 0 else Answer(Run(START, Rest(mstring.value, 0)))
    ensures mstring.Some? ==> TextAnswer(Rest(mstring.value, 0), r)
  {
    hide Run, Rest, Terminated, TextAnswer;
    if mstring.None? {
      return 0;
    }
    var str := mstring.value;
    TerminatorLast(str);
    AnswerOfText(Rest(str, 0));
    var i := 0;
    var depth, moreThanZero, error := 0, false, false;
    while str[i] != EOS
      invariant 0 <= i < |str| && depth >= 0
      invariant Answer(Run(START, Rest(str, 0))) == Answer(Run(Scanning(Between, depth, moreThanZero, error),
                  Rest(str, i)))
      decreases |str| - i
    {
      var inchar := str[i];
      ghost var st := Scanning(Between, depth, moreThanZero, error);
      RestStep(str, i, st);
      i := i + 1;
      if EndsLine(inchar) {
        if error {
          Stays(-1, Rest(str, i));
          return -1;
        }
        if moreThanZero && depth == 0 {
          Stays(1, Rest(str, i));
          return 1;
        }
        i := DoWhiteSpace(str, i, st);
      } else if IsWhite(inchar) {
        i := DoWhiteSpace(str, i, st);
      } else if inchar == QUOTE {
        var complete;
        i, complete := DoString(str, i, st.(mode := InString));
        if depth == 0 && complete {
          moreThanZero := true;
        }
        if !complete {
          RestEnd(str, i, st);
        }
      } else if inchar == SEMICOLON {
        ghost var inside := st.(mode := InComment);
        i := DoComment(str, i, inside);
        if str[i] == EOS {
          RestEnd(str, i, inside);
          RestEnd(str, i, st);
        } else {
          RestStep(str, i, inside);
        }
        if moreThanZero && depth == 0 && str[i] != EOS {
          Stays(if error then -1 else 1, Rest(str, i + 1));
          return if error then -1 else 1;
        } else if str[i] != EOS {
          i := i + 1;
        }
      } else if inchar == OPEN {
        if depth > 0 || !moreThanZero {
          depth := depth + 1;
          moreThanZero := true;
        }
      } else if inchar == CLOSE {
        if depth > 0 {
          depth := depth - 1;
        } else if !moreThanZero {
          error := true;
        }
      } else if depth == 0 && StartsToken(inchar) {
        r := SkipLine(str, i, error, st.(mode := RestOfLine));
        return;
      }
    }
    RestEnd(str, i, Scanning(Between, depth, moreThanZero, error));
    r := 0;
  }

  lemma Stays(a: int, s: seq<Char>)
    ensures Answer(Run(Decided(a), s)) == a
  {
    DecidedStays(a, s);
  }

  // Looks for the end of the line.
  method SkipLine(str: seq<Char>, pos: nat, error: bool, ghost st: State) returns (r: int)
    requires Terminated(str) && pos < |str| && st.Scanning? && st.mode == RestOfLine && st.error == error
    ensures r == Answer(Run(st, Rest(str, pos)))
  {
    hide Run, Rest, Terminated;
    var i := pos;
    while str[i] != EOS
      invariant pos <= i < |str| && Run(st, Rest(str, i)) == Run(st, Rest(str, pos))
      decreases |str| - i
    {
      RestStep(str, i, st);
      if EndsLine(str[i]) {
        Stays(if error then -1 else 1, Rest(str, i + 1));
        return if error then -1 else 1;
      }
      i := i + 1;
    }
    RestEnd(str, i, st);
    return 0;
  }
}
