/** The seven placement strategies: where in its salience group a new activation goes.

    Each function walks the group's segment and returns the activation after which to insert (null:
    at the front of the agenda).  The ghost result `p` is that place as a position.  All seven meet
    one contract: `p` is where a scan from the front of the group stops, and the group's end
    pointers are moved exactly when the newcomer becomes an end.
 */
module AgendaPlacement {
  import opened Options
  import opened Ordering
  import opened AgendaSpec
  import opened AgendaHeap
  import opened MatchSort

  /** Group `g` owns positions lo up to hi of a linked agenda (it is empty if it was just created),
      and the group in front of it, if any, ends at lo. */
  ghost predicate Segment(acts: seq<Activation>, view: seq<Act>, g: SalienceGroup, lo: int, hi: int)
    reads acts, g, g.prev
  {
    && 0 <= lo <= hi <= |acts| == |view|
    && (if lo == hi then g.first == null && g.last == null else g.first == acts[lo] && g.last == acts[hi - 1])
    && (if g.prev == null then lo == 0 else lo > 0 && g.prev != g && g.prev.last == acts[lo - 1])
    && ActsLinked(if acts == [] then null else acts[0], acts)
    && Viewed(acts, view)
    && (forall i :: lo <= i < hi ==> view[i].salience == g.salience)
  }

  ghost predicate Orderly(s: Strategy, view: seq<Act>, n: Act) {
    Sorted(s, view) && DistinctTags(view) && NewTag(view, n)
  }

  // The stopping point p of a front scan over positions lo up to hi.
  ghost predicate StopsAt(s: Strategy, view: seq<Act>, n: Act, lo: int, hi: int, p: int) {
    && 0 <= lo <= p <= hi <= |view|
    && (forall i :: lo <= i < p ==> Ahead(s, view[i], n))
    && (p < hi ==> !Ahead(s, view[p], n))
  }

  ghost predicate IsActBefore(acts: seq<Activation>, p: int, a: Activation?) {
    0 <= p <= |acts| && a == if p == 0 then null else acts[p - 1]
  }

  // A front scan that has reached position p.
  ghost predicate ScanAt(s: Strategy, acts: seq<Activation>, view: seq<Act>, n: Act, lo: int, hi: int, p: int,
                         lastAct: Activation?, actPtr: Activation?)
  {
    && 0 <= lo <= p <= hi <= |acts| == |view|
    && IsActBefore(acts, p, lastAct)
    && (forall i :: lo <= i < p ==> Ahead(s, view[i], n))
    && (if lo == hi then actPtr == null else p < hi && actPtr == acts[p])
  }

  // Staying in front of the newcomer is inherited by everything further in front.
  lemma AheadDownward(s: Strategy, view: seq<Act>, n: Act, lo: int, j: int)
    requires Orderly(s, view, n)
    requires 0 <= lo <= j < |view|
    requires forall i :: lo <= i <= j ==> view[i].salience == n.salience
    requires Ahead(s, view[j], n)
    ensures forall i :: lo <= i <= j ==> Ahead(s, view[i], n)
  {
    forall i | lo <= i < j ensures Ahead(s, view[i], n) {
      BeforeTransitive(s, view[i], view[j], n);
    }
  }

  /** The end-of-group shortcut of lex and mea is the front scan: if the last activation of the
      group stays in front of the newcomer, the scan runs through the whole group. */
  lemma ShortcutIsScan(s: Strategy, view: seq<Act>, n: Act, lo: int, hi: int, p: int)
    requires Orderly(s, view, n)
    requires 0 <= lo < hi <= |view|
    requires forall i :: lo <= i < hi ==> view[i].salience == n.salience
    requires StopsAt(s, view, n, lo, hi, p)
    ensures Ahead(s, view[hi - 1], n) <==> p == hi
  {
    if Ahead(s, view[hi - 1], n) { AheadDownward(s, view, n, lo, hi - 1); }
  }

  method PrecedingActivation(theGroup: SalienceGroup, ghost acts: seq<Activation>, ghost view: seq<Act>, ghost lo: int,
                             ghost hi: int)
    returns (lastAct: Activation?)
    requires Segment(acts, view, theGroup, lo, hi)
    ensures IsActBefore(acts, lo, lastAct)
  {
    if theGroup.prev == null {
      lastAct := null;
    } else {
      lastAct := theGroup.prev.last;
    }
  }

  // The tail shared by all placement functions.
  method UpdateGroup(newActivation: Activation, theGroup: SalienceGroup, lastAct: Activation?,
                     ghost acts: seq<Activation>, ghost view: seq<Act>, ghost lo: int, ghost hi: int, ghost p: int)
    requires Segment(acts, view, theGroup, lo, hi)
    requires lo <= p <= hi && IsActBefore(acts, p, lastAct)
    modifies theGroup`first, theGroup`last
    ensures theGroup.first == if p == lo then newActivation else old(theGroup.first)
    ensures theGroup.last == if p == hi then newActivation else old(theGroup.last)
  {
    if lastAct == null || (theGroup.prev != null && theGroup.prev.last == lastAct) {
      theGroup.first := newActivation;
    }
    if theGroup.last == null || theGroup.last == lastAct {
      theGroup.last := newActivation;
    }
  }

  // If the group's last activation stays in front of the newcomer, the whole group does.
  lemma EndStops(s: Strategy, theGroup: SalienceGroup, n: Act, acts: seq<Activation>, view: seq<Act>, lo: int, hi: int)
    requires Segment(acts, view, theGroup, lo, hi) && Orderly(s, view, n) && theGroup.salience == n.salience
    requires theGroup.last != null && Ahead(s, theGroup.last.View(), n)
    ensures lo < hi && StopsAt(s, view, n, lo, hi, hi) && IsActBefore(acts, hi, theGroup.last)
  {
    AheadDownward(s, view, n, lo, hi - 1);
  }

  // Moves a front scan past an activation that stays in front of the newcomer.
  method PassOver(ghost s: Strategy, actPtr: Activation, theGroup: SalienceGroup, ghost n: Act,
                  ghost acts: seq<Activation>, ghost view: seq<Act>, ghost lo: int, ghost hi: int, ghost p: int,
                  ghost lastAct: Activation?)
    returns (next: Activation?, atEnd: bool)
    requires Segment(acts, view, theGroup, lo, hi)
    requires ScanAt(s, acts, view, n, lo, hi, p, lastAct, actPtr) && Ahead(s, actPtr.View(), n)
    ensures lo <= p < hi
    ensures atEnd ==> StopsAt(s, view, n, lo, hi, p + 1) && IsActBefore(acts, p + 1, actPtr)
    ensures !atEnd ==> p + 1 < hi && ScanAt(s, acts, view, n, lo, hi, p + 1, actPtr, next)
  {
    assert view[p] == actPtr.View();
    if actPtr == theGroup.last {
      next, atEnd := actPtr, true;
    } else {
      next, atEnd := actPtr.next, false;
    }
  }

  // A front scan that meets an activation which goes behind the newcomer, or an empty group.
  lemma ScanHalts(s: Strategy, theGroup: SalienceGroup, n: Act, acts: seq<Activation>, view: seq<Act>, lo: int, hi: int,
                  p: int, lastAct: Activation?, actPtr: Activation?)
    requires Segment(acts, view, theGroup, lo, hi)
    requires ScanAt(s, acts, view, n, lo, hi, p, lastAct, actPtr)
    requires actPtr != null ==> !Ahead(s, actPtr.View(), n)
    ensures StopsAt(s, view, n, lo, hi, p) && IsActBefore(acts, p, lastAct) && lo <= p <= hi
  {
  }

  lemma ScanStarts(s: Strategy, theGroup: SalienceGroup, n: Act, acts: seq<Activation>, view: seq<Act>, lo: int,
                   hi: int, lastAct: Activation?)
    requires Segment(acts, view, theGroup, lo, hi) && IsActBefore(acts, lo, lastAct)
    ensures lo <= hi && ScanAt(s, acts, view, n, lo, hi, lo, lastAct, theGroup.first)
  {
  }

  method PlaceDepthActivation(newActivation: Activation, theGroup: SalienceGroup,
                              ghost acts: seq<Activation>, ghost view: seq<Act>, ghost lo: int, ghost hi: int)
    returns (lastAct: Activation?, ghost p: int)
    requires Segment(acts, view, theGroup, lo, hi) && theGroup.salience == newActivation.salience
    requires Orderly(Depth, view, newActivation.View())
    modifies theGroup`first, theGroup`last
    ensures StopsAt(Depth, view, newActivation.View(), lo, hi, p) && IsActBefore(acts, p, lastAct)
    ensures theGroup.first == if p == lo then newActivation else old(theGroup.first)
    ensures theGroup.last == if p == hi then newActivation else old(theGroup.last)
  {
    hide Segment, ScanAt, StopsAt, IsActBefore, Orderly;
    ghost var n := newActivation.View();
    var timetag := newActivation.timetag;
    lastAct := PrecedingActivation(theGroup, acts, view, lo, hi);
    p := lo;
    var actPtr := theGroup.first;
    ScanStarts(Depth, theGroup, n, acts, view, lo, hi, lastAct);
    ghost var stopped := false;
    while actPtr != null
      invariant !stopped && ScanAt(Depth, acts, view, n, lo, hi, p, lastAct, actPtr)
      invariant Segment(acts, view, theGroup, lo, hi) && unchanged(theGroup)
      decreases hi - p
    {
      if timetag < actPtr.timetag {
        var next, atEnd := PassOver(Depth, actPtr, theGroup, n, acts, view, lo, hi, p, lastAct);
        lastAct, p, actPtr := actPtr, p + 1, next;
        if atEnd { stopped := true; break; }
      } else {
        break;
      }
    }
    if !stopped { ScanHalts(Depth, theGroup, n, acts, view, lo, hi, p, lastAct, actPtr); }
    UpdateGroup(newActivation, theGroup, lastAct, acts, view, lo, hi, p);
  }

  method PlaceBreadthActivation(newActivation: Activation, theGroup: SalienceGroup,
                                ghost acts: seq<Activation>, ghost view: seq<Act>, ghost lo: int, ghost hi: int)
    returns (lastAct: Activation?, ghost p: int)
    requires Segment(acts, view, theGroup, lo, hi) && theGroup.salience == newActivation.salience
    requires Orderly(Breadth, view, newActivation.View())
    modifies theGroup`first, theGroup`last
    ensures StopsAt(Breadth, view, newActivation.View(), lo, hi, p) && IsActBefore(acts, p, lastAct)
    ensures theGroup.first == if p == lo then newActivation else old(theGroup.first)
    ensures theGroup.last == if p == hi then newActivation else old(theGroup.last)
  {
    var timetag := newActivation.timetag;
    ghost var n := newActivation.View();
    if theGroup.last == null {
      lastAct := PrecedingActivation(theGroup, acts, view, lo, hi);
    } else {
      lastAct := theGroup.last;
    }
    p := hi;
    var actPtr := theGroup.last;
    while actPtr != null
      invariant lo <= p <= hi
      invariant if lo == hi then actPtr == null && IsActBefore(acts, lo, lastAct) else lo < p && actPtr == acts[p - 1]
      invariant forall i :: p <= i < hi ==> !Ahead(Breadth, view[i], n)
      decreases p
    {
      if timetag < actPtr.timetag {
        p := p - 1;
        if actPtr == theGroup.first {
          lastAct := PrecedingActivation(theGroup, acts, view, lo, hi);
          break;
        } else {
          actPtr := actPtr.prev;
        }
      } else {
        AheadDownward(Breadth, view, n, lo, p - 1);
        lastAct := actPtr;
        break;
      }
    }
    UpdateGroup(newActivation, theGroup, lastAct, acts, view, lo, hi, p);
  }

  // After a turn of a front scan: stopped in front of the activation, stopped behind it, or at the next one.
  ghost predicate ScanMoved(s: Strategy, acts: seq<Activation>, view: seq<Act>, n: Act, lo: int, hi: int, p: int,
                            lastAct: Activation?, actPtr: Activation, passed: bool, next: Activation?, atEnd: bool)
  {
    if !passed then lo <= p <= hi && StopsAt(s, view, n, lo, hi, p) && IsActBefore(acts, p, lastAct)
    else if atEnd then lo <= p < hi && StopsAt(s, view, n, lo, hi, p + 1) && IsActBefore(acts, p + 1, actPtr)
    else lo <= p && p + 1 < hi && ScanAt(s, acts, view, n, lo, hi, p + 1, actPtr, next)
  }

  // One turn of the lex scan: compares, and moves past an activation that stays in front of the newcomer.
  method LexStep(newActivation: Activation, actPtr: Activation, theGroup: SalienceGroup, ghost acts: seq<Activation>,
                 ghost view: seq<Act>, ghost lo: int, ghost hi: int, ghost p: int, ghost lastAct: Activation?)
    returns (passed: bool, next: Activation?, atEnd: bool)
    requires Segment(acts, view, theGroup, lo, hi)
    requires ScanAt(Lex, acts, view, newActivation.View(), lo, hi, p, lastAct, actPtr)
    ensures ScanMoved(Lex, acts, view, newActivation.View(), lo, hi, p, lastAct, actPtr, passed, next, atEnd)
  {
    hide Segment, ScanAt, StopsAt, IsActBefore, CompareMatches;
    ghost var n := newActivation.View();
    var flag := ComparePartialMatches(actPtr.View(), newActivation.View());
    if flag == LessThan || (flag == Equal && newActivation.timetag > actPtr.timetag) {
      passed := true;
      next, atEnd := PassOver(Lex, actPtr, theGroup, n, acts, view, lo, hi, p, lastAct);
    } else {
      passed, next, atEnd := false, actPtr, false;
      ScanHalts(Lex, theGroup, n, acts, view, lo, hi, p, lastAct, actPtr);
    }
  }

  method PlaceLEXActivation(newActivation: Activation, theGroup: SalienceGroup,
                            ghost acts: seq<Activation>, ghost view: seq<Act>, ghost lo: int, ghost hi: int)
    returns (lastAct: Activation?, ghost p: int)
    requires Segment(acts, view, theGroup, lo, hi) && theGroup.salience == newActivation.salience
    requires Orderly(Lex, view, newActivation.View())
    modifies theGroup`first, theGroup`last
    ensures StopsAt(Lex, view, newActivation.View(), lo, hi, p) && IsActBefore(acts, p, lastAct)
    ensures theGroup.first == if p == lo then newActivation else old(theGroup.first)
    ensures theGroup.last == if p == hi then newActivation else old(theGroup.last)
  {
    hide Segment, ScanAt, StopsAt, IsActBefore, Orderly, CompareMatches;
    ghost var n := newActivation.View();
    var timetag := newActivation.timetag;
    lastAct := PrecedingActivation(theGroup, acts, view, lo, hi);

    var actPtr := theGroup.last;
    if actPtr != null {
      var flag := ComparePartialMatches(actPtr.View(), newActivation.View());
      if flag == LessThan || (flag == Equal && timetag > actPtr.timetag) {
        EndStops(Lex, theGroup, n, acts, view, lo, hi);
        theGroup.last := newActivation;
        return actPtr, hi;
      }
    }

    p := lo;
    actPtr := theGroup.first;
    ScanStarts(Lex, theGroup, n, acts, view, lo, hi, lastAct);
    var passed, atEnd := true, false;
    while actPtr != null && passed && !atEnd
      invariant lo <= p <= hi
      invariant passed && !atEnd ==> ScanAt(Lex, acts, view, n, lo, hi, p, lastAct, actPtr)
      invariant !passed || atEnd ==> StopsAt(Lex, view, n, lo, hi, p) && IsActBefore(acts, p, lastAct)
      invariant Segment(acts, view, theGroup, lo, hi) && unchanged(theGroup)
      decreases passed && !atEnd, hi - p
    {
      var next;
      passed, next, atEnd := LexStep(newActivation, actPtr, theGroup, acts, view, lo, hi, p, lastAct);
      if passed {
        lastAct, p, actPtr := actPtr, p + 1, next;
      }
    }
    if passed && !atEnd { ScanHalts(Lex, theGroup, n, acts, view, lo, hi, p, lastAct, actPtr); }
    UpdateGroup(newActivation, theGroup, lastAct, acts, view, lo, hi, p);
  }

  // The mea comparison as the end-of-group shortcut writes it.
  method MeaShortcut(actPtr: Act, newActivation: Act) returns (flag: Flag)
    ensures flag == MeaCompare(actPtr, newActivation)
  {
    var c: Option<int>, o: Option<int> := newActivation.basis[0], actPtr.basis[0];
    if c.None? && o.None? {
      flag := ComparePartialMatches(actPtr, newActivation);
    } else if c.Some? && o.None? {
      flag := GreaterThan;
    } else if c.None? && o.Some? {
      flag := LessThan;
    } else if o.value < c.value {
      flag := GreaterThan;
    } else if o.value > c.value {
      flag := LessThan;
    } else {
      flag := ComparePartialMatches(actPtr, newActivation);
    }
  }

  // The mea comparison as the scan loop writes it.
  method MeaScan(actPtr: Act, newActivation: Act) returns (flag: Flag)
    ensures flag == MeaCompare(actPtr, newActivation)
  {
    var cWhoset: int, oWhoset: int := -1, -1;
    if newActivation.basis[0].Some? { cWhoset := newActivation.basis[0].value; }
    if actPtr.basis[0].Some? { oWhoset := actPtr.basis[0].value; }
    if oWhoset < cWhoset {
      if cWhoset > 0 { flag := GreaterThan; } else { flag := LessThan; }
    } else if oWhoset > cWhoset {
      if oWhoset > 0 { flag := LessThan; } else { flag := GreaterThan; }
    } else {
      flag := ComparePartialMatches(actPtr, newActivation);
    }
  }

  // One turn of the mea scan: compares, and moves past an activation that stays in front of the newcomer.
  method MeaStep(newActivation: Activation, actPtr: Activation, theGroup: SalienceGroup, ghost acts: seq<Activation>,
                 ghost view: seq<Act>, ghost lo: int, ghost hi: int, ghost p: int, ghost lastAct: Activation?)
    returns (passed: bool, next: Activation?, atEnd: bool)
    requires Segment(acts, view, theGroup, lo, hi)
    requires ScanAt(Mea, acts, view, newActivation.View(), lo, hi, p, lastAct, actPtr)
    ensures ScanMoved(Mea, acts, view, newActivation.View(), lo, hi, p, lastAct, actPtr, passed, next, atEnd)
  {
    hide Segment, ScanAt, StopsAt, IsActBefore, MeaCompare;
    ghost var n := newActivation.View();
    var flag := MeaScan(actPtr.View(), newActivation.View());
    if flag == LessThan || (flag == Equal && newActivation.timetag > actPtr.timetag) {
      passed := true;
      next, atEnd := PassOver(Mea, actPtr, theGroup, n, acts, view, lo, hi, p, lastAct);
    } else {
      passed, next, atEnd := false, actPtr, false;
      ScanHalts(Mea, theGroup, n, acts, view, lo, hi, p, lastAct, actPtr);
    }
  }

  method PlaceMEAActivation(newActivation: Activation, theGroup: SalienceGroup,
                            ghost acts: seq<Activation>, ghost view: seq<Act>, ghost lo: int, ghost hi: int)
    returns (lastAct: Activation?, ghost p: int)
    requires Segment(acts, view, theGroup, lo, hi) && theGroup.salience == newActivation.salience
    requires Orderly(Mea, view, newActivation.View())
    modifies theGroup`first, theGroup`last
    ensures StopsAt(Mea, view, newActivation.View(), lo, hi, p) && IsActBefore(acts, p, lastAct)
    ensures theGroup.first == if p == lo then newActivation else old(theGroup.first)
    ensures theGroup.last == if p == hi then newActivation else old(theGroup.last)
  {
    hide Segment, ScanAt, StopsAt, IsActBefore, Orderly, MeaCompare;
    ghost var n := newActivation.View();
    var timetag := newActivation.timetag;
    lastAct := PrecedingActivation(theGroup, acts, view, lo, hi);

    var actPtr := theGroup.last;
    if actPtr != null {
      var flag := MeaShortcut(actPtr.View(), newActivation.View());
      if flag == LessThan || (flag == Equal && timetag > actPtr.timetag) {
        EndStops(Mea, theGroup, n, acts, view, lo, hi);
        theGroup.last := newActivation;
        return actPtr, hi;
      }
    }

    p := lo;
    actPtr := theGroup.first;
    ScanStarts(Mea, theGroup, n, acts, view, lo, hi, lastAct);
    var passed, atEnd := true, false;
    while actPtr != null && passed && !atEnd
      invariant lo <= p <= hi
      invariant passed && !atEnd ==> ScanAt(Mea, acts, view, n, lo, hi, p, lastAct, actPtr)
      invariant !passed || atEnd ==> StopsAt(Mea, view, n, lo, hi, p) && IsActBefore(acts, p, lastAct)
      invariant Segment(acts, view, theGroup, lo, hi) && unchanged(theGroup)
      decreases passed && !atEnd, hi - p
    {
      var next;
      passed, next, atEnd := MeaStep(newActivation, actPtr, theGroup, acts, view, lo, hi, p, lastAct);
      if passed {
        lastAct, p, actPtr := actPtr, p + 1, next;
      }
    }
    if passed && !atEnd { ScanHalts(Mea, theGroup, n, acts, view, lo, hi, p, lastAct, actPtr); }
    UpdateGroup(newActivation, theGroup, lastAct, acts, view, lo, hi, p);
  }

  method PlaceComplexityActivation(newActivation: Activation, theGroup: SalienceGroup,
                                   ghost acts: seq<Activation>, ghost view: seq<Act>, ghost lo: int, ghost hi: int)
    returns (lastAct: Activation?, ghost p: int)
    requires Segment(acts, view, theGroup, lo, hi) && theGroup.salience == newActivation.salience
    requires Orderly(Complexity, view, newActivation.View())
    modifies theGroup`first, theGroup`last
    ensures StopsAt(Complexity, view, newActivation.View(), lo, hi, p) && IsActBefore(acts, p, lastAct)
    ensures theGroup.first == if p == lo then newActivation else old(theGroup.first)
    ensures theGroup.last == if p == hi then newActivation else old(theGroup.last)
  {
    hide Segment, ScanAt, StopsAt, IsActBefore, Orderly;
    ghost var n := newActivation.View();
    var timetag, complexity := newActivation.timetag, newActivation.theRule.complexity;
    lastAct := PrecedingActivation(theGroup, acts, view, lo, hi);
    p := lo;
    var actPtr := theGroup.first;
    ScanStarts(Complexity, theGroup, n, acts, view, lo, hi, lastAct);
    ghost var stopped := false;
    while actPtr != null
      invariant !stopped && ScanAt(Complexity, acts, view, n, lo, hi, p, lastAct, actPtr)
      invariant Segment(acts, view, theGroup, lo, hi) && unchanged(theGroup)
      decreases hi - p
    {
      if complexity < actPtr.theRule.complexity {
        var next, atEnd := PassOver(Complexity, actPtr, theGroup, n, acts, view, lo, hi, p, lastAct);
        lastAct, p, actPtr := actPtr, p + 1, next;
        if atEnd { stopped := true; break; }
      } else if complexity > actPtr.theRule.complexity {
        break;
      } else if timetag > actPtr.timetag {
        var next, atEnd := PassOver(Complexity, actPtr, theGroup, n, acts, view, lo, hi, p, lastAct);
        lastAct, p, actPtr := actPtr, p + 1, next;
        if atEnd { stopped := true; break; }
      } else {
        break;
      }
    }
    if !stopped { ScanHalts(Complexity, theGroup, n, acts, view, lo, hi, p, lastAct, actPtr); }
    UpdateGroup(newActivation, theGroup, lastAct, acts, view, lo, hi, p);
  }

  method PlaceSimplicityActivation(newActivation: Activation, theGroup: SalienceGroup,
                                   ghost acts: seq<Activation>, ghost view: seq<Act>, ghost lo: int, ghost hi: int)
    returns (lastAct: Activation?, ghost p: int)
    requires Segment(acts, view, theGroup, lo, hi) && theGroup.salience == newActivation.salience
    requires Orderly(Simplicity, view, newActivation.View())
    modifies theGroup`first, theGroup`last
    ensures StopsAt(Simplicity, view, newActivation.View(), lo, hi, p) && IsActBefore(acts, p, lastAct)
    ensures theGroup.first == if p == lo then newActivation else old(theGroup.first)
    ensures theGroup.last == if p == hi then newActivation else old(theGroup.last)
  {
    hide Segment, ScanAt, StopsAt, IsActBefore, Orderly;
    ghost var n := newActivation.View();
    var timetag, complexity := newActivation.timetag, newActivation.theRule.complexity;
    lastAct := PrecedingActivation(theGroup, acts, view, lo, hi);
    p := lo;
    var actPtr := theGroup.first;
    ScanStarts(Simplicity, theGroup, n, acts, view, lo, hi, lastAct);
    ghost var stopped := false;
    while actPtr != null
      invariant !stopped && ScanAt(Simplicity, acts, view, n, lo, hi, p, lastAct, actPtr)
      invariant Segment(acts, view, theGroup, lo, hi) && unchanged(theGroup)
      decreases hi - p
    {
      if complexity > actPtr.theRule.complexity {
        var next, atEnd := PassOver(Simplicity, actPtr, theGroup, n, acts, view, lo, hi, p, lastAct);
        lastAct, p, actPtr := actPtr, p + 1, next;
        if atEnd { stopped := true; break; }
      } else if complexity < actPtr.theRule.complexity {
        break;
      } else if timetag > actPtr.timetag {
        var next, atEnd := PassOver(Simplicity, actPtr, theGroup, n, acts, view, lo, hi, p, lastAct);
        lastAct, p, actPtr := actPtr, p + 1, next;
        if atEnd { stopped := true; break; }
      } else {
        break;
      }
    }
    if !stopped { ScanHalts(Simplicity, theGroup, n, acts, view, lo, hi, p, lastAct, actPtr); }
    UpdateGroup(newActivation, theGroup, lastAct, acts, view, lo, hi, p);
  }

  method PlaceRandomActivation(newActivation: Activation, theGroup: SalienceGroup,
                               ghost acts: seq<Activation>, ghost view: seq<Act>, ghost lo: int, ghost hi: int)
    returns (lastAct: Activation?, ghost p: int)
    requires Segment(acts, view, theGroup, lo, hi) && theGroup.salience == newActivation.salience
    requires Orderly(Random, view, newActivation.View())
    modifies theGroup`first, theGroup`last
    ensures StopsAt(Random, view, newActivation.View(), lo, hi, p) && IsActBefore(acts, p, lastAct)
    ensures theGroup.first == if p == lo then newActivation else old(theGroup.first)
    ensures theGroup.last == if p == hi then newActivation else old(theGroup.last)
  {
    hide Segment, ScanAt, StopsAt, IsActBefore, Orderly;
    ghost var n := newActivation.View();
    var timetag, randomID := newActivation.timetag, newActivation.randomID;
    lastAct := PrecedingActivation(theGroup, acts, view, lo, hi);
    p := lo;
    var actPtr := theGroup.first;
    ScanStarts(Random, theGroup, n, acts, view, lo, hi, lastAct);
    ghost var stopped := false;
    while actPtr != null
      invariant !stopped && ScanAt(Random, acts, view, n, lo, hi, p, lastAct, actPtr)
      invariant Segment(acts, view, theGroup, lo, hi) && unchanged(theGroup)
      decreases hi - p
    {
      if randomID > actPtr.randomID {
        var next, atEnd := PassOver(Random, actPtr, theGroup, n, acts, view, lo, hi, p, lastAct);
        lastAct, p, actPtr := actPtr, p + 1, next;
        if atEnd { stopped := true; break; }
      } else if randomID < actPtr.randomID {
        break;
      } else if timetag > actPtr.timetag {
        var next, atEnd := PassOver(Random, actPtr, theGroup, n, acts, view, lo, hi, p, lastAct);
        lastAct, p, actPtr := actPtr, p + 1, next;
        if atEnd { stopped := true; break; }
      } else {
        break;
      }
    }
    if !stopped { ScanHalts(Random, theGroup, n, acts, view, lo, hi, p, lastAct, actPtr); }
    UpdateGroup(newActivation, theGroup, lastAct, acts, view, lo, hi, p);
  }
}
