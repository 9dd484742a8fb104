/** Linking a new activation into the agenda behind the place its strategy chose. */
module AgendaInsertion {
  import opened Ordering
  import opened AgendaSpec
  import opened AgendaHeap
  import opened AgendaPlacement

  // The cuts after group k - 1 move one position to the right.
  ghost function ShiftUp(cuts: seq<nat>, k: nat): (r: seq<nat>)
    ensures |r| == |cuts|
    ensures forall i {:trigger r[i]} :: 0 <= i < |r| ==> r[i] == if i < k then cuts[i] else cuts[i] + 1
  {
    seq(|cuts|, i requires 0 <= i < |cuts| => if i < k then cuts[i] else cuts[i] + 1)
  }

  lemma UniformAfterInsert(view: seq<Act>, salience: int, lo: int, hi: int, p: nat, n: Act)
    requires Uniform(view, salience, lo, hi) && p <= |view|
    ensures hi <= p ==> Uniform(Spliced(view, p, n), salience, lo, hi)
    ensures p <= lo ==> Uniform(Spliced(view, p, n), salience, lo + 1, hi + 1)
    ensures lo <= p <= hi && n.salience == salience ==> Uniform(Spliced(view, p, n), salience, lo, hi + 1)
  {
  }

  lemma SegmentedAfterInsert(view: seq<Act>, groups: seq<SalienceGroup>, cuts: seq<nat>, hole: int, k: nat, p: nat,
                             n: Act)
    requires Segmented(view, groups, cuts, hole) && (hole == k || hole == -1)
    requires k < |groups| && cuts[k] <= p <= cuts[k + 1] && groups[k].salience == n.salience
    ensures p <= |view| && Segmented(Spliced(view, p, n), groups, ShiftUp(cuts, k + 1), -1)
  {
    assert cuts[k + 1] <= cuts[|groups|];
    var v, c := Spliced(view, p, n), ShiftUp(cuts, k + 1);
    forall l | 0 <= l < |groups| ensures Uniform(v, groups[l].salience, c[l], c[l + 1]) {
      if l < k { assert cuts[l + 1] <= cuts[k]; } else if l > k { assert cuts[k + 1] <= cuts[l]; }
      UniformAfterInsert(view, groups[l].salience, cuts[l], cuts[l + 1], p, n);
    }
  }

  // All groups but group k have the right ends.
  ghost predicate OtherEnds(acts: seq<Activation>, groups: seq<SalienceGroup>, cuts: seq<nat>, k: nat,
                            others: set<SalienceGroup>)
    reads others`first, others`last
  {
    && |cuts| == |groups| + 1 && k < |groups|
    && forall l {:trigger groups[l]} :: 0 <= l < |groups| && l != k ==>
         groups[l] in others && cuts[l] < cuts[l + 1] && GroupEnds(acts, groups[l], cuts[l], cuts[l + 1])
  }

  lemma EndsAfterInsert(acts: seq<Activation>, view: seq<Act>, groups: seq<SalienceGroup>, cuts: seq<nat>, hole: int,
                        k: nat, p: nat, n: Activation, others: set<SalienceGroup>)
    requires Segmented(view, groups, cuts, hole) && |acts| == |view| && OtherEnds(acts, groups, cuts, k, others)
    requires cuts[k] <= p <= cuts[k + 1] <= |acts|
    requires GroupEnds(Spliced(acts, p, n), groups[k], cuts[k], cuts[k + 1] + 1)
    ensures Ends(Spliced(acts, p, n), groups, ShiftUp(cuts, k + 1))
  {
    var a, c := Spliced(acts, p, n), ShiftUp(cuts, k + 1);
    forall l | 0 <= l < |groups| ensures GroupEnds(a, groups[l], c[l], c[l + 1]) {
      if l < k {
        assert cuts[l + 1] <= cuts[k];
      } else if l > k {
        assert cuts[k + 1] <= cuts[l];
      }
    }
  }

  // A placement gives its group the right ends.
  lemma GroupEndsAfterInsert(acts: seq<Activation>, g: SalienceGroup, lo: int, hi: int, p: nat, n: Activation)
    requires 0 <= lo <= p <= hi <= |acts|
    requires g.first == if p == lo then n else acts[lo]
    requires g.last == if p == hi then n else acts[hi - 1]
    ensures GroupEnds(Spliced(acts, p, n), g, lo, hi + 1)
  {
  }

  lemma SplicedViewed(acts: seq<Activation>, view: seq<Act>, p: nat, n: Activation)
    requires Viewed(acts, view) && p <= |acts|
    requires ActsOf(n.theRule.whichModule, acts)
    ensures ActsOf(n.theRule.whichModule, Spliced(acts, p, n))
    ensures Viewed(Spliced(acts, p, n), Spliced(view, p, n.View()))
  {
  }

  // The scan of one group stops where a scan of the whole agenda would.
  lemma StopsWhereInsertDoes(s: Strategy, view: seq<Act>, groups: seq<SalienceGroup>, cuts: seq<nat>, hole: int, k: nat,
                             n: Act, p: nat)
    requires Segmented(view, groups, cuts, hole) && Falling(groups)
    requires k < |groups| && groups[k].salience == n.salience
    requires StopsAt(s, view, n, cuts[k], cuts[k + 1], p)
    ensures Insert(s, view, n) == Spliced(view, p, n)
  {
    OutsideGroup(view, groups, cuts, hole, k);
    assert Uniform(view, groups[k].salience, cuts[k], cuts[k + 1]);
    InsertAt(s, view, n, p);
  }

  // Group k of a module, as a placement function sees it.
  lemma SegmentOf(m: DefruleModule, k: nat, hole: int)
    requires m.Shape(hole) && (hole == k || hole == -1) && k < |m.groups|
    ensures Segment(m.acts, m.view, m.groups[k], m.cuts[k], m.cuts[k + 1])
  {
    var g := m.groups[k];
    assert GroupEnds(m.acts, g, m.cuts[k], m.cuts[k + 1]);
    assert Uniform(m.view, g.salience, m.cuts[k], m.cuts[k + 1]);
    if k > 0 {
      var h := m.groups[k - 1];
      assert g.prev == h && h.salience > g.salience;
      assert GroupEnds(m.acts, h, m.cuts[k - 1], m.cuts[k]);
    }
  }

  // The pointer updates of PlaceActivation.
  method LinkActivation(m: DefruleModule, newActivation: Activation, placeAfter: Activation?,
                        ghost acts: seq<Activation>, ghost p: nat)
    requires ActsLinked(m.agenda, acts)
    requires newActivation !in acts && newActivation.prev == null
    requires IsActBefore(acts, p, placeAfter)
    modifies m`agenda, acts`prev, acts`next, newActivation`prev, newActivation`next
    ensures ActsLinked(m.agenda, Spliced(acts, p, newActivation))
  {
    if placeAfter == null {
      newActivation.next := m.agenda;
      m.agenda := newActivation;
      if newActivation.next != null {
        newActivation.next.prev := newActivation;
      }
    } else {
      newActivation.next := placeAfter.next;
      newActivation.prev := placeAfter;
      placeAfter.next := newActivation;
      if newActivation.next != null {
        newActivation.next.prev := newActivation;
      }
    }
  }

  // Picks the insertion point under the strategy in force.
  method ChoosePlace(strategy: Strategy, agenda: Activation?, newActivation: Activation, theGroup: SalienceGroup,
                     ghost acts: seq<Activation>, ghost view: seq<Act>, ghost lo: int, ghost hi: int)
    returns (placeAfter: Activation?, ghost p: int)
    requires Segment(acts, view, theGroup, lo, hi) && theGroup.salience == newActivation.salience
    requires agenda == if acts == [] then null else acts[0]
    requires Orderly(strategy, view, newActivation.View())
    modifies theGroup`first, theGroup`last
    ensures StopsAt(strategy, view, newActivation.View(), lo, hi, p) && IsActBefore(acts, p, placeAfter)
    ensures 0 <= lo <= p <= hi <= |acts|
    ensures theGroup.first == if p == lo then newActivation else old(theGroup.first)
    ensures theGroup.last == if p == hi then newActivation else old(theGroup.last)
  {
    if agenda != null {
      hide Segment, Orderly;
      match strategy {
        case Depth => placeAfter, p := PlaceDepthActivation(newActivation, theGroup, acts, view, lo, hi);
        case Breadth => placeAfter, p := PlaceBreadthActivation(newActivation, theGroup, acts, view, lo, hi);
        case Lex => placeAfter, p := PlaceLEXActivation(newActivation, theGroup, acts, view, lo, hi);
        case Mea => placeAfter, p := PlaceMEAActivation(newActivation, theGroup, acts, view, lo, hi);
        case Complexity => placeAfter, p := PlaceComplexityActivation(newActivation, theGroup, acts, view, lo, hi);
        case Simplicity => placeAfter, p := PlaceSimplicityActivation(newActivation, theGroup, acts, view, lo, hi);
        case Random => placeAfter, p := PlaceRandomActivation(newActivation, theGroup, acts, view, lo, hi);
      }
    } else {
      placeAfter, p := null, 0;
      theGroup.first := newActivation;
      theGroup.last := newActivation;
    }
  }

  lemma OtherGroups(m: DefruleModule, k: nat, hole: int) returns (others: set<SalienceGroup>)
    requires m.Shape(hole) && (hole == k || hole == -1) && k < |m.groups|
    ensures m.groups[k] !in others && OtherEnds(m.acts, m.groups, m.cuts, k, others)
    ensures |m.cuts| == |m.groups| + 1 && GroupEnds(m.acts, m.groups[k], m.cuts[k], m.cuts[k + 1])
    ensures m.agenda == if m.acts == [] then null else m.acts[0]
  {
    others := (set g | g in m.groups) - {m.groups[k]};
    forall l | 0 <= l < |m.groups| && l != k
      ensures m.groups[l] in others && m.cuts[l] < m.cuts[l + 1] &&
                GroupEnds(m.acts, m.groups[l], m.cuts[l], m.cuts[l + 1])
    {
      assert m.groups[l].salience != m.groups[k].salience;
    }
  }

  // Chooses the insertion point and updates group k, so that all groups have the right ends.
  method ChoosePlaceIn(strategy: Strategy, m: DefruleModule, newActivation: Activation, theGroup: SalienceGroup,
                       ghost k: nat, ghost hole: int)
    returns (placeAfter: Activation?, ghost p: nat)
    requires m.Shape(hole) && (hole == k || hole == -1)
    requires k < |m.groups| && m.groups[k] == theGroup && theGroup.salience == newActivation.salience
    requires Orderly(strategy, m.view, newActivation.View())
    modifies theGroup`first, theGroup`last
    ensures StopsAt(strategy, m.view, newActivation.View(), m.cuts[k], m.cuts[k + 1], p) &&
              IsActBefore(m.acts, p, placeAfter)
    ensures m.cuts[k] <= p <= m.cuts[k + 1]
    ensures p <= |m.acts| && Ends(Spliced(m.acts, p, newActivation), m.groups, ShiftUp(m.cuts, k + 1))
  {
    hide Segmented, Falling, GroupsLinked, ActsLinked, Viewed, Ends, Orderly, Segment, IsActBefore, Spliced, ShiftUp;
    hide ActsOf, GroupsOf, OtherEnds, StopsAt;
    SegmentOf(m, k, hole);
    ghost var others := OtherGroups(m, k, hole);
    ghost var lo, hi := m.cuts[k], m.cuts[k + 1];
    placeAfter, p := ChoosePlace(strategy, m.agenda, newActivation, theGroup, m.acts, m.view, lo, hi);
    GroupEndsAfterInsert(m.acts, theGroup, lo, hi, p, newActivation);
    EndsAfterInsert(m.acts, m.view, m.groups, m.cuts, hole, k, p, newActivation, others);
  }

  // Links the activation and records the new sequences.
  method CommitPlace(m: DefruleModule, newActivation: Activation, placeAfter: Activation?, ghost k: nat, ghost p: nat)
    requires ActsLinked(m.agenda, m.acts) && newActivation !in m.acts && newActivation.prev == null
    requires p <= |m.acts| == |m.view| && IsActBefore(m.acts, p, placeAfter)
    requires Viewed(Spliced(m.acts, p, newActivation), Spliced(m.view, p, newActivation.View()))
    requires ActsOf(m, Spliced(m.acts, p, newActivation))
    requires GroupsLinked(m.groupings, m.groups) && Falling(m.groups) && GroupsOf(m, m.groups)
    requires Segmented(Spliced(m.view, p, newActivation.View()), m.groups, ShiftUp(m.cuts, k + 1), -1)
    requires Ends(Spliced(m.acts, p, newActivation), m.groups, ShiftUp(m.cuts, k + 1))
    modifies m`agenda, m`acts, m`view, m`cuts, m.acts`prev, m.acts`next, newActivation`prev, newActivation`next
    ensures m.Valid()
    ensures m.acts == Spliced(old(m.acts), p, newActivation)
    ensures m.view == Spliced(old(m.view), p, newActivation.View())
  {
    hide Segmented, Falling, GroupsLinked, ActsLinked, Viewed, Ends, IsActBefore, Spliced, ShiftUp, ActsOf, GroupsOf;
    LinkActivation(m, newActivation, placeAfter, m.acts, p);
    m.acts, m.view, m.cuts := Spliced(m.acts, p, newActivation), Spliced(m.view, p, newActivation.View()),
        ShiftUp(m.cuts, k + 1);
  }

  /** Places an activation on an agenda.  Group-local placement through the index of salience groups
      is plain sorted insertion into the whole agenda. */
  method PlaceActivation(strategy: Strategy, m: DefruleModule, newActivation: Activation, theGroup: SalienceGroup,
                         ghost k: nat, ghost hole: int)
    returns (ghost p: nat)
    requires m.Shape(hole) && (hole == k || hole == -1)
    requires k < |m.groups| && m.groups[k] == theGroup && theGroup.salience == newActivation.salience
    requires newActivation !in m.acts && newActivation.theRule.whichModule == m && newActivation.prev == null
    requires Orderly(strategy, m.view, newActivation.View())
    modifies m`agenda, m`acts, m`view, m`cuts, m.acts`prev, m.acts`next
    modifies newActivation`prev, newActivation`next, theGroup`first, theGroup`last
    ensures m.Valid()
    ensures p <= |old(m.acts)| && m.acts == Spliced(old(m.acts), p, newActivation)
    ensures m.view == Insert(strategy, old(m.view), newActivation.View())
  {
    hide Segmented, Falling, GroupsLinked, ActsLinked, Viewed, Ends, Orderly, IsActBefore, Spliced, ShiftUp, StopsAt;
    hide ActsOf, GroupsOf;
    var placeAfter;
    placeAfter, p := ChoosePlaceIn(strategy, m, newActivation, theGroup, k, hole);
    ghost var n := newActivation.View();
    StopsWhereInsertDoes(strategy, m.view, m.groups, m.cuts, hole, k, n, p);
    SegmentedAfterInsert(m.view, m.groups, m.cuts, hole, k, p, n);
    SplicedViewed(m.acts, m.view, p, newActivation);
    CommitPlace(m, newActivation, placeAfter, k, p);
  }
}
