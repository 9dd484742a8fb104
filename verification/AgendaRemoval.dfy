/** Taking an activation off the agenda and out of its salience group. */
module AgendaRemoval {
  import opened Ordering
  import opened AgendaHeap
  import opened AgendaGroups
  import opened AgendaInsertion

  // The cuts after group k - 1 move one position to the left.
  ghost function ShiftDown(cuts: seq<nat>, k: nat): (r: seq<nat>)
    ensures |r| == |cuts|
    ensures forall i {:trigger r[i]} :: 0 <= i < |r| ==> r[i] == if i < k || cuts[i] == 0 then cuts[i] else cuts[i] - 1
  {
    seq(|cuts|, i requires 0 <= i < |cuts| => if i < k || cuts[i] == 0 then cuts[i] else cuts[i] - 1)
  }

  lemma UniformAfterRemove(view: seq<Act>, salience: int, lo: int, hi: int, p: nat)
    requires Uniform(view, salience, lo, hi) && p < |view|
    ensures hi <= p ==> Uniform(Cut(view, p), salience, lo, hi)
    ensures p < lo ==> Uniform(Cut(view, p), salience, lo - 1, hi - 1)
    ensures lo <= p < hi ==> Uniform(Cut(view, p), salience, lo, hi - 1)
  {
  }

  // Group k keeps at least one activation.
  lemma SegmentedAfterRemove(view: seq<Act>, groups: seq<SalienceGroup>, cuts: seq<nat>, k: nat, p: nat)
    requires Segmented(view, groups, cuts, -1)
    requires k < |groups| && cuts[k] <= p < cuts[k + 1] && cuts[k] + 1 < cuts[k + 1]
    ensures p < |view| && Segmented(Cut(view, p), groups, ShiftDown(cuts, k + 1), -1)
  {
    assert cuts[k + 1] <= cuts[|groups|];
    var v, c := Cut(view, p), ShiftDown(cuts, k + 1);
    forall l | 0 <= l < |groups| ensures c[l] < c[l + 1] && Uniform(v, groups[l].salience, c[l], c[l + 1]) {
      if l < k { assert cuts[l + 1] <= cuts[k]; } else if l > k { assert cuts[k + 1] <= cuts[l]; }
      UniformAfterRemove(view, groups[l].salience, cuts[l], cuts[l + 1], p);
    }
  }

  // Group k loses its only activation and goes with it.
  lemma SegmentedAfterDrop(view: seq<Act>, groups: seq<SalienceGroup>, cuts: seq<nat>, k: nat, p: nat)
    requires Segmented(view, groups, cuts, -1)
    requires k < |groups| && cuts[k] == p && cuts[k + 1] == p + 1
    ensures p < |view| && Segmented(Cut(view, p), Cut(groups, k), Cut(ShiftDown(cuts, k + 1), k), -1)
  {
    hide Uniform, Cut, ShiftDown;
    assert cuts[k + 1] <= cuts[|groups|];
    var v, g, c := Cut(view, p), Cut(groups, k), Cut(ShiftDown(cuts, k + 1), k);
    forall l | 0 <= l < |g| ensures c[l] < c[l + 1] && Uniform(v, g[l].salience, c[l], c[l + 1]) {
      if l < k {
        assert cuts[l + 1] <= cuts[k] && g[l] == groups[l];
        UniformAfterRemove(view, groups[l].salience, cuts[l], cuts[l + 1], p);
      } else {
        assert cuts[k + 1] <= cuts[l + 1] && g[l] == groups[l + 1];
        UniformAfterRemove(view, groups[l + 1].salience, cuts[l + 1], cuts[l + 2], p);
      }
    }
  }

  lemma EndsAfterRemove(acts: seq<Activation>, view: seq<Act>, groups: seq<SalienceGroup>, cuts: seq<nat>, k: nat,
                        p: nat, others: set<SalienceGroup>)
    requires Segmented(view, groups, cuts, -1) && |acts| == |view| && OtherEnds(acts, groups, cuts, k, others)
    requires cuts[k] <= p < cuts[k + 1] <= |acts| && cuts[k] + 1 < cuts[k + 1]
    requires GroupEnds(Cut(acts, p), groups[k], cuts[k], cuts[k + 1] - 1)
    ensures Ends(Cut(acts, p), groups, ShiftDown(cuts, k + 1))
  {
    var a, c := Cut(acts, p), ShiftDown(cuts, k + 1);
    forall l | 0 <= l < |groups| ensures GroupEnds(a, groups[l], c[l], c[l + 1]) {
      if l < k { assert cuts[l + 1] <= cuts[k]; } else if l > k { assert cuts[k + 1] <= cuts[l]; }
    }
  }

  lemma EndsAfterDrop(acts: seq<Activation>, view: seq<Act>, groups: seq<SalienceGroup>, cuts: seq<nat>, k: nat, p: nat,
                      others: set<SalienceGroup>)
    requires Segmented(view, groups, cuts, -1) && |acts| == |view| && OtherEnds(acts, groups, cuts, k, others)
    requires cuts[k] == p && cuts[k + 1] == p + 1 <= |acts|
    ensures Ends(Cut(acts, p), Cut(groups, k), Cut(ShiftDown(cuts, k + 1), k))
  {
    var a, g, c := Cut(acts, p), Cut(groups, k), Cut(ShiftDown(cuts, k + 1), k);
    forall l | 0 <= l < |g| ensures GroupEnds(a, g[l], c[l], c[l + 1]) {
      if l < k {
        assert cuts[l + 1] <= cuts[k] && g[l] == groups[l];
      } else {
        assert cuts[k + 1] <= cuts[l + 1] && g[l] == groups[l + 1];
      }
    }
  }

  lemma FallingWithout(m: DefruleModule, groups: seq<SalienceGroup>, k: nat)
    requires Falling(groups) && GroupsOf(m, groups) && k < |groups|
    ensures Falling(Cut(groups, k)) && GroupsOf(m, Cut(groups, k))
  {
    var g := Cut(groups, k);
    forall i, j | 0 <= i < j < |g| ensures g[i].salience > g[j].salience {
      assert g[i] == groups[if i < k then i else i + 1];
      assert g[j] == groups[if j < k then j else j + 1];
    }
  }

  // The position of an activation is in the segment of the group with its salience.
  lemma GroupOfPosition(m: DefruleModule, p: nat, k: nat)
    requires m.Valid() && p < |m.acts|
    requires k < |m.groups| && m.groups[k].salience == m.acts[p].salience
    ensures |m.cuts| == |m.groups| + 1 && m.cuts[k] <= p < m.cuts[k + 1] <= |m.acts|
  {
    var l := FindSegment(m.view, m.groups, m.cuts, -1, p);
    assert Uniform(m.view, m.groups[l].salience, m.cuts[l], m.cuts[l + 1]);
    assert m.view[p] == m.acts[p].View();
    assert l == k;
  }

  // Where an activation's salience has a group.
  lemma PositionHasGroup(m: DefruleModule, p: nat) returns (k: nat)
    requires m.Valid() && p < |m.acts|
    ensures k < |m.groups| && m.groups[k].salience == m.acts[p].salience
  {
    k := FindSegment(m.view, m.groups, m.cuts, -1, p);
    assert Uniform(m.view, m.groups[k].salience, m.cuts[k], m.cuts[k + 1]);
    assert m.view[p] == m.acts[p].View();
  }

  // Unlinks group k from the list of groups.
  method UnlinkGroup(m: DefruleModule, theGroup: SalienceGroup, ghost groups: seq<SalienceGroup>, ghost k: nat)
    requires GroupsLinked(m.groupings, groups) && Once(groups, k - 1) && Once(groups, k + 1)
    requires k < |groups| && groups[k] == theGroup
    modifies m`groupings, groups`prev, groups`next
    ensures GroupsLinked(m.groupings, Cut(groups, k))
  {
    if theGroup.prev == null {
      m.groupings := theGroup.next;
    } else {
      theGroup.prev.next := theGroup.next;
    }
    if theGroup.next != null {
      theGroup.next.prev := theGroup.prev;
    }
  }

  // The groups already describe the agenda without position p, which is still linked.
  ghost predicate GroupsAwait(m: DefruleModule, p: nat)
    reads m`groupings, m`groups, m`cuts, m`acts, m`view, m.groups
  {
    && GroupsLinked(m.groupings, m.groups) && Falling(m.groups) && GroupsOf(m, m.groups)
    && p < |m.acts| == |m.view|
    && Segmented(Cut(m.view, p), m.groups, m.cuts, -1)
    && Ends(Cut(m.acts, p), m.groups, m.cuts)
  }

  // The activation is the only one of group k.
  method DropGroup(m: DefruleModule, theGroup: SalienceGroup, ghost k: nat, ghost p: nat)
    requires m.Valid() && k < |m.groups| && m.groups[k] == theGroup
    requires |m.cuts| == |m.groups| + 1 && m.cuts[k] == p && m.cuts[k + 1] == p + 1 <= |m.acts|
    modifies m`groupings, m`groups, m`cuts, m.groups`prev, m.groups`next
    ensures GroupsAwait(m, p)
    ensures m.groups == Cut(old(m.groups), k)
  {
    hide Segmented, Falling, GroupsLinked, ActsLinked, Viewed, Ends, Cut, ShiftDown, ActsOf, GroupsOf, OtherEnds, Once;
    ghost var others := OtherGroups(m, k, -1);
    SegmentedAfterDrop(m.view, m.groups, m.cuts, k, p);
    EndsAfterDrop(m.acts, m.view, m.groups, m.cuts, k, p, others);
    FallingWithout(m, m.groups, k);
    FallingOnce(m.groups, k - 1);
    FallingOnce(m.groups, k + 1);
    UnlinkGroup(m, theGroup, m.groups, k);
    m.groups, m.cuts := Cut(m.groups, k), Cut(ShiftDown(m.cuts, k + 1), k);
  }

  lemma Neighbours(m: DefruleModule, k: nat, p: nat)
    requires m.Valid() && k < |m.groups|
    requires |m.cuts| == |m.groups| + 1 && m.cuts[k] <= p < m.cuts[k + 1] <= |m.acts|
    ensures m.groups[k].first == m.acts[p] <==> p == m.cuts[k]
    ensures m.groups[k].last == m.acts[p] <==> p == m.cuts[k + 1] - 1
    ensures p + 1 < |m.acts| ==> m.acts[p].next == m.acts[p + 1]
    ensures p > 0 ==> m.acts[p].prev == m.acts[p - 1]
  {
    assert GroupEnds(m.acts, m.groups[k], m.cuts[k], m.cuts[k + 1]);
  }

  lemma GroupEndsAfterRemove(acts: seq<Activation>, g: SalienceGroup, lo: int, hi: int, p: nat)
    requires 0 <= lo <= p < hi <= |acts| && lo + 1 < hi
    requires g.first == if p == lo then acts[lo + 1] else acts[lo]
    requires g.last == if p == hi - 1 then acts[hi - 2] else acts[hi - 1]
    ensures GroupEnds(Cut(acts, p), g, lo, hi - 1)
  {
  }

  // The activation is one of several of group k.
  method ShrinkGroup(m: DefruleModule, theGroup: SalienceGroup, theActivation: Activation, ghost k: nat, ghost p: nat)
    requires m.Valid() && k < |m.groups| && m.groups[k] == theGroup
    requires |m.cuts| == |m.groups| + 1 && m.cuts[k] <= p < m.cuts[k + 1] <= |m.acts| && m.acts[p] == theActivation
    requires m.cuts[k] + 1 < m.cuts[k + 1]
    modifies m`cuts, theGroup`first, theGroup`last
    ensures GroupsAwait(m, p)
  {
    hide Segmented, Falling, GroupsLinked, ActsLinked, Viewed, Ends, ShiftDown, ActsOf, GroupsOf, OtherEnds, Cut;
    Neighbours(m, k, p);
    ghost var others := OtherGroups(m, k, -1);
    ghost var lo, hi := m.cuts[k], m.cuts[k + 1];
    if theActivation == theGroup.first {
      theGroup.first := theActivation.next;
    } else if theActivation == theGroup.last {
      theGroup.last := theActivation.prev;
    }
    GroupEndsAfterRemove(m.acts, theGroup, lo, hi, p);
    SegmentedAfterRemove(m.view, m.groups, m.cuts, k, p);
    EndsAfterRemove(m.acts, m.view, m.groups, m.cuts, k, p, others);
    m.cuts := ShiftDown(m.cuts, k + 1);
  }

  method RemoveActivationFromGroup(theActivation: Activation, m: DefruleModule, ghost p: nat)
    requires m.Valid() && p < |m.acts| && m.acts[p] == theActivation
    modifies m`groupings, m`groups, m`cuts, m.groups
    ensures GroupsAwait(m, p)
    ensures forall g :: g in m.groups ==> g in old(m.groups)
  {
    hide Segmented, Falling, GroupsLinked, ActsLinked, Viewed, Ends, Cut, ActsOf, GroupsOf;
    ghost var k := PositionHasGroup(m, p);
    var theGroup := FindSalienceGroup(m, theActivation.salience);
    k :| 0 <= k < |m.groups| && m.groups[k] == theGroup;
    GroupOfPosition(m, p, k);
    Neighbours(m, k, p);
    if theActivation == theGroup.first && theActivation == theGroup.last {
      DropGroup(m, theGroup, k, p);
    } else {
      ShrinkGroup(m, theGroup, theActivation, k, p);
    }
  }

  // The unlinking done by RemoveActivation.
  method UnlinkForRemoval(m: DefruleModule, theActivation: Activation, ghost acts: seq<Activation>, ghost p: nat)
    requires ActsLinked(m.agenda, acts)
    requires p < |acts| && acts[p] == theActivation
    modifies m`agenda, acts`prev, acts`next
    ensures ActsLinked(m.agenda, Cut(acts, p))
    ensures theActivation.next == old(theActivation.next)
  {
    if theActivation.prev == null {
      m.agenda := m.agenda.next;
      if m.agenda != null {
        m.agenda.prev := null;
      }
    } else {
      theActivation.prev.next := theActivation.next;
      if theActivation.next != null {
        theActivation.next.prev := theActivation.prev;
      }
    }
  }

  // The unlinking done by DetachActivation.
  method UnlinkForDetaching(m: DefruleModule, theActivation: Activation, ghost acts: seq<Activation>, ghost p: nat)
    requires ActsLinked(m.agenda, acts)
    requires p < |acts| && acts[p] == theActivation
    modifies m`agenda, acts`prev, acts`next
    ensures ActsLinked(m.agenda, Cut(acts, p))
    ensures theActivation.prev == null && theActivation.next == null
  {
    if theActivation == m.agenda {
      m.agenda := theActivation.next;
    }
    if theActivation.prev != null {
      theActivation.prev.next := theActivation.next;
    }
    if theActivation.next != null {
      theActivation.next.prev := theActivation.prev;
    }
    theActivation.prev := null;
    theActivation.next := null;
  }

  lemma CutViewed(m: DefruleModule, acts: seq<Activation>, view: seq<Act>, p: nat)
    requires Viewed(acts, view) && ActsOf(m, acts) && p < |acts|
    ensures Viewed(Cut(acts, p), Cut(view, p)) && ActsOf(m, Cut(acts, p))
  {
  }

  lemma AwaitMeans(m: DefruleModule, p: nat)
    requires GroupsAwait(m, p)
    ensures GroupsLinked(m.groupings, m.groups) && Falling(m.groups) && GroupsOf(m, m.groups)
    ensures p < |m.acts| == |m.view|
    ensures Segmented(Cut(m.view, p), m.groups, m.cuts, -1) && Ends(Cut(m.acts, p), m.groups, m.cuts)
  {
  }

  // The agenda part of RemoveActivation.
  method TakeOff(m: DefruleModule, theActivation: Activation, ghost p: nat)
    requires m.Valid() && p < |m.acts| && m.acts[p] == theActivation
    modifies m, m.acts`prev, m.acts`next, m.groups
    ensures m.Valid()
    ensures m.acts == Cut(old(m.acts), p) && |old(m.view)| == |old(m.acts)| && m.view == Cut(old(m.view), p)
    ensures forall g :: g in m.groups ==> g in old(m.groups)
    ensures theActivation.next == old(theActivation.next)
  {
    hide Segmented, Falling, GroupsLinked, ActsLinked, Viewed, Ends, Cut, ActsOf, GroupsOf, GroupsAwait;
    RemoveActivationFromGroup(theActivation, m, p);
    CutViewed(m, m.acts, m.view, p);
    UnlinkForRemoval(m, theActivation, m.acts, p);
    AwaitMeans(m, p);
    m.acts, m.view := Cut(m.acts, p), Cut(m.view, p);
  }

  // The agenda part of DetachActivation.
  method TakeOffDetached(m: DefruleModule, theActivation: Activation, ghost p: nat)
    requires m.Valid() && p < |m.acts| && m.acts[p] == theActivation
    modifies m, m.acts`prev, m.acts`next, m.groups
    ensures m.Valid()
    ensures m.acts == Cut(old(m.acts), p) && |old(m.view)| == |old(m.acts)| && m.view == Cut(old(m.view), p)
    ensures forall g :: g in m.groups ==> g in old(m.groups)
    ensures theActivation.prev == null && theActivation.next == null
  {
    hide Segmented, Falling, GroupsLinked, ActsLinked, Viewed, Ends, Cut, ActsOf, GroupsOf, GroupsAwait;
    RemoveActivationFromGroup(theActivation, m, p);
    CutViewed(m, m.acts, m.view, p);
    UnlinkForDetaching(m, theActivation, m.acts, p);
    AwaitMeans(m, p);
    m.acts, m.view := Cut(m.acts, p), Cut(m.view, p);
  }
}
