/** The records of the agenda and their representation invariant.

    An agenda is a doubly linked list of activations.  A second doubly linked list of salience
    groups indexes it: each group points at the first and last activation of its segment.  The
    ghost fields of `DefruleModule` say which sequences the two lists spell and where the groups
    cut the agenda.
 */
module AgendaHeap {
  import opened Ordering

  // `later` lists the disjuncts that follow this one; the source links them by `disjunct`.
  class Defrule {
    const complexity: nat
    const whichModule: DefruleModule
    const disjunct: Defrule?
    ghost const later: seq<Defrule>
    const dynamicSalience: bool
    var salience: int
    var leftMemory: seq<seq<PartialMatch>>

    constructor (complexity: nat, whichModule: DefruleModule, disjunct: Defrule?, dynamicSalience: bool, salience: int)
      requires disjunct != null ==> disjunct.Chained()
      ensures this.complexity == complexity && this.whichModule == whichModule && this.disjunct == disjunct
      ensures this.dynamicSalience == dynamicSalience && this.salience == salience && leftMemory == []
      ensures Chained()
    {
      this.complexity, this.whichModule, this.disjunct := complexity, whichModule, disjunct;
      this.dynamicSalience, this.salience, leftMemory := dynamicSalience, salience, [];
      later := if disjunct == null then [] else [disjunct] + disjunct.later;
    }

    ghost predicate Chained()
      decreases |later|
    {
      if disjunct == null then later == []
      else later == [disjunct] + disjunct.later && |disjunct.later| < |later| && disjunct.Chained()
    }
  }

  class PartialMatch {
    const binds: Basis
    const ownerActivates: bool
    var marker: Activation?

    constructor (binds: Basis, ownerActivates: bool)
      ensures this.binds == binds && this.ownerActivates == ownerActivates && marker == null
    {
      this.binds, this.ownerActivates, marker := binds, ownerActivates, null;
    }
  }

  class Activation {
    const theRule: Defrule
    const basis: PartialMatch
    const timetag: nat
    const randomID: int
    var salience: int
    var prev: Activation?
    var next: Activation?

    constructor (theRule: Defrule, basis: PartialMatch, timetag: nat, salience: int, randomID: int)
      ensures this.theRule == theRule && this.basis == basis && this.timetag == timetag
      ensures this.salience == salience && this.randomID == randomID
      ensures prev == null && next == null
    {
      this.theRule, this.basis, this.timetag := theRule, basis, timetag;
      this.salience, this.randomID := salience, randomID;
      prev, next := null, null;
    }

    // The part of the record that decides its place.
    function View(): Act
      reads this`salience
    {
      Act(salience, timetag, theRule.complexity, randomID, basis.binds)
    }
  }

  class SalienceGroup {
    const salience: int
    ghost const owner: DefruleModule
    var first: Activation?
    var last: Activation?
    var next: SalienceGroup?
    var prev: SalienceGroup?

    constructor (salience: int, ghost owner: DefruleModule, next: SalienceGroup?, prev: SalienceGroup?)
      ensures this.salience == salience && this.owner == owner
      ensures first == null && last == null && this.next == next && this.prev == prev
    {
      this.salience, this.owner := salience, owner;
      first, last := null, null;
      this.next, this.prev := next, prev;
    }
  }

  // ---------------------------------------------------------------- splicing sequences

  ghost function Spliced<T>(s: seq<T>, k: nat, x: T): (r: seq<T>)
    requires k <= |s|
    ensures |r| == |s| + 1
    ensures forall i {:trigger r[i]} :: 0 <= i < |r| ==> r[i] == if i < k then s[i] else if i == k then x else s[i - 1]
  {
    seq(|s| + 1, i requires 0 <= i <= |s| => if i < k then s[i] else if i == k then x else s[i - 1])
  }

  ghost function Cut<T>(s: seq<T>, k: nat): (r: seq<T>)
    requires k < |s|
    ensures |r| == |s| - 1
    ensures forall i {:trigger r[i]} :: 0 <= i < |r| ==> r[i] == if i < k then s[i] else s[i + 1]
  {
    seq(|s| - 1, i requires 0 <= i < |s| - 1 => if i < k then s[i] else s[i + 1])
  }

  // ---------------------------------------------------------------- the two lists

  ghost predicate ActsLinked(agenda: Activation?, acts: seq<Activation>)
    reads acts`prev, acts`next
  {
    && agenda == (if acts == [] then null else acts[0])
    && (forall i, j :: 0 <= i < j < |acts| ==> acts[i] != acts[j])
    && (forall i {:trigger acts[i].prev} :: 0 <= i < |acts| ==> acts[i].prev == if i == 0 then null else acts[i - 1])
    && (forall i {:trigger acts[i].next} :: 0 <= i < |acts| ==>
        acts[i].next == if i + 1 == |acts| then null else acts[i + 1])
  }

  ghost predicate GroupsLinked(groupings: SalienceGroup?, groups: seq<SalienceGroup>)
    reads groups`prev, groups`next
  {
    && groupings == (if groups == [] then null else groups[0])
    && (forall k {:trigger groups[k].prev} :: 0 <= k < |groups| ==>
        groups[k].prev == if k == 0 then null else groups[k - 1])
    && (forall k {:trigger groups[k].next} :: 0 <= k < |groups| ==>
        groups[k].next == if k + 1 == |groups| then null else groups[k + 1])
  }

  ghost predicate Viewed(acts: seq<Activation>, view: seq<Act>)
    reads acts`salience
  {
    && |view| == |acts|
    && forall i :: 0 <= i < |acts| ==> view[i] == acts[i].View()
  }

  ghost predicate Falling(groups: seq<SalienceGroup>) {
    forall k, l :: 0 <= k < l < |groups| ==> groups[k].salience > groups[l].salience
  }

  ghost predicate ActsOf(m: DefruleModule, acts: seq<Activation>) {
    forall i :: 0 <= i < |acts| ==> acts[i].theRule.whichModule == m
  }

  ghost predicate GroupsOf(m: DefruleModule, groups: seq<SalienceGroup>) {
    forall k :: 0 <= k < |groups| ==> groups[k].owner == m
  }

  // ---------------------------------------------------------------- the cuts

  ghost predicate Uniform(view: seq<Act>, salience: int, lo: int, hi: int) {
    0 <= lo <= hi <= |view| && forall i :: lo <= i < hi ==> view[i].salience == salience
  }

  /** The groups cut the agenda into contiguous segments: group k owns positions cuts[k] up to
      cuts[k + 1], and everything there has its salience.  All segments are non-empty, except that
      group `hole` (if any) is empty. */
  ghost predicate Segmented(view: seq<Act>, groups: seq<SalienceGroup>, cuts: seq<nat>, hole: int) {
    && |cuts| == |groups| + 1
    && cuts[0] == 0 && cuts[|groups|] == |view|
    && (forall k, l :: 0 <= k <= l < |cuts| ==> cuts[k] <= cuts[l])
    && (forall k {:trigger groups[k]} :: 0 <= k < |groups| ==>
        if k == hole then cuts[k] == cuts[k + 1] else cuts[k] < cuts[k + 1])
    && (forall k {:trigger groups[k]} :: 0 <= k < |groups| ==> Uniform(view, groups[k].salience, cuts[k], cuts[k + 1]))
  }

  ghost predicate GroupEnds(acts: seq<Activation>, g: SalienceGroup, lo: int, hi: int)
    reads g`first, g`last
  {
    && 0 <= lo <= hi <= |acts|
    && if lo == hi then g.first == null && g.last == null else g.first == acts[lo] && g.last == acts[hi - 1]
  }

  ghost predicate Ends(acts: seq<Activation>, groups: seq<SalienceGroup>, cuts: seq<nat>)
    reads groups`first, groups`last
  {
    && |cuts| == |groups| + 1
    && forall k {:trigger groups[k]} :: 0 <= k < |groups| ==> GroupEnds(acts, groups[k], cuts[k], cuts[k + 1])
  }

  // Every position of the agenda belongs to a group.
  lemma FindSegment(view: seq<Act>, groups: seq<SalienceGroup>, cuts: seq<nat>, hole: int, i: nat) returns (k: nat)
    requires Segmented(view, groups, cuts, hole)
    requires i < |view|
    ensures k < |groups| && cuts[k] <= i < cuts[k + 1]
  {
    k := 0;
    while cuts[k + 1] <= i
      invariant k < |groups| && cuts[k] <= i
      decreases |groups| - k
    {
      k := k + 1;
    }
  }

  // Saliences in front of a group are larger than its own, those behind it smaller.
  lemma OutsideGroup(view: seq<Act>, groups: seq<SalienceGroup>, cuts: seq<nat>, hole: int, k: nat)
    requires Segmented(view, groups, cuts, hole) && Falling(groups)
    requires k < |groups|
    ensures forall i :: 0 <= i < cuts[k] ==> view[i].salience > groups[k].salience
    ensures forall i :: cuts[k + 1] <= i < |view| ==> view[i].salience < groups[k].salience
  {
    forall i | 0 <= i < |view| && !(cuts[k] <= i < cuts[k + 1])
      ensures if i < cuts[k] then view[i].salience > groups[k].salience else view[i].salience < groups[k].salience
    {
      var l := FindSegment(view, groups, cuts, hole, i);
      assert Uniform(view, groups[l].salience, cuts[l], cuts[l + 1]);
      if l < k { assert cuts[l + 1] <= cuts[k]; } else if l > k { assert cuts[k + 1] <= cuts[l]; }
    }
  }

  class DefruleModule {
    var agenda: Activation?
    var groupings: SalienceGroup?

    ghost var acts: seq<Activation>
    ghost var view: seq<Act>
    ghost var groups: seq<SalienceGroup>
    ghost var cuts: seq<nat>

    constructor ()
      ensures Valid() && acts == [] && view == [] && groups == []
    {
      agenda, groupings := null, null;
      acts, view, groups, cuts := [], [], [], [0];
    }

    // The representation, with group `hole` allowed to be empty (-1: none is).
    ghost predicate Shape(hole: int)
      reads this, acts, groups
    {
      && ActsLinked(agenda, acts)
      && Viewed(acts, view) && |view| == |acts|
      && ActsOf(this, acts)
      && GroupsLinked(groupings, groups)
      && Falling(groups)
      && GroupsOf(this, groups)
      && Segmented(view, groups, cuts, hole)
      && Ends(acts, groups, cuts)
    }

    ghost predicate Valid()
      reads this, acts, groups
    {
      Shape(-1)
    }
  }
}
