/** Looking up and creating salience groups. */
module AgendaGroups {
  import opened Ordering
  import opened AgendaHeap

  // The groups in front of a position all have larger saliences than `salience`.
  ghost predicate AllAbove(groups: seq<SalienceGroup>, k: nat, salience: int) {
    k <= |groups| && forall l :: 0 <= l < k ==> groups[l].salience > salience
  }

  // A new group, still empty, takes a cut of its own.
  lemma SegmentedWithHole(view: seq<Act>, groups: seq<SalienceGroup>, cuts: seq<nat>, k: nat, g: SalienceGroup)
    requires Segmented(view, groups, cuts, -1)
    requires k <= |groups|
    ensures Segmented(view, Spliced(groups, k, g), Spliced(cuts, k, cuts[k]), k)
  {
    var gs, cs := Spliced(groups, k, g), Spliced(cuts, k, cuts[k]);
    forall l | 0 <= l < |gs| ensures if l == k then cs[l] == cs[l + 1] else cs[l] < cs[l + 1] {
      if l < k { assert groups[l] == gs[l]; } else if l > k { assert groups[l - 1] == gs[l]; }
    }
    forall l | 0 <= l < |gs| ensures Uniform(view, gs[l].salience, cs[l], cs[l + 1]) {
      if l < k { assert groups[l] == gs[l]; } else if l > k { assert groups[l - 1] == gs[l]; }
    }
  }

  lemma FallingWith(groups: seq<SalienceGroup>, k: nat, g: SalienceGroup)
    requires Falling(groups)
    requires AllAbove(groups, k, g.salience)
    requires k < |groups| ==> groups[k].salience < g.salience
    ensures Falling(Spliced(groups, k, g))
  {
    var gs := Spliced(groups, k, g);
    forall i, j | 0 <= i < j < |gs| ensures gs[i].salience > gs[j].salience {
      var i', j' := if i <= k then i else i - 1, if j <= k then j else j - 1;
      assert i != k ==> gs[i] == groups[i'];
      assert j != k ==> gs[j] == groups[j'];
    }
  }

  lemma EndsWithHole(acts: seq<Activation>, view: seq<Act>, groups: seq<SalienceGroup>, cuts: seq<nat>, k: nat,
                     g: SalienceGroup)
    requires |view| == |acts| && Segmented(view, groups, cuts, -1) && Ends(acts, groups, cuts)
    requires k <= |groups| && g.first == null && g.last == null
    requires Segmented(view, Spliced(groups, k, g), Spliced(cuts, k, cuts[k]), k)
    ensures Ends(acts, Spliced(groups, k, g), Spliced(cuts, k, cuts[k]))
  {
    var gs, cs := Spliced(groups, k, g), Spliced(cuts, k, cuts[k]);
    forall l | 0 <= l < |gs| ensures GroupEnds(acts, gs[l], cs[l], cs[l + 1]) {
      if l < k { assert groups[l] == gs[l]; } else if l > k { assert groups[l - 1] == gs[l]; }
    }
  }

  lemma OwnedWith(m: DefruleModule, groups: seq<SalienceGroup>, k: nat, g: SalienceGroup)
    requires GroupsOf(m, groups) && k <= |groups| && g.owner == m
    ensures GroupsOf(m, Spliced(groups, k, g))
  {
  }

  // The group at a position is at no other position.
  ghost predicate Once(groups: seq<SalienceGroup>, k: int) {
    forall i :: 0 <= i < |groups| && 0 <= k < |groups| && i != k ==> groups[i] != groups[k]
  }

  lemma FallingOnce(groups: seq<SalienceGroup>, k: int)
    requires Falling(groups)
    ensures Once(groups, k)
  {
  }

  // Links a group between its neighbours.
  method LinkGroup(m: DefruleModule, newGroup: SalienceGroup, lastGroup: SalienceGroup?,
                   ghost groups: seq<SalienceGroup>, ghost k: nat)
    requires GroupsLinked(m.groupings, groups) && Once(groups, k) && Once(groups, k - 1)
    requires k <= |groups| && newGroup !in groups
    requires newGroup.next == if k == |groups| then null else groups[k]
    requires newGroup.prev == lastGroup == if k == 0 then null else groups[k - 1]
    modifies m`groupings, groups`prev, groups`next
    ensures GroupsLinked(m.groupings, Spliced(groups, k, newGroup))
  {
    if newGroup.next != null {
      newGroup.next.prev := newGroup;
    }
    if newGroup.prev != null {
      newGroup.prev.next := newGroup;
    }
    if lastGroup == null {
      m.groupings := newGroup;
    }
  }

  // Links a new, still empty group in front of position k.
  method CreateSalienceGroup(m: DefruleModule, salience: int, theGroup: SalienceGroup?, lastGroup: SalienceGroup?,
                             ghost k: nat)
    returns (newGroup: SalienceGroup)
    requires m.Valid()
    requires k <= |m.groups| && AllAbove(m.groups, k, salience)
    requires k < |m.groups| ==> m.groups[k].salience < salience
    requires theGroup == if k == |m.groups| then null else m.groups[k]
    requires lastGroup == if k == 0 then null else m.groups[k - 1]
    modifies m`groupings, m`groups, m`cuts, m.groups`prev, m.groups`next
    ensures m.Shape(k)
    ensures newGroup.salience == salience && fresh(newGroup)
    ensures m.groups == Spliced(old(m.groups), k, newGroup)
  {
    hide ActsLinked, Viewed, GroupsLinked, Falling, Segmented, Ends, AllAbove, ActsOf, Once, GroupsOf, Spliced;
    newGroup := new SalienceGroup(salience, m, theGroup, lastGroup);
    SegmentedWithHole(m.view, m.groups, m.cuts, k, newGroup);
    FallingWith(m.groups, k, newGroup);
    OwnedWith(m, m.groups, k, newGroup);
    EndsWithHole(m.acts, m.view, m.groups, m.cuts, k, newGroup);
    FallingOnce(m.groups, k);
    FallingOnce(m.groups, k - 1);
    ghost var gs, cs := Spliced(m.groups, k, newGroup), Spliced(m.cuts, k, m.cuts[k]);
    LinkGroup(m, newGroup, lastGroup, m.groups, k);
    assert ActsLinked(m.agenda, m.acts) && Viewed(m.acts, m.view);
    assert Ends(m.acts, gs, cs);
    m.groups, m.cuts := gs, cs;
  }

  method ReuseOrCreateSalienceGroup(theRuleModule: DefruleModule, salience: int)
    returns (theGroup: SalienceGroup, ghost k: nat)
    requires theRuleModule.Valid()
    modifies theRuleModule`groupings, theRuleModule`groups, theRuleModule`cuts
    modifies theRuleModule.groups`prev, theRuleModule.groups`next
    ensures k < |theRuleModule.groups| && theRuleModule.groups[k] == theGroup && theGroup.salience == salience
    ensures theGroup in old(theRuleModule.groups) ==>
              theRuleModule.Valid() && theRuleModule.groups == old(theRuleModule.groups)
    ensures theGroup !in old(theRuleModule.groups) ==>
              theRuleModule.Shape(k) && fresh(theGroup) && k <= |old(theRuleModule.groups)| &&
              theRuleModule.groups == Spliced(old(theRuleModule.groups), k, theGroup)
  {
    var lastGroup: SalienceGroup? := null;
    var g := theRuleModule.groupings;
    k := 0;
    while g != null
      invariant AllAbove(theRuleModule.groups, k, salience)
      invariant g == if k == |theRuleModule.groups| then null else theRuleModule.groups[k]
      invariant lastGroup == if k == 0 then null else theRuleModule.groups[k - 1]
      decreases |theRuleModule.groups| - k
    {
      if g.salience == salience {
        theGroup := g;
        return;
      }
      if g.salience < salience {
        break;
      }
      lastGroup, g := g, g.next;
      k := k + 1;
    }
    theGroup := CreateSalienceGroup(theRuleModule, salience, g, lastGroup, k);
  }

  /** Finds the group of a salience if there is one. */
  method FindSalienceGroup(theRuleModule: DefruleModule, salience: int) returns (theGroup: SalienceGroup?)
    requires theRuleModule.Valid()
    ensures theGroup == null <==> forall k :: 0 <= k < |theRuleModule.groups| ==>
              theRuleModule.groups[k].salience != salience
    ensures theGroup != null ==> theGroup in theRuleModule.groups && theGroup.salience == salience
  {
    theGroup := theRuleModule.groupings;
    ghost var k := 0;
    while theGroup != null
      invariant AllAbove(theRuleModule.groups, k, salience)
      invariant theGroup == if k == |theRuleModule.groups| then null else theRuleModule.groups[k]
      decreases |theRuleModule.groups| - k
    {
      if theGroup.salience == salience {
        return;
      }
      if theGroup.salience < salience {
        break;
      }
      theGroup := theGroup.next;
      k := k + 1;
    }
    theGroup := null;
  }
}
