/** Adding one activation to a module's agenda, and rebuilding an agenda from nothing. */
module AgendaReorder {
  import opened Ordering
  import opened AgendaSpec
  import opened AgendaHeap
  import opened AgendaGroups
  import opened AgendaPlacement
  import opened AgendaInsertion

  /** Finds or creates the salience group and places the activation: sorted insertion. */
  method PlaceOn(strategy: Strategy, m: DefruleModule, a: Activation)
    requires m.Valid()
    requires a !in m.acts && a.theRule.whichModule == m && a.prev == null
    requires Orderly(strategy, m.view, a.View())
    modifies m, m.acts`prev, m.acts`next, a`prev, a`next, m.groups
    ensures m.Valid()
    ensures m.view == Insert(strategy, old(m.view), a.View())
    ensures |m.acts| == |old(m.acts)| + 1
    ensures forall b :: b in m.acts <==> b in old(m.acts) || b == a
    ensures forall g :: g in m.groups ==> g in old(m.groups) || fresh(g)
  {
    hide Segmented, Falling, GroupsLinked, ActsLinked, Viewed, Ends, ActsOf, GroupsOf, Orderly;
    var theGroup, k := ReuseOrCreateSalienceGroup(m, a.salience);
    ghost var hole: int := if theGroup in old(m.groups) then -1 else k;
    ghost var p := PlaceActivation(strategy, m, a, theGroup, k, hole);
    SplicedMembers(old(m.acts), p, a);
  }

  lemma SplicedMembers<T>(s: seq<T>, p: nat, x: T)
    requires p <= |s|
    ensures forall y :: y in Spliced(s, p, x) <==> y in s || y == x
  {
    var r := Spliced(s, p, x);
    forall y | y in s || y == x ensures y in r {
      if y == x {
        assert r[p] == x;
      } else {
        var i :| 0 <= i < |s| && s[i] == y;
        assert r[if i < p then i else i + 1] == y;
      }
    }
  }

  // What is left of the old list: still linked forwards, nothing of it on the agenda yet.
  ghost predicate Pending(rest: seq<Activation>)
    reads rest`next
  {
    forall j {:trigger rest[j].next} :: 0 <= j < |rest| ==>
        rest[j].next == if j + 1 == |rest| then null else rest[j + 1]
  }

  ghost predicate Waiting(m: DefruleModule, rest: seq<Activation>, acts: seq<Activation>) {
    && (forall i, j :: 0 <= i < j < |rest| ==> rest[i] != rest[j])
    && (forall j :: 0 <= j < |rest| ==> rest[j] !in acts)
    && ActsOf(m, rest)
  }

  lemma PendingTail(rest: seq<Activation>)
    requires rest != [] && Pending(rest)
    ensures Pending(rest[1..])
    ensures rest[0].next == if |rest| == 1 then null else rest[1..][0]
  {
    forall j | 0 <= j < |rest[1..]|
      ensures rest[1..][j].next == if j + 1 == |rest[1..]| then null else rest[1..][j + 1]
    {
      assert rest[1..][j] == rest[j + 1];
      assert rest[j + 1].next == if j + 2 == |rest| then null else rest[j + 2];
    }
  }

  lemma WaitingTail(m: DefruleModule, rest: seq<Activation>, acts: seq<Activation>, acts': seq<Activation>)
    requires rest != [] && Waiting(m, rest, acts)
    requires forall b :: b in acts' ==> b in acts || b == rest[0]
    ensures Waiting(m, rest[1..], acts') && rest[0] !in rest[1..] && rest[0].theRule.whichModule == m &&
              rest[0] !in acts
  {
    forall j | 0 <= j < |rest[1..]| ensures rest[1..][j] !in acts' {
      assert rest[1..][j] == rest[j + 1];
    }
  }

  lemma WaitingMember(m: DefruleModule, rest: seq<Activation>, acts: seq<Activation>)
    requires Waiting(m, rest, acts)
    ensures forall b :: b in rest ==> b !in acts
  {
  }

  // Time tags of what is left are new to the agenda.
  ghost predicate TagsWaiting(view: seq<Act>, rest: seq<Act>) {
    DistinctTags(rest) && forall j :: 0 <= j < |rest| ==> NewTag(view, rest[j])
  }

  lemma TagsStep(s: Strategy, view: seq<Act>, rest: seq<Act>)
    requires rest != [] && Sorted(s, view) && DistinctTags(view) && TagsWaiting(view, rest)
    ensures Orderly(s, view, rest[0])
    ensures Sorted(s, Insert(s, view, rest[0])) && DistinctTags(Insert(s, view, rest[0]))
    ensures TagsWaiting(Insert(s, view, rest[0]), rest[1..])
    ensures InsertAll(s, view, rest) == InsertAll(s, Insert(s, view, rest[0]), rest[1..])
  {
    InsertSorted(s, view, rest[0]);
    var view' := Insert(s, view, rest[0]);
    forall j | 0 <= j < |rest[1..]| ensures NewTag(view', rest[1..][j]) {
      assert rest[1..][j] == rest[j + 1];
      NewTagMultiset(view, view', rest[0], rest[j + 1]);
    }
  }

  lemma ViewedTail(rest: seq<Activation>, view: seq<Act>)
    requires rest != [] && Viewed(rest, view)
    ensures Viewed(rest[1..], view[1..]) && view[0] == rest[0].View()
  {
  }

  lemma LinkedIsPending(m: DefruleModule, head: Activation?, acts: seq<Activation>)
    requires ActsLinked(head, acts) && ActsOf(m, acts)
    ensures Pending(acts) && Waiting(m, acts, [])
    ensures head == if acts == [] then null else acts[0]
  {
  }

  lemma HeadAndTail(all: seq<Activation>, done: seq<Activation>, done': seq<Activation>, rest: seq<Activation>)
    requires rest != []
    requires forall b :: b in all <==> b in done || b in rest
    requires forall b :: b in done' <==> b in done || b == rest[0]
    ensures forall b :: b in all <==> b in done' || b in rest[1..]
  {
    assert rest == [rest[0]] + rest[1..];
  }

  // Empties the agenda; the list of groups is walked to free it.
  method ForgetAgenda(m: DefruleModule) returns (theActivation: Activation?)
    requires GroupsLinked(m.groupings, m.groups)
    modifies m
    ensures theActivation == old(m.agenda)
    ensures m.Valid() && m.acts == [] && m.view == [] && m.groups == []
  {
    theActivation := m.agenda;
    m.agenda := null;
    var theGroup := m.groupings;
    ghost var k := 0;
    while theGroup != null
      invariant k <= |m.groups| && theGroup == if k == |m.groups| then null else m.groups[k]
      invariant GroupsLinked(m.groupings, m.groups)
      decreases |m.groups| - k
    {
      theGroup := theGroup.next;
      k := k + 1;
    }
    m.groupings := null;
    m.acts, m.view, m.groups, m.cuts := [], [], [], [0];
  }

  /** The rebuilding loop's invariant: `rest` (with views `todo`) is still to be placed, and placing
      it will complete `goal`. */
  ghost predicate Rebuilding(s: Strategy, m: DefruleModule, all: seq<Activation>, rest: seq<Activation>, todo: seq<Act>,
                             goal: seq<Act>)
    reads m, m.acts, m.groups, rest
  {
    && m.Valid() && Pending(rest) && Waiting(m, rest, m.acts) && Viewed(rest, todo) && |rest| == |todo|
    && Sorted(s, m.view) && DistinctTags(m.view) && TagsWaiting(m.view, todo)
    && InsertAll(s, m.view, todo) == goal
    && |m.acts| + |rest| == |all|
    && (forall i :: 0 <= i < |m.acts| ==> m.acts[i] in all)
    && (forall b :: b in all ==> b in m.acts || b in rest)
    && (forall b :: b in m.acts ==> b in all) && (forall b :: b in rest ==> b in all)
  }

  // One step of the rebuilding loop.
  method PlaceNext(strategy: Strategy, m: DefruleModule, theActivation: Activation, ghost all: seq<Activation>,
                   ghost rest: seq<Activation>, ghost todo: seq<Act>, ghost goal: seq<Act>)
    returns (tempPtr: Activation?)
    requires rest != [] && rest[0] == theActivation && theActivation in all
    requires Rebuilding(strategy, m, all, rest, todo, goal)
    modifies m, all`prev, all`next, m.groups
    ensures tempPtr == if |rest| == 1 then null else rest[1..][0]
    ensures todo != [] && Rebuilding(strategy, m, all, rest[1..], todo[1..], goal)
    ensures forall k :: 0 <= k < |m.groups| ==> m.groups[k] in old(m.groups) || fresh(m.groups[k])
  {
    hide Segmented, Falling, GroupsLinked, ActsLinked, Viewed, Ends, ActsOf, GroupsOf, Waiting, Pending, Orderly;
    hide Sorted, DistinctTags, TagsWaiting, InsertAll;
    tempPtr := theActivation.next;
    PendingTail(rest);
    ViewedTail(rest, todo);
    TagsStep(strategy, m.view, todo);
    WaitingTail(m, rest, m.acts, m.acts + [rest[0]]);
    WaitingMember(m, rest[1..], m.acts + [rest[0]]);
    ghost var acts := m.acts;
    theActivation.next := null;
    theActivation.prev := null;
    PlaceOn(strategy, m, theActivation);
    WaitingTail(m, rest, acts, m.acts);
    HeadAndTail(all, acts, m.acts, rest);
  }

  lemma StartRebuilding(s: Strategy, m: DefruleModule, rest: seq<Activation>, todo: seq<Act>)
    requires m.Valid() && m.acts == [] && m.view == []
    requires Pending(rest) && Waiting(m, rest, []) && Viewed(rest, todo) && DistinctTags(todo)
    ensures Rebuilding(s, m, rest, rest, todo, Reordered(s, todo))
  {
  }

  lemma EndRebuilding(s: Strategy, m: DefruleModule, all: seq<Activation>, todo: seq<Act>, goal: seq<Act>)
    requires Rebuilding(s, m, all, [], todo, goal)
    ensures m.Valid() && m.view == goal && |m.acts| == |all|
    ensures forall b :: b in m.acts <==> b in all
  {
  }

  /** Rebuilds one agenda under the strategy in force.  It needs the list of activations and their
      saliences only: the groups may be out of step with the saliences, as they are after a refresh. */
  method ReorderModule(strategy: Strategy, m: DefruleModule)
    requires ActsLinked(m.agenda, m.acts) && Viewed(m.acts, m.view) && ActsOf(m, m.acts)
    requires GroupsLinked(m.groupings, m.groups)
    requires DistinctTags(m.view)
    modifies m, m.acts`prev, m.acts`next
    ensures m.Valid()
    ensures m.view == Reordered(strategy, old(m.view))
    ensures |m.acts| == |old(m.acts)|
    ensures forall b :: b in m.acts <==> b in old(m.acts)
    ensures forall g :: g in m.groups ==> fresh(g)
  {
    hide Segmented, Falling, GroupsLinked, ActsLinked, Viewed, Ends, ActsOf, GroupsOf, Waiting, Pending, DistinctTags;
    hide Rebuilding, Reordered;
    ghost var all, rest, todo, goal := m.acts, m.acts, m.view, Reordered(strategy, m.view);
    LinkedIsPending(m, m.agenda, m.acts);
    var theActivation := ForgetAgenda(m);
    StartRebuilding(strategy, m, rest, todo);
    while theActivation != null
      invariant theActivation == if rest == [] then null else rest[0]
      invariant forall b :: b in rest ==> b in all
      invariant Rebuilding(strategy, m, all, rest, todo, goal)
      invariant forall k :: 0 <= k < |m.groups| ==> fresh(m.groups[k])
      decreases |rest|
    {
      theActivation := PlaceNext(strategy, m, theActivation, all, rest, todo, goal);
      rest, todo := rest[1..], todo[1..];
    }
    EndRebuilding(strategy, m, all, todo, goal);
  }
}
