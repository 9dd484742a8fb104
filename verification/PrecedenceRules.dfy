/** Cycles among the rules of inheritance, on classes and on the nodes of the table. */
module PrecedenceRules {
  import opened Options
  import opened Firsts
  import opened Orders
  import opened Precedence
  import opened PrecedenceList

  // A list of classes each of which must come before the one ahead of it, round to the first.
  ghost predicate RuleCycle(h: Hierarchy, table: seq<nat>, cls: Option<nat>, supers: seq<nat>, w: seq<nat>) {
    && |w| > 0 && Precedes(h, table, cls, supers, w[0], w[|w| - 1])
    && forall i :: 0 < i < |w| ==> RuleStep(h, table, cls, supers, w, i)
  }

  ghost predicate RuleStep(h: Hierarchy, table: seq<nat>, cls: Option<nat>, supers: seq<nat>, w: seq<nat>, i: nat)
    requires 0 < i < |w|
  {
    Precedes(h, table, cls, supers, w[i], w[i - 1])
  }

  ghost predicate Contradictory(h: Hierarchy, table: seq<nat>, cls: Option<nat>, supers: seq<nat>) {
    exists w :: RuleCycle(h, table, cls, supers, w)
  }

  // The recorded pairs are those of the rules.
  ghost predicate Records(h: Hierarchy, table: seq<nat>, cls: Option<nat>, supers: seq<nat>, pairs: set<(nat, nat)>) {
    forall p: (nat, nat) :: p in pairs <==> Precedes(h, table, cls, supers, p.0, p.1)
  }

  lemma NodesOfPair(t: PartialOrderTable, c: nat, d: nat)
    requires t.Valid() && (c, d) in t.pairs
    ensures c in t.classes && d in t.classes && NodeOf(t.classes, d) < |t.preds|
    ensures NodeOf(t.classes, c) in t.preds[NodeOf(t.classes, d)]
  {
    assert (c, d).0 in t.classes && (c, d).1 in t.classes;
    assert Paired(t.classes, t.pairs, NodeOf(t.classes, c), NodeOf(t.classes, d));
  }

  lemma PairOfNodes(t: PartialOrderTable, a: nat, j: nat)
    requires t.Valid() && j < |t.preds| && a in t.preds[j]
    ensures a < |t.classes| && j < |t.classes| && (t.classes[a], t.classes[j]) in t.pairs
  {
    assert a < |t.preds|;
    assert Paired(t.classes, t.pairs, a, j);
    var p :| p in t.pairs && p.0 in t.classes && p.1 in t.classes && NodeOf(t.classes, p.0) == a &&
        NodeOf(t.classes, p.1) == j;
    assert p == (t.classes[a], t.classes[j]);
  }

  lemma NodeStepIsRule(t: PartialOrderTable, h: Hierarchy, table: seq<nat>, cls: Option<nat>, supers: seq<nat>, a: nat,
                       j: nat)
    requires t.Valid() && Records(h, table, cls, supers, t.pairs) && j < |t.preds| && a in t.preds[j]
    ensures a < |t.classes| && j < |t.classes| && Precedes(h, table, cls, supers, t.classes[a], t.classes[j])
  {
    hide Precedes;
    PairOfNodes(t, a, j);
    assert Precedes(h, table, cls, supers, (t.classes[a], t.classes[j]).0, (t.classes[a], t.classes[j]).1);
  }

  lemma RuleIsNodeStep(t: PartialOrderTable, h: Hierarchy, table: seq<nat>, cls: Option<nat>, supers: seq<nat>, c: nat,
                       d: nat)
    requires t.Valid() && Records(h, table, cls, supers, t.pairs) && Precedes(h, table, cls, supers, c, d)
    ensures c in t.classes && d in t.classes && NodeOf(t.classes, d) < |t.preds|
    ensures NodeOf(t.classes, c) in t.preds[NodeOf(t.classes, d)]
  {
    hide Precedes;
    assert Precedes(h, table, cls, supers, (c, d).0, (c, d).1);
    NodesOfPair(t, c, d);
  }

  lemma NodeCycleIsRuleCycle(t: PartialOrderTable, h: Hierarchy, table: seq<nat>, cls: Option<nat>, supers: seq<nat>,
                             v: seq<nat>)
    requires t.Valid() && Records(h, table, cls, supers, t.pairs) && IsCycle(t.preds, v) && AllBelow(v, |t.classes|)
    ensures Contradictory(h, table, cls, supers)
  {
    hide Precedes, PartialOrderTable.Valid, Records;
    var w := seq(|v|, i requires 0 <= i < |v| => t.classes[v[i]]);
    forall i | 0 < i < |w| ensures RuleStep(h, table, cls, supers, w, i) {
      assert v[i - 1 + 1] in t.preds[v[i - 1]];
      NodeStepIsRule(t, h, table, cls, supers, v[i], v[i - 1]);
    }
    NodeStepIsRule(t, h, table, cls, supers, v[0], v[|v| - 1]);
    assert RuleCycle(h, table, cls, supers, w);
  }

  lemma RuleCycleIsNodeCycle(t: PartialOrderTable, h: Hierarchy, table: seq<nat>, cls: Option<nat>, supers: seq<nat>,
                             w: seq<nat>)
    requires t.Valid() && Records(h, table, cls, supers, t.pairs) && RuleCycle(h, table, cls, supers, w)
    ensures HasCycle(t.preds)
  {
    hide Precedes, PartialOrderTable.Valid, Records;
    RuleIsNodeStep(t, h, table, cls, supers, w[0], w[|w| - 1]);
    forall i | 0 <= i < |w| ensures w[i] in t.classes {
      if i > 0 {
        assert RuleStep(h, table, cls, supers, w, i);
        RuleIsNodeStep(t, h, table, cls, supers, w[i], w[i - 1]);
      }
    }
    var v := seq(|w|, i requires 0 <= i < |w| => NodeOf(t.classes, w[i]));
    NodesFit(t);
    forall i | 0 <= i < |v| - 1 ensures v[i + 1] in t.preds[v[i]] {
      assert RuleStep(h, table, cls, supers, w, i + 1);
      RuleIsNodeStep(t, h, table, cls, supers, w[i + 1], w[i]);
    }
    assert IsCycle(t.preds, v);
  }

  lemma NodesFit(t: PartialOrderTable)
    requires t.Valid()
    ensures |t.preds| == |t.classes|
  {
  }

  /** The table has a cycle exactly when the rules contradict each other. */
  lemma CyclesAgree(t: PartialOrderTable, h: Hierarchy, table: seq<nat>, cls: Option<nat>, supers: seq<nat>)
    requires t.Valid() && Records(h, table, cls, supers, t.pairs)
    ensures HasCycle(t.preds) <==> Contradictory(h, table, cls, supers)
  {
    if HasCycle(t.preds) {
      var v :| IsCycle(t.preds, v);
      NodesFit(t);
      NodeCycleIsRuleCycle(t, h, table, cls, supers, v);
    }
    if Contradictory(h, table, cls, supers) {
      var w :| RuleCycle(h, table, cls, supers, w);
      RuleCycleIsNodeCycle(t, h, table, cls, supers, w);
    }
  }

  // The classes that take part: all superclasses and their ancestors.
  ghost function Family(h: Hierarchy, supers: seq<nat>): seq<nat>
    requires Defined(h) && AllBelow(supers, |h|)
  {
    Entered(h, [], supers, 0, |h|)
  }

  /** The classes that take part stand in the order of a depth-first walk along all ways up. */
  lemma FamilyInWalkOrder(h: Hierarchy, supers: seq<nat>)
    requires Defined(h) && AllBelow(supers, |h|)
    ensures Family(h, supers) == New({}, UnfoldAll(h, supers, 0, |h|))
  {
    EnteredInOrder(h, [], supers, 0, |h|);
    assert Elems<nat>([]) == {};
  }

  /** A class may not be defined below itself: that contradicts the rules. */
  lemma InheritingFromItself(h: Hierarchy, cls: nat, supers: seq<nat>)
    requires Defined(h) && AllBelow(supers, |h|) && cls in Family(h, supers)
    ensures Contradictory(h, Family(h, supers), Some(cls), supers)
  {
    hide Precedes, Entered;
    var table := Family(h, supers);
    TableExact(h, supers, cls);
    var s :| s in supers && Reaches(h, s, cls);
    var w :| LeadsTo(h, w, s, cls);
    FamilyCloses(h, supers);
    var n := |w|;
    var u := seq(n, i requires 0 <= i < n => w[n - 1 - i]);
    forall i | 0 < i < n ensures RuleStep(h, table, Some(cls), supers, u, i) {
      ClosedReaches(h, table, w, n - 1 - i);
      assert w[n - 1 - i + 1] in h[w[n - 1 - i]];
      SuperclassLater(h, table, Some(cls), supers, w[n - 1 - i], w[n - i]);
    }
    ItselfFirst(h, table, cls, supers, s);
    assert u[0] == cls && u[n - 1] == s;
    assert RuleCycle(h, table, Some(cls), supers, u);
  }

  lemma FamilyCloses(h: Hierarchy, supers: seq<nat>)
    requires Defined(h) && AllBelow(supers, |h|)
    ensures ClosedFrom(h, Family(h, supers), 0) && Unrepeated(Family(h, supers))
    ensures forall k :: 0 <= k < |supers| ==> supers[k] in Family(h, supers)
    ensures AllBelow(Family(h, supers), |h|)
  {
    EnteredCloses(h, [], supers, 0, |h|);
    EnteredGrows(h, [], supers, 0, |h|);
    forall k | 0 <= k < |Family(h, supers)| ensures Family(h, supers)[k] < |h| {
      var d := Family(h, supers)[k];
      TableExact(h, supers, d);
      var s :| s in supers && Reaches(h, s, d);
      var w :| LeadsTo(h, w, s, d);
    }
  }

  lemma SuperclassLater(h: Hierarchy, table: seq<nat>, cls: Option<nat>, supers: seq<nat>, c: nat, d: nat)
    requires c in table && c < |h| && d in h[c]
    ensures Precedes(h, table, cls, supers, c, d)
  {
  }

  lemma ItselfFirst(h: Hierarchy, table: seq<nat>, cls: nat, supers: seq<nat>, s: nat)
    requires s in supers
    ensures Precedes(h, table, Some(cls), supers, cls, s)
  {
  }
}
