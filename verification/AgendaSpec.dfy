/** The agenda as a plain sorted sequence, and the runs of the agenda machine over it.

    Nothing here knows about salience groups: `Insert` scans the whole agenda from its front.
    The linked structures of module `AgendaHeap` are proved to compute these functions.
 */
module AgendaSpec {
  import opened Ordering

  ghost predicate DistinctTags(q: seq<Act>) {
    forall i, j :: 0 <= i < j < |q| ==> q[i].timetag != q[j].timetag
  }

  ghost predicate NewTag(q: seq<Act>, n: Act) {
    forall i :: 0 <= i < |q| ==> q[i].timetag != n.timetag
  }

  ghost predicate Sorted(s: Strategy, q: seq<Act>) {
    forall i, j :: 0 <= i < j < |q| ==> Before(s, q[i], q[j])
  }

  // Plain sorted insertion into the whole agenda.
  function Insert(s: Strategy, q: seq<Act>, n: Act): (r: seq<Act>)
    ensures |r| == |q| + 1
  {
    if q == [] || !Before(s, q[0], n) then [n] + q else [q[0]] + Insert(s, q[1..], n)
  }

  function InsertAll(s: Strategy, q: seq<Act>, todo: seq<Act>): (r: seq<Act>)
    ensures |r| == |q| + |todo|
    decreases |todo|
  {
    if todo == [] then q else InsertAll(s, Insert(s, q, todo[0]), todo[1..])
  }

  // Rebuilding an agenda from nothing.
  function Reordered(s: Strategy, q: seq<Act>): (r: seq<Act>)
    ensures |r| == |q|
  {
    InsertAll(s, [], q)
  }

  // ---------------------------------------------------------------- insertion

  // Where a scan stops is where `Insert` puts the newcomer.
  lemma {:induction false} InsertAt(s: Strategy, q: seq<Act>, n: Act, p: nat)
    requires p <= |q|
    requires forall i :: 0 <= i < p ==> Before(s, q[i], n)
    requires p < |q| ==> !Before(s, q[p], n)
    ensures Insert(s, q, n) == q[..p] + [n] + q[p..]
  {
    if p > 0 {
      InsertAt(s, q[1..], n, p - 1);
      assert q[1..][..p - 1] == q[1..p] && q[1..][p - 1..] == q[p..];
      assert [q[0]] + q[1..p] == q[..p];
    }
  }

  // The scan's stopping point exists.
  lemma {:induction false} StoppingPoint(s: Strategy, q: seq<Act>, n: Act) returns (p: nat)
    ensures p <= |q|
    ensures forall i :: 0 <= i < p ==> Before(s, q[i], n)
    ensures p < |q| ==> !Before(s, q[p], n)
  {
    p := 0;
    while p < |q| && Before(s, q[p], n)
      invariant p <= |q|
      invariant forall i :: 0 <= i < p ==> Before(s, q[i], n)
    {
      p := p + 1;
    }
  }

  // In a sorted agenda everything behind the stopping point goes behind the newcomer.
  lemma BehindNewcomer(s: Strategy, q: seq<Act>, n: Act, p: nat)
    requires Sorted(s, q) && DistinctTags(q) && NewTag(q, n)
    requires p <= |q| && (p < |q| ==> !Before(s, q[p], n))
    ensures forall i :: p <= i < |q| ==> Before(s, n, q[i])
  {
    forall i | p <= i < |q| ensures Before(s, n, q[i]) {
      BeforeTotal(s, q[p], n);
      if p < i { BeforeTransitive(s, n, q[p], q[i]); }
    }
  }

  lemma SplicedSorted(s: Strategy, q: seq<Act>, n: Act, p: nat)
    requires Sorted(s, q) && DistinctTags(q) && NewTag(q, n)
    requires p <= |q|
    requires forall i :: 0 <= i < p ==> Before(s, q[i], n)
    requires forall i :: p <= i < |q| ==> Before(s, n, q[i])
    ensures Sorted(s, q[..p] + [n] + q[p..])
    ensures DistinctTags(q[..p] + [n] + q[p..])
    ensures multiset(q[..p] + [n] + q[p..]) == multiset(q) + multiset{n}
  {
    var r := q[..p] + [n] + q[p..];
    assert q == q[..p] + q[p..];
    forall i, j | 0 <= i < j < |r| ensures Before(s, r[i], r[j]) && r[i].timetag != r[j].timetag {
      var i' := if i <= p then i else i - 1;
      var j' := if j <= p then j else j - 1;
      assert i != p ==> r[i] == q[i'];
      assert j != p ==> r[j] == q[j'];
    }
  }

  /** Sorted insertion keeps an agenda sorted, its time tags distinct, and adds one activation. */
  lemma InsertSorted(s: Strategy, q: seq<Act>, n: Act)
    requires Sorted(s, q) && DistinctTags(q) && NewTag(q, n)
    ensures Sorted(s, Insert(s, q, n))
    ensures DistinctTags(Insert(s, q, n))
    ensures multiset(Insert(s, q, n)) == multiset(q) + multiset{n}
  {
    var p := StoppingPoint(s, q, n);
    InsertAt(s, q, n, p);
    BehindNewcomer(s, q, n, p);
    SplicedSorted(s, q, n, p);
  }

  lemma NewTagMultiset(q: seq<Act>, r: seq<Act>, n: Act, x: Act)
    requires multiset(r) == multiset(q) + multiset{n}
    requires NewTag(q, x) && n.timetag != x.timetag
    ensures NewTag(r, x)
  {
    forall i | 0 <= i < |r| ensures r[i].timetag != x.timetag {
      assert r[i] in multiset(r);
      assert r[i] == n || r[i] in multiset(q);
    }
  }

  lemma {:induction false} InsertAllSorted(s: Strategy, q: seq<Act>, todo: seq<Act>)
    requires Sorted(s, q) && DistinctTags(q) && DistinctTags(todo)
    requires forall i :: 0 <= i < |todo| ==> NewTag(q, todo[i])
    ensures Sorted(s, InsertAll(s, q, todo))
    ensures DistinctTags(InsertAll(s, q, todo))
    ensures multiset(InsertAll(s, q, todo)) == multiset(q) + multiset(todo)
    decreases |todo|
  {
    if todo != [] {
      var q' := Insert(s, q, todo[0]);
      InsertSorted(s, q, todo[0]);
      forall i | 0 <= i < |todo[1..]| ensures NewTag(q', todo[1..][i]) {
        NewTagMultiset(q, q', todo[0], todo[i + 1]);
      }
      InsertAllSorted(s, q', todo[1..]);
      assert todo == [todo[0]] + todo[1..];
    }
  }

  /** Reordering sorts: the result is a sorted permutation of what was there. */
  lemma ReorderedSorted(s: Strategy, q: seq<Act>)
    requires DistinctTags(q)
    ensures Sorted(s, Reordered(s, q))
    ensures DistinctTags(Reordered(s, q))
    ensures multiset(Reordered(s, q)) == multiset(q)
  {
    InsertAllSorted(s, [], q);
  }

  // ---------------------------------------------------------------- canonical form

  lemma SortedHead(s: Strategy, a: seq<Act>, x: Act)
    requires Sorted(s, a) && x in multiset(a) && a[0] != x
    ensures Before(s, a[0], x)
  {
    var i :| 0 <= i < |a| && a[i] == x;
  }

  lemma TagsDiffer(a: seq<Act>, x: Act)
    requires DistinctTags(a) && x in multiset(a) && a[0] != x
    ensures a[0].timetag != x.timetag
  {
    var i :| 0 <= i < |a| && a[i] == x;
  }

  lemma SameHead(s: Strategy, a: seq<Act>, b: seq<Act>)
    requires Sorted(s, a) && Sorted(s, b) && DistinctTags(a)
    requires a != [] && b != [] && multiset(a) == multiset(b)
    ensures a[0] == b[0]
  {
    if a[0] != b[0] {
      assert a[0] in multiset(a) && b[0] in multiset(b);
      SortedHead(s, a, b[0]);
      SortedHead(s, b, a[0]);
      TagsDiffer(a, b[0]);
      BeforeTotal(s, a[0], b[0]);
    }
  }

  lemma Tail(s: Strategy, a: seq<Act>)
    requires a != []
    ensures multiset(a[1..]) == multiset(a) - multiset{a[0]}
    ensures Sorted(s, a) ==> Sorted(s, a[1..])
    ensures DistinctTags(a) ==> DistinctTags(a[1..])
  {
    assert a == [a[0]] + a[1..];
  }

  /** The agenda is a canonical form: its exact sequence is decided by which activations it holds
      and by the strategy. */
  lemma {:induction false} Canonical(s: Strategy, a: seq<Act>, b: seq<Act>)
    requires Sorted(s, a) && Sorted(s, b) && DistinctTags(a)
    requires multiset(a) == multiset(b)
    ensures a == b
    decreases |a|
  {
    assert |a| == |multiset(a)| && |b| == |multiset(b)|;
    if a != [] {
      SameHead(s, a, b);
      Tail(s, a);
      Tail(s, b);
      Canonical(s, a[1..], b[1..]);
      assert a == [a[0]] + a[1..] && b == [b[0]] + b[1..];
    }
  }

  /** Reordering forgets the order it started from. */
  lemma ReorderedFromAnyPermutation(s: Strategy, q: seq<Act>, r: seq<Act>)
    requires DistinctTags(q) && DistinctTags(r)
    requires multiset(q) == multiset(r)
    ensures Reordered(s, q) == Reordered(s, r)
  {
    ReorderedSorted(s, q);
    ReorderedSorted(s, r);
    Canonical(s, Reordered(s, q), Reordered(s, r));
  }

  /** Switching to another strategy and back restores the agenda element for element. */
  lemma SwitchAndBack(s: Strategy, other: Strategy, q: seq<Act>)
    requires Sorted(s, q) && DistinctTags(q)
    ensures Reordered(s, Reordered(other, q)) == q
  {
    ReorderedSorted(other, q);
    ReorderedSorted(s, Reordered(other, q));
    Canonical(s, Reordered(s, Reordered(other, q)), q);
  }

  // ---------------------------------------------------------------- removal

  // The agenda without the activations that carry one of the given time tags.
  function Without(q: seq<Act>, gone: set<nat>): (r: seq<Act>)
    ensures |r| <= |q|
  {
    if q == [] then [] else
    var rest := Without(q[..|q| - 1], gone);
    if q[|q| - 1].timetag in gone then rest else rest + [q[|q| - 1]]
  }

  lemma {:induction false} WithoutMember(q: seq<Act>, gone: set<nat>, x: Act)
    ensures x in Without(q, gone) <==> x in q && x.timetag !in gone
  {
    if q != [] {
      WithoutMember(q[..|q| - 1], gone, x);
      assert q == q[..|q| - 1] + [q[|q| - 1]];
    }
  }

  // Removal keeps the rest in order.
  lemma {:induction false} WithoutSorted(s: Strategy, q: seq<Act>, gone: set<nat>)
    requires Sorted(s, q) && DistinctTags(q)
    ensures Sorted(s, Without(q, gone))
    ensures DistinctTags(Without(q, gone))
  {
    if q != [] {
      var n := |q| - 1;
      WithoutSorted(s, q[..n], gone);
      var rest := Without(q[..n], gone);
      forall i | 0 <= i < |rest| ensures Before(s, rest[i], q[n]) && rest[i].timetag != q[n].timetag {
        WithoutMember(q[..n], gone, rest[i]);
        var k :| 0 <= k < n && q[k] == rest[i];
      }
    }
  }

  // ---------------------------------------------------------------- runs

  // Saliences re-evaluated by a refresh; entry i belongs to the i-th activation.
  function Resalienced(q: seq<Act>, sal: seq<int>): (r: seq<Act>)
    requires |sal| == |q|
    ensures |r| == |q|
    ensures forall i :: 0 <= i < |q| ==> r[i] == q[i].(salience := sal[i])
  {
    if q == [] then [] else [q[0].(salience := sal[0])] + Resalienced(q[1..], sal[1..])
  }

  datatype State = State(strategy: Strategy, nextTag: nat, agendas: seq<seq<Act>>)

  // Drop covers removing, detaching, clearing a rule and removing all.
  datatype Step =
    | Add(m: nat, salience: int, complexity: nat, randomID: int, basis: Basis)
    | Drop(m: nat, gone: set<nat>)
    | Reorder(m: nat)
    | RefreshAgenda(m: nat, saliences: seq<int>)
    | SetStrategy(strategy: Strategy)
    | ResetTags

  predicate Enabled(st: State, step: Step) {
    match step
    case Add(m, _, _, _, _) => m < |st.agendas|
    case Drop(m, _) => m < |st.agendas|
    case Reorder(m) => m < |st.agendas|
    case RefreshAgenda(m, sal) => m < |st.agendas| && |sal| == |st.agendas[m]|
    case SetStrategy(_) => true
    case ResetTags => forall m :: 0 <= m < |st.agendas| ==> st.agendas[m] == []
  }

  function ReorderedAll(s: Strategy, qs: seq<seq<Act>>): (r: seq<seq<Act>>)
    ensures |r| == |qs|
    ensures forall m :: 0 <= m < |qs| ==> r[m] == Reordered(s, qs[m])
  {
    if qs == [] then [] else [Reordered(s, qs[0])] + ReorderedAll(s, qs[1..])
  }

  function Next(st: State, step: Step): (st': State)
    requires Enabled(st, step)
    ensures |st'.agendas| == |st.agendas|
  {
    match step
    case Add(m, sal, cplx, rnd, basis) =>
      var a := Act(sal, st.nextTag, cplx, rnd, basis);
      st.(nextTag := st.nextTag + 1, agendas := st.agendas[m := Insert(st.strategy, st.agendas[m], a)])
    case Drop(m, gone) => st.(agendas := st.agendas[m := Without(st.agendas[m], gone)])
    case Reorder(m) => st.(agendas := st.agendas[m := Reordered(st.strategy, st.agendas[m])])
    case RefreshAgenda(m, sal) =>
      st.(agendas := st.agendas[m := Reordered(st.strategy, Resalienced(st.agendas[m], sal))])
    case SetStrategy(s) =>
      if s == st.strategy then st else State(s, st.nextTag, ReorderedAll(s, st.agendas))
    case ResetTags => st.(nextTag := 0)
  }

  // A step that can be made leads from one state to the other.
  ghost predicate StepTo(st: State, step: Step, st': State) {
    Enabled(st, step) && st' == Next(st, step)
  }

  lemma DropTo(st: State, i: nat, gone: set<nat>, st': State)
    requires i < |st.agendas| && st' == st.(agendas := st.agendas[i := Without(st.agendas[i], gone)])
    ensures StepTo(st, Drop(i, gone), st')
  {
  }

  ghost predicate Run(st: State, steps: seq<Step>, st': State)
    decreases |steps|
  {
    if steps == [] then st' == st
    else Enabled(st, steps[0]) && Run(Next(st, steps[0]), steps[1..], st')
  }

  lemma {:induction false} RunThenStep(st: State, steps: seq<Step>, mid: State, step: Step)
    requires Run(st, steps, mid) && Enabled(mid, step)
    ensures Run(st, steps + [step], Next(mid, step))
    decreases |steps|
  {
    hide Next, Enabled;
    if steps == [] {
      assert steps + [step] == [step];
      assert [step][1..] == [];
    } else {
      assert (steps + [step])[1..] == steps[1..] + [step];
      RunThenStep(Next(st, steps[0]), steps[1..], mid, step);
    }
  }

  // The same for a step given by where it leads.
  lemma RunStepTo(st: State, steps: seq<Step>, mid: State, step: Step, st': State)
    requires Run(st, steps, mid) && StepTo(mid, step, st')
    ensures Run(st, steps + [step], st')
  {
    hide Next, Enabled, Run;
    RunThenStep(st, steps, mid, step);
  }

  lemma {:induction false} RunThenRun(st: State, steps: seq<Step>, mid: State, more: seq<Step>, st': State)
    requires Run(st, steps, mid) && Run(mid, more, st')
    ensures Run(st, steps + more, st')
    decreases |steps|
  {
    hide Next, Enabled;
    if steps == [] {
      assert steps + more == more;
    } else {
      assert (steps + more)[1..] == steps[1..] + more;
      RunThenRun(Next(st, steps[0]), steps[1..], mid, more, st');
    }
  }

  lemma RunNone(st: State)
    ensures Run(st, [], st)
  {
  }

  ghost predicate AgendaOk(s: Strategy, nextTag: nat, q: seq<Act>) {
    && Sorted(s, q)
    && DistinctTags(q)
    && forall i :: 0 <= i < |q| ==> q[i].timetag < nextTag
  }

  ghost predicate Ok(st: State) {
    forall m :: 0 <= m < |st.agendas| ==> AgendaOk(st.strategy, st.nextTag, st.agendas[m])
  }

  lemma ReorderedOk(s: Strategy, nextTag: nat, q: seq<Act>)
    requires DistinctTags(q)
    requires forall i :: 0 <= i < |q| ==> q[i].timetag < nextTag
    ensures AgendaOk(s, nextTag, Reordered(s, q))
  {
    ReorderedSorted(s, q);
    var r := Reordered(s, q);
    forall i | 0 <= i < |r| ensures r[i].timetag < nextTag {
      assert r[i] in multiset(r);
      assert r[i] in q;
    }
  }

  lemma InsertOk(s: Strategy, q: seq<Act>, a: Act)
    requires AgendaOk(s, a.timetag, q)
    ensures AgendaOk(s, a.timetag + 1, Insert(s, q, a))
  {
    InsertSorted(s, q, a);
    var r := Insert(s, q, a);
    forall i | 0 <= i < |r| ensures r[i].timetag < a.timetag + 1 {
      assert r[i] in multiset(r);
      assert r[i] == a || r[i] in q;
    }
  }

  lemma WithoutOk(s: Strategy, nextTag: nat, q: seq<Act>, gone: set<nat>)
    requires AgendaOk(s, nextTag, q)
    ensures AgendaOk(s, nextTag, Without(q, gone))
  {
    WithoutSorted(s, q, gone);
    var r := Without(q, gone);
    forall i | 0 <= i < |r| ensures r[i].timetag < nextTag {
      WithoutMember(q, gone, r[i]);
    }
  }

  /** One step of any kind keeps every agenda sorted under the strategy in force, with distinct
      time tags that the counter has already passed. */
  lemma StepKeepsOk(st: State, step: Step)
    requires Ok(st) && Enabled(st, step)
    ensures Ok(Next(st, step))
  {
    var st' := Next(st, step);
    forall m | 0 <= m < |st'.agendas| ensures AgendaOk(st'.strategy, st'.nextTag, st'.agendas[m]) {
      assert AgendaOk(st.strategy, st.nextTag, st.agendas[m]);
      match step {
        case Add(k, sal, cplx, rnd, basis) =>
          if m == k { InsertOk(st.strategy, st.agendas[m], Act(sal, st.nextTag, cplx, rnd, basis)); }
        case Drop(k, gone) =>
          if m == k { WithoutOk(st.strategy, st.nextTag, st.agendas[m], gone); }
        case Reorder(k) =>
          if m == k { ReorderedOk(st.strategy, st.nextTag, st.agendas[m]); }
        case RefreshAgenda(k, sal) =>
          if m == k { ReorderedOk(st.strategy, st.nextTag, Resalienced(st.agendas[m], sal)); }
        case SetStrategy(s) =>
          ReorderedOk(s, st.nextTag, st.agendas[m]);
        case ResetTags =>
      }
    }
  }

  /** Safety over whole runs. */
  lemma {:induction false} RunKeepsOk(st: State, steps: seq<Step>, st': State)
    requires Ok(st) && Run(st, steps, st')
    ensures Ok(st')
    decreases |steps|
  {
    if steps != [] {
      StepKeepsOk(st, steps[0]);
      RunKeepsOk(Next(st, steps[0]), steps[1..], st');
    }
  }

  function Initial(modules: nat): (st: State)
    ensures |st.agendas| == modules
    ensures forall m :: 0 <= m < modules ==> st.agendas[m] == []
  {
    State(Depth, 0, seq(modules, _ => []))
  }

  /** Two histories, however different, that end with the same activations on some agenda and the
      same strategy end with the same sequence there. */
  lemma HistoryIndependent(n: nat, steps1: seq<Step>, st1: State, m1: nat, steps2: seq<Step>, st2: State, m2: nat)
    requires Run(Initial(n), steps1, st1) && Run(Initial(n), steps2, st2)
    requires m1 < |st1.agendas| && m2 < |st2.agendas|
    requires st1.strategy == st2.strategy
    requires multiset(st1.agendas[m1]) == multiset(st2.agendas[m2])
    ensures st1.agendas[m1] == st2.agendas[m2]
  {
    RunKeepsOk(Initial(n), steps1, st1);
    RunKeepsOk(Initial(n), steps2, st2);
    assert AgendaOk(st1.strategy, st1.nextTag, st1.agendas[m1]);
    assert AgendaOk(st2.strategy, st2.nextTag, st2.agendas[m2]);
    Canonical(st1.strategy, st1.agendas[m1], st2.agendas[m2]);
  }
}
