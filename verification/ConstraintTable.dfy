/** The hash table that shares constraint records and counts their uses. */
module ConstraintTable {
  import opened Options
  import opened Constraints

  class ConstraintRecord {
    const content: Constraint
    // Negative while the record is not in the table.
    var bucket: int
    var count: nat

    constructor (content: Constraint)
      ensures this.content == content && bucket == -1 && count == 0
    {
      this.content, bucket, count := content, -1, 0;
    }
  }

  // The chains hold the records, each on the chain of its hash, and no two records are alike.
  ghost predicate OnChains(atomic: AtomicHash, chains: seq<seq<ConstraintRecord>>, records: set<ConstraintRecord>) {
    && |chains| == SIZE_CONSTRAINT_HASH
    && (forall e :: e in records ==> e in chains[HashOf(atomic, e.content)])
    && (forall b :: 0 <= b < |chains| ==> OnChain(atomic, chains[b], b, records))
    && (forall e, f :: e in records && f in records && e.content == f.content ==> e == f)
  }

  ghost predicate OnChain(atomic: AtomicHash, chain: seq<ConstraintRecord>, b: nat, records: set<ConstraintRecord>) {
    && (forall i :: 0 <= i < |chain| ==> chain[i] in records && HashOf(atomic, chain[i].content) == b)
    && (forall i, j :: 0 <= i < j < |chain| ==> chain[i] != chain[j])
  }

  class ConstraintData {
    const atomic: AtomicHash
    var chains: seq<seq<ConstraintRecord>>
    ghost var records: set<ConstraintRecord>

    constructor (atomic: AtomicHash)
      ensures this.atomic == atomic && Valid() && records == {}
    {
      this.atomic := atomic;
      chains := seq(SIZE_CONSTRAINT_HASH, i => []);
      records := {};
    }

    ghost predicate Counted()
      reads this, records
    {
      forall e :: e in records ==> e.count > 0 && e.bucket == HashOf(atomic, e.content)
    }

    ghost predicate Valid()
      reads this, records
    {
      OnChains(atomic, chains, records) && Counted()
    }

    // How often each structure is in use.
    ghost function Uses(): map<Constraint, nat>
      requires Valid()
      reads this, records
    {
      map e | e in records :: e.content := e.count
    }

    lemma Listed(c: Constraint)
      requires Valid()
      ensures c in Uses() <==> exists e :: e in records && e.content == c
      ensures forall e :: e in records && e.content == c ==> Uses()[c] == e.count
    {
    }

    method FindEqual(c: Constraint, hashValue: nat) returns (r: Option<ConstraintRecord>)
      requires Valid() && hashValue == HashOf(atomic, c)
      ensures r.Some? ==> r.value in records && r.value.content == c
      ensures r.None? ==> forall e :: e in records ==> e.content != c
    {
      hide HashOf;
      var chain := chains[hashValue];
      assert OnChain(atomic, chain, hashValue, records);
      var i := 0;
      while i < |chain|
        invariant i <= |chain|
        invariant forall j :: 0 <= j < i ==> chain[j].content != c
      {
        var same := ConstraintCompare(c, chain[i].content);
        if same {
          return Some(chain[i]);
        }
        i := i + 1;
      }
      return None;
    }

    /**
     * Interns a record that is not in the table: the record already there with the same structure gets another
     * use, or else this one goes in.
     */
    method AddConstraint(theConstraint: Option<ConstraintRecord>) returns (r: Option<ConstraintRecord>)
      requires Valid() && (theConstraint.Some? ==> theConstraint.value !in records)
      modifies this, records`count
      modifies (if theConstraint.Some? then {theConstraint.value} else {})
      ensures Valid()
      ensures theConstraint.None? ==> r.None? && records == old(records) && Uses() == old(Uses())
      ensures theConstraint.Some? ==> r.Some? && r.value in records && r.value.content == theConstraint.value.content
      ensures theConstraint.Some? ==> r.value == theConstraint.value || r.value in old(records)
      ensures records == old(records) + if r.Some? then {r.value} else {}
      ensures theConstraint.Some? ==> Uses() == Interned(old(Uses()), theConstraint.value.content)
    {
      hide HashOf, OnChains, Uses, Counted;
      if theConstraint.None? {
        return None;
      }
      var c := theConstraint.value;
      var hashValue := HashConstraint(atomic, c.content);
      r := FindEqual(c.content, hashValue);
      Listed(c.content);
      if r.Some? {
        CountAgain(r.value);
      } else {
        Insert(c, hashValue);
        r := theConstraint;
      }
    }

    method CountAgain(e: ConstraintRecord)
      requires Valid() && e in records
      modifies e`count
      ensures Valid() && e.content in old(Uses())
      ensures Uses() == old(Uses())[e.content := old(Uses())[e.content] + 1]
    {
      hide HashOf, OnChains;
      Apart();
      e.count := e.count + 1;
    }

    lemma Apart()
      requires Valid()
      ensures forall e, f :: e in records && f in records && e.content == f.content ==> e == f
    {
    }

    method Insert(c: ConstraintRecord, hashValue: nat)
      requires Valid() && c !in records && hashValue == HashOf(atomic, c.content)
      requires forall e :: e in records ==> e.content != c.content
      modifies this, c
      ensures Valid() && records == old(records) + {c}
      ensures Uses() == old(Uses())[c.content := 1]
    {
      hide HashOf, OnChains;
      Inserted(atomic, chains, records, c);
      c.count := 1;
      c.bucket := hashValue;
      chains := chains[hashValue := [c] + chains[hashValue]];
      records := records + {c};
      Apart();
    }

    /**
     * Gives back one use of a record. The record leaves the table exactly when that was the last one; a record
     * that is not in the table, whether or not it has a bucket, is left alone.
     */
    method RemoveConstraint(theConstraint: Option<ConstraintRecord>)
      requires Valid() && (theConstraint.Some? ==> theConstraint.value.bucket < SIZE_CONSTRAINT_HASH)
      modifies this, records`count
      ensures Valid()
      ensures theConstraint.None? || theConstraint.value !in old(records) ==>
                records == old(records) && Uses() == old(Uses())
      ensures theConstraint.Some? && theConstraint.value in old(records) ==>
                && theConstraint.value.content in old(Uses())
                && Uses() == GivenBack(old(Uses()), theConstraint.value.content)
                && records == if old(theConstraint.value.count) == 1 then old(records) - {theConstraint.value}
                              else old(records)
    {
      hide HashOf, OnChains, Uses;
      if theConstraint.None? {
        return;
      }
      var c := theConstraint.value;
      if c.bucket < 0 {
        return;
      }
      Listed(c.content);
      var h := c.bucket;
      ChainsAre();
      var k := 0;
      while k < |chains[h]| && chains[h][k] != c
        invariant 0 <= k <= |chains[h]| && c !in chains[h][..k]
        decreases |chains[h]| - k
      {
        k := k + 1;
      }
      if k == |chains[h]| {
        assert chains[h][..k] == chains[h];
        return;
      }
      if c.count == 1 {
        Unlink(c, k);
      } else {
        LoseUse(c);
      }
    }

    // The records of the table are the ones on the chains.
    lemma ChainsAre()
      requires Valid()
      ensures |chains| == SIZE_CONSTRAINT_HASH
      ensures forall e :: e in records ==> 0 <= e.bucket < |chains| && e in chains[e.bucket]
      ensures forall b, k :: 0 <= b < |chains| && 0 <= k < |chains[b]| ==> chains[b][k] in records
    {
      forall b, k | 0 <= b < |chains| && 0 <= k < |chains[b]| ensures chains[b][k] in records {
        assert OnChain(atomic, chains[b], b, records);
      }
    }

    method LoseUse(c: ConstraintRecord)
      requires Valid() && c in records && c.count > 1
      modifies c`count
      ensures Valid() && c.content in old(Uses()) && Uses() == GivenBack(old(Uses()), c.content)
    {
      hide HashOf, OnChains;
      Apart();
      c.count := c.count - 1;
    }

    // The record at position k of its chain loses its last use and leaves the chain.
    method Unlink(c: ConstraintRecord, k: nat)
      requires Valid() && c in records && c.count == 1
      requires 0 <= c.bucket < |chains| && k < |chains[c.bucket]| && chains[c.bucket][k] == c
      modifies this, c`count
      ensures Valid() && c.content in old(Uses()) && Uses() == GivenBack(old(Uses()), c.content)
      ensures records == old(records) - {c}
    {
      hide HashOf, OnChains;
      Apart();
      Unchained(atomic, chains, records, c, k);
      c.count := 0;
      var h := c.bucket;
      chains := chains[h := chains[h][..k] + chains[h][k + 1..]];
      records := records - {c};
    }
  }

  ghost function Interned(m: map<Constraint, nat>, c: Constraint): map<Constraint, nat> {
    m[c := if c in m then m[c] + 1 else 1]
  }

  ghost function GivenBack(m: map<Constraint, nat>, c: Constraint): map<Constraint, nat>
    requires c in m
  {
    if m[c] <= 1 then m - {c} else m[c := m[c] - 1]
  }

  lemma Inserted(atomic: AtomicHash, chains: seq<seq<ConstraintRecord>>, records: set<ConstraintRecord>,
                 c: ConstraintRecord)
    requires OnChains(atomic, chains, records) && c !in records
    requires forall e :: e in records ==> e.content != c.content
    ensures HashOf(atomic, c.content) < |chains|
    ensures var h := HashOf(atomic, c.content); OnChains(atomic, chains[h := [c] + chains[h]], records + {c})
  {
    hide HashOf;
    var h := HashOf(atomic, c.content);
    var more := chains[h := [c] + chains[h]];
    forall b | 0 <= b < |more| ensures OnChain(atomic, more[b], b, records + {c}) {
      assert OnChain(atomic, chains[b], b, records);
    }
    forall e | e in records + {c} ensures e in more[HashOf(atomic, e.content)] {
      if e == c {
        assert more[h][0] == c;
      } else {
        var he := HashOf(atomic, e.content);
        var i :| 0 <= i < |chains[he]| && chains[he][i] == e;
        assert he == h ==> more[h][i + 1] == e;
      }
    }
  }

  lemma Unchained(atomic: AtomicHash, chains: seq<seq<ConstraintRecord>>, records: set<ConstraintRecord>,
                  c: ConstraintRecord, k: nat)
    requires OnChains(atomic, chains, records) && c in records
    requires HashOf(atomic, c.content) < |chains|
    requires k < |chains[HashOf(atomic, c.content)]| && chains[HashOf(atomic, c.content)][k] == c
    ensures var h := HashOf(atomic, c.content);
            OnChains(atomic, chains[h := chains[h][..k] + chains[h][k + 1..]], records - {c})
  {
    hide HashOf;
    var h := HashOf(atomic, c.content);
    var chain := chains[h];
    var less := chains[h := chain[..k] + chain[k + 1..]];
    forall b | 0 <= b < |less| ensures OnChain(atomic, less[b], b, records - {c}) {
      assert OnChain(atomic, chains[b], b, records);
    }
    forall e | e in records - {c} ensures e in less[HashOf(atomic, e.content)] {
      var he := HashOf(atomic, e.content);
      assert e in chains[he];
      if he == h {
        var i :| 0 <= i < |chain| && chain[i] == e;
        assert less[h][if i < k then i else i - 1] == e;
      }
    }
  }

  // ---- Histories ----

  datatype ConstraintStep = Add(c: Constraint) | Remove(c: Constraint)

  ghost predicate RunEnabled(m: map<Constraint, nat>, steps: seq<ConstraintStep>)
    decreases |steps|
  {
    steps == [] ||
    (match steps[0]
     case Add(c) => RunEnabled(Interned(m, c), steps[1..])
     case Remove(c) => c in m && RunEnabled(GivenBack(m, c), steps[1..]))
  }

  ghost function Run(m: map<Constraint, nat>, steps: seq<ConstraintStep>): map<Constraint, nat>
    requires RunEnabled(m, steps)
    decreases |steps|
  {
    if steps == [] then m
    else
      match steps[0]
      case Add(c) => Run(Interned(m, c), steps[1..])
      case Remove(c) => Run(GivenBack(m, c), steps[1..])
  }

  // Adds of a structure minus removes of it.
  ghost function Balance(steps: seq<ConstraintStep>, c: Constraint): int {
    if steps == [] then 0
    else (if steps[0] == Add(c) then 1 else if steps[0] == Remove(c) then -1 else 0) + Balance(steps[1..], c)
  }

  ghost function UsesOf(m: map<Constraint, nat>, c: Constraint): nat {
    if c in m then m[c] else 0
  }

  /** After every run each structure is counted once per add that has not been taken back, and gone at zero. */
  lemma {:induction false} RunCounts(m: map<Constraint, nat>, steps: seq<ConstraintStep>, c: Constraint)
    requires RunEnabled(m, steps) && forall d :: d in m ==> m[d] > 0
    ensures UsesOf(Run(m, steps), c) == UsesOf(m, c) + Balance(steps, c)
    ensures forall d :: d in Run(m, steps) ==> Run(m, steps)[d] > 0
    decreases |steps|
  {
    if steps != [] {
      match steps[0]
      case Add(d) => RunCounts(Interned(m, d), steps[1..], c);
      case Remove(d) => RunCounts(GivenBack(m, d), steps[1..], c);
    }
  }

  // ---- Who gets which record ----

  // A record is handed in, or what an earlier request got is taken back.
  datatype Request = HandIn(r: ConstraintRecord) | TakeBack(k: nat)

  // Before request t, the record handed in by request i has been interned and not been taken back.
  ghost predicate Out(rs: seq<Request>, t: nat, i: nat) {
    i < t <= |rs| && rs[i].HandIn? && TakeBack(i) !in rs[..t]
  }

  // What the source asks of its callers: a record is handed in once, and taken back once and afterwards.
  ghost predicate Proper(rs: seq<Request>) {
    && (forall i, j :: 0 <= i < j < |rs| && rs[i].HandIn? && rs[j].HandIn? ==> rs[i].r != rs[j].r)
    && (forall t :: 0 <= t < |rs| && rs[t].TakeBack? ==> Out(rs, t, rs[t].k))
  }

  // The requests whose records, of this structure, are out before request t.
  ghost function OutOf(rs: seq<Request>, t: nat, c: Constraint): set<nat> {
    set i: nat | i < t && Out(rs, t, i) && rs[i].r.content == c
  }

  ghost function HandedIn(rs: seq<Request>): set<ConstraintRecord> {
    set q | q in rs && q.HandIn? :: q.r
  }

  lemma OutAfterHandIn(rs: seq<Request>, t: nat, c: Constraint)
    requires Proper(rs) && t < |rs| && rs[t].HandIn?
    ensures forall i: nat :: Out(rs, t + 1, i) <==> Out(rs, t, i) || i == t
    ensures OutOf(rs, t + 1, c) == OutOf(rs, t, c) + if rs[t].r.content == c then {t} else {}
    ensures t !in OutOf(rs, t, c)
  {
    assert rs[..t + 1] == rs[..t] + [rs[t]];
    forall j | 0 <= j < t ensures rs[j] != TakeBack(t) {
      assert rs[j].TakeBack? ==> Out(rs, j, rs[j].k);
    }
    assert TakeBack(t) !in rs[..t];
  }

  lemma OutAfterTakeBack(rs: seq<Request>, t: nat, c: Constraint)
    requires Proper(rs) && t < |rs| && rs[t].TakeBack?
    ensures Out(rs, t, rs[t].k)
    ensures forall i: nat :: Out(rs, t + 1, i) <==> Out(rs, t, i) && i != rs[t].k
    ensures OutOf(rs, t + 1, c) == OutOf(rs, t, c) - if rs[rs[t].k].r.content == c then {rs[t].k} else {}
    ensures rs[rs[t].k].r.content == c ==> rs[t].k in OutOf(rs, t, c)
  {
    assert rs[..t + 1] == rs[..t] + [rs[t]];
  }

  type Result = Option<ConstraintRecord>

  // What is out before request t is in the table and of the structure handed in.
  ghost predicate Holding(rs: seq<Request>, t: nat, results: seq<Result>, records: set<ConstraintRecord>) {
    && |results| == t <= |rs|
    && (forall i: nat :: Out(rs, t, i) ==>
          results[i].Some? && results[i].value in records && results[i].value.content == rs[i].r.content)
  }

  // Before request t every structure has as many uses as at the start and adds that are out.
  ghost predicate Tallied(rs: seq<Request>, t: nat, start: map<Constraint, nat>, uses: map<Constraint, nat>) {
    forall c :: UsesOf(uses, c) == UsesOf(start, c) + |OutOf(rs, t, c)|
  }

  /**
   * What request t does to the set of records: one leaves exactly when the request takes it back and its structure has
   * no use left, and one enters only when it is handed in, and then it is the result.
   */
  ghost predicate Passes(rs: seq<Request>, t: nat, results: seq<Result>, start: map<Constraint, nat>,
                         before: set<ConstraintRecord>, after: set<ConstraintRecord>)
    requires t < |rs| && t < |results|
  {
    && (forall e :: e in before ==>
          (e !in after <==>
           rs[t].TakeBack? && rs[t].k < t && results[rs[t].k] == Some(e) &&
           UsesOf(start, e.content) + |OutOf(rs, t + 1, e.content)| == 0))
    && (forall e :: e in after && e !in before ==> rs[t].HandIn? && rs[t].r == e && results[t] == Some(e))
  }

  lemma TalliedHandIn(rs: seq<Request>, t: nat, start: map<Constraint, nat>, uses: map<Constraint, nat>)
    requires Proper(rs) && t < |rs| && rs[t].HandIn? && Tallied(rs, t, start, uses)
    ensures Tallied(rs, t + 1, start, Interned(uses, rs[t].r.content))
  {
    hide Out, Proper, OutOf;
    forall c ensures UsesOf(Interned(uses, rs[t].r.content), c) == UsesOf(start, c) + |OutOf(rs, t + 1, c)| {
      OutAfterHandIn(rs, t, c);
    }
  }

  lemma TalliedTakeBack(rs: seq<Request>, t: nat, start: map<Constraint, nat>, uses: map<Constraint, nat>)
    requires Proper(rs) && t < |rs| && rs[t].TakeBack? && Tallied(rs, t, start, uses)
    ensures Out(rs, t, rs[t].k)
    ensures var c := rs[rs[t].k].r.content; c in uses && Tallied(rs, t + 1, start, GivenBack(uses, c))
  {
    hide OutOf;
    assert Out(rs, t, rs[t].k);
    var d := rs[rs[t].k].r.content;
    OutAfterTakeBack(rs, t, d);
    assert |OutOf(rs, t, d)| > 0;
    forall c ensures UsesOf(GivenBack(uses, d), c) == UsesOf(start, c) + |OutOf(rs, t + 1, c)| {
      OutAfterTakeBack(rs, t, c);
    }
  }

  lemma HandInHeld(rs: seq<Request>, t: nat, results: seq<Result>, start: map<Constraint, nat>,
                   records: set<ConstraintRecord>, e: ConstraintRecord)
    requires Proper(rs) && t < |rs| && rs[t].HandIn? && Holding(rs, t, results, records)
    requires e.content == rs[t].r.content && (e == rs[t].r || e in records)
    ensures Holding(rs, t + 1, results + [Some(e)], records + {e})
    ensures Passes(rs, t, results + [Some(e)], start, records, records + {e})
  {
    hide Proper, OutOf, UsesOf;
    OutAfterHandIn(rs, t, e.content);
  }

  lemma TakeBackHeld(rs: seq<Request>, t: nat, results: seq<Result>, start: map<Constraint, nat>,
                     uses: map<Constraint, nat>, records: set<ConstraintRecord>, e: ConstraintRecord)
    requires Proper(rs) && t < |rs| && rs[t].TakeBack? && Holding(rs, t, results, records)
    requires Out(rs, t, rs[t].k) && results[rs[t].k] == Some(e)
    requires Tallied(rs, t, start, uses) && e.content in uses
    requires forall d, f :: d in records && f in records && d.content == f.content ==> d == f
    ensures var less := if uses[e.content] == 1 then records - {e} else records;
            && Holding(rs, t + 1, results + [None], less)
            && Passes(rs, t, results + [None], start, records, less)
  {
    hide Proper;
    TalliedTakeBack(rs, t, start, uses);
    OutAfterTakeBack(rs, t, e.content);
    if uses[e.content] == 1 {
      forall i: nat | Out(rs, t + 1, i) ensures results[i] != Some(e) {
        NoneOut(rs, t + 1, e.content, i);
      }
    }
  }

  lemma NoneOut(rs: seq<Request>, t: nat, c: Constraint, i: nat)
    requires Out(rs, t, i) && OutOf(rs, t, c) == {}
    ensures rs[i].r.content != c
  {
    assert rs[i].r.content == c ==> i in OutOf(rs, t, c);
  }

  ghost function StepOf(rs: seq<Request>, t: nat): ConstraintStep
    requires Proper(rs) && t < |rs|
  {
    match rs[t]
    case HandIn(r) => Add(r.content)
    case TakeBack(k) => assert Out(rs, t, k); Remove(rs[k].r.content)
  }

  // What the first t requests ask of the structures.
  ghost function StepsOf(rs: seq<Request>, t: nat): seq<ConstraintStep>
    requires Proper(rs) && t <= |rs|
  {
    if t == 0 then [] else StepsOf(rs, t - 1) + [StepOf(rs, t - 1)]
  }

  lemma {:induction false} RunAppend(m: map<Constraint, nat>, steps: seq<ConstraintStep>, s: ConstraintStep)
    requires RunEnabled(m, steps) && (s.Remove? ==> s.c in Run(m, steps))
    ensures RunEnabled(m, steps + [s])
    ensures Run(m, steps + [s]) ==
            match s case Add(c) => Interned(Run(m, steps), c) case Remove(c) => GivenBack(Run(m, steps), c)
    decreases |steps|
  {
    assert (steps + [s])[0] == if steps == [] then s else steps[0];
    assert (steps + [s])[1..] == if steps == [] then [] else steps[1..] + [s];
    if steps != [] {
      match steps[0]
      case Add(d) => RunAppend(Interned(m, d), steps[1..], s);
      case Remove(d) => RunAppend(GivenBack(m, d), steps[1..], s);
    }
  }

  // Each request so far took one set of records to the next.
  ghost predicate Passed(rs: seq<Request>, results: seq<Result>, start: map<Constraint, nat>,
                         held: seq<set<ConstraintRecord>>)
  {
    && |results| <= |rs| && |held| == |results| + 1
    && (forall t {:trigger results[t]} :: 0 <= t < |results| ==>
          Passes(rs, t, results, start, held[t], held[t + 1]))
  }

  lemma PassedOn(rs: seq<Request>, results: seq<Result>, start: map<Constraint, nat>,
                 held: seq<set<ConstraintRecord>>, r: Result, after: set<ConstraintRecord>)
    requires Passed(rs, results, start, held) && |results| < |rs|
    requires Passes(rs, |results|, results + [r], start, held[|results|], after)
    ensures Passed(rs, results + [r], start, held + [after])
  {
    hide OutOf, UsesOf;
    var more, now := results + [r], held + [after];
    forall t | 0 <= t < |more| ensures Passes(rs, t, more, start, now[t], now[t + 1]) {
      if t < |results| {
        assert results[t] == more[t];
        PassesStill(rs, t, results, more, start, held[t], held[t + 1]);
      }
    }
  }

  lemma PassesStill(rs: seq<Request>, t: nat, results: seq<Result>, more: seq<Result>, start: map<Constraint, nat>,
                    before: set<ConstraintRecord>, after: set<ConstraintRecord>)
    requires t < |rs| && t < |results| && results <= more && Passes(rs, t, results, start, before, after)
    ensures Passes(rs, t, more, start, before, after)
  {
    hide OutOf, UsesOf;
  }

  // The uses are those of the run that the first t requests ask for.
  ghost predicate Ran(rs: seq<Request>, t: nat, start: map<Constraint, nat>, uses: map<Constraint, nat>)
    requires Proper(rs) && t <= |rs|
  {
    RunEnabled(start, StepsOf(rs, t)) && uses == Run(start, StepsOf(rs, t))
  }

  lemma RanOn(rs: seq<Request>, t: nat, start: map<Constraint, nat>, uses: map<Constraint, nat>)
    requires Proper(rs) && t < |rs| && Ran(rs, t, start, uses)
    requires rs[t].TakeBack? ==> StepOf(rs, t).c in uses
    ensures rs[t].HandIn? ==> Ran(rs, t + 1, start, Interned(uses, rs[t].r.content))
    ensures rs[t].TakeBack? ==> Out(rs, t, rs[t].k) && Ran(rs, t + 1, start, GivenBack(uses, rs[rs[t].k].r.content))
  {
    RunAppend(start, StepsOf(rs, t), StepOf(rs, t));
  }

  // What is known before request |results|, when the table holds these records with these uses.
  ghost predicate Serving(rs: seq<Request>, results: seq<Result>, start: map<Constraint, nat>,
                          held: seq<set<ConstraintRecord>>, uses: map<Constraint, nat>,
                          records: set<ConstraintRecord>)
    requires Proper(rs)
  {
    var t := |results|;
    && Holding(rs, t, results, records) && Tallied(rs, t, start, uses) && Ran(rs, t, start, uses)
    && Passed(rs, results, start, held)
    && held[t] == records && records <= held[0] + HandedIn(rs[..t])
  }

  lemma ServedHandIn(rs: seq<Request>, results: seq<Result>, start: map<Constraint, nat>,
                     held: seq<set<ConstraintRecord>>, uses: map<Constraint, nat>, records: set<ConstraintRecord>,
                     e: ConstraintRecord)
    requires Proper(rs) && Serving(rs, results, start, held, uses, records)
    requires |results| < |rs| && rs[|results|].HandIn?
    requires e.content == rs[|results|].r.content && (e == rs[|results|].r || e in records)
    ensures Serving(rs, results + [Some(e)], start, held + [records + {e}], Interned(uses, e.content), records + {e})
  {
    hide Proper, Holding, Tallied, Passes, Ran, Interned;
    var t := |results|;
    TalliedHandIn(rs, t, start, uses);
    HandInHeld(rs, t, results, start, records, e);
    PassedOn(rs, results, start, held, Some(e), records + {e});
    RanOn(rs, t, start, uses);
    HandedInMore(rs, t);
  }

  lemma HandedInMore(rs: seq<Request>, t: nat)
    requires t < |rs|
    ensures HandedIn(rs[..t + 1]) == HandedIn(rs[..t]) + if rs[t].HandIn? then {rs[t].r} else {}
  {
    assert rs[..t + 1] == rs[..t] + [rs[t]];
  }

  lemma ServedTakeBack(rs: seq<Request>, results: seq<Result>, start: map<Constraint, nat>,
                       held: seq<set<ConstraintRecord>>, uses: map<Constraint, nat>, records: set<ConstraintRecord>,
                       e: ConstraintRecord)
    requires Proper(rs) && Serving(rs, results, start, held, uses, records)
    requires |results| < |rs| && rs[|results|].TakeBack?
    requires Out(rs, |results|, rs[|results|].k) && results[rs[|results|].k] == Some(e) && e.content in uses
    requires forall d, f :: d in records && f in records && d.content == f.content ==> d == f
    ensures var less := if uses[e.content] == 1 then records - {e} else records;
            Serving(rs, results + [None], start, held + [less], GivenBack(uses, e.content), less)
  {
    hide Proper, Tallied, Passes, Ran, GivenBack;
    var t := |results|;
    var less := if uses[e.content] == 1 then records - {e} else records;
    TalliedTakeBack(rs, t, start, uses);
    TakeBackHeld(rs, t, results, start, uses, records, e);
    PassedOn(rs, results, start, held, None, less);
    RanOn(rs, t, start, uses);
    HandedInMore(rs, t);
  }

  // The records that requests may hand in: none is in the table.
  ghost predicate Fresh(rs: seq<Request>, records: set<ConstraintRecord>) {
    HandedIn(rs) !! records
  }

  lemma HandedInNew(rs: seq<Request>, t: nat)
    requires Proper(rs) && t < |rs| && rs[t].HandIn?
    ensures rs[t].r in HandedIn(rs) && rs[t].r !in HandedIn(rs[..t]) && HandedIn(rs[..t]) <= HandedIn(rs)
  {
    assert rs[t] in rs;
  }

  method ServeOne(table: ConstraintData, rs: seq<Request>, results: seq<Result>, ghost start: map<Constraint, nat>,
                  ghost held: seq<set<ConstraintRecord>>)
    returns (r: Result)
    requires table.Valid() && Proper(rs) && |results| < |rs|
    requires Serving(rs, results, start, held, table.Uses(), table.records) && Fresh(rs, held[0])
    modifies table, table.records`count, HandedIn(rs)
    ensures table.Valid()
    ensures Serving(rs, results + [r], start, held + [table.records], table.Uses(), table.records)
  {
    hide ConstraintData.Valid, ConstraintData.Uses, Tallied, Passes, Passed, Ran, Interned, GivenBack;
    var t := |results|;
    match rs[t] {
      case HandIn(c) =>
        HandedInNew(rs, t);
        ghost var uses, records := table.Uses(), table.records;
        r := table.AddConstraint(Some(c));
        ServedHandIn(rs, results, start, held, uses, records, r.value);
      case TakeBack(k) =>
        assert Out(rs, t, k);
        table.Apart();
        table.Listed(results[k].value.content);
        table.ChainsAre();
        ghost var uses, records := table.Uses(), table.records;
        table.RemoveConstraint(results[k]);
        ServedTakeBack(rs, results, start, held, uses, records, results[k].value);
        r := None;
    }
  }

  /**
   * Serves requests one after the other. In the end two records are out as the same object exactly when the same
   * structure was handed in, each is in the table with one use per add of its structure that is out (and per use there
   * was at the start), and at every request a record left exactly when that number reached zero.
   */
  method Serve(table: ConstraintData, rs: seq<Request>)
    returns (results: seq<Result>, ghost held: seq<set<ConstraintRecord>>)
    requires table.Valid() && Proper(rs) && Fresh(rs, table.records)
    modifies table, table.records`count, HandedIn(rs)
    ensures table.Valid() && |results| == |rs| && |held| == |rs| + 1
    ensures forall i: nat :: Out(rs, |rs|, i) ==> results[i].Some? && results[i].value in table.records
    ensures forall i: nat, j: nat :: Out(rs, |rs|, i) && Out(rs, |rs|, j) ==>
              (results[i] == results[j] <==> rs[i].r.content == rs[j].r.content)
    ensures forall i: nat :: Out(rs, |rs|, i) ==>
              results[i].value.count == UsesOf(old(table.Uses()), rs[i].r.content) +
                                        |OutOf(rs, |rs|, rs[i].r.content)|
    ensures held[0] == old(table.records) && held[|rs|] == table.records
    ensures Passed(rs, results, old(table.Uses()), held)
    ensures Ran(rs, |rs|, old(table.Uses()), table.Uses())
  {
    hide ConstraintData.Valid, ConstraintData.Uses, Passes, Interned, GivenBack, Proper;
    ghost var start := table.Uses();
    results, held := [], [table.records];
    NothingServed(rs, start, table.records);
    while |results| < |rs|
      invariant table.Valid() && |results| <= |rs| && |held| > 0 && held[0] == old(table.records)
      invariant Serving(rs, results, start, held, table.Uses(), table.records)
    {
      var r := ServeOne(table, rs, results, start, held);
      results, held := results + [r], held + [table.records];
    }
    forall i: nat | Out(rs, |rs|, i)
      ensures results[i].Some? && results[i].value in table.records
      ensures results[i].value.count == UsesOf(start, rs[i].r.content) + |OutOf(rs, |rs|, rs[i].r.content)|
    {
      table.Listed(rs[i].r.content);
    }
    table.Apart();
  }

  lemma NothingServed(rs: seq<Request>, start: map<Constraint, nat>, records: set<ConstraintRecord>)
    requires Proper(rs)
    ensures Serving(rs, [], start, [records], start, records)
  {
    hide Proper;
    forall c ensures OutOf(rs, 0, c) == {} {
    }
  }
}
