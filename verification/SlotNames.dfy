/** The table of slot names: hashed chains, use counts, and the least unused id for every new name. */
module SlotNames {
  import opened Options
  import opened Shorts

  const SLOT_NAME_TABLE_HASH_SIZE := 167
  const BIG_PRIME := 11329

  // A symbol is identified by its place in the symbol table.
  datatype Symbol = Symbol(contents: string, bucket: nat)

  function HashSlotName(name: Symbol): (h: nat)
    ensures h < SLOT_NAME_TABLE_HASH_SIZE
  {
    name.bucket * BIG_PRIME % SLOT_NAME_TABLE_HASH_SIZE
  }

  class SlotName {
    const name: Symbol
    const hashTableIndex: nat
    const id: int
    var use: nat

    constructor (name: Symbol, id: int)
      ensures this.name == name && this.id == id && hashTableIndex == HashSlotName(name) && use == 1
    {
      this.name, this.id, hashTableIndex, use := name, id, HashSlotName(name), 1;
    }
  }

  // The chains hold the entries, each on the chain of its hash; no two entries have the same name.
  ghost predicate OnChains(chains: seq<seq<SlotName>>, entries: set<SlotName>) {
    && |chains| == SLOT_NAME_TABLE_HASH_SIZE
    && (forall e :: e in entries ==> e.hashTableIndex == HashSlotName(e.name) && e in chains[e.hashTableIndex])
    && (forall b :: 0 <= b < |chains| ==> OnChain(chains[b], b, entries))
    && (forall e, f :: e in entries && f in entries && e.name == f.name ==> e == f)
  }

  ghost predicate OnChain(chain: seq<SlotName>, b: nat, entries: set<SlotName>) {
    && (forall i :: 0 <= i < |chain| ==> chain[i] in entries && chain[i].hashTableIndex == b)
    && (forall i, j :: 0 <= i < j < |chain| ==> chain[i] != chain[j])
  }

  ghost predicate Numbered(entries: set<SlotName>) {
    && (forall e, f :: e in entries && f in entries && e.id == f.id ==> e == f)
    && (forall e :: e in entries ==> 0 <= e.id < SHORT_LIMIT)
  }

  ghost predicate Used(entries: set<SlotName>, id: int) {
    exists e :: e in entries && e.id == id
  }

  // What the table says about a name.
  datatype Entry = Entry(id: int, use: nat)

  ghost predicate NamesOk(m: map<Symbol, Entry>) {
    && (forall a, b :: a in m && b in m && m[a].id == m[b].id ==> a == b)
    && (forall a :: a in m ==> 0 <= m[a].id < SHORT_LIMIT && m[a].use > 0)
  }

  ghost function IdOf(m: map<Symbol, Entry>, name: Symbol): int {
    if name in m then m[name].id else -1
  }

  ghost function NameOf(m: map<Symbol, Entry>, id: int): Option<Symbol> {
    if exists n :: n in m && m[n].id == id then
      var n :| n in m && m[n].id == id; Some(n)
    else None
  }

  lemma NameOfIs(m: map<Symbol, Entry>, name: Symbol, id: int)
    requires NamesOk(m) && name in m && m[name].id == id
    ensures NameOf(m, id) == Some(name)
  {
  }

  /** Looking up the id of a name and the name of an id undo each other, and fail together. */
  lemma LookupsAreInverse(m: map<Symbol, Entry>, name: Symbol, id: int)
    requires NamesOk(m) && id >= 0
    ensures IdOf(m, name) == id <==> NameOf(m, id) == Some(name)
    ensures NameOf(m, id) == None <==> forall n :: n in m ==> IdOf(m, n) != id
  {
    if name in m {
      NameOfIs(m, name, m[name].id);
    }
  }

  class SlotNameTable {
    var chains: seq<seq<SlotName>>
    ghost var entries: set<SlotName>

    constructor ()
      ensures Valid() && entries == {}
    {
      chains := seq(SLOT_NAME_TABLE_HASH_SIZE, i => []);
      entries := {};
    }

    ghost predicate Chained()
      reads this
    {
      OnChains(chains, entries)
    }

    ghost predicate Valid()
      reads this, entries
    {
      Chained() && Numbered(entries) && forall e :: e in entries ==> e.use > 0
    }

    ghost function Abs(): map<Symbol, Entry>
      requires Chained()
      reads this, entries
    {
      map e | e in entries :: e.name := Entry(e.id, e.use)
    }

    // ---- Lookups ----

    method FindEntry(name: Symbol) returns (snp: Option<SlotName>)
      requires Chained()
      ensures snp.Some? ==> snp.value in entries && snp.value.name == name
      ensures snp.None? ==> forall e :: e in entries ==> e.name != name
    {
      var chain := chains[HashSlotName(name)];
      var i := 0;
      while i < |chain| && chain[i].name != name
        invariant i <= |chain|
        invariant forall j :: 0 <= j < i ==> chain[j].name != name
      {
        i := i + 1;
      }
      snp := if i < |chain| then Some(chain[i]) else None;
    }

    /** The id of a name, or -1 for a name that is not in the table. */
    method FindSlotNameID(name: Symbol) returns (id: int)
      requires Valid()
      ensures id == IdOf(Abs(), name)
    {
      var snp := FindEntry(name);
      id := if snp.Some? then snp.value.id else -1;
    }

    /** The entry with an id, if there is one. */
    method FindIDSlotNameHash(id: int) returns (snp: Option<SlotName>)
      requires Chained()
      ensures snp.Some? ==> snp.value in entries && snp.value.id == id
      ensures snp.None? <==> !Used(entries, id)
    {
      var i := 0;
      while i < SLOT_NAME_TABLE_HASH_SIZE
        invariant 0 <= i <= SLOT_NAME_TABLE_HASH_SIZE
        invariant forall e :: e in entries && e.hashTableIndex < i ==> e.id != id
      {
        var k := 0;
        while k < |chains[i]|
          invariant k <= |chains[i]|
          invariant forall j :: 0 <= j < k ==> chains[i][j].id != id
        {
          if chains[i][k].id == id {
            return Some(chains[i][k]);
          }
          k := k + 1;
        }
        i := i + 1;
      }
      return None;
    }

    /** The name with an id, if there is one. */
    method FindIDSlotName(id: int) returns (name: Option<Symbol>)
      requires Valid()
      ensures name == NameOf(Abs(), id)
    {
      hide OnChains;
      var snp := FindIDSlotNameHash(id);
      name := if snp.Some? then Some(snp.value.name) else None;
      AbsIsOk();
      if snp.Some? {
        Listed(snp.value.name);
        NameOfIs(Abs(), snp.value.name, id);
      } else {
        forall n | n in Abs() ensures Abs()[n].id != id {
          Listed(n);
        }
      }
    }

    lemma NoNames()
      requires Chained() && entries == {}
      ensures Abs() == map[]
    {
    }

    lemma UsedIsTaken()
      requires Chained()
      ensures forall id :: Used(entries, id) <==> IdTaken(Abs(), id)
    {
      forall id ensures Used(entries, id) <==> IdTaken(Abs(), id) {
        if Used(entries, id) {
          var e :| e in entries && e.id == id;
          assert e.name in Abs();
        }
      }
    }

    lemma AbsIsOk()
      requires Valid()
      ensures NamesOk(Abs())
    {
    }

    /** The least id that no name has. It is never more than the number of names. */
    method NewSlotNameID() returns (newid: nat)
      requires Chained()
      ensures !Used(entries, newid) && forall k :: 0 <= k < newid ==> Used(entries, k)
      ensures newid <= |entries| && (Numbered(entries) ==> newid <= SHORT_LIMIT)
    {
      newid := 0;
      ghost var above := entries;
      while true
        invariant forall k :: 0 <= k < newid ==> Used(entries, k)
        invariant above <= entries && newid + |above| <= |entries|
        invariant forall e :: e in entries && e.id >= newid ==> e in above
        decreases |above|
      {
        var snp := FindIDSlotNameHash(newid);
        if snp == None {
          break;
        }
        ghost var rest := set e | e in above && e.id != newid;
        FewerLeft(rest, above, snp.value);
        above := rest;
        newid := newid + 1;
      }
      assert Numbered(entries) ==> !Used(entries, SHORT_LIMIT);
    }

    // ---- Changes ----

    /**
     * Interns a name: counts another use of a known name, or enters a new one with the id that is asked for or
     * with the least unused id. Asking for another id than the one a name has is a system error (None). The
     * table stays valid, and this is a step of a history, exactly when what a 16-bit field keeps of the new id is
     * not negative and nobody else's; for the least unused id that is when fewer than 32768 names are in the table.
     */
    method AddSlotName(name: Symbol, newid: int, usenewid: bool) returns (snp: Option<SlotName>, ghost chosen: int)
      requires Chained()
      modifies this, entries`use
      ensures Chained()
      ensures snp.None? <==> name in old(Abs()) && usenewid && newid != old(Abs())[name].id
      ensures snp.None? ==> Abs() == old(Abs()) && (Valid() <==> old(Valid()))
      ensures snp.Some? ==> snp.value in entries && snp.value.name == name
      ensures snp.Some? && name in old(Abs()) ==>
                Abs() == old(Abs())[name := Entry(old(Abs())[name].id, old(Abs())[name].use + 1)]
      ensures snp.Some? && name in old(Abs()) ==> (old(Valid()) ==> Valid())
      ensures name !in old(Abs()) ==> Abs() == old(Abs())[name := Entry(ToShort(chosen), 1)]
      ensures name !in old(Abs()) ==> snp.Some? && snp.value.id == ToShort(chosen)
      ensures name !in old(Abs()) ==> if usenewid then chosen == newid else LeastUnused(old(Abs()), chosen)
      ensures old(Valid()) && name !in old(Abs()) && usenewid ==> (Valid() <==> FreeId(old(Abs()), ToShort(newid)))
      ensures old(Valid()) && name !in old(Abs()) && !usenewid ==> (Valid() <==> |old(entries)| < SHORT_LIMIT)
      ensures old(Valid()) ==>
                (snp.Some? && Valid() <==>
                 NameStepOf(old(Abs()), if usenewid then AddNameAs(name, newid) else AddName(name), Abs()))
      ensures old(Valid()) && name !in old(Abs()) && !usenewid ==>
                (|old(entries)| < SHORT_LIMIT <==> chosen < SHORT_LIMIT) && chosen <= SHORT_LIMIT
      ensures name !in old(Abs()) ==> |entries| == |old(entries)| + 1
      ensures old(entries) <= entries && forall e :: e in entries ==> e in old(entries) || fresh(e)
    {
      hide Chained, Abs, ToShort, Numbered, LeastUnused, FreeId;
      chosen := newid;
      snp := FindEntry(name);
      Listed(name);
      if snp.Some? {
        if usenewid && newid != snp.value.id {
          return None, newid;
        }
        UseAgain(snp.value);
      } else {
        var entry;
        entry, chosen := EnterNew(name, newid, usenewid);
        snp := Some(entry);
      }
    }

    // Puts a new name in the table, with the least unused id or the one asked for.
    method EnterNew(name: Symbol, newid: int, usenewid: bool) returns (entry: SlotName, ghost chosen: int)
      requires Chained() && name !in Abs()
      modifies this
      ensures Chained() && fresh(entry) && entry.name == name && entries == old(entries) + {entry}
      ensures Abs() == old(Abs())[name := Entry(ToShort(chosen), 1)] && entry.id == ToShort(chosen)
      ensures if usenewid then chosen == newid else LeastUnused(old(Abs()), chosen)
      ensures old(Valid()) && usenewid ==> (Valid() <==> FreeId(old(Abs()), ToShort(newid)))
      ensures old(Valid()) && !usenewid ==> (Valid() <==> |old(entries)| < SHORT_LIMIT)
      ensures old(Valid()) && !usenewid ==>
                (|old(entries)| < SHORT_LIMIT <==> chosen < SHORT_LIMIT) && chosen <= SHORT_LIMIT
      ensures old(Valid()) ==>
                (Valid() <==> NameStepOf(old(Abs()), if usenewid then AddNameAs(name, newid) else AddName(name), Abs()))
    {
      hide Chained, Abs, ToShort;
      Listed(name);
      UsedIsTaken();
      var id := newid;
      if !usenewid {
        id := NewSlotNameID();
        if Valid() {
          ShortId(id);
          RoomForId(entries, id);
        }
      }
      chosen := id;
      entry := Enter(name, ToShort(id));
    }

    // A name is in the table when an entry has it.
    lemma Listed(name: Symbol)
      requires Chained()
      ensures name in Abs() <==> exists e :: e in entries && e.name == name
      ensures forall e :: e in entries && e.name == name ==> Abs()[name] == Entry(e.id, e.use)
    {
    }

    method UseAgain(entry: SlotName)
      requires Chained() && entry in entries
      modifies entry`use
      ensures Chained() && entry.name in old(Abs()) && (old(Valid()) ==> Valid())
      ensures Abs() == old(Abs())[entry.name := Entry(entry.id, old(entry.use) + 1)]
    {
      entry.use := entry.use + 1;
    }

    method Enter(name: Symbol, id: int) returns (entry: SlotName)
      requires Chained() && forall e :: e in entries ==> e.name != name
      modifies this
      ensures Chained() && fresh(entry) && entry.name == name && entry.id == id && entries == old(entries) + {entry}
      ensures Abs() == old(Abs())[name := Entry(id, 1)]
      ensures old(Valid()) ==> (Valid() <==> 0 <= id < SHORT_LIMIT && !Used(old(entries), id))
    {
      hide OnChains, Numbered;
      entry := new SlotName(name, id);
      Entered(chains, entries, entry);
      if Numbered(entries) {
        EnteredNumbered(entries, entry);
      }
      chains := chains[entry.hashTableIndex := [entry] + chains[entry.hashTableIndex]];
      entries := entries + {entry};
      NamesApart();
    }

    /** Gives back one use of an entry; the last one takes the entry out of the table. */
    method DeleteSlotName(slotName: Option<SlotName>)
      requires Valid() && (slotName.Some? ==> slotName.value in entries)
      modifies this, entries`use
      ensures Valid()
      ensures slotName.None? ==> Abs() == old(Abs()) && entries == old(entries)
      ensures entries <= old(entries)
      ensures slotName.Some? ==> NameStepOf(old(Abs()), DeleteName(slotName.value.name), Abs())
    {
      hide OnChains, Numbered;
      if slotName.None? {
        return;
      }
      var snp := slotName.value;
      Listed(snp.name);
      NamesApart();
      snp.use := snp.use - 1;
      if snp.use != 0 {
        return;
      }
      Unchain(snp);
    }

    method Unchain(snp: SlotName)
      requires Chained() && Numbered(entries) && snp in entries
      modifies this
      ensures Chained() && Numbered(entries) && entries == old(entries) - {snp}
      ensures Abs() == old(Abs()) - {snp.name}
    {
      hide OnChains, Numbered;
      NamesApart();
      InChain(chains, entries, snp);
      var h := snp.hashTableIndex;
      var k := 0;
      while chains[h][k] != snp
        invariant 0 <= k < |chains[h]| && snp in chains[h][k..]
        decreases |chains[h]| - k
      {
        k := k + 1;
      }
      Unchained(chains, entries, snp, k);
      FewerNumbered(entries, snp);
      chains := chains[h := chains[h][..k] + chains[h][k + 1..]];
      entries := entries - {snp};
    }

    // Two names with one id, and a negative one at that.
    lemma SharedId(e: SlotName, f: SlotName)
      requires e in entries && f in entries && e.id == f.id && e.id < 0
      ensures !Valid()
    {
    }

    lemma NamesApart()
      requires Chained()
      ensures forall e, f :: e in entries && f in entries && e.name == f.name ==> e == f
    {
    }
  }

  lemma Entered(chains: seq<seq<SlotName>>, entries: set<SlotName>, entry: SlotName)
    requires OnChains(chains, entries) && entry !in entries && entry.hashTableIndex == HashSlotName(entry.name)
    requires forall e :: e in entries ==> e.name != entry.name
    ensures entry.hashTableIndex < |chains|
    ensures OnChains(chains[entry.hashTableIndex := [entry] + chains[entry.hashTableIndex]], entries + {entry})
  {
    var h := entry.hashTableIndex;
    var more := chains[h := [entry] + chains[h]];
    forall b | 0 <= b < |more| ensures OnChain(more[b], b, entries + {entry}) {
      assert OnChain(chains[b], b, entries);
    }
    forall e | e in entries + {entry} ensures e in more[e.hashTableIndex] {
      if e == entry {
        assert more[h][0] == entry;
      } else {
        assert e in chains[e.hashTableIndex];
        var i :| 0 <= i < |chains[e.hashTableIndex]| && chains[e.hashTableIndex][i] == e;
        assert e.hashTableIndex == h ==> more[h][i + 1] == e;
      }
    }
  }

  lemma FewerNumbered(entries: set<SlotName>, snp: SlotName)
    requires Numbered(entries)
    ensures Numbered(entries - {snp})
  {
  }

  lemma InChain(chains: seq<seq<SlotName>>, entries: set<SlotName>, e: SlotName)
    requires OnChains(chains, entries) && e in entries
    ensures e.hashTableIndex < |chains| && e in chains[e.hashTableIndex]
  {
  }

  lemma Unchained(chains: seq<seq<SlotName>>, entries: set<SlotName>, snp: SlotName, k: nat)
    requires OnChains(chains, entries) && snp in entries
    requires snp.hashTableIndex < |chains| && k < |chains[snp.hashTableIndex]| && chains[snp.hashTableIndex][k] == snp
    ensures var h := snp.hashTableIndex;
            OnChains(chains[h := chains[h][..k] + chains[h][k + 1..]], entries - {snp})
  {
    var h := snp.hashTableIndex;
    var chain := chains[h];
    var less := chains[h := chain[..k] + chain[k + 1..]];
    forall b | 0 <= b < |less| ensures OnChain(less[b], b, entries - {snp}) {
      assert OnChain(chains[b], b, entries);
    }
    forall e | e in entries - {snp} ensures e in less[e.hashTableIndex] {
      assert e in chains[e.hashTableIndex];
      if e.hashTableIndex == h {
        var i :| 0 <= i < |chain| && chain[i] == e;
        assert less[h][if i < k then i else i - 1] == e;
      }
    }
  }

  lemma EnteredNumbered(entries: set<SlotName>, entry: SlotName)
    requires Numbered(entries) && entry !in entries
    ensures Numbered(entries + {entry}) <==> 0 <= entry.id < SHORT_LIMIT && !Used(entries, entry.id)
  {
    if Used(entries, entry.id) {
      var e :| e in entries && e.id == entry.id;
      assert e in entries + {entry} && entry in entries + {entry};
    }
  }

  lemma FewerLeft(rest: set<SlotName>, above: set<SlotName>, e: SlotName)
    requires rest <= above && e in above && e !in rest
    ensures |rest| < |above|
  {
    assert rest <= above - {e};
    SubsetSmaller(rest, above - {e});
  }

  lemma {:induction false} SubsetSmaller(a: set<SlotName>, b: set<SlotName>)
    requires a <= b
    ensures |a| <= |b|
  {
    assert b == a + (b - a);
  }

  // ---- Room for ids ----

  ghost function IdsBelow(n: nat): (r: set<int>)
    ensures |r| == n && forall k :: k in r <==> 0 <= k < n
  {
    if n == 0 then {} else IdsBelow(n - 1) + {n - 1}
  }

  lemma {:induction false} DistinctIdsFit(entries: set<SlotName>, ids: set<int>)
    requires forall e :: e in entries ==> e.id in ids
    requires forall e, f :: e in entries && f in entries && e.id == f.id ==> e == f
    ensures |entries| <= |ids|
    decreases |entries|
  {
    if entries != {} {
      var e :| e in entries;
      DistinctIdsFit(entries - {e}, ids - {e.id});
    }
  }

  // The least unused id is below the limit exactly when there are fewer names than ids.
  lemma RoomForId(entries: set<SlotName>, newid: nat)
    requires Numbered(entries) && !Used(entries, newid) && newid <= |entries|
    ensures newid < SHORT_LIMIT <==> |entries| < SHORT_LIMIT
  {
    hide IdsBelow;
    if newid < SHORT_LIMIT {
      var ids := IdsBelow(SHORT_LIMIT) - {newid};
      assert |ids| == SHORT_LIMIT - 1;
      DistinctIdsFit(entries, ids);
    }
  }

  // ---- Histories ----

  datatype NameStep = AddName(name: Symbol) | AddNameAs(name: Symbol, newid: int) | DeleteName(name: Symbol)

  // One interning or giving back of a name, as the table above does it.
  ghost predicate NameStepOf(m: map<Symbol, Entry>, step: NameStep, n: map<Symbol, Entry>) {
    match step
    case AddName(name) =>
      if name in m then n == UsedAgain(m, name)
      else name in n && n == m[name := Entry(n[name].id, 1)] && LeastUnused(m, n[name].id) && n[name].id < SHORT_LIMIT
    case AddNameAs(name, newid) =>
      if name in m then newid == m[name].id && n == UsedAgain(m, name)
      else FreeId(m, ToShort(newid)) && n == m[name := Entry(ToShort(newid), 1)]
    case DeleteName(name) =>
      && name in m
      && n == if m[name].use > 1 then m[name := m[name].(use := m[name].use - 1)] else m - {name}
  }

  ghost function UsedAgain(m: map<Symbol, Entry>, name: Symbol): map<Symbol, Entry>
    requires name in m
  {
    m[name := m[name].(use := m[name].use + 1)]
  }

  ghost predicate LeastUnused(m: map<Symbol, Entry>, id: int) {
    id >= 0 && !IdTaken(m, id) && forall k :: 0 <= k < id ==> IdTaken(m, k)
  }

  ghost predicate IdTaken(m: map<Symbol, Entry>, id: int) {
    exists a :: a in m && m[a].id == id
  }

  ghost predicate FreeId(m: map<Symbol, Entry>, id: int) {
    0 <= id < SHORT_LIMIT && !IdTaken(m, id)
  }

  // A run of a table.
  ghost predicate NameRun(m: map<Symbol, Entry>, steps: seq<NameStep>, states: seq<map<Symbol, Entry>>) {
    && |states| == |steps| + 1 && states[0] == m
    && forall i {:trigger steps[i]} :: 0 <= i < |steps| ==> NameStepOf(states[i], steps[i], states[i + 1])
  }

  // Adds of a name that have not been given back.
  ghost function Outstanding(steps: seq<NameStep>, name: Symbol): int {
    if steps == [] then 0
    else Outstanding(steps[..|steps| - 1], name) + Change(steps[|steps| - 1], name)
  }

  ghost function Change(step: NameStep, name: Symbol): int {
    if step.name != name then 0 else if step.DeleteName? then -1 else 1
  }

  /**
   * After every run from the empty table the ids of the names are distinct and fit, a name is in the table exactly
   * while some add of it has not been given back, and its use count is the number of those.
   */
  lemma {:induction false} RunCountsUses(steps: seq<NameStep>, states: seq<map<Symbol, Entry>>, name: Symbol)
    requires NameRun(map[], steps, states)
    ensures NamesOk(states[|steps|]) && Counts(states[|steps|], name, Outstanding(steps, name))
    decreases |steps|
  {
    hide NameStepOf, NamesOk, Counts;
    if steps == [] {
      EmptyOk(name);
    } else {
      var k := |steps| - 1;
      assert NameRun(map[], steps[..k], states[..k + 1]);
      RunCountsUses(steps[..k], states[..k + 1], name);
      assert NameStepOf(states[k], steps[k], states[k + 1]);
      StepKeepsNames(states[k], steps[k], states[k + 1]);
      StepCounts(states[k], steps[k], states[k + 1], name, Outstanding(steps[..k], name));
    }
  }

  // The table has the name exactly when k is positive, and then with k uses.
  ghost predicate Counts(m: map<Symbol, Entry>, name: Symbol, k: int) {
    (name in m <==> k > 0) && (name in m ==> m[name].use == k) && k >= 0
  }

  lemma EmptyOk(name: Symbol)
    ensures NamesOk(map[]) && Counts(map[], name, 0)
  {
  }

  lemma StepCounts(m: map<Symbol, Entry>, step: NameStep, n: map<Symbol, Entry>, name: Symbol, k: int)
    requires NameStepOf(m, step, n) && NamesOk(m) && Counts(m, name, k)
    ensures Counts(n, name, k + Change(step, name))
  {
    hide ToShort, LeastUnused, FreeId;
  }

  lemma StepKeepsNames(m: map<Symbol, Entry>, step: NameStep, n: map<Symbol, Entry>)
    requires NamesOk(m) && NameStepOf(m, step, n)
    ensures NamesOk(n)
  {
    hide ToShort;
    if !step.DeleteName? && step.name !in m {
      assert !IdTaken(m, n[step.name].id);
      forall a | a in m ensures m[a].id != n[step.name].id {
      }
    }
  }

  lemma LeastUnique(m: map<Symbol, Entry>, a: int, b: int)
    requires LeastUnused(m, a) && LeastUnused(m, b)
    ensures a == b
  {
  }

  /** A step has only one outcome. */
  lemma NameStepUnique(m: map<Symbol, Entry>, step: NameStep, n: map<Symbol, Entry>, n1: map<Symbol, Entry>)
    requires NameStepOf(m, step, n) && NameStepOf(m, step, n1)
    ensures n == n1
  {
    hide ToShort, LeastUnused;
    if step.AddName? && step.name !in m {
      LeastUnique(m, n[step.name].id, n1[step.name].id);
    }
  }

  /** Carries out a run on a table: the table goes through the states of the run and stays valid. */
  method RunOnTable(table: SlotNameTable, steps: seq<NameStep>, ghost states: seq<map<Symbol, Entry>>)
    requires table.Valid() && NameRun(table.Abs(), steps, states)
    modifies table, table.entries`use
    ensures table.Valid() && table.Abs() == states[|steps|]
  {
    hide OnChains, Numbered, NameStepOf, SlotNameTable.Abs;
    var i := 0;
    while i < |steps|
      invariant i <= |steps| && table.Valid() && table.Abs() == states[i]
      invariant forall e :: e in table.entries ==> e in old(table.entries) || fresh(e)
    {
      assert NameStepOf(states[i], steps[i], states[i + 1]);
      Realize(table, steps[i], states[i + 1]);
      i := i + 1;
    }
  }

  lemma StepMeans(m: map<Symbol, Entry>, step: NameStep, n: map<Symbol, Entry>)
    requires NameStepOf(m, step, n)
    ensures step.AddName? && step.name !in m ==>
              step.name in n && LeastUnused(m, n[step.name].id) && n[step.name].id < SHORT_LIMIT
    ensures step.AddNameAs? ==> if step.name in m then step.newid == m[step.name].id else FreeId(m, ToShort(step.newid))
    ensures step.DeleteName? ==> step.name in m
  {
  }

  method Realize(table: SlotNameTable, step: NameStep, ghost n: map<Symbol, Entry>)
    requires table.Valid() && NameStepOf(table.Abs(), step, n)
    modifies table, table.entries`use
    ensures table.Valid() && table.Abs() == n
    ensures forall e :: e in table.entries ==> e in old(table.entries) || fresh(e)
  {
    hide OnChains, Numbered, SlotNameTable.Abs, ToShort, LeastUnused, IdTaken, NameStepOf;
    StepMeans(table.Abs(), step, n);
    ghost var m := table.Abs();
    match step
    case AddName(name) =>
      var snp, chosen := table.AddSlotName(name, 0, false);
      if name !in m {
        LeastUnique(m, chosen, n[name].id);
      }
      NameStepUnique(m, step, n, table.Abs());
    case AddNameAs(name, newid) =>
      var snp, chosen := table.AddSlotName(name, newid, true);
      NameStepUnique(m, step, n, table.Abs());
    case DeleteName(name) =>
      table.Listed(name);
      var snp := table.FindEntry(name);
      table.DeleteSlotName(snp);
      NameStepUnique(m, step, n, table.Abs());
  }

  // ---- A table that runs out of ids ----

  function Numeral(i: nat): Symbol {
    Symbol("", i)
  }

  // A table with n names.
  method FillNames(n: nat) returns (table: SlotNameTable)
    requires n <= SHORT_LIMIT
    ensures fresh(table) && fresh(table.entries) && table.Valid() && |table.entries| == n
    ensures forall i :: n <= i ==> Numeral(i) !in table.Abs()
  {
    hide OnChains, Numbered, NameStepOf, SlotNameTable.Abs, ToShort;
    table := new SlotNameTable();
    table.NoNames();
    var k := 0;
    while k < n
      invariant k <= n && fresh(table) && fresh(table.entries) && table.Valid() && |table.entries| == k
      invariant forall i :: k <= i ==> Numeral(i) !in table.Abs()
    {
      var snp, chosen := table.AddSlotName(Numeral(k), 0, false);
      k := k + 1;
    }
  }

  // All the ids of 16 bits that are not negative have names.
  ghost predicate Full(m: map<Symbol, Entry>) {
    && (forall k :: 0 <= k < SHORT_LIMIT ==> IdTaken(m, k))
    && (forall a :: a in m ==> m[a].id < SHORT_LIMIT)
  }

  /** In a full table every new name gets the same id, -32768, and the table stays full. */
  lemma FullWraps(m: map<Symbol, Entry>, name: Symbol, chosen: int)
    requires Full(m) && LeastUnused(m, chosen) && name !in m
    ensures ToShort(chosen) == -SHORT_LIMIT && Full(m[name := Entry(ToShort(chosen), 1)])
  {
    assert !IdTaken(m, SHORT_LIMIT);
    assert chosen == SHORT_LIMIT;
    var n := m[name := Entry(ToShort(chosen), 1)];
    forall k | 0 <= k < SHORT_LIMIT ensures IdTaken(n, k) {
      assert IdTaken(m, k);
      var a :| a in m && m[a].id == k;
      assert a in n && n[a].id == k;
    }
  }

  // A valid table whose least unused id is out of reach is full.
  lemma LeastOutOfReach(m: map<Symbol, Entry>, chosen: int)
    requires NamesOk(m) && LeastUnused(m, chosen) && chosen >= SHORT_LIMIT
    ensures Full(m)
  {
  }

  /** The failure is reached: with 32768 names in use the next two both get the id -32768. */
  method RunOutOfIds() returns (table: SlotNameTable, first: SlotName, second: SlotName)
    ensures table.Chained() && !table.Valid() && first in table.entries && second in table.entries
    ensures first.name != second.name && first.id == second.id == -SHORT_LIMIT
  {
    hide OnChains, Numbered, NameStepOf, SlotNameTable.Abs, LeastUnused, SlotNameTable.Chained, Full, ToShort;
    table := FillNames(SHORT_LIMIT);
    table.AbsIsOk();
    ghost var m, chosen := table.Abs(), 0;
    var one, two;
    one, chosen := table.AddSlotName(Numeral(SHORT_LIMIT), 0, false);
    LeastOutOfReach(m, chosen);
    FullWraps(m, Numeral(SHORT_LIMIT), chosen);
    m := table.Abs();
    two, chosen := table.AddSlotName(Numeral(SHORT_LIMIT + 1), 0, false);
    FullWraps(m, Numeral(SHORT_LIMIT + 1), chosen);
    first, second := one.value, two.value;
    table.SharedId(first, second);
  }
}
