/** The map from class ids to classes: grown in chunks, compacted from the top, kept in 16-bit counters. */
module ClassIds {
  import opened Options

  const CLASS_ID_MAP_CHUNK := 30
  const U16 := 0x1_0000

  // What a 16-bit unsigned field keeps of a number.
  function Low16(n: nat): nat {
    n % U16
  }

  class IdentifiedClass {
    var id: nat
  }

  type Slot = Option<IdentifiedClass>

  // The entries needed for n ids, in whole chunks.
  function Capacity(n: nat): nat {
    if n % CLASS_ID_MAP_CHUNK == 0 then n else n - n % CLASS_ID_MAP_CHUNK + CLASS_ID_MAP_CHUNK
  }

  lemma NextModulo(n: nat)
    ensures (n + 1) % 30 == if n % 30 == 29 then 0 else n % 30 + 1
  {
  }

  lemma CapacityStep(n: nat)
    ensures n <= Capacity(n) < n + CLASS_ID_MAP_CHUNK
    ensures n % CLASS_ID_MAP_CHUNK != 0 ==> n < Capacity(n)
    ensures n % CLASS_ID_MAP_CHUNK == 0 ==> Capacity(n) == n && Capacity(n + 1) == n + CLASS_ID_MAP_CHUNK
    ensures n % CLASS_ID_MAP_CHUNK != 0 ==> Capacity(n + 1) == Capacity(n)
  {
    NextModulo(n);
  }

  /** The capacity is the number of ids rounded up to whole chunks. */
  lemma {:induction false} CapacityIsCeiling(n: nat)
    ensures Capacity(n) == CLASS_ID_MAP_CHUNK * ((n + CLASS_ID_MAP_CHUNK - 1) / CLASS_ID_MAP_CHUNK)
  {
    var q, r := n / 30, n % 30;
    assert n == 30 * q + r;
    if r == 0 {
      assert (n + 29) / 30 == q;
    } else {
      assert (n + 29) / 30 == q + 1;
    }
  }

  // Without the unused ids at the top.
  function Trim(s: seq<Slot>): (r: seq<Slot>)
    ensures r <= s
    ensures r == [] || r[|r| - 1].Some?
    ensures forall i :: |r| <= i < |s| ==> s[i].None?
  {
    if s == [] || s[|s| - 1].Some? then s else Trim(s[..|s| - 1])
  }

  // A fresh block of newSize entries holding the first oldSize entries of the old block; the rest is null.
  method Reallocate(block: seq<Slot>, oldSize: nat, newSize: nat) returns (fresh_: seq<Slot>)
    requires oldSize <= |block| || block == []
    ensures |fresh_| == newSize
    ensures forall i :: 0 <= i < newSize ==> fresh_[i] == if i < oldSize && i < |block| then block[i] else None
  {
    fresh_ := seq(newSize, i => if 0 <= i < oldSize && i < |block| then block[i] else None);
  }

  class ClassIdMap {
    var ClassIDMap: seq<Slot>
    var MaxClassID: nat
    var AvailClassID: nat

    constructor ()
      ensures Valid() && Ids() == []
    {
      ClassIDMap, MaxClassID, AvailClassID := [], 0, 0;
    }

    // The block is exactly as long as the ids in use need, and nothing lies above them.
    ghost predicate Shaped()
      reads this
    {
      && MaxClassID < U16
      && |ClassIDMap| == Capacity(MaxClassID)
      && AvailClassID == Low16(Capacity(MaxClassID))
      && MaxClassID <= Capacity(MaxClassID)
      && (forall i :: MaxClassID <= i < |ClassIDMap| ==> ClassIDMap[i].None?)
    }

    ghost predicate Topped()
      reads this
      requires Shaped()
    {
      MaxClassID == 0 || ClassIDMap[MaxClassID - 1].Some?
    }

    ghost predicate Identified()
      reads this, Members(ClassIDMap)
    {
      forall i :: 0 <= i < |ClassIDMap| && ClassIDMap[i].Some? ==> ClassIDMap[i].value.id == i
    }

    ghost predicate Valid()
      reads this, Members(ClassIDMap)
    {
      Shaped() && Topped() && Identified()
    }

    ghost function Ids(): seq<Slot>
      reads this
      requires Shaped()
    {
      ClassIDMap[..MaxClassID]
    }

    /** Gives a class the next id. This is a step of a history exactly when the 16-bit counter does not wrap. */
    method AssignClassID(cls: IdentifiedClass)
      requires Valid() && Some(cls) !in Ids()
      modifies this, cls`id
      ensures cls.id == old(MaxClassID) && cls.id < |ClassIDMap| && ClassIDMap[cls.id] == Some(cls)
      ensures ClassIDMap[..cls.id] == old(Ids())
      ensures Valid() <==> StepEnabled(old(Ids()), Assign(cls))
      ensures StepEnabled(old(Ids()), Assign(cls)) ==> Ids() == StepResult(old(Ids()), Assign(cls))
    {
      hide Capacity;
      CapacityStep(MaxClassID);
      if MaxClassID % CLASS_ID_MAP_CHUNK == 0 {
        GrowMap();
      }
      ClassIDMap := ClassIDMap[MaxClassID := Some(cls)];
      cls.id := MaxClassID;
      MaxClassID := Low16(MaxClassID + 1);
      CapacityStep(MaxClassID);
    }

    method GrowMap()
      requires Shaped() && |ClassIDMap| == MaxClassID
      modifies this`ClassIDMap, this`AvailClassID
      ensures |ClassIDMap| == MaxClassID + CLASS_ID_MAP_CHUNK
      ensures AvailClassID == Low16(MaxClassID + CLASS_ID_MAP_CHUNK)
      ensures ClassIDMap[..MaxClassID] == old(ClassIDMap)
      ensures forall j :: MaxClassID <= j < |ClassIDMap| ==> ClassIDMap[j].None?
    {
      ClassIDMap := Reallocate(ClassIDMap, MaxClassID, MaxClassID + CLASS_ID_MAP_CHUNK);
      AvailClassID := Low16(AvailClassID + CLASS_ID_MAP_CHUNK);
      var i := MaxClassID;
      while i < MaxClassID + CLASS_ID_MAP_CHUNK
        invariant |ClassIDMap| == MaxClassID + CLASS_ID_MAP_CHUNK
        invariant AvailClassID == Low16(MaxClassID + CLASS_ID_MAP_CHUNK)
        invariant MaxClassID <= i <= MaxClassID + CLASS_ID_MAP_CHUNK
        invariant ClassIDMap[..MaxClassID] == old(ClassIDMap)
        invariant forall j :: MaxClassID <= j < i ==> ClassIDMap[j].None?
      {
        ClassIDMap := ClassIDMap[i := None];
        i := i + 1;
      }
    }

    /**
     * Takes a class out of the map and gives up the ids that are then unused at the top. When the block is
     * cut down, the old size is handed over in 16 bits; it is the true one exactly when it fits. This is a step of a
     * history exactly when nothing in use lies beyond what is copied; otherwise all entries from 14 on are lost.
     */
    method DeassignClassID(id: nat) returns (ghost handed: Option<nat>)
      requires Valid() && id < MaxClassID && ClassIDMap[id].Some?
      modifies this
      ensures Shaped() && Identified()
      ensures handed.Some? <==> |ClassIDMap| < old(|ClassIDMap|)
      ensures handed.Some? ==> (handed.value == old(|ClassIDMap|) <==> old(MaxClassID) <= U16 - 16)
      ensures Valid() && Ids() == StepResult(old(Ids()), Deassign(id)) <==> StepEnabled(old(Ids()), Deassign(id))
      ensures !StepEnabled(old(Ids()), Deassign(id)) ==> Ids() == CutOff(StepResult(old(Ids()), Deassign(id)), 14)
    {
      hide Capacity, Trim;
      handed := None;
      ghost var was := Ids()[id := None];
      ClassIDMap := ClassIDMap[id := None];
      assert ClassIDMap[..MaxClassID] == was;
      CapacityFits(MaxClassID);
      assert id != MaxClassID - 1 ==> ClassIDMap[MaxClassID - 1].Some?;
      var inUse := UsedAbove(id);
      if inUse {
        TrimmedTop(was);
        return;
      }
      assert MaxClassID == id + 1;
      handed := CutDown(id);
    }

    // Gives up the unused ids from the top down to the last one in use, and the memory behind them.
    method CutDown(id: nat) returns (ghost handed: Option<nat>)
      requires Shaped() && MaxClassID == id + 1 && ClassIDMap[id].None? && Identified()
      modifies this
      ensures Shaped() && Identified()
      ensures MaxClassID == |Trim(old(Ids()))|
      ensures handed.Some? <==> |ClassIDMap| < old(|ClassIDMap|)
      ensures handed.Some? ==> (handed.value == old(|ClassIDMap|) <==> old(MaxClassID) <= U16 - 16)
      ensures Ids() == Trim(old(Ids())) <==> Lossless(old(MaxClassID), MaxClassID)
      ensures Ids() == Trim(old(Ids())) ==> Topped()
      ensures !Lossless(old(MaxClassID), MaxClassID) ==> Ids() == CutOff(Trim(old(Ids())), 14)
    {
      hide Capacity, Trim, Low16, CutOff;
      handed := None;
      CapacityFits(MaxClassID);
      var reallocReqd, oldChunk, newChunk := Compact(id);
      CapacityFits(MaxClassID);
      ghost var kept := ClassIDMap[..MaxClassID];
      if reallocReqd {
        handed := Some(oldChunk);
        ClassIDMap := Reallocate(ClassIDMap, oldChunk, newChunk);
        AvailClassID := newChunk;
        CopiedPart(kept, ClassIDMap[..MaxClassID], oldChunk);
        assert ClassIDMap[..MaxClassID] == CutOff(kept, oldChunk);
      }
    }

    method UsedAbove(id: nat) returns (inUse: bool)
      requires id < MaxClassID <= |ClassIDMap|
      ensures inUse <==> exists j :: id < j < MaxClassID && ClassIDMap[j].Some?
    {
      var i := id + 1;
      while i < MaxClassID
        invariant id < i <= MaxClassID
        invariant forall j :: id < j < i ==> ClassIDMap[j].None?
      {
        if ClassIDMap[i] != None {
          return true;
        }
        i := i + 1;
      }
      return false;
    }

    // Lowers the counter past unused ids, noting the block sizes before and after.
    method Compact(id: nat) returns (reallocReqd: bool, oldChunk: nat, newChunk: nat)
      requires MaxClassID == id + 1 <= |ClassIDMap| == Capacity(id + 1)
      requires forall j :: id <= j < |ClassIDMap| ==> ClassIDMap[j].None?
      modifies this`MaxClassID
      ensures MaxClassID <= id
      ensures ClassIDMap[..MaxClassID] == Trim(old(ClassIDMap[..MaxClassID]))
      ensures MaxClassID > 0 ==> ClassIDMap[MaxClassID - 1].Some?
      ensures forall j :: MaxClassID <= j < |ClassIDMap| ==> ClassIDMap[j].None?
      ensures !reallocReqd ==> Capacity(MaxClassID) == |ClassIDMap|
      ensures reallocReqd ==> newChunk == Capacity(MaxClassID) < |ClassIDMap| && oldChunk == Low16(|ClassIDMap|)
      ensures MaxClassID <= Capacity(MaxClassID) && (reallocReqd ==> newChunk <= id)
    {
      hide Capacity, Trim, Low16;
      reallocReqd, oldChunk, newChunk := false, 0, 0;
      var k := id;
      var atBottom := false;
      while !atBottom && ClassIDMap[k] == None
        invariant 0 <= k <= id
        invariant MaxClassID == if atBottom then 0 else k + 1
        invariant MaxClassID <= |ClassIDMap| == Capacity(id + 1)
        invariant atBottom ==> MaxClassID <= id
        invariant forall j :: MaxClassID <= j < |ClassIDMap| ==> ClassIDMap[j].None?
        invariant Trim(ClassIDMap[..MaxClassID]) == Trim(old(ClassIDMap[..MaxClassID]))
        invariant !reallocReqd ==> Capacity(MaxClassID) == Capacity(id + 1)
        invariant reallocReqd ==>
                    newChunk == Capacity(MaxClassID) < Capacity(id + 1) && oldChunk == Low16(Capacity(id + 1))
        invariant reallocReqd ==> newChunk <= id
        decreases MaxClassID
      {
        CapacityStep(k);
        TrimUnused(ClassIDMap[..k + 1], ClassIDMap[..k]);
        MaxClassID := k;
        if MaxClassID % CLASS_ID_MAP_CHUNK == 0 {
          newChunk := MaxClassID;
          if !reallocReqd {
            oldChunk := Low16(MaxClassID + CLASS_ID_MAP_CHUNK);
            reallocReqd := true;
          }
        }
        if k == 0 {
          atBottom := true;
        } else {
          k := k - 1;
        }
      }
      CapacityStep(MaxClassID);
      TrimmedTop(ClassIDMap[..MaxClassID]);
    }
  }

  // The first n entries, and nothing after them.
  ghost function CutOff(s: seq<Slot>, n: nat): (r: seq<Slot>)
    ensures |r| == |s| && forall i :: 0 <= i < |s| ==> r[i] == if i < n then s[i] else None
  {
    seq(|s|, i requires 0 <= i < |s| => if i < n then s[i] else None)
  }

  // The first n entries have been copied and the others are gone; the last one was in use.
  lemma CopiedPart(kept: seq<Slot>, copied: seq<Slot>, n: nat)
    requires |copied| == |kept| && (kept == [] || kept[|kept| - 1].Some?)
    requires forall i :: 0 <= i < |kept| ==> copied[i] == if i < n then kept[i] else None
    ensures copied == kept <==> |kept| <= n
  {
    if |kept| > n {
      assert copied[|kept| - 1] != kept[|kept| - 1];
    }
  }

  lemma TrimUnused(s: seq<Slot>, t: seq<Slot>)
    requires s == t + [None]
    ensures Trim(s) == Trim(t)
  {
    assert s[..|s| - 1] == t;
  }

  lemma CapacityFits(n: nat)
    requires n < U16
    ensures n <= Capacity(n)
    ensures n <= U16 - 16 ==> Capacity(n) <= U16 - 16 && Low16(Capacity(n)) == Capacity(n)
    ensures n > U16 - 16 ==> Capacity(n) == U16 + 14 && Low16(Capacity(n)) == 14
  {
    CapacityStep(n);
    if n <= U16 - 16 {
      assert (U16 - 16) % CLASS_ID_MAP_CHUNK == 0;
    } else {
      assert n % CLASS_ID_MAP_CHUNK == n - (U16 - 16);
    }
  }

  lemma TrimmedTop(s: seq<Slot>)
    requires s == [] || s[|s| - 1].Some?
    ensures Trim(s) == s
  {
  }

  // ---- Histories ----

  datatype IdStep = Assign(cls: IdentifiedClass) | Deassign(id: nat)

  // Going from max to max1 ids, all entries still in use are copied.
  ghost predicate Lossless(max: nat, max1: nat) {
    max <= U16 - 16 || max1 > U16 - 16 || max1 <= 14
  }

  // What a caller may ask for.
  ghost predicate StepPossible(m: seq<Slot>, step: IdStep) {
    match step
    case Assign(cls) => Some(cls) !in m
    case Deassign(id) => id < |m| && m[id].Some?
  }

  ghost function StepResult(m: seq<Slot>, step: IdStep): seq<Slot>
    requires StepPossible(m, step)
  {
    match step
    case Assign(cls) => m + [Some(cls)]
    case Deassign(id) => Trim(m[id := None])
  }

  // What the 16-bit counters allow.
  ghost predicate StepEnabled(m: seq<Slot>, step: IdStep) {
    && StepPossible(m, step)
    && match step
       case Assign(cls) => |m| + 1 < U16
       case Deassign(id) => Lossless(|m|, |StepResult(m, step)|)
  }

  ghost predicate RunEnabled(m: seq<Slot>, steps: seq<IdStep>)
    decreases |steps|
  {
    steps == [] || (StepEnabled(m, steps[0]) && RunEnabled(StepResult(m, steps[0]), steps[1..]))
  }

  ghost function RunResult(m: seq<Slot>, steps: seq<IdStep>): seq<Slot>
    requires RunEnabled(m, steps)
    decreases |steps|
  {
    if steps == [] then m else RunResult(StepResult(m, steps[0]), steps[1..])
  }

  // The top id is in use, no class has two ids, and the ids fit the counter.
  ghost predicate Proper(m: seq<Slot>) {
    (m == [] || m[|m| - 1].Some?) && Unshared(m) && |m| < U16
  }

  ghost predicate Unshared(m: seq<Slot>) {
    forall i, j :: 0 <= i < j < |m| && m[i].Some? ==> m[i] != m[j]
  }

  lemma StepKeepsProper(m: seq<Slot>, step: IdStep)
    requires StepEnabled(m, step) && Proper(m)
    ensures Proper(StepResult(m, step))
  {
  }

  lemma {:induction false} RunKeepsProper(m: seq<Slot>, steps: seq<IdStep>)
    requires RunEnabled(m, steps) && Proper(m)
    ensures Proper(RunResult(m, steps))
    decreases |steps|
  {
    if steps != [] {
      StepKeepsProper(m, steps[0]);
      RunKeepsProper(StepResult(m, steps[0]), steps[1..]);
    }
  }

  lemma StepKeepsId(m: seq<Slot>, step: IdStep, id: nat)
    requires StepEnabled(m, step) && id < |m| && m[id].Some? && step != Deassign(id)
    ensures var n := StepResult(m, step); id < |n| && n[id] == m[id]
  {
    match step
    case Assign(cls) =>
    case Deassign(gone) =>
      assert m[gone := None][id].Some?;
  }

  lemma {:induction false} RunKeepsId(m: seq<Slot>, steps: seq<IdStep>, id: nat)
    requires RunEnabled(m, steps) && id < |m| && m[id].Some? && Deassign(id) !in steps
    ensures var n := RunResult(m, steps); id < |n| && n[id] == m[id]
    decreases |steps|
  {
    if steps != [] {
      assert Deassign(id) !in steps[1..];
      assert steps[0] in steps;
      StepKeepsId(m, steps[0], id);
      RunKeepsId(StepResult(m, steps[0]), steps[1..], id);
    }
  }

  lemma {:induction false} RunSplits(m: seq<Slot>, first: seq<IdStep>, rest: seq<IdStep>)
    requires RunEnabled(m, first + rest)
    ensures RunEnabled(m, first) && RunEnabled(RunResult(m, first), rest)
    ensures RunResult(m, first + rest) == RunResult(RunResult(m, first), rest)
    decreases |first|
  {
    if first == [] {
      assert first + rest == rest;
    } else {
      assert (first + rest)[1..] == first[1..] + rest;
      RunSplits(StepResult(m, first[0]), first[1..], rest);
    }
  }

  /**
   * Over every history from the empty map, at every point: the top id is in use, no class has two ids, and a class
   * that is not taken out later keeps its id to the end, whatever happens to the ids around it.
   */
  lemma RunKeepsIds(first: seq<IdStep>, rest: seq<IdStep>, id: nat)
    requires RunEnabled([], first + rest)
    ensures RunEnabled([], first) && Proper(RunResult([], first)) && Proper(RunResult([], first + rest))
    ensures var m, n := RunResult([], first), RunResult([], first + rest);
            id < |m| && m[id].Some? && Deassign(id) !in rest ==> id < |n| && n[id] == m[id]
  {
    RunSplits([], first, rest);
    RunKeepsProper([], first);
    RunKeepsProper([], first + rest);
    var m := RunResult([], first);
    if id < |m| && m[id].Some? && Deassign(id) !in rest {
      RunKeepsId(m, rest, id);
    }
  }

  ghost function Named(steps: seq<IdStep>): set<IdentifiedClass> {
    set i | 0 <= i < |steps| && steps[i].Assign? :: steps[i].cls
  }

  /**
   * Carries out a history on a map. The map stays valid: the capacity is that of the ids in use, every access is in
   * bounds, and every class in the map has the id under which it is found.
   */
  method RunOnMap(map_: ClassIdMap, steps: seq<IdStep>)
    requires map_.Valid() && RunEnabled(map_.Ids(), steps)
    modifies map_, Named(steps)`id
    ensures map_.Valid() && map_.Ids() == RunResult(old(map_.Ids()), steps)
  {
    hide StepResult, Trim, Capacity;
    var i := 0;
    assert steps[0..] == steps;
    while i < |steps|
      invariant i <= |steps| && map_.Valid() && RunEnabled(map_.Ids(), steps[i..])
      invariant RunResult(map_.Ids(), steps[i..]) == RunResult(old(map_.Ids()), steps)
      decreases |steps| - i
    {
      assert steps[i..][0] == steps[i] && steps[i..][1..] == steps[i + 1..];
      match steps[i] {
        case Assign(cls) =>
          assert cls in Named(steps);
          map_.AssignClassID(cls);
        case Deassign(id) =>
          var handed := map_.DeassignClassID(id);
      }
      i := i + 1;
    }
  }

  // ---- A map that loses entries ----

  // A map with n classes, none of them taken out.
  method FillMap(n: nat) returns (map_: ClassIdMap)
    requires n < U16
    ensures fresh(map_) && map_.Valid() && |map_.Ids()| == n && forall i :: 0 <= i < n ==> map_.Ids()[i].Some?
  {
    hide Trim, Capacity;
    map_ := new ClassIdMap();
    var i := 0;
    while i < n
      invariant i <= n && fresh(map_) && map_.Valid() && |map_.Ids()| == i
      invariant forall k :: 0 <= k < i ==> map_.Ids()[k].Some?
    {
      var cls := new IdentifiedClass;
      map_.AssignClassID(cls);
      i := i + 1;
    }
  }

  /**
   * The failure is reached: with 65521 classes defined, taking out the last one makes every other class from id 14
   * on disappear from the map.
   */
  method LoseEntries() returns (map_: ClassIdMap, ghost before: seq<Slot>)
    ensures |before| == U16 - 15 && forall i :: 0 <= i < |before| ==> before[i].Some?
    ensures StepPossible(before, Deassign(U16 - 16)) && !StepEnabled(before, Deassign(U16 - 16))
    ensures map_.Shaped() && |map_.Ids()| == U16 - 16
    ensures forall i :: 0 <= i < U16 - 16 ==> map_.Ids()[i] == if i < 14 then before[i] else None
  {
    map_ := FillMap(U16 - 15);
    before := map_.Ids();
    TopOff(before);
    var handed := map_.DeassignClassID(U16 - 16);
  }

  /** The wrap is reached: with 65535 classes defined, the next one leaves a map that is not valid. */
  method WrapCounter() returns (map_: ClassIdMap, ghost before: seq<Slot>)
    ensures |before| == U16 - 1 && forall i :: 0 <= i < |before| ==> before[i].Some?
    ensures !map_.Valid() && before <= map_.ClassIDMap
  {
    hide Trim, Capacity;
    map_ := FillMap(U16 - 1);
    before := map_.Ids();
    var cls := new IdentifiedClass;
    map_.AssignClassID(cls);
  }

  lemma TopOff(m: seq<Slot>)
    requires |m| >= 2 && m[|m| - 2].Some?
    ensures Trim(m[|m| - 1 := None]) == m[..|m| - 1]
  {
    var t := m[|m| - 1 := None];
    assert t[..|t| - 1] == m[..|m| - 1];
  }

  ghost function Members(s: seq<Slot>): set<IdentifiedClass> {
    set i | 0 <= i < |s| && s[i].Some? :: s[i].value
  }
}
