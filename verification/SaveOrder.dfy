/** Saving modules so that every module comes after the modules it imports from. */
module SaveOrder {
  import opened Orders

  class Defmodule {
    // Positions in the list of modules of those named by the import list.
    const importList: seq<nat>
    var visitedFlag: bool

    constructor (importList: seq<nat>)
      ensures this.importList == importList && !visitedFlag
    {
      this.importList, visitedFlag := importList, false;
    }
  }

  ghost function Imports(modules: seq<Defmodule>): (r: seq<seq<nat>>)
    ensures |r| == |modules| && forall i :: 0 <= i < |modules| ==> r[i] == modules[i].importList
  {
    seq(|modules|, i requires 0 <= i < |modules| => modules[i].importList)
  }

  // Every import is found among the modules.
  ghost predicate Resolved(imports: seq<seq<nat>>) {
    forall i, m :: 0 <= i < |imports| && m in imports[i] ==> m < |imports|
  }

  // ---- The code ----

  method AllImportedModulesVisited(modules: seq<Defmodule>, theModule: nat) returns (all: bool)
    requires theModule < |modules| && Resolved(Imports(modules))
    ensures all <==> forall m :: m in modules[theModule].importList ==> m < |modules| && modules[m].visitedFlag
  {
    var importList := modules[theModule].importList;
    assert importList == Imports(modules)[theModule];
    var i := 0;
    while i < |importList|
      invariant i <= |importList|
      invariant forall k :: 0 <= k < i ==> importList[k] < |modules| && modules[importList[k]].visitedFlag
    {
      assert importList[i] in Imports(modules)[theModule];
      if !modules[importList[i]].visitedFlag {
        return false;
      }
      i := i + 1;
    }
    return true;
  }

  // The flags say which modules have been saved.
  ghost predicate Flagged(modules: seq<Defmodule>, saved: seq<nat>)
    reads modules
  {
    forall m :: 0 <= m < |modules| ==> (modules[m].visitedFlag <==> m in saved)
  }

  // The module still waits for one of its imports.
  ghost predicate Waits(imports: seq<seq<nat>>, saved: seq<nat>, m: nat)
    requires m < |imports|
  {
    exists d :: d in imports[m] && d !in saved
  }

  // Which modules cannot be saved, in front of position i of a pass. What lies behind the module saved last has been
  // looked at since, unless the pass is still to reach it.
  ghost predicate LookedAt(imports: seq<seq<nat>>, saved: seq<nat>, i: nat, updated: bool) {
    forall z: nat :: (if updated || saved == [] then LastOf(saved) < z < i else z > LastOf(saved) || z < i) ==>
      !Free(imports, saved, z)
  }

  lemma LookedOn(imports: seq<seq<nat>>, saved: seq<nat>, i: nat, updated: bool)
    requires LookedAt(imports, saved, i, updated) && !Free(imports, saved, i)
    ensures LookedAt(imports, saved, i + 1, updated)
  {
  }

  lemma SavedNext(imports: seq<seq<nat>>, saved: seq<nat>, i: nat, updated: bool)
    requires LookedAt(imports, saved, i, updated) && Resumed(imports, saved) && Free(imports, saved, i)
    requires updated ==> LastOf(saved) < i
    ensures Resumed(imports, saved + [i]) && LookedAt(imports, saved + [i], i + 1, true)
  {
    hide Free, Resumed;
    if saved != [] && !updated {
      assert !(i > LastOf(saved));
    }
    assert FirstFree(imports, saved, LastOf(saved), i);
    ResumedMore(imports, saved, i);
  }

  // One pass over the modules.
  method SavePass(modules: seq<Defmodule>, saved0: seq<nat>) returns (saved: seq<nat>, unvisited: bool, updated: bool)
    requires Separate(modules) && Resolved(Imports(modules))
    requires InOrder(Imports(modules), saved0) && Flagged(modules, saved0)
    requires Resumed(Imports(modules), saved0) && LookedAt(Imports(modules), saved0, 0, false)
    modifies modules`visitedFlag
    ensures InOrder(Imports(modules), saved) && Flagged(modules, saved)
    ensures saved0 <= saved && (updated <==> |saved0| < |saved|)
    ensures !unvisited ==> forall m :: 0 <= m < |modules| ==> m in saved
    ensures unvisited && !updated ==> Knot(Imports(modules), Unordered(|modules|, saved))
    ensures Resumed(Imports(modules), saved) && LookedAt(Imports(modules), saved, 0, false)
    ensures !updated || !unvisited ==> Exhausted(Imports(modules), saved)
  {
    hide InOrder, Resolved, Waits, Knot, Flagged, Resumed, LookedAt, Free, Exhausted;
    ghost var imports := Imports(modules);
    saved, unvisited, updated := saved0, false, false;
    var i := 0;
    while i < |modules|
      invariant i <= |modules|
      invariant InOrder(imports, saved) && Flagged(modules, saved)
      invariant saved0 <= saved && (updated <==> |saved0| < |saved|)
      invariant !unvisited ==> forall m :: 0 <= m < i ==> m in saved
      invariant unvisited && !updated ==> exists m :: 0 <= m < |modules| && m !in saved
      invariant !updated ==> forall m :: 0 <= m < i && m !in saved ==> Waits(imports, saved, m)
      invariant Resumed(imports, saved) && LookedAt(imports, saved, i, updated) && (updated ==> LastOf(saved) < i)
    {
      FlagOf(modules, saved, i);
      if !modules[i].visitedFlag {
        var ready := AllImportedModulesVisited(modules, i);
        ReadyMeans(modules, imports, saved, i, ready);
        FreeMeans(imports, saved, i);
        if ready {
          SavedNext(imports, saved, i, updated);
          OrderGrows(imports, saved, i);
          updated := true;
          SaveModule(modules, saved, i);
          saved := saved + [i];
        } else {
          LookedOn(imports, saved, i, updated);
          unvisited := true;
        }
      } else {
        FreeMeans(imports, saved, i);
        LookedOn(imports, saved, i, updated);
      }
      i := i + 1;
    }
    if unvisited && !updated {
      WaitingIsKnot(imports, saved);
    }
    PassOver(imports, saved, updated);
    if !unvisited {
      AllSaved(imports, saved);
    }
  }

  lemma FreeMeans(imports: seq<seq<nat>>, saved: seq<nat>, i: nat)
    requires i < |imports|
    ensures i in saved || Waits(imports, saved, i) ==> !Free(imports, saved, i)
    ensures i !in saved && (forall m :: m in imports[i] ==> m in saved) ==> Free(imports, saved, i)
  {
  }

  lemma PassOver(imports: seq<seq<nat>>, saved: seq<nat>, updated: bool)
    requires LookedAt(imports, saved, |imports|, updated) && (updated ==> saved != [])
    ensures LookedAt(imports, saved, 0, false)
    ensures !updated ==> Exhausted(imports, saved)
  {
  }

  lemma AllSaved(imports: seq<seq<nat>>, saved: seq<nat>)
    requires forall m :: 0 <= m < |imports| ==> m in saved
    ensures Exhausted(imports, saved)
  {
  }

  method SaveModule(modules: seq<Defmodule>, ghost saved: seq<nat>, i: nat)
    requires Separate(modules) && Flagged(modules, saved) && i < |modules|
    modifies modules`visitedFlag
    ensures Flagged(modules, saved + [i])
  {
    modules[i].visitedFlag := true;
  }

  lemma FlagOf(modules: seq<Defmodule>, saved: seq<nat>, i: nat)
    requires Flagged(modules, saved) && i < |modules|
    ensures modules[i].visitedFlag <==> i in saved
  {
  }

  lemma ReadyMeans(modules: seq<Defmodule>, imports: seq<seq<nat>>, saved: seq<nat>, i: nat, ready: bool)
    requires imports == Imports(modules) && Resolved(imports) && Flagged(modules, saved) && i < |modules|
    requires ready <==> forall m :: m in modules[i].importList ==> m < |modules| && modules[m].visitedFlag
    ensures ready ==> forall m :: m in imports[i] ==> m in saved
    ensures !ready ==> Waits(imports, saved, i)
  {
  }

  lemma WaitingIsKnot(imports: seq<seq<nat>>, saved: seq<nat>)
    requires Resolved(imports) && exists m :: 0 <= m < |imports| && m !in saved
    requires forall m :: 0 <= m < |imports| && m !in saved ==> Waits(imports, saved, m)
    ensures Knot(imports, Unordered(|imports|, saved))
  {
    var m :| 0 <= m < |imports| && m !in saved;
    assert m in Unordered(|imports|, saved);
    forall m | m in Unordered(|imports|, saved) ensures Tied(imports, Unordered(|imports|, saved), m) {
      assert Waits(imports, saved, m);
      var d :| d in imports[m] && d !in saved;
    }
  }

  ghost predicate Separate(modules: seq<Defmodule>) {
    forall i, j :: 0 <= i < j < |modules| ==> modules[i] != modules[j]
  }

  /**
   * Saves the modules, pass after pass. Each module is saved at most once and after all it imports. The system
   * error comes exactly when the imports have a cycle; then what is left is tied up, and otherwise every module
   * is saved. The next module is always the first one, behind the last one saved and round the list, that can be saved;
   * only one order is like that.
   */
  method EnvSave(modules: seq<Defmodule>) returns (saved: seq<nat>, systemError: bool)
    requires Separate(modules) && Resolved(Imports(modules))
    modifies modules`visitedFlag
    ensures InOrder(Imports(modules), saved)
    ensures systemError <==> HasCycle(Imports(modules))
    ensures !systemError ==> forall m :: 0 <= m < |modules| ==> m in saved
    ensures systemError ==> Knot(Imports(modules), Unordered(|modules|, saved))
    ensures Resumed(Imports(modules), saved) && Exhausted(Imports(modules), saved)
  {
    hide InOrder, Resolved, Knot, Flagged, HasCycle, Resumed, LookedAt, Exhausted;
    ghost var imports := Imports(modules);
    MarkModulesAsUnvisited(modules);
    saved := [];
    NothingOrdered(imports);
    NothingLookedAt(imports);
    systemError := false;
    var unvisited := true;
    while unvisited
      invariant InOrder(imports, saved) && Flagged(modules, saved) && !systemError
      invariant !unvisited ==> forall m :: 0 <= m < |modules| ==> m in saved
      invariant Resumed(imports, saved) && LookedAt(imports, saved, 0, false)
      invariant !unvisited ==> Exhausted(imports, saved)
      decreases |modules| - |saved|, unvisited
    {
      var updated;
      ghost var before := saved;
      OrderedFits(imports, before);
      saved, unvisited, updated := SavePass(modules, saved);
      OrderedFits(imports, saved);
      if unvisited && !updated {
        systemError := true;
        KnotHasCycle(imports, Unordered(|modules|, saved));
        return;
      }
    }
    AllOrderedNoCycle(imports, saved);
  }

  lemma NothingLookedAt(imports: seq<seq<nat>>)
    ensures Resumed(imports, []) && LookedAt(imports, [], 0, false)
  {
  }

  method MarkModulesAsUnvisited(modules: seq<Defmodule>)
    modifies modules`visitedFlag
    ensures Flagged(modules, [])
  {
    var i := 0;
    while i < |modules|
      invariant i <= |modules|
      invariant forall m :: 0 <= m < i ==> !modules[m].visitedFlag
    {
      modules[i].visitedFlag := false;
      i := i + 1;
    }
  }
}
