/** Any sequence of agenda commands, carried out on the linked agendas, has exactly the effects of the commands. */
module AgendaRuns {
  import opened AgendaSpec
  import opened AgendaHeap
  import opened AgendaEngine
  import opened AgendaWorld
  import opened AgendaEffects
  import opened AgendaPerform

  /** Carries out one command, whatever it is. */
  method Perform(env: AgendaData, c: Command, firing: seq<Activation>, ghost rules: set<Defrule>,
                 ghost bases: set<PartialMatch>)
    returns (firing': seq<Activation>)
    requires Within(env, firing, rules, bases) && CommandWithin(c, rules, bases)
    modifies env, env.modules, env.on, env.groups, bases`marker, rules`salience, rules`leftMemory
    ensures Within(env, firing', rules, bases)
    ensures Performs(env.modules, old(WorldOf(env, firing, rules, bases)), c, WorldOf(env, firing', rules, bases))
    ensures forall a :: a in env.on ==> a in old(env.on) || fresh(a)
    ensures forall g :: g in env.groups ==> g in old(env.groups) || fresh(g)
  {
    hide AgendaData.Valid, Within, WorldOf, Performs, CommandWithin, Sound;
    WithinSound(env, firing, rules, bases);
    firing' := firing;
    match c {
      case AddFor(_) => DoAdd(env, c, firing, rules, bases);
      case RemoveAt(_, _) => DoRemoveAt(env, c, firing, rules, bases);
      case RetractMatch(_) => DoRetract(env, c, firing, rules, bases);
      case DetachFirst(_) => firing' := DoDetach(env, c, firing, rules, bases);
      case ReleaseMatch(_) => DoRelease(env, c, firing, rules, bases);
      case Free(_, _) => firing' := DoFree(env, c, firing, rules, bases);
      case ClearRule(_) => DoClearRule(env, c, firing, rules, bases);
      case RemoveAll(_) => DoRemoveAll(env, c, firing, rules, bases);
      case ReorderAgendas(_) => DoReorder(env, c, firing, rules, bases);
      case RefreshAgendas(_, _) => DoRefreshAgendas(env, c, firing, rules, bases);
      case RefreshRule(_, _, _) => DoRefreshRule(env, c, firing, rules, bases);
      case StoreMatches(_, _) => DoStore(env, c, firing, rules, bases);
      case ChangeStrategy(_) => DoChange(env, c, firing, rules, bases);
      case ChangeMode(_) => DoChange(env, c, firing, rules, bases);
      case ResetCounter => DoReset(env, c, firing, rules, bases);
    }
  }

  // The worlds between the commands, each reached from the one before by the effect of the command.
  ghost predicate Story(ms: seq<DefruleModule>, w: World, commands: seq<Command>, worlds: seq<World>, w': World) {
    && |worlds| == |commands| + 1 && worlds[0] == w && worlds[|commands|] == w'
    && forall k {:trigger commands[k]} :: 0 <= k < |commands| ==> Performs(ms, worlds[k], commands[k], worlds[k + 1])
  }

  lemma StoryGoesOn(ms: seq<DefruleModule>, w: World, commands: seq<Command>, worlds: seq<World>, mid: World,
                    c: Command, w': World)
    requires Story(ms, w, commands, worlds, mid) && Performs(ms, mid, c, w')
    ensures Story(ms, w, commands + [c], worlds + [w'], w')
  {
    hide Performs;
  }

  /**
   * Whatever is asked, in whatever order, and whatever is detached meanwhile, the agendas stay in order and every
   * command has exactly its effect. On the agendas this is a run of the abstract machine, so that from an empty start
   * their contents are decided by the activations and the strategy alone.
   */
  method PerformAll(env: AgendaData, commands: seq<Command>, firing: seq<Activation>, ghost rules: set<Defrule>,
                    ghost bases: set<PartialMatch>)
    returns (firing': seq<Activation>, ghost worlds: seq<World>, ghost steps: seq<Step>)
    requires Within(env, firing, rules, bases)
    requires forall k :: 0 <= k < |commands| ==> CommandWithin(commands[k], rules, bases)
    modifies env, env.modules, env.on, env.groups, bases`marker, rules`salience, rules`leftMemory
    ensures Within(env, firing', rules, bases)
    ensures Story(env.modules, old(WorldOf(env, firing, rules, bases)), commands, worlds,
                  WorldOf(env, firing', rules, bases))
    ensures Run(old(env.Abs()), steps, env.Abs())
  {
    hide AgendaData.Valid, AgendaData.Abs, Within, WorldOf, Performs, CommandWithin, Run;
    ghost var w := WorldOf(env, firing, rules, bases);
    firing', worlds, steps := firing, [w], [];
    RunNone(w.st);
    assert commands[..0] == [];
    for k := 0 to |commands|
      invariant Within(env, firing', rules, bases) && Run(w.st, steps, env.Abs())
      invariant Story(env.modules, w, commands[..k], worlds, WorldOf(env, firing', rules, bases))
      invariant forall a :: a in env.on ==> a in old(env.on) || fresh(a)
      invariant forall g :: g in env.groups ==> g in old(env.groups) || fresh(g)
    {
      ghost var mid := WorldOf(env, firing', rules, bases);
      firing' := Perform(env, commands[k], firing', rules, bases);
      ghost var now := WorldOf(env, firing', rules, bases);
      ghost var more := PerformedSteps(env.modules, mid, commands[k], now);
      RunThenRun(w.st, steps, mid.st, more, now.st);
      StoryGoesOn(env.modules, w, commands[..k], worlds, mid, commands[k], now);
      assert commands[..k] + [commands[k]] == commands[..k + 1];
      worlds, steps := worlds + [now], steps + more;
    }
    assert commands[..|commands|] == commands;
  }

  lemma PerformedSteps(ms: seq<DefruleModule>, w: World, c: Command, w': World) returns (steps: seq<Step>)
    requires Performs(ms, w, c, w')
    ensures Run(w.st, steps, w'.st)
  {
    hide Sound, Effect, Run;
    steps := EffectIsRun(ms, w, c, w');
  }

  /**
   * A law of whole runs: while saliences are evaluated when defined, and agendas are not refreshed, every rule has the
   * salience of the start.
   */
  lemma {:induction false} StoryKeepsSaliences(ms: seq<DefruleModule>, w: World, commands: seq<Command>,
                                               worlds: seq<World>, w': World, n: nat)
    requires Story(ms, w, commands, worlds, w') && w.mode == WhenDefined && n <= |commands|
    requires forall k :: 0 <= k < n ==> !commands[k].RefreshAgendas? && !commands[k].ChangeMode?
    ensures worlds[n].saliences == w.saliences && worlds[n].mode == WhenDefined
    decreases n
  {
    hide Sound, Effect;
    if n != 0 {
      StoryKeepsSaliences(ms, w, commands, worlds, w', n - 1);
      assert Performs(ms, worlds[n - 1], commands[n - 1], worlds[n]);
      SaliencesKept(ms, worlds[n - 1], commands[n - 1], worlds[n]);
    }
  }

  // ---------------------------------------------------------------- firing

  // What a rule's actions may ask for: the engine does not run inside itself.
  predicate IsAction(c: Command) {
    !c.DetachFirst? && !c.ReleaseMatch? && !c.Free?
  }

  // No match points at the activation.
  ghost predicate Unpointed(w: World, a: Activation) {
    a in w.firing && forall pm :: pm in w.markers ==> w.markers[pm] != a
  }

  lemma {:induction false} AddsUnpointed(ms: seq<DefruleModule>, w: World, qs: seq<Request>, w': World, a: Activation)
    requires AddsEffect(ms, w, qs, w') && Unpointed(w, a)
    ensures Unpointed(w', a) && w'.firing == w.firing
    decreases |qs|
  {
    hide Next;
    if qs != [] {
      AddsUnpointed(ms, AddedNow(ms, w, qs[0], w'.markers), qs[1..], w', a);
    }
  }

  /** Nothing that an action does makes a match point at a detached activation that was let go. */
  lemma ActionUnpointed(ms: seq<DefruleModule>, w: World, c: Command, w': World, a: Activation)
    requires Performs(ms, w, c, w') && IsAction(c) && Unpointed(w, a)
    ensures Unpointed(w', a) && w'.firing == w.firing
  {
    hide Sound, Next, AddsEffect, AddEffect, RefreshesOf, Objects, SaliencesAfter, Run;
    match c
    case AddFor(q) =>
      OneRequest(ms, w, q, w');
      AddsUnpointed(ms, w, [q], w', a);
    case RefreshRule(rule, values, randoms) =>
      AddsUnpointed(ms, w, RefreshesOf(w, rule, values, randoms), w', a);
    case _ =>
  }

  lemma {:induction false} AddsKeepFiring(ms: seq<DefruleModule>, w: World, qs: seq<Request>, w': World)
    requires AddsEffect(ms, w, qs, w')
    ensures w'.firing == w.firing
    decreases |qs|
  {
    hide Next;
    if qs != [] {
      AddsKeepFiring(ms, AddedNow(ms, w, qs[0], w'.markers), qs[1..], w');
    }
  }

  lemma ActionKeepsFiring(ms: seq<DefruleModule>, w: World, c: Command, w': World)
    requires Performs(ms, w, c, w') && IsAction(c)
    ensures w'.firing == w.firing
  {
    hide Sound, Next, AddsEffect, AddEffect, RefreshesOf, Objects, SaliencesAfter, Run, Cleared;
    match c
    case AddFor(q) =>
      OneRequest(ms, w, q, w');
      AddsKeepFiring(ms, w, [q], w');
    case RefreshRule(rule, values, randoms) =>
      AddsKeepFiring(ms, w, RefreshesOf(w, rule, values, randoms), w');
    case _ =>
  }

  // The first n commands from lo on are actions.
  lemma {:induction false} KeepFiring(ms: seq<DefruleModule>, commands: seq<Command>, worlds: seq<World>,
                                      lo: nat, n: nat)
    requires lo + n <= |commands| && |worlds| == |commands| + 1
    requires forall k {:trigger commands[k]} :: lo <= k < lo + n ==>
               IsAction(commands[k]) && Performs(ms, worlds[k], commands[k], worlds[k + 1])
    ensures worlds[lo + n].firing == worlds[lo].firing
    decreases n
  {
    hide Performs, IsAction;
    if n != 0 {
      KeepFiring(ms, commands, worlds, lo, n - 1);
      var k := lo + n - 1;
      assert IsAction(commands[k]);
      ActionKeepsFiring(ms, worlds[k], commands[k], worlds[k + 1]);
    }
  }

  lemma {:induction false} ActionsKeep(ms: seq<DefruleModule>, commands: seq<Command>, worlds: seq<World>, lo: nat,
                                       n: nat, a: Activation)
    requires lo + n <= |commands| && |worlds| == |commands| + 1
    requires forall k {:trigger commands[k]} :: lo <= k < lo + n ==>
               IsAction(commands[k]) && Performs(ms, worlds[k], commands[k], worlds[k + 1])
    requires Unpointed(worlds[lo], a)
    ensures Unpointed(worlds[lo + n], a)
    decreases n
  {
    hide Performs, IsAction;
    if n != 0 {
      ActionsKeep(ms, commands, worlds, lo, n - 1, a);
      var k := lo + n - 1;
      assert IsAction(commands[k]);
      ActionUnpointed(ms, worlds[k], commands[k], worlds[k + 1], a);
    }
  }

  // The engine detaches an activation and has its match let it go; the rule's actions run; the activation is freed.
  function FireCommands(m: nat, n: nat, actions: seq<Command>): seq<Command> {
    [DetachFirst(m), ReleaseMatch(n)] + actions + [Free(n, false)]
  }

  // After the first two commands nothing points at the activation that fires.
  lemma Launched(ms: seq<DefruleModule>, w: World, m: nat, w1: World, w2: World)
    requires Performs(ms, w, DetachFirst(m), w1) && Performs(ms, w1, ReleaseMatch(|w.firing|), w2)
    requires forall pm :: pm in w.markers && w.markers[pm] != null ==> w.markers[pm].basis == pm
    ensures w2.firing == w.firing ||
            (|w2.firing| == |w.firing| + 1 && w2.firing[..|w.firing|] == w.firing &&
             Unpointed(w2, w2.firing[|w.firing|]))
  {
    hide Sound, Next, Objects;
    if w1.firing != w.firing {
      var a := w1.firing[|w.firing|];
      assert w1.firing == w.firing + [a];
      SoundFiring(ms, w1, a);
    }
  }

  lemma SoundFiring(ms: seq<DefruleModule>, w: World, a: Activation)
    requires Sound(ms, w) && a in w.firing
    ensures a.basis in w.markers
  {
  }

  // The last command frees the activation.
  lemma Landed(ms: seq<DefruleModule>, w: World, firing: seq<Activation>, w': World)
    requires Performs(ms, w, Free(|firing|, false), w')
    requires w.firing == firing ||
             (|w.firing| == |firing| + 1 && w.firing[..|firing|] == firing && Unpointed(w, w.firing[|firing|]))
    ensures w'.firing == firing
  {
    hide Sound;
    if w.firing != firing {
      SoundFiring(ms, w, w.firing[|firing|]);
    }
  }

  /** Whatever the actions do, in the end the activation that fired is gone and no other detached one is. */
  lemma FiringEnds(ms: seq<DefruleModule>, w: World, m: nat, actions: seq<Command>, worlds: seq<World>, w': World)
    requires Story(ms, w, FireCommands(m, |w.firing|, actions), worlds, w')
    requires forall k :: 0 <= k < |actions| ==> IsAction(actions[k])
    requires forall pm :: pm in w.markers && w.markers[pm] != null ==> w.markers[pm].basis == pm
    ensures w'.firing == w.firing
  {
    hide Performs, Unpointed, IsAction;
    var n, commands := |w.firing|, FireCommands(m, |w.firing|, actions);
    assert commands[0] == DetachFirst(m) && commands[1] == ReleaseMatch(n);
    Launched(ms, w, m, worlds[1], worlds[2]);
    var mid := worlds[2];
    assert forall k {:trigger commands[k]} :: 2 <= k < 2 + |actions| ==> commands[k] == actions[k - 2];
    KeepFiring(ms, commands, worlds, 2, |actions|);
    if mid.firing != w.firing {
      ActionsKeep(ms, commands, worlds, 2, |actions|, mid.firing[n]);
    }
    assert commands[2 + |actions|] == Free(n, false);
    Landed(ms, worlds[2 + |actions|], w.firing, w');
  }

  /**
   * One turn of the engine: the first activation of a module is detached and let go by its match, the rule's actions
   * ask whatever they ask of the agendas, and the activation is freed. It always can be: nothing the actions do makes a
   * match point at it again.
   */
  method FireRule(env: AgendaData, m: nat, actions: seq<Command>, firing: seq<Activation>, ghost rules: set<Defrule>,
                  ghost bases: set<PartialMatch>)
    returns (ghost worlds: seq<World>, ghost steps: seq<Step>)
    requires Within(env, firing, rules, bases)
    requires forall k :: 0 <= k < |actions| ==> IsAction(actions[k]) && CommandWithin(actions[k], rules, bases)
    modifies env, env.modules, env.on, env.groups, bases`marker, rules`salience, rules`leftMemory
    ensures Within(env, firing, rules, bases)
    ensures Story(env.modules, old(WorldOf(env, firing, rules, bases)), FireCommands(m, |firing|, actions), worlds,
                  WorldOf(env, firing, rules, bases))
    ensures Run(old(env.Abs()), steps, env.Abs())
  {
    hide AgendaData.Valid, AgendaData.Abs, Within, Story, Run;
    ghost var w := WorldOf(env, firing, rules, bases);
    WithinMeans(env, firing, rules, bases);
    var firing';
    firing', worlds, steps := PerformAll(env, FireCommands(m, |firing|, actions), firing, rules, bases);
    FiringEnds(env.modules, w, m, actions, worlds, WorldOf(env, firing', rules, bases));
  }
}
