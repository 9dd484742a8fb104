/** Whole-environment facts: the activation count as a sum over agendas, and the time tag reset. */
module AgendaTotals {
  import opened Options
  import opened Ordering
  import opened AgendaSpec
  import opened AgendaHeap
  import opened AgendaEngine
  import opened AgendaOperations

  ghost function TotalLength(ms: seq<DefruleModule>): nat
    reads ms
  {
    if ms == [] then 0 else |ms[0].acts| + TotalLength(ms[1..])
  }

  lemma {:induction false} DistinctLength(s: seq<Activation>, t: set<Activation>)
    requires forall i, j :: 0 <= i < j < |s| ==> s[i] != s[j]
    requires forall a :: a in s ==> a in t
    requires forall a :: a in t ==> a in s
    ensures |t| == |s|
  {
    if s == [] {
      assert t == {};
    } else {
      DistinctLength(s[1..], t - {s[0]});
    }
  }

  // The activations on the agendas of some modules.
  ghost function OnAgendasOf(ms: seq<DefruleModule>, on: set<Activation>): set<Activation> {
    set a | a in on && a.theRule.whichModule in ms
  }

  lemma {:induction false} TotalIsCardinality(ms: seq<DefruleModule>, s: Strategy, nextTag: nat, on: set<Activation>,
                                              groups: set<SalienceGroup>)
    requires Agendas(ms, s, nextTag, on, groups)
    ensures |OnAgendasOf(ms, on)| == TotalLength(ms)
  {
    hide AgendaIn;
    if ms != [] {
      var m, rest := ms[0], ms[1..];
      assert forall o :: o in rest ==> o in ms;
      TotalIsCardinality(rest, s, nextTag, on, groups);
      OwnCounted(m, s, nextTag, on, groups);
      var here := set a | a in on && a.theRule.whichModule == m;
      assert here !! OnAgendasOf(rest, on);
      assert OnAgendasOf(ms, on) == here + OnAgendasOf(rest, on);
    } else {
      assert OnAgendasOf(ms, on) == {};
    }
  }

  lemma OwnCounted(m: DefruleModule, s: Strategy, nextTag: nat, on: set<Activation>, groups: set<SalienceGroup>)
    requires AgendaIn(m, s, nextTag, on, groups)
    ensures |set a | a in on && a.theRule.whichModule == m| == |m.acts|
  {
    DistinctLength(m.acts, set a | a in on && a.theRule.whichModule == m);
  }

  /** The counter is the number of activations on all agendas plus the number detached. */
  lemma NumberOfActivationsIsTotal(env: AgendaData)
    requires env.Valid()
    ensures env.NumberOfActivations == TotalLength(env.modules) + |env.detached|
  {
    TotalIsCardinality(env.modules, env.Strategy, env.CurrentTimetag, env.on, env.groups);
    assert OnAgendasOf(env.modules, env.on) == env.on;
  }

  /**
   * Resets the time tag counter, whatever the agendas hold. Everything stays in order exactly when no activation is
   * left on them.
   */
  method AgendaClearFunction(env: AgendaData)
    requires env.Valid()
    modifies env`CurrentTimetag
    ensures env.CurrentTimetag == 0 && env.Abs() == old(env.Abs()).(nextTag := 0)
    ensures env.Valid() <==> env.on == {}
    ensures Enabled(old(env.Abs()), ResetTags) <==> env.on == {}
    ensures env.on == {} ==> StepTo(old(env.Abs()), ResetTags, env.Abs())
  {
    hide Counted, Marked, Views;
    EmptyViews(env);
    ghost var before := env.Abs();
    env.CurrentTimetag := 0;
    if env.on == {} {
      forall m | m in env.modules ensures AgendaIn(m, env.Strategy, 0, env.on, env.groups) {
        assert old(AgendaIn(m, env.Strategy, env.CurrentTimetag, env.on, env.groups));
      }
    } else if env.Valid() {
      EmptyViews(env);
      NoTagBelowZero(env);
    }
  }

  lemma NoTagBelowZero(env: AgendaData)
    requires env.Valid() && env.CurrentTimetag == 0
    ensures env.on == {}
  {
    EmptyViews(env);
    forall m | m in env.modules ensures m.view == [] {
      assert AgendaIn(m, env.Strategy, 0, env.on, env.groups);
      FirstTag(m.view);
    }
  }

  lemma FirstTag(view: seq<Act>)
    ensures view == [] || exists i :: 0 <= i < |view| && view[i].timetag >= 0
  {
    if view != [] {
      assert view[0].timetag >= 0;
    }
  }

  lemma EmptyViews(env: AgendaData)
    requires env.Valid()
    ensures env.on == {} ==> forall m :: m in env.modules ==> m.view == []
    ensures env.on != {} ==> exists m :: m in env.modules && m.view != []
  {
    forall m | m in env.modules ensures env.on == {} ==> m.view == [] {
      assert AgendaIn(m, env.Strategy, env.CurrentTimetag, env.on, env.groups);
    }
    if env.on != {} {
      var a :| a in env.on;
      assert AgendaIn(a.theRule.whichModule, env.Strategy, env.CurrentTimetag, env.on, env.groups);
      assert a in a.theRule.whichModule.acts;
    }
  }

  /** Resetting the time tags with one activation left breaks the environment. */
  method ResetTooSoon() returns (env: AgendaData)
    ensures !env.Valid() && |env.modules| == 1 && |env.on| == 1
  {
    hide AgendaData.Valid, AgendaData.Abs, StepTo;
    var m := new DefruleModule();
    env := new AgendaData([m]);
    var rule := new Defrule(1, m, null, false, 0);
    var match_ := new PartialMatch([Some(1)], true);
    var a, i := AddActivation(env, rule, match_, IntegerValue(0), 0);
    AgendaClearFunction(env);
  }
}
