/** The two ways a request can go wrong: exactly when each is possible, and that each does happen. */
module PipelineFailures {
  import opened Options
  import opened Knobs
  import opened Tuners
  import opened Pipeline
  import opened PipelineSafety
  import opened PipelineProgress

  /** Some schedule of the request starts a chain over an uncollected result. */
  ghost predicate MayStartUndrained(s: State) {
    exists tr: seq<Action> :: UndrainedBy(s, tr)
  }

  ghost predicate UndrainedBy(s: State, tr: seq<Action>) {
    RequestRun(tr) && Exec(s, [FirstObtain] + tr).Some? && StartsUndrained(Exec(s, [FirstObtain] + tr).value)
  }

  /** Some schedule of the request leaves the caller waiting for nothing. */
  ghost predicate MayStarve(s: State) {
    exists tr: seq<Action> :: StarvedBy(s, tr)
  }

  ghost predicate StarvedBy(s: State, tr: seq<Action>) {
    RequestRun(tr) && Exec(s, [FirstObtain] + tr).Some? && Starved(Exec(s, [FirstObtain] + tr).value)
  }

  // ----- with results in flight nobody starves

  /** Whoever waits, or is about to find the flag set and wait, has something to wait for. */
  ghost predicate Provided(s: State) {
    && Control(s)
    && match s.caller
       case Idle => true
       case Missed => s.recompileDone != [] || Pending(s) > 0
       case Waiting => s.recompileDone != [] || Pending(s) > 0
       case Starting => true
       case Dispatching => true
       case _ => false
  }

  lemma ProvidedStep(s: State, a: Action)
    requires Provided(s) && RequestStep(a) && Enabled(s, a)
    ensures Provided(Next(s, a).value)
  {
    ControlStep(s, a);
    if WorkerStep(a) {
      PublishedOrPending(s, a);
      hide Pending, Next;
    }
  }

  lemma {:induction false} ProvidedRun(s: State, tr: seq<Action>)
    requires Provided(s) && RequestRun(tr) && Exec(s, tr).Some?
    ensures Provided(Exec(s, tr).value)
    decreases |tr|
  {
    if tr != [] {
      ProvidedStep(s, tr[0]);
      ProvidedRun(Next(s, tr[0]).value, tr[1..]);
    }
  }

  // ----- in the window nobody starts over an uncollected result

  /** Until the request's own job is dispatched, nothing is published. */
  ghost predicate NothingComes(s: State) {
    && Control(s)
    && match s.caller
       case Missed => s.recompileDone == [] && Pending(s) == 0
       case Starting => s.recompileDone == []
       case Dispatching => true
       case Waiting => true
       case Idle => true
       case _ => false
  }

  lemma NothingComesStep(s: State, a: Action)
    requires NothingComes(s) && RequestStep(a) && Enabled(s, a)
    ensures NothingComes(Next(s, a).value)
  {
    ControlStep(s, a);
    if WorkerStep(a) {
      IdleWorkersPublishNothing(s, a);
      hide Pending;
    }
  }

  /** With no result in flight, or none that a job could bring, workers publish nothing. */
  lemma IdleWorkersPublishNothing(s: State, a: Action)
    requires Control(s) && WorkerStep(a) && Enabled(s, a)
    ensures var t := Next(s, a).value;
            && t.caller == s.caller
            && (Pending(s) == 0 ==> Pending(t) == 0 && t.recompileDone == s.recompileDone)
            && (s.caller.Starting? ==> t.recompileDone == s.recompileDone)
  {
    hide NextConfig, Analyze, ShouldCompileNext, Overlay, FlagsOf, Legal, JobsLeft;
  }

  lemma {:induction false} NothingComesRun(s: State, tr: seq<Action>)
    requires NothingComes(s) && RequestRun(tr) && Exec(s, tr).Some?
    ensures NothingComes(Exec(s, tr).value)
    decreases |tr|
  {
    if tr != [] {
      NothingComesStep(s, tr[0]);
      NothingComesRun(Next(s, tr[0]).value, tr[1..]);
    }
  }

  // ----- which failure, exactly when

  lemma AfterObtain(s: State, tr: seq<Action>)
    requires Inv(s) && (s.caller.Idle? || s.caller.Answered?) && StatusOf(s) == Working
    requires Exec(s, [FirstObtain] + tr).Some?
    ensures var m := s.(doneQueueEmpty := true, caller := Missed);
            Inv(m) && Next(s, FirstObtain) == Some(m) && Exec(m, tr) == Exec(s, [FirstObtain] + tr)
  {
    InvStep(s, FirstObtain);
    assert ([FirstObtain] + tr)[1..] == tr;
  }

  /** A safe request has neither failure. */
  lemma SafeMeansNeither(s: State)
    ensures RequestIsSafe(s) <==> !MayStartUndrained(s) && !MayStarve(s)
  {
    if RequestIsSafe(s) {
      forall tr: seq<Action> ensures !UndrainedBy(s, tr) && !StarvedBy(s, tr) {
      }
    } else {
      var tr: seq<Action> :| RequestRun(tr) && Exec(s, [FirstObtain] + tr).Some?
        && (StartsUndrained(Exec(s, [FirstObtain] + tr).value) || Starved(Exec(s, [FirstObtain] + tr).value));
      assert UndrainedBy(s, tr) || StarvedBy(s, tr);
    }
  }

  lemma PendingNeverStarves(s: State)
    requires Inv(s) && (s.caller.Idle? || s.caller.Answered?) && StatusOf(s) == Working && Pending(s) > 0
    ensures !MayStarve(s)
  {
    forall tr: seq<Action> ensures !StarvedBy(s, tr) {
      if StarvedBy(s, tr) {
        AfterObtain(s, tr);
        var m := s.(doneQueueEmpty := true, caller := Missed);
        assert Provided(m);
        hide Exec, Inv;
        ProvidedRun(m, tr);
        assert false;
      }
    }
  }

  lemma WindowNeverStartsUndrained(s: State)
    requires Inv(s) && (s.caller.Idle? || s.caller.Answered?) && StatusOf(s) == Working && Pending(s) == 0
    ensures !MayStartUndrained(s)
  {
    forall tr: seq<Action> ensures !UndrainedBy(s, tr) {
      if UndrainedBy(s, tr) {
        AfterObtain(s, tr);
        var m := s.(doneQueueEmpty := true, caller := Missed);
        assert NothingComes(m);
        hide Exec, Inv;
        NothingComesRun(m, tr);
        assert false;
      }
    }
  }

  /** A request can start a chain over uncollected results exactly while results are in flight and none is
      in the list, and can starve exactly in the window after the last publication. */
  lemma FailuresExactly(s: State)
    requires Reachable(s) && (s.caller.Idle? || s.caller.Answered?)
    ensures MayStartUndrained(s) <==> StatusOf(s) == Working && Pending(s) > 0
    ensures MayStarve(s) <==> StatusOf(s) == Working && Pending(s) == 0
  {
    ReachableInv(s);
    RequestSafeIffNotWorking(s);
    SafeMeansNeither(s);
    if StatusOf(s) == Working {
      if Pending(s) > 0 {
        PendingNeverStarves(s);
      } else {
        WindowNeverStartsUndrained(s);
      }
    }
  }

  // ----- both do happen

  lemma ReachableStep(s: State, a: Action) returns (t: State)
    requires Reachable(s) && Enabled(s, a)
    ensures Next(s, a) == Some(t) && Reachable(t)
  {
    t := Next(s, a).value;
    var ks, ipra, tuner, tr :| ReachedBy(ks, ipra, tuner, tr, s);
    ExecAppend(Init(ks, ipra, tuner), tr, [a]);
    assert [a][1..] == [];
    assert Exec(s, [a]) == Exec(t, []);
    assert ReachedBy(ks, ipra, tuner, tr + [a], t);
  }

  lemma InitIsReachable(ks: KnobSet, ipra: KnobId, tuner: Tuner)
    requires ks.Valid() && TunerOk(ks, tuner)
    ensures Reachable(Init(ks, ipra, tuner))
  {
    assert ReachedBy(ks, ipra, tuner, [], Init(ks, ipra, tuner));
  }

  /** The first request of a fresh optimizer, up to the dispatch of its job. */
  lemma FirstRequest(ks: KnobSet, ipra: KnobId, tuner: Tuner) returns (s: State)
    requires ks.Valid() && TunerOk(ks, tuner)
    ensures Reachable(s)
    ensures s == Init(ks, ipra, tuner).(caller := Waiting, recompileActive := true, optimizeQ := 1)
  {
    InitIsReachable(ks, ipra, tuner);
    s := StartsChain(Init(ks, ipra, tuner));
  }

  lemma StartsChain(s0: State) returns (s: State)
    requires Reachable(s0) && s0.caller.Idle? && s0.recompileDone == [] && !s0.recompileActive
    ensures Reachable(s)
    ensures s == s0.(caller := Waiting, recompileActive := true, doneQueueEmpty := true, optimizeQ := s0.optimizeQ + 1)
  {
    hide Reachable;
    s := ReachableStep(s0, FirstObtain);
    s := ReachableStep(s, LoadActive);
    s := ReachableStep(s, StoreActive);
    s := ReachableStep(s, Dispatch);
  }

  /** Its job, up to the decision whether to compile ahead. */
  lemma FirstJobDecides(ks: KnobSet, ipra: KnobId, tuner: Tuner) returns (s: State)
    requires ks.Valid() && (tuner == NoOp || tuner == Random([], 0))
    ensures Reachable(s) && s.caller.Waiting? && s.recompileActive && s.recompileDone == [] && s.doneQueueEmpty
    ensures s.optimizing.Decided? && s.optimizing.more == tuner.Random?
    ensures s.optimizeQ == 0 && s.codegenQ == [] && s.codegen.CgIdle?
  {
    var r := FirstRequest(ks, ipra, tuner);
    s := FirstJobRuns(r, tuner);
    hide Reachable, NextConfig, Analyze, Overlay, FlagsOf, Legal, TunerOk;
    s := ReachableStep(s, OptDecide);
  }

  lemma FirstJobRuns(r: State, tuner: Tuner) returns (s: State)
    requires Reachable(r) && r.ks.Valid() && r.tuner == tuner && (tuner == NoOp || tuner == Random([], 0))
    requires r.optimizing.OptIdle? && r.optimizeQ == 1
    ensures Reachable(s) && s.optimizing.Optimized? && s.optimizeQ == 0
    ensures if tuner.NoOp? then s.tuner.NoOp? else s.tuner.Random? && s.tuner.ahead == 0
    ensures s == r.(tuner := s.tuner, knobs := s.knobs, optimizing := s.optimizing, optimizeQ := 0, history := s.history)
  {
    DefaultsFit(r.ks);
    var d := Defaults(r.ks);
    var o := Oracle(d, d, [], [d, d, d, d, d], false, false, false);
    assert Legal(r.ks, r.tuner, o);
    hide Reachable, Legal, Overlay, FlagsOf, Defaults;
    s := ReachableStep(r, OptBegin);
    s := ReachableStep(s, OptGenerate(o));
    hide NextConfig, Analyze;
    s := ReachableStep(s, OptApply);
    s := ReachableStep(s, OptPasses);
  }

  /** From the hand-over to code generation until the caller has the only result there is. */
  lemma FirstResultCollected(s0: State) returns (s: State)
    requires Reachable(s0) && s0.caller.Waiting? && s0.recompileDone == [] && s0.codegen.CgIdle?
    requires s0.optimizing.OptReturning? && |s0.codegenQ| == 1
    ensures Reachable(s) && s.caller.Idle? && s.recompileDone == [] && s.doneQueueEmpty
    ensures s.codegen == Published(s0.codegenQ[0].end) && s.codegenQ == []
    ensures s.optimizing == s0.optimizing && s.optimizeQ == s0.optimizeQ && s.recompileActive == s0.recompileActive
  {
    hide Reachable;
    s := ReachableStep(s0, CgBegin);
    s := ReachableStep(s, CgCompile);
    s := ReachableStep(s, CgPublish);
    s := ReachableStep(s, Retry);
  }

  /** A caller that comes back in the window, before the flag is cleared, waits for nothing. */
  lemma StarvationHappens(ks: KnobSet, ipra: KnobId) returns (s: State)
    requires ks.Valid()
    ensures Reachable(s) && Starved(s)
  {
    s := FirstJobDecides(ks, ipra, NoOp);
    hide Reachable;
    s := ReachableStep(s, OptDispatch);
    s := FirstResultCollected(s);
    s := ComesBack(s);
  }

  lemma ComesBack(s0: State) returns (s: State)
    requires Reachable(s0) && s0.caller.Idle? && s0.recompileDone == [] && s0.recompileActive && Pending(s0) == 0
    ensures Reachable(s) && Starved(s)
  {
    hide Reachable;
    s := ReachableStep(s0, FirstObtain);
    s := ReachableStep(s, LoadActive);
  }

  /** A caller that comes back while the next version is in flight can start a chain over it. */
  lemma UndrainedStartHappens(ks: KnobSet, ipra: KnobId) returns (s: State)
    requires ks.Valid()
    ensures Reachable(s) && MayStartUndrained(s)
  {
    s := FirstJobDecides(ks, ipra, Random([], 0));
    hide Reachable, MayStartUndrained;
    s := ReachableStep(s, OptRequeue);
    s := ReachableStep(s, OptDispatch);
    s := FirstResultCollected(s);
    assert Pending(s) > 0;
    FailuresExactly(s);
  }
}
