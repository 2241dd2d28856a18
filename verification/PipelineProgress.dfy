/** How much work is left in the pipeline, and exactly which requests are safe to make. */
module PipelineProgress {
  import opened Options
  import opened Knobs
  import opened Tuners
  import opened Pipeline
  import opened PipelineSafety

  predicate OptHasJob(s: State) {
    OptCarries(s) || s.optimizing.Requeued?
  }

  predicate CgHasJob(s: State) {
    s.codegen.Compiling? || s.codegen.Compiled?
  }

  /** Results that jobs already in the pipeline have yet to publish. */
  function Pending(s: State): nat {
    s.optimizeQ + One(OptHasJob(s)) + |s.codegenQ| + One(CgHasJob(s))
  }

  /** A bound on the optimize jobs that have not begun, counting those the tuner may still ask for. */
  function FutureJobs(s: State): nat {
    if s.optimizeQ > 0 then JobsLeft(s.tuner)
    else match s.optimizing
      case Decided(_, more) => if more then JobsLeft(s.tuner) else 0
      case _ => if OptCarries(s) then JobsLeft(s.tuner) - 1 else 0
  }

  /** A bound on the results the current chain can still publish. */
  function Jobs(s: State): nat {
    FutureJobs(s) + One(OptHasJob(s)) + |s.codegenQ| + One(CgHasJob(s))
  }

  const CODEGEN_STEPS := 5
  const JOB_STEPS := 13

  function OptLeft(stage: OptStage): nat {
    match stage
    case OptIdle => 0
    case Begun => 7 + CODEGEN_STEPS
    case Generated(_) => 6 + CODEGEN_STEPS
    case Applied(_, _) => 5 + CODEGEN_STEPS
    case Optimized(_) => 4 + CODEGEN_STEPS
    case Decided(_, _) => 3 + CODEGEN_STEPS
    case Requeued(_) => 2 + CODEGEN_STEPS
    case OptReturning => 1
  }

  function CgLeft(stage: CodegenStage): nat {
    match stage
    case CgIdle => 0
    case Compiling(_) => 4
    case Compiled(_) => 3
    case Published(_) => 2
    case CgReturning => 1
  }

  /** An upper bound on the worker steps that remain. */
  function WorkLeft(s: State): nat {
    JOB_STEPS * FutureJobs(s) + OptLeft(s.optimizing) + CODEGEN_STEPS * |s.codegenQ| + CgLeft(s.codegen)
  }

  lemma WorkerStepUsesWork(s: State, a: Action)
    requires Control(s) && WorkerStep(a) && Enabled(s, a)
    ensures WorkLeft(Next(s, a).value) < WorkLeft(s)
    ensures Jobs(Next(s, a).value) <= Jobs(s)
  {
    if OptimizerStep(a) { OptStepUsesWork(s, a); }
  }

  lemma OptStepUsesWork(s: State, a: Action)
    requires Control(s) && OptimizerStep(a) && OptNext(s, a).Some?
    ensures WorkLeft(OptNext(s, a).value) < WorkLeft(s)
    ensures Jobs(OptNext(s, a).value) <= Jobs(s)
  {
    if a.OptDecide? {
      AnswerUsesUpJobs(s.tuner);
    }
    if a.OptGenerate? {
      NextConfigKeepsJobs(s.ks, s.tuner, a.oracle);
    }
    hide JobsLeft, NextConfig, Analyze, ShouldCompileNext, Overlay, FlagsOf, Legal;
  }

  lemma PublishedOrPending(s: State, a: Action)
    requires WorkerStep(a) && Enabled(s, a)
    ensures var t := Next(s, a).value;
            && t.caller == s.caller
            && t.delivered == s.delivered
            && s.recompileDone <= t.recompileDone
            && |t.recompileDone| + Pending(t) >= |s.recompileDone| + Pending(s)
  {
    hide NextConfig, Analyze, ShouldCompileNext, Overlay, FlagsOf, Legal, JobsLeft;
  }

  /** A chain never has more than three results to publish, so at most 42 worker steps remain. */
  ghost predicate Bounded(s: State) {
    Jobs(s) <= 3
  }

  lemma BoundedStep(s: State, a: Action)
    requires Control(s) && Bounded(s) && Enabled(s, a)
    ensures Bounded(Next(s, a).value)
  {
    if WorkerStep(a) {
      WorkerStepUsesWork(s, a);
    }
  }

  lemma {:induction false} BoundedRun(s: State, tr: seq<Action>)
    requires Control(s) && Bounded(s) && Exec(s, tr).Some?
    ensures Bounded(Exec(s, tr).value)
    decreases |tr|
  {
    if tr != [] {
      ControlStep(s, tr[0]);
      BoundedStep(s, tr[0]);
      BoundedRun(Next(s, tr[0]).value, tr[1..]);
    }
  }

  lemma ReachableBounded(s: State)
    requires Reachable(s)
    ensures Bounded(s) && WorkLeft(s) <= 42
  {
    var ks, ipra, tuner, tr :| ReachedBy(ks, ipra, tuner, tr, s);
    BoundedRun(Init(ks, ipra, tuner), tr);
  }

  /** A run of worker steps uses up work and loses no result. */
  lemma {:induction false} WorkerRun(s: State, tr: seq<Action>)
    requires Control(s) && AllWorkers(tr) && Exec(s, tr).Some?
    ensures var t := Exec(s, tr).value;
            && Control(t)
            && |tr| + WorkLeft(t) <= WorkLeft(s)
            && t.caller == s.caller
            && t.delivered == s.delivered
            && s.recompileDone <= t.recompileDone
            && |t.recompileDone| + Pending(t) >= |s.recompileDone| + Pending(s)
    decreases |tr|
  {
    if tr != [] {
      var t := Next(s, tr[0]).value;
      ControlStep(s, tr[0]);
      WorkerStepUsesWork(s, tr[0]);
      PublishedOrPending(s, tr[0]);
      WorkerRun(t, tr[1..]);
    }
  }

  /** While work is left, some worker can take a step. */
  lemma WorkerCanStep(s: State) returns (a: Action)
    requires Inv(s) && (!Quiescent(s) || !s.optimizing.OptIdle? || !s.codegen.CgIdle?)
    ensures WorkerStep(a) && Enabled(s, a)
  {
    match s.codegen
    case Compiling(_) => a := CgCompile;
    case Compiled(_) => a := CgPublish;
    case Published(_) => a := CgFinish;
    case CgReturning => a := CgReturn;
    case CgIdle =>
      if s.codegenQ != [] {
        a := CgBegin;
      } else {
        match s.optimizing
        case OptIdle => a := OptBegin;
        case Begun =>
          DefaultsFit(s.ks);
          var d := Defaults(s.ks);
          var o := Oracle(d, d, if s.tuner.Bayes? then s.tuner.configs else [], [d, d, d, d, d], false, false, false);
          a := OptGenerate(o);
        case Generated(_) => a := OptApply;
        case Applied(_, _) => a := OptPasses;
        case Optimized(_) => a := OptDecide;
        case Decided(_, more) => a := if more then OptRequeue else OptDispatch;
        case Requeued(_) => a := OptDispatch;
        case OptReturning => a := OptReturn;
      }
  }

  ghost predicate NoWorkerCanStep(s: State) {
    forall a :: WorkerStep(a) ==> !Enabled(s, a)
  }

  /** From any reachable state with an unpublished result in flight, the workers take at most 42 steps,
      and when they stop every pending result has been published and the flag is clear. */
  lemma ResultsArePublished(s: State, tr: seq<Action>)
    requires Reachable(s) && AllWorkers(tr) && Exec(s, tr).Some?
    ensures |tr| <= 42
    ensures var t := Exec(s, tr).value;
            NoWorkerCanStep(t) ==>
              && |t.recompileDone| >= |s.recompileDone| + Pending(s)
              && (!s.caller.Dispatching? ==> !t.recompileActive)
  {
    ReachableInv(s);
    ReachableBounded(s);
    WorkerRun(s, tr);
    InvRun(s, tr);
    var t := Exec(s, tr).value;
    if NoWorkerCanStep(t) {
      if !Quiescent(t) || !t.optimizing.OptIdle? || !t.codegen.CgIdle? {
        var a := WorkerCanStep(t);
        assert false;
      }
    }
  }

  /** The workers can always be scheduled until nothing is left to do. */
  lemma {:induction false} Drain(s: State) returns (tr: seq<Action>)
    requires Inv(s)
    ensures AllWorkers(tr) && Exec(s, tr).Some?
    ensures var t := Exec(s, tr).value;
            Inv(t) && Quiescent(t) && t.optimizing.OptIdle? && t.codegen.CgIdle?
    decreases WorkLeft(s)
  {
    if Quiescent(s) && s.optimizing.OptIdle? && s.codegen.CgIdle? {
      tr := [];
    } else {
      var a := WorkerCanStep(s);
      InvStep(s, a);
      WorkerStepUsesWork(s, a);
      var rest := Drain(Next(s, a).value);
      tr := [a] + rest;
      assert tr[1..] == rest;
    }
  }

  /** The destructor's wait is over exactly when the flag is clear, and the workers can always bring it to that. */
  lemma DestructorEnds(s: State) returns (tr: seq<Action>)
    requires Reachable(s) && s.caller.Destroying?
    ensures Enabled(s, Destroy) <==> !s.recompileActive
    ensures AllWorkers(tr) && Exec(s, tr).Some? && Enabled(Exec(s, tr).value, Destroy)
  {
    ReachableInv(s);
    tr := Drain(s);
    WorkerRun(s, tr);
  }

  // ----- which requests are safe

  /** A step that can happen while one `recompile` call is in progress. */
  predicate RequestStep(a: Action) {
    WorkerStep(a) || a.LoadActive? || a.StoreActive? || a.Dispatch? || a.Retry?
  }

  ghost predicate RequestRun(tr: seq<Action>) {
    forall i :: 0 <= i < |tr| ==> RequestStep(tr[i])
  }

  /** The caller is about to start a chain although a result is waiting to be collected. */
  predicate StartsUndrained(s: State) {
    s.caller.Starting? && s.recompileDone != []
  }

  /** The caller waits for a result that nobody is going to produce. */
  predicate Starved(s: State) {
    s.caller.Waiting? && s.recompileDone == [] && Pending(s) == 0
  }

  /** A starved caller stays starved until it gives up. */
  lemma {:induction false} StarvedForever(s: State, tr: seq<Action>)
    requires Starved(s) && RequestRun(tr) && Exec(s, tr).Some?
    ensures Starved(Exec(s, tr).value)
    decreases |tr|
  {
    if tr != [] {
      var t := Next(s, tr[0]).value;
      assert Starved(t);
      StarvedForever(t, tr[1..]);
    }
  }

  /** However the rest of the request is scheduled, it neither starts a chain over an uncollected result
      nor waits for nothing. */
  ghost predicate RequestIsSafe(s: State) {
    forall tr: seq<Action> :: RequestRun(tr) && Exec(s, [FirstObtain] + tr).Some? ==>
      var t := Exec(s, [FirstObtain] + tr).value;
      !StartsUndrained(t) && !Starved(t)
  }

  ghost predicate RequestGoesWell(s: State) {
    && Control(s)
    && match s.caller
       case Idle => true
       case Missed => s.recompileDone == [] && !s.recompileActive
       case Starting => s.recompileDone == [] && !s.recompileActive
       case Dispatching => s.recompileDone == []
       case Waiting => s.recompileDone != [] || Pending(s) > 0
       case _ => false
  }

  lemma GoingWellStep(s: State, a: Action)
    requires RequestGoesWell(s) && RequestStep(a) && Enabled(s, a)
    ensures RequestGoesWell(Next(s, a).value)
  {
    ControlStep(s, a);
    if WorkerStep(a) {
      PublishedOrPending(s, a);
    }
  }

  lemma {:induction false} GoingWellRun(s: State, tr: seq<Action>)
    requires RequestGoesWell(s) && RequestRun(tr) && Exec(s, tr).Some?
    ensures RequestGoesWell(Exec(s, tr).value)
    decreases |tr|
  {
    if tr != [] {
      GoingWellStep(s, tr[0]);
      GoingWellRun(Next(s, tr[0]).value, tr[1..]);
    }
  }

  lemma NotWorkingIsSafe(s: State)
    requires Control(s) && (s.caller.Idle? || s.caller.Answered?)
    requires StatusOf(s) != Working
    ensures RequestIsSafe(s)
  {
    var m := Next(s, FirstObtain).value;
    ControlStep(s, FirstObtain);
    forall tr: seq<Action> | RequestRun(tr) && Exec(s, [FirstObtain] + tr).Some?
      ensures !StartsUndrained(Exec(s, [FirstObtain] + tr).value) && !Starved(Exec(s, [FirstObtain] + tr).value)
    {
      assert ([FirstObtain] + tr)[1..] == tr;
      GoingWellRun(m, tr);
    }
  }

  /** The workers can finish, publish and clear the flag while the caller stands still. */
  lemma FinishBehindCaller(m: State) returns (work: seq<Action>, d: State)
    requires Inv(m) && m.caller.Missed? && m.recompileDone == [] && Pending(m) > 0
    ensures AllWorkers(work) && Exec(m, work) == Some(d)
    ensures d.caller.Missed? && d.recompileDone != [] && !d.recompileActive
  {
    work := Drain(m);
    d := Exec(m, work).value;
    WorkerRun(m, work);
  }

  /** While results are in flight: let the workers finish between the failed obtain and the load. */
  lemma WorkingWithPendingIsUnsafe(s: State)
    requires Inv(s) && (s.caller.Idle? || s.caller.Answered?)
    requires StatusOf(s) == Working && Pending(s) > 0
    ensures !RequestIsSafe(s)
  {
    var m := Next(s, FirstObtain).value;
    InvStep(s, FirstObtain);
    var work, d := FinishBehindCaller(m);
    var t := d.(caller := Starting);
    RequestSchedule(s, m, work, d, LoadActive, t);
    hide Exec, Inv, Pending;
  }

  /** A request's schedule put together from its first obtain, some worker steps, and one more step. */
  lemma RequestSchedule(s: State, m: State, work: seq<Action>, d: State, a: Action, t: State)
    requires Next(s, FirstObtain) == Some(m) && AllWorkers(work) && Exec(m, work) == Some(d)
    requires RequestStep(a) && Next(d, a) == Some(t)
    ensures RequestRun(work + [a]) && Exec(s, [FirstObtain] + (work + [a])) == Some(t)
  {
    hide Next;
    ExecAppend(m, work, [a]);
    assert [a][1..] == [];
    assert Exec(t, []) == Some(t);
    assert Exec(d, [a]) == Exec(t, [a][1..]);
    assert ([FirstObtain] + (work + [a]))[1..] == work + [a];
  }

  /** In the window between publishing the last result and clearing the flag: read the flag too early. */
  lemma WorkingInWindowIsUnsafe(s: State)
    requires Control(s) && (s.caller.Idle? || s.caller.Answered?)
    requires StatusOf(s) == Working && Pending(s) == 0
    ensures !RequestIsSafe(s)
  {
    var m := Next(s, FirstObtain).value;
    var t := Next(m, LoadActive).value;
    assert Starved(t);
    assert Exec(m, []) == Some(m);
    RequestSchedule(s, m, [], m, LoadActive, t);
  }

  /** `recompile` is safe to call exactly when `status()` would not answer Working. */
  lemma RequestSafeIffNotWorking(s: State)
    requires Reachable(s) && (s.caller.Idle? || s.caller.Answered?)
    ensures RequestIsSafe(s) <==> StatusOf(s) != Working
  {
    ReachableInv(s);
    if StatusOf(s) != Working {
      NotWorkingIsSafe(s);
    } else if Pending(s) > 0 {
      WorkingWithPendingIsUnsafe(s);
    } else {
      WorkingInWindowIsUnsafe(s);
    }
  }

  /** What `status()` answers, when the workers take the steps `tr` between its two loads: Ready exactly if
      the list had a result at the first load; otherwise Working or Empty as the flag was set or clear at
      the second. */
  lemma StatusIsTrue(s: State, tr: seq<Action>)
    requires Reachable(s) && s.caller.Idle? && AllWorkers(tr)
    requires Exec(s.(caller := Polled(s.doneQueueEmpty)), tr).Some?
    ensures var s1 := s.(caller := Polled(s.doneQueueEmpty));
      var s2 := Exec(s1, tr).value;
      && Next(s, PollEmpty) == Some(s1) && Enabled(s2, PollActive)
      && var answer := Next(s2, PollActive).value.caller;
         && (answer == Answered(Ready) <==> s.recompileDone != [])
         && (answer == Answered(Working) <==> s.recompileDone == [] && s2.recompileActive)
         && (answer == Answered(Empty) <==> s.recompileDone == [] && !s2.recompileActive)
  {
    ReachableInv(s);
    var s1 := s.(caller := Polled(s.doneQueueEmpty));
    ControlStep(s, PollEmpty);
    WorkerRun(s1, tr);
  }

  /** With no step between the loads, the answer is the state of the list and the flag. */
  lemma StatusAtOnce(s: State)
    requires Reachable(s) && s.caller.Idle?
    ensures Next(s, PollEmpty).Some? && Next(Next(s, PollEmpty).value, PollActive).Some?
    ensures var answer := Next(Next(s, PollEmpty).value, PollActive).value.caller;
      && (answer == Answered(Ready) <==> s.recompileDone != [])
      && (answer == Answered(Working) <==> s.recompileDone == [] && s.recompileActive)
      && (answer == Answered(Empty) <==> s.recompileDone == [] && !s.recompileActive)
      && answer == Answered(StatusOf(s))
  {
    StatusIsTrue(s, []);
    ReachableInv(s);
  }

  /** An answer other than Working, assembled from two separate loads, is still true when the caller
      acts on it, however many worker steps came in between. */
  lemma StatusAnswerStands(s: State)
    requires Reachable(s) && s.caller.Answered? && s.caller.status != Working
    ensures StatusOf(s) != Working && RequestIsSafe(s)
  {
    ReachableInv(s);
    NotWorkingIsSafe(s);
  }

  /** A caller that saw Ready gets a result from its next request at the first attempt. */
  lemma ReadyNeverWaits(s: State, tr: seq<Action>)
    requires Reachable(s) && s.caller == Answered(Ready) && AllWorkers(tr) && Exec(s, tr).Some?
    ensures var t := Exec(s, tr).value;
            && s.recompileDone != []
            && Enabled(t, FirstObtain)
            && Next(t, FirstObtain).value.caller.Idle?
            && Next(t, FirstObtain).value.delivered == s.delivered + [s.recompileDone[0]]
  {
    ReachableInv(s);
    WorkerRun(s, tr);
  }

  /** A request that starts the chain itself has a result coming. */
  lemma StartedRequestHasResultComing(s: State)
    requires Reachable(s) && Enabled(s, Dispatch)
    ensures Pending(Next(s, Dispatch).value) == 1
  {
    ReachableInv(s);
  }
}
