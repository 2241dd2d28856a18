/** The Optimizer object: each method is one atomic step of one thread, updating the object's fields in
    place, and proved to be the step of the same name in module Pipeline. */
module OptimizerObject {
  import opened Options
  import opened Knobs
  import opened Tuners
  import opened Pipeline
  import opened PipelineSafety
  import opened PipelineProgress

  const COMPILE_JOB_BAILOUT_MS: nat := 120_000

  /** `tr` is the schedule, after the first obtain, of a request that began in `s0` and has reached `s`. */
  ghost predicate InRequest(s0: State, tr: seq<Action>, s: State) {
    RequestRun(tr) && Exec(s0, [FirstObtain] + tr) == Some(s)
  }

  class Optimizer {
    const ks: KnobSet
    const ipra: KnobId
    var tuner: Tuner
    var knobs: KnobConfig

    var optimizeQ: nat
    var optimizing: OptStage
    var codegenQ: seq<OptimizeResult>
    var codegen: CodegenStage

    var recompileActive: bool
    var recompileDone: seq<Version>
    var doneQueueEmpty: bool

    ghost var caller: Caller
    ghost var history: seq<GenResult>
    ghost var delivered: seq<Version>

    ghost function View(): State
      reads this
    {
      State(ks, ipra, tuner, knobs, optimizeQ, optimizing, codegenQ, codegen,
            recompileActive, recompileDone, doneQueueEmpty, caller, history, delivered)
    }

    constructor (ks: KnobSet, ipra: KnobId, tuner: Tuner)
      ensures View() == Init(ks, ipra, tuner)
    {
      this.ks, this.ipra, this.tuner, knobs := ks, ipra, tuner, Defaults(ks);
      optimizeQ, optimizing, codegenQ, codegen := 0, OptIdle, [], CgIdle;
      recompileActive, recompileDone, doneQueueEmpty := false, [], true;
      caller, history, delivered := Idle, [], [];
    }

    // ----- optimize_callback, between its accesses to shared state

    method BeginOptimize()
      requires Enabled(View(), OptBegin)
      modifies this
      ensures Next(old(View()), OptBegin) == Some(View())
    {
      optimizeQ := optimizeQ - 1;
      optimizing := Begun;
    }

    method GenerateConfig(o: Oracle)
      requires Enabled(View(), OptGenerate(o))
      modifies this
      ensures Next(old(View()), OptGenerate(o)) == Some(View())
    {
      var analyzed := Analyze(ks, tuner, o);
      var (gen, after) := NextConfig(ks, analyzed, o);
      tuner := after;
      optimizing := Generated(gen);
      history := history + [gen];
    }

    method ApplyConfigAndSnapshot()
      requires Enabled(View(), OptApply)
      modifies this
      ensures Next(old(View()), OptApply) == Some(View())
    {
      var gen := optimizing.gen;
      var bank := new KnobBank(ks);
      bank.values := knobs;
      bank.ApplyConfig(gen.config);
      knobs := bank.values;
      optimizing := Applied(gen.fb, FlagsOf(ipra, knobs));
    }

    method RunPasses()
      requires Enabled(View(), OptPasses)
      modifies this
      ensures Next(old(View()), OptPasses) == Some(View())
    {
      optimizing := Optimized(Version(knobs, optimizing.flags, optimizing.fb));
    }

    method DecideNext()
      requires Enabled(View(), OptDecide)
      modifies this
      ensures Next(old(View()), OptDecide) == Some(View())
    {
      var (shouldCompile, after) := ShouldCompileNext(tuner);
      tuner := after;
      optimizing := Decided(optimizing.version, shouldCompile);
    }

    method RequeueOptimize()
      requires Enabled(View(), OptRequeue)
      modifies this
      ensures Next(old(View()), OptRequeue) == Some(View())
    {
      optimizeQ := optimizeQ + 1;
      optimizing := Requeued(optimizing.version);
    }

    method DispatchCodegen()
      requires Enabled(View(), OptDispatch)
      modifies this
      ensures Next(old(View()), OptDispatch) == Some(View())
    {
      var record := OptimizeResult(optimizing.version, optimizing.Decided?);
      codegenQ := codegenQ + [record];
      optimizing := OptReturning;
    }

    method ReturnFromOptimize()
      requires Enabled(View(), OptReturn)
      modifies this
      ensures Next(old(View()), OptReturn) == Some(View())
    {
      optimizing := OptIdle;
    }

    // ----- codegen_callback

    method BeginCodegen()
      requires Enabled(View(), CgBegin)
      modifies this
      ensures Next(old(View()), CgBegin) == Some(View())
    {
      codegen := Compiling(codegenQ[0]);
      codegenQ := codegenQ[1..];
    }

    method CompileAndWrap()
      requires Enabled(View(), CgCompile)
      modifies this
      ensures Next(old(View()), CgCompile) == Some(View())
    {
      codegen := Compiled(codegen.job);
    }

    /** addToList_callback, dispatched synchronously by the code generation job. */
    method AddToList()
      requires Enabled(View(), CgPublish)
      modifies this
      ensures Next(old(View()), CgPublish) == Some(View())
    {
      recompileDone := recompileDone + [codegen.job.version];
      doneQueueEmpty := false;
      codegen := Published(codegen.job.end);
    }

    method EndChain()
      requires Enabled(View(), CgFinish)
      modifies this
      ensures Next(old(View()), CgFinish) == Some(View())
    {
      if codegen.end {
        recompileActive := false;
      }
      codegen := CgReturning;
    }

    method ReturnFromCodegen()
      requires Enabled(View(), CgReturn)
      modifies this
      ensures Next(old(View()), CgReturn) == Some(View())
    {
      codegen := CgIdle;
    }

    // ----- the caller

    /** obtain_callback: try once to pop a result. */
    method ObtainCallback(ghost missed: Caller) returns (r: Option<Version>)
      modifies this
      ensures View() == Obtain(old(View()), missed)
      ensures r == if old(recompileDone) == [] then None else Some(old(recompileDone)[0])
    {
      if recompileDone == [] {
        doneQueueEmpty := true;
        caller := missed;
        return None;
      }
      r := Some(recompileDone[0]);
      delivered := delivered + [recompileDone[0]];
      recompileDone := recompileDone[1..];
      doneQueueEmpty := recompileDone == [];
      caller := Idle;
    }

    /** status: two separate atomic loads, so worker steps may come between them; `flagSeen` is the flag at
        the second load. */
    method GetStatus() returns (status: Status, ghost tr: seq<Action>, ghost flagSeen: bool)
      requires ks.Valid() && caller.Idle?
      modifies this
      ensures AllWorkers(tr) && Exec(old(View()), [PollEmpty] + tr + [PollActive]) == Some(View())
      ensures caller == Answered(status)
      ensures flagSeen == recompileActive
      ensures status.Ready? <==> !old(doneQueueEmpty)
      ensures Control(old(View())) ==> (status.Ready? <==> old(recompileDone) != [])
      ensures Control(old(View())) ==> (status.Working? <==> old(recompileDone) == [] && flagSeen)
      ensures Control(old(View())) ==> (status.Empty? <==> old(recompileDone) == [] && !flagSeen)
    {
      ghost var s0 := View();
      var empty := doneQueueEmpty;
      caller := Polled(empty);
      ghost var s1 := View();
      tr := Sleep();
      WorkersDeliverNothing(s1, tr);
      ghost var s2 := View();
      flagSeen := recompileActive;
      if empty {
        status := if recompileActive then Working else Status.Empty;
      } else {
        status := Ready;
      }
      caller := Answered(status);
      PollIsRun(s0, s1, tr, s2, View());
      hide Exec, Next, AllWorkers;
    }

    /** Interference: while the caller does something else, the two queues take any number of turns. */
    method Sleep() returns (ghost tr: seq<Action>)
      requires ks.Valid()
      modifies this
      ensures AllWorkers(tr) && Exec(old(View()), tr) == Some(View())
    {
      tr := [];
      ghost var s0 := View();
      var turns: nat := *;
      hide Next;
      while turns > 0
        invariant AllWorkers(tr) && Exec(s0, tr) == Some(View())
      {
        ghost var s1 := View();
        ghost var taken := Turn();
        ExecAppend(s0, tr, taken);
        tr := tr + taken;
        turns := turns - 1;
      }
    }

    /** One turn of one of the queues: the next part of its current job, or of the next one, or nothing if
        it has no job. */
    method Turn() returns (ghost taken: seq<Action>)
      requires ks.Valid()
      modifies this
      ensures AllWorkers(taken) && Exec(old(View()), taken) == Some(View())
    {
      ghost var s0 := View();
      var optimizersTurn: bool := *;
      ghost var a: Option<Action>;
      if optimizersTurn {
        a := OptimizeTurn();
      } else {
        a := CodegenTurn();
      }
      taken := if a.Some? then [a.value] else [];
      assert taken != [] ==> taken[1..] == [];
      assert Exec(View(), []) == Some(View());
    }

    method OptimizeTurn() returns (ghost a: Option<Action>)
      requires ks.Valid()
      modifies this
      ensures a.Some? ==> WorkerStep(a.value) && Next(old(View()), a.value) == Some(View())
      ensures a.None? ==> View() == old(View())
    {
      a := None;
      match optimizing
      case OptIdle =>
        if optimizeQ > 0 {
          BeginOptimize();
          a := Some(OptBegin);
        }
      case Begun =>
        var o := Draw();
        GenerateConfig(o);
        a := Some(OptGenerate(o));
      case Generated(_) =>
        ApplyConfigAndSnapshot();
        a := Some(OptApply);
      case Applied(_, _) =>
        RunPasses();
        a := Some(OptPasses);
      case Optimized(_) =>
        DecideNext();
        a := Some(OptDecide);
      case Decided(_, more) =>
        if more {
          RequeueOptimize();
          a := Some(OptRequeue);
        } else {
          DispatchCodegen();
          a := Some(OptDispatch);
        }
      case Requeued(_) =>
        DispatchCodegen();
        a := Some(OptDispatch);
      case OptReturning =>
        ReturnFromOptimize();
        a := Some(OptReturn);
    }

    method CodegenTurn() returns (ghost a: Option<Action>)
      modifies this
      ensures a.Some? ==> WorkerStep(a.value) && Next(old(View()), a.value) == Some(View())
      ensures a.None? ==> View() == old(View())
    {
      a := None;
      match codegen
      case CgIdle =>
        if codegenQ != [] {
          BeginCodegen();
          a := Some(CgBegin);
        }
      case Compiling(_) =>
        CompileAndWrap();
        a := Some(CgCompile);
      case Compiled(_) =>
        AddToList();
        a := Some(CgPublish);
      case Published(_) =>
        EndChain();
        a := Some(CgFinish);
      case CgReturning =>
        ReturnFromCodegen();
        a := Some(CgReturn);
    }

    /** Everything the tuner may draw for its next configuration. */
    method Draw() returns (o: Oracle)
      requires ks.Valid()
      ensures Legal(ks, tuner, o)
    {
      var draw := GenRandomConfig(ks);
      var first := GenRandomConfig(ks);
      var predicted: seq<KnobConfig> := [];
      for i := 0 to BATCH_SZ
        invariant |predicted| == i && AllFit(ks, predicted)
      {
        var kc := GenRandomConfig(ks);
        predicted := predicted + [kc];
      }
      var shuffled: seq<GenResult> := [];
      if tuner.Bayes? {
        shuffled :| multiset(shuffled) == multiset(tuner.configs);
      }
      var missingCurrent: bool, missingTrial: bool, keepCurrent: bool := *, *, *;
      o := Oracle(draw, first, shuffled, predicted, missingCurrent, missingTrial, keepCurrent);
    }

    method LoadRecompileActive() returns (active: bool)
      requires caller.Missed?
      modifies this
      ensures Next(old(View()), LoadActive) == Some(View())
      ensures active == recompileActive && caller == (if active then Waiting else Starting)
      ensures delivered == old(delivered)
    {
      active := recompileActive;
      caller := if active then Waiting else Starting;
    }

    method StoreRecompileActive()
      requires caller.Starting?
      modifies this
      ensures Next(old(View()), StoreActive) == Some(View())
      ensures caller.Dispatching? && delivered == old(delivered)
    {
      recompileActive := true;
      caller := Dispatching;
    }

    method DispatchOptimize()
      requires caller.Dispatching?
      modifies this
      ensures Next(old(View()), Dispatch) == Some(View())
      ensures caller.Waiting? && delivered == old(delivered)
    {
      optimizeQ := optimizeQ + 1;
      caller := Waiting;
    }

    /** The chain-starting part of recompile, after its first obtain came back empty. */
    method StartOrJoinChain(ghost s0: State, ghost tr: seq<Action>) returns (ghost tr': seq<Action>)
      requires ks.Valid() && InRequest(s0, tr, View()) && caller.Missed?
      modifies this
      ensures InRequest(s0, tr', View()) && caller.Waiting? && delivered == old(delivered)
    {
      tr' := Interleave(s0, tr);
      var active := LoadRecompileActive();
      tr' := Extend(s0, tr', LoadActive, View());
      if !active {
        tr' := Interleave(s0, tr');
        StoreRecompileActive();
        tr' := Extend(s0, tr', StoreActive, View());
        tr' := Interleave(s0, tr');
        DispatchOptimize();
        tr' := Extend(s0, tr', Dispatch, View());
      }
    }

    /** recompile's check for an already compiled version. */
    method FirstTry() returns (r: Option<Version>)
      requires caller.Idle? || caller.Answered?
      modifies this
      ensures InRequest(old(View()), [], View())
      ensures r.Some? ==> caller.Idle? && delivered == old(delivered) + [r.value]
      ensures r.None? ==> caller.Missed? && delivered == old(delivered)
    {
      ghost var s0 := View();
      r := ObtainCallback(Missed);
      assert [FirstObtain] + [] == [FirstObtain] && [FirstObtain][1..] == [];
      assert Exec(s0, [FirstObtain]) == Exec(View(), [FirstObtain][1..]);
    }

    /** One turn of recompile's waiting loop: sleep, then try again. */
    method WaitAndRetry(ghost s0: State, ghost tr: seq<Action>) returns (r: Option<Version>, ghost tr': seq<Action>)
      requires ks.Valid() && InRequest(s0, tr, View()) && caller.Waiting?
      modifies this
      ensures InRequest(s0, tr', View())
      ensures r.Some? ==> caller.Idle? && delivered == old(delivered) + [r.value]
      ensures r.None? ==> caller.Waiting? && recompileDone == [] && delivered == old(delivered)
    {
      tr' := Interleave(s0, tr);
      r := ObtainCallback(Waiting);
      tr' := Extend(s0, tr', Retry, View());
    }

    /** recompile, with the rest of the request's schedule as a ghost.  No result means that the program
        gave up after the bailout time. */
    method Recompile() returns (r: Option<Version>, ghost tr: seq<Action>)
      requires ks.Valid() && (caller.Idle? || caller.Answered?)
      modifies this
      ensures InRequest(old(View()), tr, View())
      ensures r.Some? ==> caller.Idle? && delivered == old(delivered) + [r.value]
      ensures r.None? ==> caller.Waiting? && recompileDone == [] && delivered == old(delivered)
    {
      ghost var s0 := View();
      r := FirstTry();
      tr := [];
      if r.None? {
        tr := StartOrJoinChain(s0, tr);
        r, tr := WaitAndRetry(s0, tr);
        var waitIters := 1;
        while r.None? && waitIters < COMPILE_JOB_BAILOUT_MS
          invariant InRequest(s0, tr, View())
          invariant r.None? ==> caller.Waiting? && recompileDone == [] && delivered == old(delivered)
          invariant r.Some? ==> caller.Idle? && delivered == old(delivered) + [r.value]
          decreases COMPILE_JOB_BAILOUT_MS - waitIters
        {
          r, tr := WaitAndRetry(s0, tr);
          waitIters := waitIters + 1;
        }
      }
    }

    /** Interference at one point of a request: extends the request's schedule by worker steps. */
    method Interleave(ghost s0: State, ghost tr: seq<Action>) returns (ghost tr': seq<Action>)
      requires ks.Valid() && InRequest(s0, tr, View())
      modifies this
      ensures InRequest(s0, tr', View())
      ensures caller == old(caller) && delivered == old(delivered)
    {
      ghost var s1 := View();
      ghost var w := Sleep();
      ExecAppend(s0, [FirstObtain] + tr, w);
      assert [FirstObtain] + tr + w == [FirstObtain] + (tr + w);
      tr' := tr + w;
      WorkersDeliverNothing(s1, w);
    }
  }

  lemma {:induction false} WorkersDeliverNothing(s: State, tr: seq<Action>)
    requires AllWorkers(tr) && Exec(s, tr).Some?
    ensures Exec(s, tr).value.delivered == s.delivered && Exec(s, tr).value.caller == s.caller
    decreases |tr|
  {
    if tr != [] {
      WorkersDeliverNothing(Next(s, tr[0]).value, tr[1..]);
    }
  }

  lemma PollIsRun(s0: State, s1: State, tr: seq<Action>, s2: State, t: State)
    requires Next(s0, PollEmpty) == Some(s1) && Exec(s1, tr) == Some(s2) && Next(s2, PollActive) == Some(t)
    ensures Exec(s0, [PollEmpty] + tr + [PollActive]) == Some(t)
  {
    hide Next;
    assert ([PollEmpty] + tr)[1..] == tr;
    assert Exec(s0, [PollEmpty] + tr) == Some(s2);
    ExecAppend(s0, [PollEmpty] + tr, [PollActive]);
    assert [PollActive][1..] == [];
    assert Exec(t, []) == Some(t);
  }

  /** One more step at the end of a request's schedule. */
  lemma Extend(s0: State, tr: seq<Action>, a: Action, t: State) returns (tr': seq<Action>)
    requires RequestRun(tr) && Exec(s0, [FirstObtain] + tr).Some?
    requires RequestStep(a) && Next(Exec(s0, [FirstObtain] + tr).value, a) == Some(t)
    ensures InRequest(s0, tr', t)
  {
    tr' := tr + [a];
    ExecAppend(s0, [FirstObtain] + tr, [a]);
    assert [a][1..] == [];
    assert [FirstObtain] + tr + [a] == [FirstObtain] + tr';
  }
}
