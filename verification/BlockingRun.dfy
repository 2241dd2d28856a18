/** A schedule of the blocking driver that trains the surrogate model on a version nobody has run, and
    with it the exact condition under which training is safe. */
module BlockingRun {
  import opened Options
  import opened Knobs
  import opened Tuners
  import opened Pipeline
  import opened PipelineSafety
  import opened Training

  ghost predicate Runs(y0: Sys, y: Sys) {
    exists tr: seq<SysAction> :: SysExec(y0, tr) == Some(y)
  }

  lemma {:induction false} SysExecSnoc(y0: Sys, tr: seq<SysAction>, a: SysAction)
    requires SysExec(y0, tr).Some? && SysNext(SysExec(y0, tr).value, a).Some?
    ensures SysExec(y0, tr + [a]) == SysNext(SysExec(y0, tr).value, a)
    decreases |tr|
  {
    if tr == [] {
      assert [a][0] == a && [a][1..] == [];
      assert [] + [a] == [a];
      assert SysExec(SysNext(y0, a).value, []) == SysNext(y0, a);
    } else {
      assert (tr + [a])[0] == tr[0] && (tr + [a])[1..] == tr[1..] + [a];
      SysExecSnoc(SysNext(y0, tr[0]).value, tr[1..], a);
    }
  }

  lemma RunsStep(y0: Sys, y: Sys, a: SysAction) returns (z: Sys)
    requires Runs(y0, y) && SysNext(y, a).Some?
    ensures z == SysNext(y, a).value && Runs(y0, z)
  {
    var tr :| SysExec(y0, tr) == Some(y);
    SysExecSnoc(y0, tr, a);
    z := SysNext(y, a).value;
    assert SysExec(y0, tr + [a]) == Some(z);
  }

  /** A pipeline step that delivers nothing leaves the driver as it was. */
  lemma PipeStep(y0: Sys, y: Sys, a: Action, q: State) returns (z: Sys)
    requires Runs(y0, y) && DriverAllows(y, a)
    requires Next(y.p, a) == Some(q) && |q.delivered| == |y.p.delivered|
    ensures z == y.(p := q) && Runs(y0, z)
  {
    z := RunsStep(y0, y, Pipe(a));
  }

  // ----- the Bayesian tuner by its three sizes

  datatype Sizes = Sizes(configs: nat, predictions: nat, ahead: nat)

  function JobSizes(z: Sizes): Sizes {
    if z.configs < BATCH_SZ then z.(configs := z.configs + 1)
    else Sizes(z.configs + 1, if z.predictions == 0 then BATCH_SZ - 1 else z.predictions - 1, z.ahead)
  }

  function More(z: Sizes): bool {
    z.ahead < DEFAULT_COMPILE_AHEAD && z.predictions > 0
  }

  function AskedSizes(z: Sizes): Sizes {
    z.(ahead := if z.ahead < DEFAULT_COMPILE_AHEAD then z.ahead + 1 else 0)
  }

  /** The sizes after a whole chain; `jobs` counts them. */
  function ChainSizes(z: Sizes): (Sizes, nat)
    decreases if z.ahead < DEFAULT_COMPILE_AHEAD then DEFAULT_COMPILE_AHEAD - z.ahead else 0
  {
    var j := JobSizes(z);
    if More(j) then var (end, jobs) := ChainSizes(AskedSizes(j)); (end, jobs + 1)
    else (AskedSizes(j), 1)
  }

  ghost predicate Tuned(s: State, z: Sizes) {
    && s.ks.Valid()
    && TunerOk(s.ks, s.tuner)
    && s.tuner.Bayes?
    && Sizes(|s.tuner.configs|, |s.tuner.predictions|, s.tuner.ahead) == z
  }

  /** No job anywhere. */
  predicate AtRest(s: State) {
    s.optimizing.OptIdle? && s.codegen.CgIdle? && s.optimizeQ == 0 && s.codegenQ == []
  }

  /** Between two calls of the blocking driver, with every result collected and measured. */
  ghost predicate BetweenCalls(y: Sys, z: Sizes) {
    && AtRest(y.p) && !y.p.recompileActive && y.p.recompileDone == []
    && y.p.caller.Idle? && y.trial.None? && y.blocking
    && |y.p.delivered| == |y.p.history|
    && Tuned(y.p, z)
  }

  /** A request that starts a chain, up to the point where its job can begin. */
  lemma StartChain(y0: Sys, y: Sys, z: Sizes) returns (w: Sys)
    requires Runs(y0, y) && BetweenCalls(y, z)
    ensures Runs(y0, w) && w.blocking && w.trial.None?
    ensures w.p.optimizing.OptIdle? && w.p.codegen.CgIdle? && w.p.optimizeQ == 1 && w.p.codegenQ == []
    ensures w.p.recompileActive && w.p.recompileDone == [] && w.p.caller.Waiting?
    ensures Tuned(w.p, z) && |w.p.delivered| == |w.p.history|
  {
    w := PipeStep(y0, y, FirstObtain, y.p.(doneQueueEmpty := true, caller := Missed));
    w := StartMissed(y0, w);
  }

  /** From a failed obtain to the dispatched job, with the flag found clear. */
  lemma StartMissed(y0: Sys, y: Sys) returns (w: Sys)
    requires Runs(y0, y) && y.p.caller.Missed? && !y.p.recompileActive
    ensures Runs(y0, w)
    ensures w == y.(p := y.p.(recompileActive := true, optimizeQ := y.p.optimizeQ + 1, caller := Waiting))
  {
    w := PipeStep(y0, y, LoadActive, y.p.(caller := Starting));
    w := StoreAndDispatch(y0, w);
    hide Runs;
  }

  lemma StoreAndDispatch(y0: Sys, y: Sys) returns (w: Sys)
    requires Runs(y0, y) && y.p.caller.Starting?
    ensures Runs(y0, w)
    ensures w == y.(p := y.p.(recompileActive := true, optimizeQ := y.p.optimizeQ + 1, caller := Waiting))
  {
    hide Runs;
    w := PipeStep(y0, y, StoreActive, y.p.(recompileActive := true, caller := Dispatching));
    w := PipeStep(y0, w, Dispatch, w.p.(optimizeQ := w.p.optimizeQ + 1, caller := Waiting));
  }

  ghost function PlainOracle(s: State): Oracle
    requires s.tuner.Bayes?
  {
    var d := Defaults(s.ks);
    Oracle(d, d, s.tuner.configs, [d, d, d, d, d], false, false, false)
  }

  /** The first half of an optimize job: everything up to `shouldCompileNext`. */
  lemma GenerateAndOptimize(y0: Sys, y: Sys, z: Sizes) returns (w: Sys)
    requires Runs(y0, y) && Tuned(y.p, z) && y.p.optimizing.OptIdle? && y.p.optimizeQ == 1
    ensures Runs(y0, w) && w.p.optimizing.Optimized? && Tuned(w.p, JobSizes(z))
    ensures w == y.(p := y.p.(tuner := w.p.tuner, knobs := w.p.knobs, optimizeQ := 0,
                              optimizing := w.p.optimizing, history := w.p.history))
    ensures |w.p.history| == |y.p.history| + 1
  {
    var o := PlainOracle(y.p);
    DefaultsFit(y.p.ks);
    NextConfigOk(y.p.ks, y.p.tuner, o);
    var (g, t) := NextConfig(y.p.ks, y.p.tuner, o);
    var knobs := Overlay(y.p.knobs, g.config);
    var flags := FlagsOf(y.p.ipra, knobs);
    w := PipeStep(y0, y, OptBegin, y.p.(optimizeQ := 0, optimizing := Begun));
    w := PipeStep(y0, w, OptGenerate(o), w.p.(tuner := t, optimizing := Generated(g), history := w.p.history + [g]));
    w := PipeStep(y0, w, OptApply, w.p.(knobs := knobs, optimizing := Applied(g.fb, flags)));
    w := PipeStep(y0, w, OptPasses, w.p.(optimizing := Optimized(Version(knobs, flags, g.fb))));
  }

  /** The second half: decide, perhaps dispatch the next job, hand over to code generation, return. */
  lemma DecideAndDispatch(y0: Sys, y: Sys, z: Sizes) returns (w: Sys)
    requires Runs(y0, y) && Tuned(y.p, z) && y.p.optimizing.Optimized? && y.p.optimizeQ == 0
    ensures Runs(y0, w) && w.p.optimizing.OptIdle? && Tuned(w.p, AskedSizes(z))
    ensures w.p.optimizeQ == One(More(z))
    ensures w == y.(p := y.p.(tuner := w.p.tuner, optimizeQ := w.p.optimizeQ, optimizing := OptIdle,
                              codegenQ := y.p.codegenQ + [OptimizeResult(y.p.optimizing.version, !More(z))]))
  {
    var v, t := y.p.optimizing.version, ShouldCompileNext(y.p.tuner).1;
    assert ShouldCompileNext(y.p.tuner).0 == More(z);
    w := PipeStep(y0, y, OptDecide, y.p.(tuner := t, optimizing := Decided(v, More(z))));
    w := HandOver(y0, w, v, More(z));
    hide Runs, Next, NextConfig, Analyze;
  }

  /** From the decision to the idle queue. */
  lemma HandOver(y0: Sys, y: Sys, v: Version, more: bool) returns (w: Sys)
    requires Runs(y0, y) && y.p.optimizing == Decided(v, more) && y.p.optimizeQ == 0
    ensures Runs(y0, w)
    ensures w == y.(p := y.p.(optimizeQ := One(more), optimizing := OptIdle, codegenQ := y.p.codegenQ + [OptimizeResult(v, !more)]))
  {
    w := y;
    if more {
      w := PipeStep(y0, w, OptRequeue, w.p.(optimizeQ := 1, optimizing := Requeued(v)));
    }
    w := PipeStep(y0, w, OptDispatch, w.p.(codegenQ := w.p.codegenQ + [OptimizeResult(v, !more)], optimizing := OptReturning));
    w := PipeStep(y0, w, OptReturn, w.p.(optimizing := OptIdle));
  }

  /** A queue whose last record, and no other, carries the end mark. */
  ghost predicate EndsChain(q: seq<OptimizeResult>) {
    q != [] && forall i :: 0 <= i < |q| ==> q[i].end == (i == |q| - 1)
  }

  /** All optimize jobs of a chain, with code generation held back. */
  lemma {:induction false} AllOptimizeJobs(y0: Sys, y: Sys, z: Sizes) returns (w: Sys)
    requires Runs(y0, y) && Tuned(y.p, z) && y.p.optimizing.OptIdle? && y.p.optimizeQ == 1
    requires forall i :: 0 <= i < |y.p.codegenQ| ==> !y.p.codegenQ[i].end
    ensures Runs(y0, w) && Tuned(w.p, ChainSizes(z).0)
    ensures w == y.(p := y.p.(tuner := w.p.tuner, knobs := w.p.knobs, history := w.p.history,
                              optimizeQ := 0, codegenQ := w.p.codegenQ))
    ensures |w.p.codegenQ| == |y.p.codegenQ| + ChainSizes(z).1 && EndsChain(w.p.codegenQ)
    ensures |w.p.history| == |y.p.history| + ChainSizes(z).1
    decreases if z.ahead < DEFAULT_COMPILE_AHEAD then DEFAULT_COMPILE_AHEAD - z.ahead else 0
  {
    w := GenerateAndOptimize(y0, y, z);
    w := DecideAndDispatch(y0, w, JobSizes(z));
    if More(JobSizes(z)) {
      w := AllOptimizeJobs(y0, w, AskedSizes(JobSizes(z)));
    }
  }

  lemma CodegenToPublish(y0: Sys, y: Sys, job: OptimizeResult) returns (w: Sys)
    requires Runs(y0, y) && y.p.codegen == Compiling(job)
    ensures Runs(y0, w)
    ensures w == y.(p := y.p.(recompileDone := y.p.recompileDone + [job.version], doneQueueEmpty := false, codegen := Published(job.end)))
  {
    w := PipeStep(y0, y, CgCompile, y.p.(codegen := Compiled(job)));
    w := PipeStep(y0, w, CgPublish, w.p.(recompileDone := w.p.recompileDone + [job.version], doneQueueEmpty := false, codegen := Published(job.end)));
  }

  lemma CodegenToReturn(y0: Sys, y: Sys, end: bool) returns (w: Sys)
    requires Runs(y0, y) && y.p.codegen == Published(end)
    ensures Runs(y0, w)
    ensures w == y.(p := y.p.(recompileActive := y.p.recompileActive && !end, codegen := CgIdle))
  {
    w := PipeStep(y0, y, CgFinish, y.p.(recompileActive := y.p.recompileActive && !end, codegen := CgReturning));
    w := PipeStep(y0, w, CgReturn, w.p.(codegen := CgIdle));
  }

  /** One code generation job, from its queue to the result list. */
  lemma CodegenJob(y0: Sys, y: Sys) returns (w: Sys)
    requires Runs(y0, y) && y.p.codegen.CgIdle? && y.p.codegenQ != []
    ensures Runs(y0, w)
    ensures w == y.(p := y.p.(codegenQ := y.p.codegenQ[1..], recompileDone := y.p.recompileDone + [y.p.codegenQ[0].version],
                              doneQueueEmpty := false, recompileActive := y.p.recompileActive && !y.p.codegenQ[0].end))
  {
    var job := y.p.codegenQ[0];
    w := PipeStep(y0, y, CgBegin, y.p.(codegenQ := y.p.codegenQ[1..], codegen := Compiling(job)));
    w := CodegenToPublish(y0, w, job);
    w := CodegenToReturn(y0, w, job.end);
  }

  /** The waiting caller collects a result and the version passes its trial. */
  lemma CollectAndPass(y0: Sys, y: Sys) returns (w: Sys)
    requires Runs(y0, y) && y.p.caller.Waiting? && |y.p.recompileDone| == 1
    ensures Runs(y0, w) && w.p.caller.Idle? && w.trial.None? && w.initialised && w.blocking == y.blocking
    ensures w.p == y.p.(delivered := y.p.delivered + y.p.recompileDone, recompileDone := [], doneQueueEmpty := true, caller := Idle)
  {
    assert y.p.recompileDone == [y.p.recompileDone[0]];
    w := RunsStep(y0, y, Pipe(Retry));
    w := RunsStep(y0, w, TrialPasses);
  }

  /** The rest of a chain's results, each requested after its code generation job is done. */
  lemma {:induction false} CollectRest(y0: Sys, y: Sys, z: Sizes) returns (w: Sys)
    requires Runs(y0, y) && y.p.caller.Idle? && y.trial.None? && y.initialised && y.blocking && Tuned(y.p, z)
    requires y.p.recompileDone == [] && y.p.optimizing.OptIdle? && y.p.codegen.CgIdle? && y.p.optimizeQ == 0
    requires |y.p.delivered| + |y.p.codegenQ| == |y.p.history|
    requires if y.p.codegenQ == [] then !y.p.recompileActive else EndsChain(y.p.codegenQ)
    ensures Runs(y0, w) && BetweenCalls(w, z)
    decreases |y.p.codegenQ|
  {
    w := y;
    if y.p.codegenQ != [] {
      w := CodegenJob(y0, y);
      assert w.p.recompileDone == [y.p.codegenQ[0].version];
      w := RunsStep(y0, w, Pipe(FirstObtain));
      w := RunsStep(y0, w, TrialPasses);
      w := CollectRest(y0, w, z);
    }
  }

  /** A chain with nobody in a hurry: request, compile, collect, measure. */
  lemma QuietChain(y0: Sys, y: Sys, z: Sizes) returns (w: Sys)
    requires Runs(y0, y) && BetweenCalls(y, z)
    ensures Runs(y0, w) && BetweenCalls(w, ChainSizes(z).0)
  {
    w := StartChain(y0, y, z);
    w := AllOptimizeJobs(y0, w, z);
    var q := w.p.codegenQ;
    w := CodegenJob(y0, w);
    assert w.p.recompileDone == [q[0].version];
    w := CollectAndPass(y0, w);
    w := CollectRest(y0, w, ChainSizes(z).0);
  }

  /** A chain of two or more jobs that uses up the predictions: the second request finds the list empty,
      the workers finish, and only then does the request look at the flag. */
  lemma HurriedChain(y0: Sys, y: Sys, z: Sizes) returns (w: Sys)
    requires Runs(y0, y) && BetweenCalls(y, z)
    requires ChainSizes(z).1 == 3 && ChainSizes(z).0.predictions == 0 && ChainSizes(z).0.configs >= BATCH_SZ
    ensures Runs(y0, w) && !SafeToTrain(w)
    ensures |w.p.recompileDone| == 2 && Line(w.p) == w.p.delivered + w.p.recompileDone
  {
    w := StartChain(y0, y, z);
    w := AllOptimizeJobs(y0, w, z);
    var q := w.p.codegenQ;
    w := CodegenJob(y0, w);
    assert w.p.recompileDone == [q[0].version];
    w := CollectAndPass(y0, w);
    w := PipeStep(y0, w, FirstObtain, w.p.(doneQueueEmpty := true, caller := Missed));
    w := CodegenJob(y0, w);
    w := CodegenJob(y0, w);
    w := StartMissed(y0, w);
    w := PipeStep(y0, w, OptBegin, w.p.(optimizeQ := 0, optimizing := Begun));
    assert Versions([]) == [];
  }

  lemma InitRuns(y0: Sys)
    ensures Runs(y0, y0)
  {
    assert SysExec(y0, []) == Some(y0);
  }

  /** Nine quiet chains after which the tuner's counter and predictions are such that the next chain has
      three jobs and uses up the predictions; then a hurried one. */
  lemma BlockingIsUnsafe(ks: KnobSet, ipra: KnobId)
    requires ks.Valid()
    ensures !TrainingIsSafe(SysInit(ks, ipra, true))
  {
    var y0 := SysInit(ks, ipra, true);
    InitRuns(y0);
    var y := QuietChain(y0, y0, Sizes(0, 0, 0));
    y := QuietChain(y0, y, Sizes(1, 0, 1));
    y := QuietChain(y0, y, Sizes(2, 0, 2));
    y := QuietChain(y0, y, Sizes(3, 0, 0));
    y := QuietChain(y0, y, Sizes(4, 0, 1));
    y := QuietChain(y0, y, Sizes(5, 0, 2));
    y := QuietChain(y0, y, Sizes(6, 4, 0));
    y := QuietChain(y0, y, Sizes(9, 1, 0));
    y := QuietChain(y0, y, Sizes(10, 0, 1));
    y := HurriedChain(y0, y, Sizes(12, 3, 0));
    var tr :| SysExec(y0, tr) == Some(y);
    assert SysExec(y0, tr).Some?;
  }

  /** Training happens on measured versions only, in every run, exactly when the driver is impatient. */
  lemma TrainingSafeIffNotBlocking(ks: KnobSet, ipra: KnobId, blocking: bool)
    requires ks.Valid()
    ensures TrainingIsSafe(SysInit(ks, ipra, blocking)) <==> !blocking
  {
    if blocking {
      BlockingIsUnsafe(ks, ipra);
    } else {
      ImpatientIsSafe(ks, ipra);
    }
  }
}
