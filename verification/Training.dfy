/** Driver, pipeline and Bayesian tuner together: when the surrogate model is trained, has every
    configuration been measured?  Always for an impatient driver; not always for a blocking one. */
module Training {
  import opened Options
  import opened Knobs
  import opened Tuners
  import opened Pipeline
  import opened PipelineSafety
  import opened PipelineProgress

  /** One driver entry on top of the pipeline: the delivered version now on trial, and the delivered
      versions whose feedback has reached good quality. */
  datatype Sys = Sys(p: State, blocking: bool, initialised: bool, trial: Option<nat>, evaluated: set<nat>)

  datatype SysAction = Pipe(a: Action) | TrialPasses

  ghost function SysInit(ks: KnobSet, ipra: KnobId, blocking: bool): Sys {
    Sys(Init(ks, ipra, Bayes([], 0, [], 0)), blocking, false, None, {})
  }

  /** The driver's rule for asking: an entry's first call always requests; later calls only without a
      trial, and an impatient caller only after `status()` answered something other than Working. */
  predicate MayRequest(y: Sys) {
    if !y.initialised then y.p.caller.Idle?
    else y.trial.None? && (if y.blocking then y.p.caller.Idle? else y.p.caller.Answered? && y.p.caller.status != Working)
  }

  predicate DriverAllows(y: Sys, a: Action) {
    match a
    case FirstObtain => MayRequest(y)
    case PollEmpty => y.initialised && y.trial.None? && !y.blocking
    case _ => true
  }

  ghost function SysNext(y: Sys, a: SysAction): Option<Sys> {
    match a
    case TrialPasses =>
      if y.p.caller.Idle? && y.trial.Some? then Some(y.(trial := None, evaluated := y.evaluated + {y.trial.value})) else None
    case Pipe(pa) =>
      if !DriverAllows(y, pa) || Next(y.p, pa).None? then None
      else
        var q := Next(y.p, pa).value;
        if |q.delivered| > |y.p.delivered| then Some(y.(p := q, initialised := true, trial := Some(|y.p.delivered|)))
        else Some(y.(p := q))
  }

  ghost function SysExec(y: Sys, tr: seq<SysAction>): Option<Sys>
    decreases |tr|
  {
    if tr == [] then Some(y)
    else match SysNext(y, tr[0])
      case None => None
      case Some(z) => SysExec(z, tr[1..])
  }

  /** Every answer of `getNextConfig` so far has been delivered and has passed as a trial, and the
      tuner's own list of observations holds nothing else. */
  ghost predicate AllEvaluated(y: Sys) {
    && |y.p.delivered| == |y.p.history|
    && (forall i :: 0 <= i < |y.p.history| ==> i in y.evaluated)
    && (y.p.tuner.Bayes? ==> multiset(y.p.tuner.configs) == multiset(y.p.history))
  }

  /** If the next step of the optimize job trains the model, it trains on measured versions only. */
  ghost predicate SafeToTrain(y: Sys) {
    y.p.optimizing.Begun? && Trains(y.p.tuner) ==> AllEvaluated(y)
  }

  ghost predicate TrainingIsSafe(y0: Sys) {
    forall tr: seq<SysAction> :: SysExec(y0, tr).Some? ==> SafeToTrain(SysExec(y0, tr).value)
  }

  // ----- the impatient driver is safe

  predicate InRequestOrPoll(c: Caller) {
    !c.Idle? && !c.Destroying? && !c.Freed?
  }

  predicate AboutToStart(c: Caller) {
    c.Missed? || c.Starting? || c.Dispatching?
  }

  /** The next optimize job has been dispatched but has not asked for its configuration. */
  predicate JobAhead(s: State) {
    s.optimizeQ > 0 || s.optimizing.Begun?
  }

  ghost predicate Pristine(s: State) {
    !s.recompileActive && s.recompileDone == [] && s.history == [] && s.delivered == []
  }

  ghost predicate DriverInv(y: Sys) {
    && !y.blocking
    && y.p.tuner.Bayes?
    && multiset(y.p.tuner.configs) == multiset(y.p.history)
    && (InRequestOrPoll(y.p.caller) ==> y.trial.None?)
    && (forall i :: 0 <= i < |y.p.delivered| ==> i in y.evaluated || y.trial == Some(i))
    && (!y.initialised ==> y.trial.None? && !y.p.caller.Polled? && !y.p.caller.Answered?)
    && (!y.initialised && y.p.caller.Idle? ==> Pristine(y.p))
    && (AboutToStart(y.p.caller) ==> AllEvaluated(y) && Quiescent(y.p))
    && (y.p.caller.Missed? ==> !y.p.recompileActive)
    && (y.p.optimizing.Decided? && y.p.optimizing.more ==> !Trains(y.p.tuner))
    && (JobAhead(y.p) && Trains(y.p.tuner) ==> AllEvaluated(y))
  }

  ghost predicate SysInv(y: Sys) {
    Inv(y.p) && DriverInv(y)
  }

  lemma SysInvInit(ks: KnobSet, ipra: KnobId)
    requires ks.Valid()
    ensures SysInv(SysInit(ks, ipra, false))
  {
    InvInit(ks, ipra, Bayes([], 0, [], 0));
  }

  lemma ConfigsFollowHistory(ks: KnobSet, t: Tuner, o: Oracle, h: seq<GenResult>)
    requires t.Bayes? && Legal(ks, t, o)
    requires multiset(t.configs) == multiset(h)
    ensures var (g, t') := NextConfig(ks, Analyze(ks, t, o), o);
            t'.Bayes? && multiset(t'.configs) == multiset(h + [g])
  {
  }

  lemma OptDriverStep(y: Sys, a: Action)
    requires Control(y.p) && DriverInv(y) && OptimizerStep(a) && SysNext(y, Pipe(a)).Some?
    ensures DriverInv(SysNext(y, Pipe(a)).value)
  {
    if a.OptGenerate? {
      ConfigsFollowHistory(y.p.ks, y.p.tuner, a.oracle, y.p.history);
      var z := SysNext(y, Pipe(a)).value;
      assert OptCarries(y.p) && y.p.optimizeQ == 0 && !y.p.caller.Dispatching?;
      assert !JobAhead(z.p);
      assert !Quiescent(y.p);
    }
  }

  lemma CgDriverStep(y: Sys, a: Action)
    requires Control(y.p) && DriverInv(y) && CodegenStep(a) && SysNext(y, Pipe(a)).Some?
    ensures DriverInv(SysNext(y, Pipe(a)).value)
  {
  }

  /** A quiescent pipeline with an empty result list has delivered its whole history. */
  lemma DrainedMeansDelivered(s: State)
    requires Inv(s) && Quiescent(s) && s.recompileDone == []
    ensures |s.delivered| == |s.history|
  {
    assert Versions(s.codegenQ) == [];
    assert Line(s) == s.delivered;
  }

  /** An impatient request that finds nothing to collect finds everything delivered and measured. */
  lemma ObtainDriverStep(y: Sys)
    requires Inv(y.p) && DriverInv(y) && SysNext(y, Pipe(FirstObtain)).Some?
    ensures DriverInv(SysNext(y, Pipe(FirstObtain)).value)
  {
    assert !y.p.recompileActive || y.p.recompileDone != [];
    if y.p.recompileDone == [] {
      InactiveIsQuiescent(y.p);
      DrainedMeansDelivered(y.p);
    }
  }

  lemma CallerDriverStep(y: Sys, a: Action)
    requires Control(y.p) && DriverInv(y)
    requires |y.p.delivered| + |y.p.recompileDone| <= |y.p.history|
    requires !WorkerStep(a) && !a.FirstObtain? && SysNext(y, Pipe(a)).Some?
    ensures DriverInv(SysNext(y, Pipe(a)).value)
  {
    hide Carriers, NextConfig, Analyze, ShouldCompileNext, Overlay, FlagsOf, Legal;
  }

  lemma SysInvStep(y: Sys, a: SysAction)
    requires SysInv(y) && SysNext(y, a).Some?
    ensures SysInv(SysNext(y, a).value)
  {
    match a
    case TrialPasses =>
    case Pipe(pa) =>
      InvStep(y.p, pa);
      if OptimizerStep(pa) { OptDriverStep(y, pa); }
      else if CodegenStep(pa) { CgDriverStep(y, pa); }
      else if pa.FirstObtain? { ObtainDriverStep(y); }
      else {
        assert |Line(y.p)| >= |y.p.delivered| + |y.p.recompileDone|;
        CallerDriverStep(y, pa);
      }
  }

  lemma {:induction false} SysInvRun(y: Sys, tr: seq<SysAction>)
    requires SysInv(y) && SysExec(y, tr).Some?
    ensures SysInv(SysExec(y, tr).value)
    decreases |tr|
  {
    if tr != [] {
      SysInvStep(y, tr[0]);
      SysInvRun(SysNext(y, tr[0]).value, tr[1..]);
    }
  }

  lemma ImpatientIsSafe(ks: KnobSet, ipra: KnobId)
    requires ks.Valid()
    ensures TrainingIsSafe(SysInit(ks, ipra, false))
  {
    var y0 := SysInit(ks, ipra, false);
    SysInvInit(ks, ipra);
    forall tr: seq<SysAction> | SysExec(y0, tr).Some? ensures SafeToTrain(SysExec(y0, tr).value) {
      SysInvRun(y0, tr);
    }
  }
}
