/** The concurrent compile pipeline of one Optimizer, as interleaved atomic steps.

    Three parties run at once: the caller thread, the serial queue that optimizes IR, and the serial
    queue that generates code.  A step is the code between two accesses to shared state.  An operation
    on the result list is one step, since it is dispatched synchronously on a serial queue. */
module Pipeline {
  import opened Options
  import opened Knobs
  import opened Tuners

  datatype Flags = Flags(cgLevel: int, fastISel: bool, ipra: bool)

  /** A compiled version: the knob values that were live while its IR was optimized, the code
      generation flags it was given, and its feedback object. */
  datatype Version = Version(ir: KnobConfig, flags: Flags, fb: nat)

  /** The record one optimize job hands to code generation, before `End` is known. */
  datatype OptimizeResult = OptimizeResult(version: Version, end: bool)

  /** Where the optimize queue's current job stands. */
  datatype OptStage =
    | OptIdle
    | Begun
    | Generated(gen: GenResult)
    | Applied(fb: nat, flags: Flags)
    | Optimized(version: Version)
    | Decided(version: Version, more: bool)
    | Requeued(version: Version)
    | OptReturning

  /** Where the code generation queue's current job stands. */
  datatype CodegenStage =
    | CgIdle
    | Compiling(job: OptimizeResult)
    | Compiled(job: OptimizeResult)
    | Published(end: bool)
    | CgReturning

  datatype Status = Empty | Working | Ready

  /** Where the single caller thread stands, inside `status`, `recompile` or the destructor. */
  datatype Caller =
    | Idle
    | Polled(sawEmpty: bool)
    | Answered(status: Status)
    | Missed
    | Starting
    | Dispatching
    | Waiting
    | Destroying
    | Freed

  datatype State = State(
    ks: KnobSet,
    ipra: KnobId,
    tuner: Tuner,
    knobs: KnobConfig,
    optimizeQ: nat,
    optimizing: OptStage,
    codegenQ: seq<OptimizeResult>,
    codegen: CodegenStage,
    recompileActive: bool,
    recompileDone: seq<Version>,
    doneQueueEmpty: bool,
    caller: Caller,
    history: seq<GenResult>,
    delivered: seq<Version>)

  datatype Action =
    | OptBegin | OptGenerate(oracle: Oracle) | OptApply | OptPasses | OptDecide | OptRequeue | OptDispatch | OptReturn
    | CgBegin | CgCompile | CgPublish | CgFinish | CgReturn
    | PollEmpty | PollActive | Decline
    | FirstObtain | LoadActive | StoreActive | Dispatch | Retry
    | BeginDestroy | Destroy

  predicate OptimizerStep(a: Action) {
    a.OptBegin? || a.OptGenerate? || a.OptApply? || a.OptPasses? || a.OptDecide? || a.OptRequeue? || a.OptDispatch? || a.OptReturn?
  }

  predicate CodegenStep(a: Action) {
    a.CgBegin? || a.CgCompile? || a.CgPublish? || a.CgFinish? || a.CgReturn?
  }

  predicate WorkerStep(a: Action) {
    OptimizerStep(a) || CodegenStep(a)
  }

  const CG_LEVEL := 3
  const FAST_ISEL := false

  /** The flags the optimize job copies out of the knobs.  Only IPRA is in the knob set. */
  function FlagsOf(ipra: KnobId, knobs: KnobConfig): Flags {
    Flags(CG_LEVEL, FAST_ISEL, ipra in knobs.ints && knobs.ints[ipra] != 0)
  }

  ghost function Init(ks: KnobSet, ipra: KnobId, tuner: Tuner): State {
    State(ks, ipra, tuner, Defaults(ks), 0, OptIdle, [], CgIdle, false, [], true, Idle, [], [])
  }

  /** Optimizer::status, as one look at both flags. */
  function StatusOf(s: State): Status {
    if s.doneQueueEmpty then (if s.recompileActive then Working else Empty) else Ready
  }

  // ----- the optimize queue

  ghost function OptNext(s: State, a: Action): Option<State>
    requires OptimizerStep(a)
  {
    match (a, s.optimizing)
    case (OptBegin, OptIdle) =>
      if s.optimizeQ > 0 then Some(s.(optimizeQ := s.optimizeQ - 1, optimizing := Begun)) else None
    case (OptGenerate(o), Begun) =>
      if Legal(s.ks, s.tuner, o) then
        var (g, t) := NextConfig(s.ks, Analyze(s.ks, s.tuner, o), o);
        Some(s.(tuner := t, optimizing := Generated(g), history := s.history + [g]))
      else None
    case (OptApply, Generated(g)) =>
      var knobs := Overlay(s.knobs, g.config);
      Some(s.(knobs := knobs, optimizing := Applied(g.fb, FlagsOf(s.ipra, knobs))))
    case (OptPasses, Applied(fb, flags)) =>
      Some(s.(optimizing := Optimized(Version(s.knobs, flags, fb))))
    case (OptDecide, Optimized(v)) =>
      var (more, t) := ShouldCompileNext(s.tuner);
      Some(s.(tuner := t, optimizing := Decided(v, more)))
    case (OptRequeue, Decided(v, more)) =>
      if more then Some(s.(optimizeQ := s.optimizeQ + 1, optimizing := Requeued(v))) else None
    case (OptDispatch, Decided(v, more)) =>
      if more then None
      else Some(s.(codegenQ := s.codegenQ + [OptimizeResult(v, true)], optimizing := OptReturning))
    case (OptDispatch, Requeued(v)) =>
      Some(s.(codegenQ := s.codegenQ + [OptimizeResult(v, false)], optimizing := OptReturning))
    case (OptReturn, OptReturning) =>
      Some(s.(optimizing := OptIdle))
    case _ => None
  }

  // ----- the code generation queue

  function CgNext(s: State, a: Action): Option<State>
    requires CodegenStep(a)
  {
    match (a, s.codegen)
    case (CgBegin, CgIdle) =>
      if s.codegenQ != [] then Some(s.(codegenQ := s.codegenQ[1..], codegen := Compiling(s.codegenQ[0]))) else None
    case (CgCompile, Compiling(job)) =>
      Some(s.(codegen := Compiled(job)))
    case (CgPublish, Compiled(job)) =>
      Some(s.(recompileDone := s.recompileDone + [job.version], doneQueueEmpty := false, codegen := Published(job.end)))
    case (CgFinish, Published(end)) =>
      Some(s.(recompileActive := s.recompileActive && !end, codegen := CgReturning))
    case (CgReturn, CgReturning) =>
      Some(s.(codegen := CgIdle))
    case _ => None
  }

  // ----- the caller

  /** obtain_callback: pop one result if there is one, else leave the caller at `missed`. */
  function Obtain(s: State, missed: Caller): State {
    if s.recompileDone == [] then s.(doneQueueEmpty := true, caller := missed)
    else s.(delivered := s.delivered + [s.recompileDone[0]],
            recompileDone := s.recompileDone[1..],
            doneQueueEmpty := s.recompileDone[1..] == [],
            caller := Idle)
  }

  function CallerNext(s: State, a: Action): Option<State>
    requires !WorkerStep(a)
  {
    match (a, s.caller)
    case (PollEmpty, Idle) => Some(s.(caller := Polled(s.doneQueueEmpty)))
    case (PollActive, Polled(sawEmpty)) =>
      Some(s.(caller := Answered(if sawEmpty then (if s.recompileActive then Working else Empty) else Ready)))
    case (Decline, Answered(_)) => Some(s.(caller := Idle))
    case (FirstObtain, Idle) => Some(Obtain(s, Missed))
    case (FirstObtain, Answered(_)) => Some(Obtain(s, Missed))
    case (LoadActive, Missed) => Some(s.(caller := if s.recompileActive then Waiting else Starting))
    case (StoreActive, Starting) => Some(s.(recompileActive := true, caller := Dispatching))
    case (Dispatch, Dispatching) => Some(s.(optimizeQ := s.optimizeQ + 1, caller := Waiting))
    case (Retry, Waiting) => Some(Obtain(s, Waiting))
    case (BeginDestroy, Idle) => Some(s.(caller := Destroying))
    case (Destroy, Destroying) => if s.recompileActive then None else Some(s.(caller := Freed))
    case _ => None
  }

  ghost function Next(s: State, a: Action): Option<State> {
    if OptimizerStep(a) then OptNext(s, a)
    else if CodegenStep(a) then CgNext(s, a)
    else CallerNext(s, a)
  }

  ghost predicate Enabled(s: State, a: Action) {
    Next(s, a).Some?
  }

  /** The state after a whole schedule of steps, if every one of them is enabled in turn. */
  ghost function Exec(s: State, tr: seq<Action>): Option<State>
    decreases |tr|
  {
    if tr == [] then Some(s)
    else match Next(s, tr[0])
      case None => None
      case Some(t) => Exec(t, tr[1..])
  }

  lemma {:induction false} ExecAppend(s: State, tr1: seq<Action>, tr2: seq<Action>)
    requires Exec(s, tr1).Some?
    ensures Exec(s, tr1 + tr2) == Exec(Exec(s, tr1).value, tr2)
    decreases |tr1|
  {
    if tr1 == [] {
      assert tr1 + tr2 == tr2;
    } else {
      assert (tr1 + tr2)[0] == tr1[0] && (tr1 + tr2)[1..] == tr1[1..] + tr2;
      ExecAppend(Next(s, tr1[0]).value, tr1[1..], tr2);
    }
  }

  ghost predicate AllWorkers(tr: seq<Action>) {
    forall i :: 0 <= i < |tr| ==> WorkerStep(tr[i])
  }
}
