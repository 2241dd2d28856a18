/** What every interleaving of the pipeline keeps: one live chain, end marks last in the queue,
    every result delivered once and in order, every version compiled under its own configuration. */
module PipelineSafety {
  import opened Options
  import opened Knobs
  import opened Tuners
  import opened Pipeline

  // ----- control: who carries the chain

  /** The code generation queue's current job is the end-marked one and has yet to clear the flag. */
  predicate CgEnd(s: State) {
    match s.codegen
    case Compiling(job) => job.end
    case Compiled(job) => job.end
    case Published(end) => end
    case _ => false
  }

  /** The optimize queue's current job has not yet passed the chain on. */
  predicate OptCarries(s: State) {
    s.optimizing.Begun? || s.optimizing.Generated? || s.optimizing.Applied? || s.optimizing.Optimized? || s.optimizing.Decided?
  }

  function One(b: bool): nat { if b then 1 else 0 }

  /** The places that can still extend or end the chain. */
  function Carriers(s: State): nat {
    One(s.caller.Dispatching?) + s.optimizeQ + One(OptCarries(s))
    + One(s.codegenQ != [] && s.codegenQ[|s.codegenQ| - 1].end) + One(CgEnd(s))
  }

  /** No job will touch the optimizer again. */
  predicate Quiescent(s: State) {
    && s.optimizeQ == 0
    && (s.optimizing.OptIdle? || s.optimizing.OptReturning?)
    && s.codegenQ == []
    && (s.codegen.CgIdle? || s.codegen.CgReturning?)
  }

  ghost predicate Control(s: State) {
    && Carriers(s) == One(s.recompileActive)
    && (forall i :: 0 <= i < |s.codegenQ| - 1 ==> !s.codegenQ[i].end)
    && (s.optimizing.Requeued? ==> s.optimizeQ == 1)
    && (CgEnd(s) ==> s.codegenQ == [])
    && (!s.recompileActive ==> s.codegenQ == [] && (s.codegen.CgIdle? || s.codegen.CgReturning?))
    && s.doneQueueEmpty == (s.recompileDone == [])
    && CallerKnows(s)
  }

  /** What the caller has read is still true. */
  predicate CallerKnows(s: State) {
    match s.caller
    case Polled(sawEmpty) => !sawEmpty ==> s.recompileDone != []
    case Answered(Ready) => s.recompileDone != []
    case Answered(Empty) => !s.recompileActive
    case Starting => !s.recompileActive
    case Dispatching => Quiescent(s)
    case Freed => !s.recompileActive
    case _ => true
  }

  lemma ControlInit(ks: KnobSet, ipra: KnobId, tuner: Tuner)
    ensures Control(Init(ks, ipra, tuner))
  {
  }

  lemma ControlStep(s: State, a: Action)
    requires Control(s) && Enabled(s, a)
    ensures Control(Next(s, a).value)
  {
    if OptimizerStep(a) { OptControlStep(s, a); }
    else if CodegenStep(a) { CgControlStep(s, a); }
    else { CallerControlStep(s, a); }
  }

  lemma OptControlStep(s: State, a: Action)
    requires Control(s) && OptimizerStep(a) && OptNext(s, a).Some?
    ensures Control(OptNext(s, a).value)
  {
    hide NextConfig, Analyze, ShouldCompileNext, Overlay, FlagsOf, Legal;
    assert Carriers(OptNext(s, a).value) == Carriers(s);
  }

  lemma CgControlStep(s: State, a: Action)
    requires Control(s) && CodegenStep(a) && CgNext(s, a).Some?
    ensures Control(CgNext(s, a).value)
  {
    assert Carriers(CgNext(s, a).value) == if a.CgFinish? && CgEnd(s) then 0 else Carriers(s);
  }

  lemma CallerControlStep(s: State, a: Action)
    requires Control(s) && !WorkerStep(a) && CallerNext(s, a).Some?
    ensures Control(CallerNext(s, a).value)
  {
    assert Carriers(CallerNext(s, a).value) == if a.StoreActive? then 1 else Carriers(s);
  }

  /** While the flag is clear no job remains that would touch the optimizer: at most a job that is
      already returning still occupies its queue. */
  lemma InactiveIsQuiescent(s: State)
    requires Control(s) && !s.recompileActive
    ensures Quiescent(s) && !s.caller.Dispatching?
  {
  }

  // ----- data: what each job will deliver

  /** The version that belongs to one answer of `getNextConfig`: every knob at that configuration's
      value, or at its default when the configuration does not mention it. */
  ghost function Ideal(ks: KnobSet, ipra: KnobId, g: GenResult): Version {
    var knobs := Overlay(Defaults(ks), g.config);
    Version(knobs, FlagsOf(ipra, knobs), g.fb)
  }

  ghost function OptLine(s: State): seq<Version> {
    match s.optimizing
    case Generated(g) => [Ideal(s.ks, s.ipra, g)]
    case Applied(fb, flags) => [Version(s.knobs, flags, fb)]
    case Optimized(v) => [v]
    case Decided(v, _) => [v]
    case Requeued(v) => [v]
    case _ => []
  }

  function CgLine(s: State): seq<Version> {
    match s.codegen
    case Compiling(job) => [job.version]
    case Compiled(job) => [job.version]
    case _ => []
  }

  function Versions(q: seq<OptimizeResult>): seq<Version> {
    seq(|q|, i requires 0 <= i < |q| => q[i].version)
  }

  /** All versions of one optimizer in the order they move: delivered, waiting in the result list,
      in code generation, queued for it, and in the optimize job. */
  ghost function Line(s: State): seq<Version> {
    s.delivered + s.recompileDone + CgLine(s) + Versions(s.codegenQ) + OptLine(s)
  }

  ghost predicate Proper(s: State, g: GenResult) {
    if s.tuner.NoOp? then g.config == EMPTY_CONFIG else Fits(s.ks, g.config)
  }

  /** The tuner, the knobs and the generated configurations fit the knob set. */
  ghost predicate KnobsFit(s: State) {
    && s.ks.Valid()
    && TunerOk(s.ks, s.tuner)
    && s.knobs.ints.Keys == s.ks.ints.Keys
    && s.knobs.loops.Keys == s.ks.loops
    && (s.tuner.NoOp? ==> s.knobs == Defaults(s.ks))
    && (forall i :: 0 <= i < |s.history| ==> Proper(s, s.history[i]))
    && (s.optimizing.Generated? ==> Proper(s, s.optimizing.gen))
  }

  /** The versions in the line are those of the answers of `getNextConfig`, one for one and in order. */
  ghost predicate Aligned(s: State) {
    && |Line(s)| == |s.history|
    && (forall i :: 0 <= i < |s.history| ==> Line(s)[i] == Ideal(s.ks, s.ipra, s.history[i]))
  }

  ghost predicate Data(s: State) {
    KnobsFit(s) && Aligned(s)
  }

  ghost predicate Inv(s: State) {
    Control(s) && Data(s)
  }

  lemma InvInit(ks: KnobSet, ipra: KnobId, tuner: Tuner)
    requires ks.Valid() && TunerOk(ks, tuner)
    ensures Inv(Init(ks, ipra, tuner))
  {
    assert Versions([]) == [];
  }

  lemma VersionsAppend(q: seq<OptimizeResult>, r: OptimizeResult)
    ensures Versions(q + [r]) == Versions(q) + [r.version]
  {
  }

  lemma VersionsHead(q: seq<OptimizeResult>)
    requires q != []
    ensures Versions(q) == [q[0].version] + Versions(q[1..])
  {
  }

  /** Applying a proper configuration leaves nothing of the previous one. */
  lemma ApplyErases(s: State, g: GenResult)
    requires KnobsFit(s) && Proper(s, g)
    ensures Overlay(s.knobs, g.config) == Overlay(Defaults(s.ks), g.config)
  {
    if !s.tuner.NoOp? {
      OverlayErases(s.ks, s.knobs, g.config);
      OverlayErases(s.ks, Defaults(s.ks), g.config);
    }
  }

  lemma OptLineStep(s: State, a: Action)
    requires Inv(s) && OptimizerStep(a) && OptNext(s, a).Some?
    ensures var t := OptNext(s, a).value;
            Line(t) == if a.OptGenerate? then Line(s) + [Ideal(s.ks, s.ipra, t.optimizing.gen)] else Line(s)
  {
    var t := OptNext(s, a).value;
    var front := s.delivered + s.recompileDone + CgLine(s);
    match a
    case OptApply =>
      ApplyErases(s, s.optimizing.gen);
    case OptDispatch =>
      var r := t.codegenQ[|t.codegenQ| - 1];
      VersionsAppend(s.codegenQ, r);
      assert front + (Versions(s.codegenQ) + [r.version]) + [] == front + Versions(s.codegenQ) + [r.version];
    case OptGenerate(o) =>
      assert Line(s) == front + Versions(s.codegenQ) + [];
      assert front + Versions(s.codegenQ) + [] == front + Versions(s.codegenQ);
    case _ =>
  }

  lemma CgLineStep(s: State, a: Action)
    requires CodegenStep(a) && CgNext(s, a).Some?
    ensures Line(CgNext(s, a).value) == Line(s)
  {
    var t := CgNext(s, a).value;
    match a
    case CgBegin =>
      VersionsHead(s.codegenQ);
      assert s.delivered + s.recompileDone + [] + Versions(s.codegenQ)
          == s.delivered + s.recompileDone + [s.codegenQ[0].version] + Versions(s.codegenQ[1..]);
    case CgPublish =>
      var v := s.codegen.job.version;
      assert s.delivered + s.recompileDone + [v] == s.delivered + (s.recompileDone + [v]) + [];
    case _ =>
  }

  lemma CallerLineStep(s: State, a: Action)
    requires !WorkerStep(a) && CallerNext(s, a).Some?
    ensures Line(CallerNext(s, a).value) == Line(s)
  {
    if (a.FirstObtain? || a.Retry?) && s.recompileDone != [] {
      assert s.delivered + s.recompileDone == s.delivered + [s.recompileDone[0]] + s.recompileDone[1..];
    }
  }

  lemma OptAlignedStep(s: State, a: Action)
    requires Inv(s) && OptimizerStep(a) && OptNext(s, a).Some?
    ensures Aligned(OptNext(s, a).value)
  {
    OptLineStep(s, a);
    hide Line, Ideal, Control, KnobsFit, NextConfig, Analyze, ShouldCompileNext, FlagsOf, Legal, Overlay;
  }

  lemma OptKnobsStep(s: State, a: Action)
    requires KnobsFit(s) && OptimizerStep(a) && OptNext(s, a).Some?
    ensures KnobsFit(OptNext(s, a).value)
  {
    match a {
      case OptGenerate(o) =>
        NextConfigOk(s.ks, s.tuner, o);
        hide Fits, Legal, NextConfig, Analyze, Defaults;
      case OptApply =>
        OverlayEmpty(s.knobs);
      case _ =>
    }
  }

  lemma DataStep(s: State, a: Action)
    requires Inv(s) && Enabled(s, a)
    ensures Data(Next(s, a).value)
  {
    if OptimizerStep(a) {
      OptAlignedStep(s, a);
      OptKnobsStep(s, a);
    } else if CodegenStep(a) {
      CgLineStep(s, a);
      hide Line, Ideal, Control, TunerOk, Fits;
    } else {
      CallerLineStep(s, a);
      hide Line, Ideal, Control, TunerOk, Fits;
    }
  }

  lemma InvStep(s: State, a: Action)
    requires Inv(s) && Enabled(s, a)
    ensures Inv(Next(s, a).value)
  {
    ControlStep(s, a);
    DataStep(s, a);
  }

  lemma {:induction false} InvRun(s: State, tr: seq<Action>)
    requires Inv(s) && Exec(s, tr).Some?
    ensures Inv(Exec(s, tr).value)
    decreases |tr|
  {
    if tr != [] {
      InvStep(s, tr[0]);
      InvRun(Next(s, tr[0]).value, tr[1..]);
    }
  }

  // ----- the properties, over every run from the initial state

  ghost predicate Reachable(s: State) {
    exists ks: KnobSet, ipra: KnobId, tuner: Tuner, tr: seq<Action> ::
      ReachedBy(ks, ipra, tuner, tr, s)
  }

  ghost predicate ReachedBy(ks: KnobSet, ipra: KnobId, tuner: Tuner, tr: seq<Action>, s: State) {
    ks.Valid() && TunerOk(ks, tuner) && Exec(Init(ks, ipra, tuner), tr) == Some(s)
  }

  lemma ReachableInv(s: State)
    requires Reachable(s)
    ensures Inv(s)
  {
    var ks, ipra, tuner, tr :| ReachedBy(ks, ipra, tuner, tr, s);
    InvInit(ks, ipra, tuner);
    InvRun(Init(ks, ipra, tuner), tr);
  }

  /** At most one chain is live, and none while the flag is clear. */
  lemma OneLiveChain(s: State)
    requires Reachable(s)
    ensures Carriers(s) <= 1
    ensures Carriers(s) == 0 <==> !s.recompileActive
    ensures !s.recompileActive ==> Quiescent(s)
    ensures forall i :: 0 <= i < |s.codegenQ| && s.codegenQ[i].end ==> i == |s.codegenQ| - 1 && !OptCarries(s) && s.optimizeQ == 0
  {
    ReachableInv(s);
  }

  /** Once the destructor's wait is over the only steps left are jobs returning from their queue. */
  lemma DestructorIsSafe(s: State, tr: seq<Action>)
    requires Reachable(s) && s.caller.Freed? && Exec(s, tr).Some?
    ensures forall i :: 0 <= i < |tr| ==> tr[i].OptReturn? || tr[i].CgReturn?
    decreases |tr|
  {
    ReachableInv(s);
    FreedRun(s, tr);
  }

  lemma {:induction false} FreedRun(s: State, tr: seq<Action>)
    requires Control(s) && s.caller.Freed? && Exec(s, tr).Some?
    ensures forall i :: 0 <= i < |tr| ==> tr[i].OptReturn? || tr[i].CgReturn?
    decreases |tr|
  {
    if tr != [] {
      InactiveIsQuiescent(s);
      var t := Next(s, tr[0]).value;
      ControlStep(s, tr[0]);
      FreedRun(t, tr[1..]);
      forall i | 0 <= i < |tr| ensures tr[i].OptReturn? || tr[i].CgReturn? {
        if i > 0 { assert tr[i] == tr[1..][i - 1]; }
      }
    }
  }

  /** Results are delivered exactly once, in configuration order, each with its own feedback, and each
      compiled wholly under its own configuration. */
  lemma DeliveredInOrderUnderOwnConfig(s: State)
    requires Reachable(s)
    ensures Line(s) == seq(|s.history|, i requires 0 <= i < |s.history| => Ideal(s.ks, s.ipra, s.history[i]))
    ensures |s.delivered| <= |s.history|
    ensures forall i :: 0 <= i < |s.delivered| ==>
      && s.delivered[i] == Ideal(s.ks, s.ipra, s.history[i])
      && s.delivered[i].fb == s.history[i].fb
      && (!s.tuner.NoOp? ==> s.delivered[i].ir == s.history[i].config)
  {
    ReachableInv(s);
    forall i | 0 <= i < |s.delivered|
      ensures s.delivered[i] == Ideal(s.ks, s.ipra, s.history[i])
      ensures !s.tuner.NoOp? ==> s.delivered[i].ir == s.history[i].config
    {
      assert Line(s)[i] == s.delivered[i];
      assert Proper(s, s.history[i]);
      if !s.tuner.NoOp? {
        OverlayErases(s.ks, Defaults(s.ks), s.history[i].config);
      }
    }
  }

  /** The code generation flags of every delivered version: IPRA on exactly if its own configuration sets the
      IPRA knob to other than zero, and the two options outside the knob set at their fixed values.  Under
      the no-op tuner the knob stays at its default. */
  lemma DeliveredFlags(s: State, i: nat)
    requires Reachable(s) && i < |s.delivered|
    ensures i < |s.history|
    ensures s.delivered[i].flags.cgLevel == 3 && s.delivered[i].flags.fastISel == false
    ensures !s.tuner.NoOp? ==>
      (s.delivered[i].flags.ipra <==> s.ipra in s.ks.ints && s.ipra in s.history[i].config.ints && s.history[i].config.ints[s.ipra] != 0)
    ensures s.tuner.NoOp? ==> (s.delivered[i].flags.ipra <==> s.ipra in s.ks.ints && s.ks.ints[s.ipra].dflt != 0)
  {
    ReachableInv(s);
    DeliveredInOrderUnderOwnConfig(s);
    assert Proper(s, s.history[i]);
    if s.tuner.NoOp? {
      OverlayEmpty(Defaults(s.ks));
    } else {
      OverlayErases(s.ks, Defaults(s.ks), s.history[i].config);
    }
  }

  /** The IR of a version that the no-op tuner has delivered was optimized with every knob at its default. */
  lemma NoOpDeliversDefaults(s: State, i: nat)
    requires Reachable(s) && s.tuner.NoOp? && i < |s.delivered|
    ensures s.delivered[i].ir.ints.Keys == s.ks.ints.Keys && s.delivered[i].ir.loops.Keys == s.ks.loops
    ensures forall id :: id in s.ks.ints ==> s.delivered[i].ir.ints[id] == s.ks.ints[id].dflt
  {
    ReachableInv(s);
    DeliveredInOrderUnderOwnConfig(s);
    assert Proper(s, s.history[i]);
    OverlayEmpty(Defaults(s.ks));
  }
}
