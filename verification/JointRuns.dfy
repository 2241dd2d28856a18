/** The driver's real entry on top of the pipeline, with each call of `reoptimize` cut into the stages
    between which the workers run.  The caller thread measures when it runs a version, outside these calls.  Every such run is a run of the system in module Training. */
module JointRuns {
  import opened Options
  import opened Knobs
  import opened Tuners
  import opened Pipeline
  import opened PipelineSafety
  import opened Training
  import opened Comparison
  import opened Driver

  /** Where the caller thread stands in `reoptimize`: not in it; past the trial check, asking for the
      status; or in `recompile`. */
  datatype Stage = Outside | Deciding | Requesting

  datatype Joint = Joint(e: Entry, p: State, who: Patience, stage: Stage)

  datatype JointAction =
    | Work(a: Action)
    | Measure(fb: nat, elapsed: nat, stats: Snapshot, good: bool)
    | Enter
    | Poll(a: Action)
    | Decide
    | Request(a: Action, r: CompileResult)

  ghost function JointInit(ks: KnobSet, ipra: KnobId, who: Patience): Joint {
    Joint(NEW_ENTRY, Init(ks, ipra, Bayes([], 0, [], 0)), who, Outside)
  }

  predicate RecompileStep(a: Action) {
    a.FirstObtain? || a.LoadActive? || a.StoreActive? || a.Dispatch? || a.Retry?
  }

  /** The head of `reoptimize`: count the request and settle the trial. */
  ghost function Entered(j: Joint): Joint {
    var e1 := j.e.(requests := j.e.requests + 1);
    if !j.e.initialised then j.(e := e1, stage := Requesting)
    else
      var s := Settle(e1);
      if !IsEmpty(s.trial) then j.(e := s)
      else if j.who.noop then j.(e := FastSwap(s))
      else j.(e := s, stage := if j.who.impatient then Deciding else Requesting)
  }

  /** What `recompile` hands back goes on trial. */
  ghost function Received(e: Entry, r: CompileResult): Entry {
    if e.initialised then Experiment(e, r) else IntoTrial(e.(initialised := true), r)
  }

  ghost function JointNext(j: Joint, a: JointAction): Option<Joint> {
    match a
    case Work(wa) =>
      if WorkerStep(wa) && Next(j.p, wa).Some? then Some(j.(p := Next(j.p, wa).value)) else None
    case Measure(fb, elapsed, stats, good) =>
      if j.stage.Outside? && fb < |j.e.feedback| then
        Some(j.(e := j.e.(feedback := j.e.feedback[fb := EndMeasurement(j.e.feedback[fb], elapsed, stats, good)])))
      else None
    case Enter =>
      if j.stage.Outside? && j.p.caller.Idle? then Some(Entered(j)) else None
    case Poll(pa) =>
      if j.stage.Deciding? && (pa.PollEmpty? || pa.PollActive?) && Next(j.p, pa).Some? then Some(j.(p := Next(j.p, pa).value))
      else None
    case Decide =>
      if !j.stage.Deciding? || !j.p.caller.Answered? then None
      else if Experiments(j.e, j.who, j.p.caller.status) then Some(j.(stage := Requesting))
      else Some(j.(e := FastSwap(j.e), p := j.p.(caller := Idle), stage := Outside))
    case Request(pa, r) =>
      if !j.stage.Requesting? || !RecompileStep(pa) || Next(j.p, pa).None? || !ResultOk(j.e, r) then None
      else
        var q := Next(j.p, pa).value;
        if |q.delivered| > |j.p.delivered| then Some(j.(e := Received(j.e, r), p := q, stage := Outside))
        else Some(j.(p := q))
  }

  ghost function JointExec(j: Joint, tr: seq<JointAction>): Option<Joint>
    decreases |tr|
  {
    if tr == [] then Some(j)
    else match JointNext(j, tr[0])
      case None => None
      case Some(k) => JointExec(k, tr[1..])
  }

  // ----- the stages of one call are `reoptimize`

  /** A call whose stages are gone through ends in the entry that `Driver.Reoptimize` specifies. */
  lemma StagesAreReoptimize(j: Joint, status: Status, r: CompileResult)
    requires j.stage.Outside?
    ensures var k, t := Entered(j), Reoptimize(j.e, j.who, status, r).0;
      && (!j.e.initialised ==> t == Received(k.e, r))
      && (j.e.initialised && k.stage.Outside? ==> t == k.e)
      && (j.e.initialised && k.stage.Deciding? ==> t == if Experiments(k.e, j.who, status) then Received(k.e, r) else FastSwap(k.e))
      && (j.e.initialised && k.stage.Requesting? ==> t == Received(k.e, r))
  {
    if j.e.initialised {
      var s := LaterCall(j.e, j.who, status, r);
      EnteredLater(j, s);
      hide Settle, FastSwap, Experiment, IntoTrial, Reoptimize, DeployedLongEnough, Entered, StatsOf;
      assert Received(s, r) == Experiment(s, r);
      assert j.who.noop || !j.who.impatient ==> (Experiments(s, j.who, status) <==> !j.who.noop);
      hide *;
    } else {
      FirstStage(j.e, j.who, status, r);
      hide IntoTrial, Reoptimize;
    }
  }

  lemma EnteredLater(j: Joint, s: Entry)
    requires j.e.initialised && j.stage.Outside? && s == Settle(j.e.(requests := j.e.requests + 1))
    ensures var k := j.(e := s);
      Entered(j) == if !IsEmpty(s.trial) then k else if k.who.noop then k.(e := FastSwap(k.e))
                    else if k.who.impatient then k.(stage := Deciding) else k.(stage := Requesting)
  {
    hide Settle, FastSwap;
  }

  lemma FirstStage(e: Entry, who: Patience, status: Status, r: CompileResult)
    requires !e.initialised
    ensures Reoptimize(e, who, status, r).0 == Received(e.(requests := e.requests + 1), r)
  {
    hide Settle, FastSwap, Experiment, Experiments, LastBetter;
  }

  // ----- the entry and the abstract driver

  ghost predicate StageOk(j: Joint) {
    match j.stage
    case Outside => j.p.caller.Idle?
    case Deciding => j.e.initialised && IsEmpty(j.e.trial) && j.who.impatient && (j.p.caller.Idle? || j.p.caller.Polled? || j.p.caller.Answered?)
    case Requesting => IsEmpty(j.e.trial)
  }

  /** The abstract driver sees the entry's trial by the number of its version. */
  ghost predicate Shows(j: Joint, y: Sys) {
    && y.p == j.p && y.blocking == !j.who.impatient && y.initialised == j.e.initialised
    && SlotsOk(j.e) && j.e.obtained == |j.p.delivered|
    && (if IsEmpty(j.e.trial) then y.trial.None? else y.trial.Some? && y.trial == j.e.trial.fun && y.trial.value !in y.evaluated)
    && (!j.e.initialised ==> j.e == NEW_ENTRY.(requests := j.e.requests))
    && (forall v :: v in y.evaluated ==> v < |j.p.delivered|)
    && StageOk(j)
    && (j.stage.Requesting? && (j.p.caller.Idle? || j.p.caller.Answered?) ==> MayRequest(y))
  }

  lemma PipeAlone(y: Sys, a: Action)
    requires Next(y.p, a).Some? && DriverAllows(y, a)
    ensures SysNext(y, Pipe(a)).Some? && SysExec(y, [Pipe(a)]) == SysNext(y, Pipe(a))
  {
    assert [Pipe(a)][1..] == [];
    assert SysExec(SysNext(y, Pipe(a)).value, []) == SysNext(y, Pipe(a));
    hide Next;
  }

  lemma WorkShows(j: Joint, y: Sys, wa: Action) returns (tr: seq<SysAction>)
    requires Shows(j, y) && JointNext(j, Work(wa)).Some?
    ensures SysExec(y, tr).Some? && Shows(JointNext(j, Work(wa)).value, SysExec(y, tr).value)
  {
    tr := [Pipe(wa)];
    PipeAlone(y, wa);
    WorkerLeavesCaller(j.p, wa);
    hide Next, SlotsOk, SysExec;
  }

  lemma WorkerLeavesCaller(s: State, a: Action)
    requires WorkerStep(a) && Next(s, a).Some?
    ensures Next(s, a).value.caller == s.caller && Next(s, a).value.delivered == s.delivered
  {
    hide NextConfig, Analyze, ShouldCompileNext, Overlay, FlagsOf, Legal;
  }

  lemma PollShows(j: Joint, y: Sys, pa: Action) returns (tr: seq<SysAction>)
    requires Shows(j, y) && JointNext(j, Poll(pa)).Some?
    ensures SysExec(y, tr).Some? && Shows(JointNext(j, Poll(pa)).value, SysExec(y, tr).value)
  {
    tr := [Pipe(pa)];
    PipeAlone(y, pa);
    hide SlotsOk, SysExec;
  }

  lemma DecideShows(j: Joint, y: Sys) returns (tr: seq<SysAction>)
    requires Shows(j, y) && JointNext(j, Decide).Some?
    ensures SysExec(y, tr).Some? && Shows(JointNext(j, Decide).value, SysExec(y, tr).value)
  {
    if Experiments(j.e, j.who, j.p.caller.status) {
      tr := [];
    } else {
      tr := [Pipe(Decline)];
      PipeAlone(y, Decline);
      SwapShows(j.e);
      hide FastSwap, SlotsOk;
    }
  }

  /** A swap touches neither the trial nor the count of versions. */
  lemma SwapShows(e: Entry)
    requires SlotsOk(e)
    ensures var s := FastSwap(e);
      && SlotsOk(s) && s.trial == e.trial && s.obtained == e.obtained && s.initialised == e.initialised
  {
    FastSwapConserves(e);
    if DeployedLongEnough(e) && e.others != [] && LastBetter(e, |e.others|).Some? {
      assert e.others[LastBetter(e, |e.others|).value] in e.others;
    }
  }

  lemma EnterShows(j: Joint, y: Sys) returns (tr: seq<SysAction>)
    requires Shows(j, y) && JointNext(j, Enter).Some?
    ensures SysExec(y, tr).Some? && Shows(JointNext(j, Enter).value, SysExec(y, tr).value)
  {
    if !j.e.initialised {
      tr := [];
    } else {
      var e1 := j.e.(requests := j.e.requests + 1);
      var z;
      tr, z := SettleShows(j, y, Settle(e1));
      SettledShows(j.(e := Settle(e1)), z);
      EnteredLater(j, Settle(e1));
      assert JointNext(j, Enter) == Some(Entered(j));
      hide *;
    }
  }

  /** Settling is the abstract trial passing, or nothing. */
  lemma SettleShows(j: Joint, y: Sys, s: Entry) returns (tr: seq<SysAction>, z: Sys)
    requires Shows(j, y) && j.stage.Outside? && j.e.initialised
    requires s == Settle(j.e.(requests := j.e.requests + 1))
    ensures SysExec(y, tr) == Some(z) && Shows(j.(e := s), z)
  {
    var e1 := j.e.(requests := j.e.requests + 1);
    SettleSlots(e1);
    assert TrialIsGood(e1) <==> TrialIsGood(j.e);
    assert TrialIsGood(e1) || s == e1;
    hide SlotsOk, Settle;
    if TrialIsGood(j.e) {
      z := y.(trial := None, evaluated := y.evaluated + {y.trial.value});
      tr := [TrialPasses];
      assert tr[1..] == [];
      assert SysExec(z, []) == Some(z);
      hide TrialIsGood;
    } else {
      tr, z := [], y;
    }
  }

  /** What a settled entry does next the abstract driver need not see. */
  lemma SettledShows(k: Joint, z: Sys)
    requires Shows(k, z) && k.stage.Outside? && k.e.initialised
    ensures IsEmpty(k.e.trial) && k.who.noop ==> Shows(k.(e := FastSwap(k.e)), z)
    ensures IsEmpty(k.e.trial) && k.who.impatient ==> Shows(k.(stage := Deciding), z)
    ensures IsEmpty(k.e.trial) && !k.who.impatient ==> Shows(k.(stage := Requesting), z)
  {
    SwapShows(k.e);
    hide FastSwap, SlotsOk;
  }

  lemma RequestShows(j: Joint, y: Sys, pa: Action, r: CompileResult) returns (tr: seq<SysAction>)
    requires Shows(j, y) && JointNext(j, Request(pa, r)).Some?
    ensures SysExec(y, tr).Some? && Shows(JointNext(j, Request(pa, r)).value, SysExec(y, tr).value)
  {
    tr := [Pipe(pa)];
    PipeAlone(y, pa);
    ReceivedShows(j.e, r);
    RecompileStepEffect(j.p, pa);
    hide Received, SlotsOk, SysExec, ResultOk, Next;
  }

  /** A step of `recompile` delivers at most one version, and then the call is over. */
  lemma RecompileStepEffect(s: State, a: Action)
    requires RecompileStep(a) && Next(s, a).Some?
    ensures var t := Next(s, a).value;
      if t.caller.Idle? then |t.delivered| == |s.delivered| + 1
      else |t.delivered| == |s.delivered| && (t.caller.Missed? || t.caller.Starting? || t.caller.Dispatching? || t.caller.Waiting?)
  {
  }

  /** A version received goes on trial under the next number. */
  lemma ReceivedShows(e: Entry, r: CompileResult)
    requires SlotsOk(e) && IsEmpty(e.trial) && ResultOk(e, r)
    ensures var t := Received(e, r);
      && SlotsOk(t) && t.initialised && !IsEmpty(t.trial) && t.trial.fun == Some(e.obtained) && t.obtained == e.obtained + 1
  {
    hide DeployedLongEnough;
  }

  lemma MeasureShows(j: Joint, y: Sys, a: JointAction)
    requires Shows(j, y) && a.Measure? && JointNext(j, a).Some?
    ensures Shows(JointNext(j, a).value, y)
  {
  }

  /** Every step of the joint system is a short run of the abstract one. */
  lemma JointStep(j: Joint, y: Sys, a: JointAction) returns (tr: seq<SysAction>)
    requires Shows(j, y) && JointNext(j, a).Some?
    ensures SysExec(y, tr).Some? && Shows(JointNext(j, a).value, SysExec(y, tr).value)
  {
    hide Shows, JointNext;
    match a
    case Work(wa) => tr := WorkShows(j, y, wa);
    case Measure(_, _, _, _) => MeasureShows(j, y, a); tr := [];
    case Enter => tr := EnterShows(j, y);
    case Poll(pa) => tr := PollShows(j, y, pa);
    case Decide => tr := DecideShows(j, y);
    case Request(pa, r) => tr := RequestShows(j, y, pa, r);
  }

  lemma {:induction false} SysExecAppend(y: Sys, tr1: seq<SysAction>, tr2: seq<SysAction>)
    requires SysExec(y, tr1).Some?
    ensures SysExec(y, tr1 + tr2) == SysExec(SysExec(y, tr1).value, tr2)
    decreases |tr1|
  {
    if tr1 == [] {
      assert tr1 + tr2 == tr2;
    } else {
      assert (tr1 + tr2)[0] == tr1[0] && (tr1 + tr2)[1..] == tr1[1..] + tr2;
      SysExecAppend(SysNext(y, tr1[0]).value, tr1[1..], tr2);
    }
  }

  /** Every run of the driver's entry is a run of the abstract driver with the same pipeline. */
  lemma {:induction false} JointRun(j: Joint, y: Sys, tr: seq<JointAction>) returns (abs: seq<SysAction>)
    requires Shows(j, y) && JointExec(j, tr).Some?
    ensures SysExec(y, abs).Some? && Shows(JointExec(j, tr).value, SysExec(y, abs).value)
    decreases |tr|
  {
    if tr == [] {
      abs := [];
    } else {
      var first := JointStep(j, y, tr[0]);
      hide Shows, SysExec, JointNext;
      var rest := JointRun(JointNext(j, tr[0]).value, SysExec(y, first).value, tr[1..]);
      SysExecAppend(y, first, rest);
      abs := first + rest;
    }
  }

  /** In every run of an impatient entry with its pipeline and a Bayesian tuner: whenever the model is about
      to be trained, every configuration handed out so far has been compiled, obtained by this entry and
      has left Trial, and the tuner's observations are exactly these. */
  lemma TrainsOnSettledVersions(ks: KnobSet, ipra: KnobId, who: Patience, tr: seq<JointAction>)
    requires ks.Valid() && who.impatient && JointExec(JointInit(ks, ipra, who), tr).Some?
    ensures var j := JointExec(JointInit(ks, ipra, who), tr).value;
      j.p.optimizing.Begun? && Trains(j.p.tuner) ==>
        && j.e.obtained == |j.p.delivered| == |j.p.history|
        && IsEmpty(j.e.trial)
        && (j.p.tuner.Bayes? ==> multiset(j.p.tuner.configs) == multiset(j.p.history))
  {
    var y0 := SysInit(ks, ipra, false);
    assert Shows(JointInit(ks, ipra, who), y0);
    var abs := JointRun(JointInit(ks, ipra, who), y0, tr);
    ImpatientIsSafe(ks, ipra);
    assert SafeToTrain(SysExec(y0, abs).value);
    hide SysExec, JointExec, SlotsOk;
  }
}
