/** Whole runs of one driver entry: calls of `reoptimize` interleaved with measurements. */
module DriverRuns {
  import opened Options
  import opened Comparison
  import opened Driver
  import Pipeline

  datatype Op =
    | Call(status: Pipeline.Status, result: CompileResult)
    | Measure(fb: nat, elapsed: nat, stats: Snapshot, good: bool)

  /** An entry and the total time ever measured over all its versions. */
  datatype Run = Run(e: Entry, measured: nat)

  const START := Run(NEW_ENTRY, 0)

  /** createFeedback never answers a tuning tuner with the no-op kind, which only the no-op tuner uses. */
  predicate KindOk(who: Patience, r: CompileResult) {
    r.Fresh? ==> (r.feedback.NoOpFeedback? <==> who.noop)
  }

  ghost predicate OpOk(x: Run, who: Patience, op: Op) {
    match op
    case Call(status, r) => Asks(x.e, who, status) ==> ResultOk(x.e, r) && KindOk(who, r)
    case Measure(fb, _, _, _) => fb < |x.e.feedback|
  }

  ghost function Do(x: Run, who: Patience, op: Op): Run
    requires OpOk(x, who, op)
  {
    match op
    case Call(status, r) => x.(e := Reoptimize(x.e, who, status, r).0)
    case Measure(fb, elapsed, stats, good) =>
      Run(x.e.(feedback := x.e.feedback[fb := EndMeasurement(x.e.feedback[fb], elapsed, stats, good)]), x.measured + elapsed)
  }

  ghost function Play(x: Run, who: Patience, ops: seq<Op>): Option<Run>
    decreases |ops|
  {
    if ops == [] then Some(x)
    else if OpOk(x, who, ops[0]) then Play(Do(x, who, ops[0]), who, ops[1..])
    else None
  }

  lemma MeasureOk(x: Run, who: Patience, op: Op)
    requires EntryOk(x.e) && op.Measure? && OpOk(x, who, op)
    ensures EntryOk(Do(x, who, op).e)
  {
    var e' := Do(x, who, op).e;
    assert forall v: nat :: Places(e', v) == Places(x.e, v);
  }

  /** How many versions a wrapper holds. */
  function Count(w: Wrapper): nat { if IsEmpty(w) then 0 else 1 }

  ghost predicate Counted(e: Entry) {
    e.obtained == Count(e.trial) + Count(e.best) + |e.others| + |e.replaced|
  }

  lemma SettleCounts(e: Entry)
    requires SlotsOk(e) && Counted(e)
    ensures Counted(Settle(e))
  {
  }

  lemma FastSwapCounts(e: Entry)
    requires SlotsOk(e) && Counted(e)
    ensures Counted(FastSwap(e))
  {
    if DeployedLongEnough(e) && e.others != [] && LastBetter(e, |e.others|).Some? {
      assert e.others[LastBetter(e, |e.others|).value] in e.others;
    }
  }

  lemma CallCounts(e: Entry, who: Patience, status: Pipeline.Status, r: CompileResult)
    requires EntryOk(e) && Counted(e)
    ensures Counted(Reoptimize(e, who, status, r).0)
  {
    if e.initialised {
      SettleCounts(e.(requests := e.requests + 1));
      SettleSlots(e.(requests := e.requests + 1));
      var s := LaterCall(e, who, status, r);
      assert SlotsOk(s) && Counted(s);
      FastSwapCounts(s);
      hide Settle, FastSwap;
    }
  }

  lemma {:induction false} PlayKeeps(x: Run, who: Patience, ops: seq<Op>)
    requires EntryOk(x.e) && Counted(x.e) && Play(x, who, ops).Some?
    ensures EntryOk(Play(x, who, ops).value.e) && Counted(Play(x, who, ops).value.e)
    decreases |ops|
  {
    if ops != [] {
      match ops[0] {
        case Call(status, r) =>
          ReoptimizeOk(x.e, who, status, r);
          CallCounts(x.e, who, status, r);
        case Measure(_, _, _, _) =>
          MeasureOk(x, who, ops[0]);
      }
      PlayKeeps(Do(x, who, ops[0]), who, ops[1..]);
    }
  }

  /** In every run: an initialised entry has a version to return; every version obtained is owned by
      exactly one slot or was replaced exactly once; and the versions obtained, one more than the full
      experiments, are those in Trial, Best and Others plus those replaced. */
  lemma EveryVersionHasOnePlace(who: Patience, ops: seq<Op>)
    requires Play(START, who, ops).Some? && Play(START, who, ops).value.e.initialised
    ensures var e := Play(START, who, ops).value.e;
            && (!IsEmpty(e.trial) || !IsEmpty(e.best))
            && (forall v: nat :: Places(e, v) == if v < 1 + e.fullExperiments then 1 else 0)
            && 1 + e.fullExperiments == Count(e.trial) + Count(e.best) + |e.others| + |e.replaced|
  {
    NewEntryOk();
    PlayKeeps(START, who, ops);
  }

  // ----- the exploration budget

  ghost function Pow(b: real, n: nat): real {
    if n == 0 then 1.0 else b * Pow(b, n - 1)
  }

  /** The deployment counters that an experiment has not yet spent; the no-op kind has none. */
  function Banked(fbs: seq<Feedback>): nat {
    if fbs == [] then 0 else Banked(fbs[..|fbs| - 1]) + Counter(fbs[|fbs| - 1])
  }

  function Counter(f: Feedback): nat {
    if f.NoOpFeedback? then 0 else f.deployed
  }

  lemma BankedSnoc(fbs: seq<Feedback>, f: Feedback)
    ensures Banked(fbs + [f]) == Banked(fbs) + Counter(f)
  {
    assert (fbs + [f])[..|fbs|] == fbs;
  }

  lemma {:induction false} BankedUpdate(fbs: seq<Feedback>, i: nat, f: Feedback)
    requires i < |fbs|
    ensures Banked(fbs[i := f]) + Counter(fbs[i]) == Banked(fbs) + Counter(f)
    decreases |fbs|
  {
    var n := |fbs| - 1;
    if i < n {
      BankedUpdate(fbs[..n], i, f);
      assert fbs[i := f][..n] == fbs[..n][i := f];
    } else {
      assert fbs[i := f][..n] == fbs[..n];
    }
  }

  const GROWTH := 1.2
  const BUDGET_UNIT := 250_000.0

  /** Each counted nanosecond was measured, and each experiment has spent at least the threshold. */
  ghost predicate WithinBudget(x: Run) {
    && x.e.thresh == EXPERIMENT_MIN_DEPLOY_NS * Pow(GROWTH, x.e.fullExperiments)
    && x.measured as real >= Banked(x.e.feedback) as real + BUDGET_UNIT * (Pow(GROWTH, x.e.fullExperiments) - 1.0)
  }

  ghost predicate RealFeedback(e: Entry) {
    forall f :: f in e.feedback ==> !f.NoOpFeedback?
  }

  lemma ResetBanks(e: Entry, w: Wrapper)
    ensures Banked(ResetAt(e.feedback, w)) <= Banked(e.feedback)
    ensures w.fb.Some? && w.fb.value < |e.feedback| ==>
      Banked(ResetAt(e.feedback, w)) + Counter(e.feedback[w.fb.value]) == Banked(e.feedback)
  {
    if w.fb.Some? && w.fb.value < |e.feedback| {
      BankedUpdate(e.feedback, w.fb.value, ResetDeployed(e.feedback[w.fb.value]));
    }
  }

  lemma IntoTrialBanks(e: Entry, r: CompileResult)
    requires ResultOk(e, r)
    ensures Banked(IntoTrial(e, r).feedback) == Banked(e.feedback)
  {
    if r.Fresh? { BankedSnoc(e.feedback, r.feedback); }
  }

  /** One experiment of an impatient driver spends at least the current threshold. */
  lemma ExperimentBudget(e: Entry, measured: nat, r: CompileResult)
    requires WithinBudget(Run(e, measured)) && RealFeedback(e) && ResultOk(e, r) && DeployedLongEnough(e)
    ensures WithinBudget(Run(Experiment(e, r), measured))
  {
    ResetBanks(e, e.best);
    var e' := e.(feedback := ResetAt(e.feedback, e.best),
                 fullExperiments := e.fullExperiments + 1,
                 thresh := e.thresh + e.thresh * EXPERIMENT_DEPLOY_GROWTH_RATE);
    IntoTrialBanks(e', r);
    var p := Pow(GROWTH, e.fullExperiments);
    assert Pow(GROWTH, e.fullExperiments + 1) == GROWTH * p;
    assert e.feedback[e.best.fb.value] in e.feedback;
    assert Counter(e.feedback[e.best.fb.value]) as real >= EXPERIMENT_MIN_DEPLOY_NS * p;
  }

  lemma FastSwapBudget(e: Entry, measured: nat)
    requires WithinBudget(Run(e, measured))
    ensures WithinBudget(Run(FastSwap(e), measured))
  {
    if DeployedLongEnough(e) && e.others != [] && LastBetter(e, |e.others|).Some? {
      ResetBanks(e, e.others[LastBetter(e, |e.others|).value]);
    }
  }

  lemma FirstCallBudget(e: Entry, measured: nat, r: CompileResult)
    requires WithinBudget(Run(e, measured)) && ResultOk(e, r)
    ensures WithinBudget(Run(IntoTrial(e, r), measured))
  {
    IntoTrialBanks(e, r);
  }

  lemma SettledCallBudget(e: Entry, measured: nat, who: Patience, status: Pipeline.Status, r: CompileResult)
    requires WithinBudget(Run(e, measured)) && who.impatient && (who.noop || RealFeedback(e))
    requires Experiments(e, who, status) ==> ResultOk(e, r)
    ensures WithinBudget(Run(if Experiments(e, who, status) then Experiment(e, r) else FastSwap(e), measured))
  {
    if Experiments(e, who, status) {
      ExperimentBudget(e, measured, r);
    } else {
      FastSwapBudget(e, measured);
    }
  }

  lemma CallBudget(x: Run, who: Patience, op: Op)
    requires op.Call? && OpOk(x, who, op) && who.impatient
    requires WithinBudget(x) && (who.noop || RealFeedback(x.e))
    ensures WithinBudget(Do(x, who, op))
  {
    if x.e.initialised {
      AsksBySettled(x.e, who, op.status);
      var e2 := LaterCall(x.e, who, op.status, op.result);
      assert WithinBudget(Run(e2, x.measured));
      if IsEmpty(e2.trial) {
        SettledCallBudget(e2, x.measured, who, op.status, op.result);
      }
    } else {
      FirstCallBudget(x.e.(requests := x.e.requests + 1, initialised := true), x.measured, op.result);
    }
  }

  lemma MeasureBudget(x: Run, who: Patience, op: Op)
    requires op.Measure? && OpOk(x, who, op) && WithinBudget(x)
    ensures WithinBudget(Do(x, who, op))
  {
    var f := x.e.feedback[op.fb];
    var f' := EndMeasurement(f, op.elapsed, op.stats, op.good);
    BankedUpdate(x.e.feedback, op.fb, f');
    assert Counter(f') <= Counter(f) + op.elapsed;
  }

  lemma RealStays(x: Run, who: Patience, op: Op)
    requires OpOk(x, who, op) && !who.noop && RealFeedback(x.e)
    ensures RealFeedback(Do(x, who, op).e)
  {
    if op.Call? && x.e.initialised {
      AsksBySettled(x.e, who, op.status);
      var s := LaterCall(x.e, who, op.status, op.result);
      hide Settle, Reoptimize, Asks, LastBetter, BetterThan, Experiment, FastSwap;
      SettledStaysReal(s, who, op.result);
    }
  }

  lemma SettledStaysReal(s: Entry, who: Patience, r: CompileResult)
    requires RealFeedback(s)
    ensures !who.noop && KindOk(who, r) ==> RealFeedback(Experiment(s, r))
    ensures RealFeedback(FastSwap(s))
  {
    hide LastBetter, BetterThan, DeployedLongEnough;
  }

  lemma {:induction false} BudgetRun(x: Run, who: Patience, ops: seq<Op>)
    requires who.impatient && EntryOk(x.e) && WithinBudget(x) && (who.noop || RealFeedback(x.e))
    requires Play(x, who, ops).Some?
    ensures WithinBudget(Play(x, who, ops).value)
    decreases |ops|
  {
    if ops != [] {
      var op := ops[0];
      if !who.noop { RealStays(x, who, op); }
      if op.Call? {
        ReoptimizeOk(x.e, who, op.status, op.result);
        CallBudget(x, who, op);
      } else {
        MeasureOk(x, who, op);
        MeasureBudget(x, who, op);
      }
      BudgetRun(Do(x, who, op), who, ops[1..]);
    }
  }

  /** In every run of an impatient driver with n full experiments on an entry, the time measured over
      all the entry's versions is at least 250000 * (1.2^n - 1) nanoseconds. */
  lemma ExplorationBudget(who: Patience, ops: seq<Op>)
    requires who.impatient && Play(START, who, ops).Some?
    ensures var x := Play(START, who, ops).value;
            && x.measured as real >= 250_000.0 * (Pow(1.2, x.e.fullExperiments) - 1.0)
            && x.e.thresh == 50_000.0 * Pow(1.2, x.e.fullExperiments)
  {
    NewEntryOk();
    BudgetRun(START, who, ops);
  }
}
