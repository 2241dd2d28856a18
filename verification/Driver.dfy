/** One entry of the driver's state map: the version slots Trial, Best and Others, and `reoptimize`. */
module Driver {
  import opened Options
  import opened Comparison
  import Measurement
  import Pipeline

  const EXPERIMENT_MIN_DEPLOY_NS := 50_000.0
  const EXPERIMENT_DEPLOY_GROWTH_RATE := 0.2

  /** FunctionWrapperBase: a unique_ptr to the compiled function, a shared_ptr to its feedback, and the
      flag that `isEmpty` reads. */
  datatype Wrapper = Wrapper(fun: Option<nat>, fb: Option<nat>, noInit: bool)

  const NULL_WRAPPER := Wrapper(None, None, true)

  /** What a move leaves behind: both pointers are gone but the flag stays as it was. */
  function Husk(w: Wrapper): Wrapper {
    Wrapper(None, None, w.noInit)
  }

  predicate IsEmpty(w: Wrapper) {
    w.noInit
  }

  predicate Whole(w: Wrapper, versions: nat, feedbacks: nat) {
    !w.noInit && w.fun.Some? && w.fun.value < versions && w.fb.Some? && w.fb.value < feedbacks
  }

  /** The feedback object behind a shared_ptr; all kinds but the no-op one keep a deployment counter. */
  datatype Feedback =
    | NoOpFeedback
    | TotalTime(stats: Snapshot, good: bool, deployed: nat)
    | RecentTime(stats: Snapshot, good: bool, deployed: nat)

  function Stats(f: Feedback): Snapshot {
    if f.NoOpFeedback? then Snapshot(0.0, 0.0, 0) else f.stats
  }

  predicate GoodQuality(f: Feedback) {
    !f.NoOpFeedback? && f.good
  }

  function DeployedTime(f: Feedback): nat {
    if f.NoOpFeedback? then Measurement.TWO_TO_64 - 1 else f.deployed
  }

  function ResetDeployed(f: Feedback): Feedback {
    match f
    case NoOpFeedback => f
    case TotalTime(s, g, _) => TotalTime(s, g, 0)
    case RecentTime(s, g, _) => RecentTime(s, g, 0)
  }

  /** endMeasurement, with the statistics it leaves taken from outside: the cumulative kind saturates its
      deployment counter, the recent kind lets it wrap around. */
  function EndMeasurement(f: Feedback, elapsed: nat, stats: Snapshot, good: bool): Feedback {
    match f
    case NoOpFeedback => f
    case TotalTime(_, _, d) => TotalTime(stats, good, Measurement.SaturatingAdd(d, elapsed))
    case RecentTime(_, _, d) => RecentTime(stats, good, Measurement.WrappingAdd(d, elapsed))
  }

  /** What `recompile` hands back: a new function with a new feedback object, or with an earlier one
      (annealing hands out the same configuration and feedback again while it lacks measurements). */
  datatype CompileResult = Fresh(feedback: Feedback) | Again(fb: nat)

  datatype Patience = Patience(impatient: bool, noop: bool)

  datatype Slot = InTrial | InBest

  datatype Entry = Entry(
    initialised: bool,
    trial: Wrapper,
    best: Wrapper,
    others: seq<Wrapper>,
    feedback: seq<Feedback>,
    thresh: real,
    requests: nat,
    fullExperiments: nat,
    fastExperiments: nat,
    bestSwaps: nat,
    obtained: nat,          // versions `recompile` has returned
    replaced: seq<nat>)     // versions dropped because a better trial took Best

  const NEW_ENTRY := Entry(false, NULL_WRAPPER, NULL_WRAPPER, [], [], EXPERIMENT_MIN_DEPLOY_NS, 0, 0, 0, 0, 0, [])

  // ----- the specification, stage by stage

  function StatsOf(e: Entry, w: Wrapper): Snapshot {
    if w.fb.Some? && w.fb.value < |e.feedback| then Stats(e.feedback[w.fb.value]) else Snapshot(0.0, 0.0, 0)
  }

  ghost predicate TrialIsGood(e: Entry) {
    !IsEmpty(e.trial) && e.trial.fb.Some? && e.trial.fb.value < |e.feedback| && GoodQuality(e.feedback[e.trial.fb.value])
  }

  /** A finished trial takes Best if it is better, and otherwise joins Others. */
  ghost function Settle(e: Entry): Entry {
    if !TrialIsGood(e) then e
    else if IsEmpty(e.best) then e.(trial := NULL_WRAPPER, best := e.trial)
    else if BetterThan(StatsOf(e, e.trial), StatsOf(e, e.best)) then
      e.(trial := NULL_WRAPPER, best := e.trial, replaced := e.replaced + (if e.best.fun.Some? then [e.best.fun.value] else []))
    else e.(trial := NULL_WRAPPER, others := e.others + [e.trial])
  }

  ghost predicate DeployedLongEnough(e: Entry) {
    e.best.fb.Some? && e.best.fb.value < |e.feedback| && DeployedTime(e.feedback[e.best.fb.value]) as real >= e.thresh
  }

  /** After settling, with no trial: does the driver ask the optimizer for another version? */
  ghost predicate Experiments(e: Entry, who: Patience, status: Pipeline.Status) {
    !who.noop && (who.impatient ==> status != Pipeline.Working && DeployedLongEnough(e))
  }

  function ResetAt(fbs: seq<Feedback>, w: Wrapper): seq<Feedback> {
    if w.fb.Some? && w.fb.value < |fbs| then fbs[w.fb.value := ResetDeployed(fbs[w.fb.value])] else fbs
  }

  predicate ResultOk(e: Entry, r: CompileResult) {
    match r
    case Fresh(f) => f.NoOpFeedback? || f.deployed == 0
    case Again(fb) => fb < |e.feedback|
  }

  /** jit_with_optimizer: the new version goes into Trial. */
  ghost function IntoTrial(e: Entry, r: CompileResult): Entry {
    match r
    case Fresh(f) => e.(trial := Wrapper(Some(e.obtained), Some(|e.feedback|), false), feedback := e.feedback + [f], obtained := e.obtained + 1)
    case Again(fb) => e.(trial := Wrapper(Some(e.obtained), Some(fb), false), obtained := e.obtained + 1)
  }

  ghost function Experiment(e: Entry, r: CompileResult): Entry {
    IntoTrial(e.(feedback := ResetAt(e.feedback, e.best),
                 fullExperiments := e.fullExperiments + 1,
                 thresh := e.thresh + e.thresh * EXPERIMENT_DEPLOY_GROWTH_RATE), r)
  }

  /** The last of the first `n` others that is better than Best, not the best of them. */
  ghost function LastBetter(e: Entry, n: nat): (k: Option<nat>)
    requires n <= |e.others|
    ensures k.Some? ==> k.value < n && BetterThan(StatsOf(e, e.others[k.value]), StatsOf(e, e.best))
    ensures forall j :: (if k.Some? then k.value + 1 else 0) <= j < n ==> !BetterThan(StatsOf(e, e.others[j]), StatsOf(e, e.best))
  {
    if n == 0 then None
    else if BetterThan(StatsOf(e, e.others[n - 1]), StatsOf(e, e.best)) then Some(n - 1)
    else LastBetter(e, n - 1)
  }

  ghost function FastSwap(e: Entry): Entry {
    if !DeployedLongEnough(e) || e.others == [] then e
    else
      var found := LastBetter(e, |e.others|);
      if found.None? then e.(fastExperiments := e.fastExperiments + 1)
      else
        var i := found.value;
        e.(fastExperiments := e.fastExperiments + 1,
           bestSwaps := e.bestSwaps + 1,
           best := e.others[i],
           others := e.others[i := e.best],
           feedback := ResetAt(e.feedback, e.others[i]))
  }

  ghost function Reoptimize(e: Entry, who: Patience, status: Pipeline.Status, r: CompileResult): (Entry, Slot) {
    var e1 := e.(requests := e.requests + 1);
    if !e.initialised then (IntoTrial(e1.(initialised := true), r), InTrial)
    else
      var e2 := Settle(e1);
      if !IsEmpty(e2.trial) then (e2, InTrial)
      else if Experiments(e2, who, status) then (Experiment(e2, r), InTrial)
      else (FastSwap(e2), InBest)
  }

  /** Does this call of `reoptimize` call `recompile`? */
  ghost predicate Asks(e: Entry, who: Patience, status: Pipeline.Status) {
    !e.initialised || (IsEmpty(Settle(e).trial) && Experiments(Settle(e), who, status))
  }

  // ----- what every call keeps

  function Owns(w: Wrapper, v: nat): nat {
    if !w.noInit && w.fun == Some(v) then 1 else 0
  }

  function OwnsAll(ws: seq<Wrapper>, v: nat): nat {
    if ws == [] then 0 else OwnsAll(ws[..|ws| - 1], v) + Owns(ws[|ws| - 1], v)
  }

  function Occurs(vs: seq<nat>, v: nat): nat {
    if vs == [] then 0 else Occurs(vs[..|vs| - 1], v) + (if vs[|vs| - 1] == v then 1 else 0)
  }

  /** In how many places version `v` is: the slots that own it, and the record of dropped versions. */
  function Places(e: Entry, v: nat): nat {
    Owns(e.trial, v) + Owns(e.best, v) + OwnsAll(e.others, v) + Occurs(e.replaced, v)
  }

  predicate SlotOk(w: Wrapper, versions: nat, feedbacks: nat) {
    w == NULL_WRAPPER || Whole(w, versions, feedbacks)
  }

  ghost predicate SlotsOk(e: Entry) {
    && SlotOk(e.trial, e.obtained, |e.feedback|)
    && SlotOk(e.best, e.obtained, |e.feedback|)
    && (forall w :: w in e.others ==> Whole(w, e.obtained, |e.feedback|))
    && (IsEmpty(e.best) ==> e.others == [])
  }

  /** Slots hold whole versions or nothing; the versions obtained are each in exactly one slot or
      dropped exactly once; an initialised entry has a trial or a best version. */
  ghost predicate EntryOk(e: Entry) {
    && SlotsOk(e)
    && (forall v: nat :: Places(e, v) == if v < e.obtained then 1 else 0)
    && (e.initialised ==> e.obtained == 1 + e.fullExperiments && !(IsEmpty(e.trial) && IsEmpty(e.best)))
    && (!e.initialised ==> e == NEW_ENTRY)
  }

  lemma NewEntryOk()
    ensures EntryOk(NEW_ENTRY)
  {
  }

  lemma OwnsAllSnoc(ws: seq<Wrapper>, w: Wrapper, v: nat)
    ensures OwnsAll(ws + [w], v) == OwnsAll(ws, v) + Owns(w, v)
  {
    assert (ws + [w])[..|ws|] == ws;
  }

  lemma {:induction false} OwnsAllUpdate(ws: seq<Wrapper>, i: nat, w: Wrapper, v: nat)
    requires i < |ws|
    ensures OwnsAll(ws[i := w], v) + Owns(ws[i], v) == OwnsAll(ws, v) + Owns(w, v)
    decreases |ws|
  {
    var n := |ws| - 1;
    if i < n {
      OwnsAllUpdate(ws[..n], i, w, v);
      assert ws[i := w][..n] == ws[..n][i := w];
    } else {
      assert ws[i := w][..n] == ws[..n];
    }
  }

  lemma SettleSlots(e: Entry)
    requires SlotsOk(e)
    ensures var s := Settle(e);
            && SlotsOk(s)
            && (IsEmpty(s.trial) && !(IsEmpty(e.trial) && IsEmpty(e.best)) ==> !IsEmpty(s.best))
            && (!IsEmpty(s.trial) <==> !IsEmpty(e.trial) && !TrialIsGood(e))
            && s == e.(trial := s.trial, best := s.best, others := s.others, replaced := s.replaced)
  {
  }

  /** Settling drops a version exactly when a good trial is better than the Best there is, and then it is
      that Best. */
  lemma BestDroppedIff(e: Entry)
    requires SlotsOk(e)
    ensures Settle(e).replaced != e.replaced
            <==> TrialIsGood(e) && !IsEmpty(e.best) && BetterThan(StatsOf(e, e.trial), StatsOf(e, e.best))
    ensures Settle(e).replaced != e.replaced ==> Settle(e).replaced == e.replaced + [e.best.fun.value]
  {
  }

  lemma SettlePlaces(e: Entry, v: nat)
    requires SlotsOk(e)
    ensures Places(Settle(e), v) == Places(e, v)
  {
    var s := Settle(e);
    if TrialIsGood(e) && !IsEmpty(e.best) {
      if BetterThan(StatsOf(e, e.trial), StatsOf(e, e.best)) {
        assert s.replaced[..|e.replaced|] == e.replaced;
      } else {
        OwnsAllSnoc(e.others, e.trial, v);
      }
    }
  }

  lemma IntoTrialOk(e: Entry, r: CompileResult)
    requires e.trial == NULL_WRAPPER && ResultOk(e, r) && SlotsOk(e)
    ensures var t := IntoTrial(e, r);
            && SlotsOk(t) && !IsEmpty(t.trial)
            && t.obtained == e.obtained + 1
            && t == e.(trial := t.trial, feedback := t.feedback, obtained := t.obtained)
            && (forall v: nat :: Places(t, v) == Places(e, v) + if v == e.obtained then 1 else 0)
  {
  }

  lemma ExperimentOk(e: Entry, r: CompileResult)
    requires EntryOk(e) && e.initialised && e.trial == NULL_WRAPPER && ResultOk(e, r)
    ensures EntryOk(Experiment(e, r)) && !IsEmpty(Experiment(e, r).trial) && Experiment(e, r).initialised
  {
    var e' := e.(feedback := ResetAt(e.feedback, e.best),
                 fullExperiments := e.fullExperiments + 1,
                 thresh := e.thresh + e.thresh * EXPERIMENT_DEPLOY_GROWTH_RATE);
    assert forall v: nat :: Places(e', v) == Places(e, v);
    IntoTrialOk(e', r);
  }

  /** A fast swap exchanges Best with one of Others and loses nothing. */
  lemma FastSwapConserves(e: Entry)
    ensures var s := FastSwap(e);
            && multiset([s.best] + s.others) == multiset([e.best] + e.others)
            && s.trial == e.trial && s.obtained == e.obtained && s.replaced == e.replaced
            && (s.bestSwaps == e.bestSwaps ==> s.best == e.best && s.others == e.others && s.feedback == e.feedback)
  {
    if DeployedLongEnough(e) && e.others != [] && LastBetter(e, |e.others|).Some? {
      var i := LastBetter(e, |e.others|).value;
      assert multiset(e.others[i := e.best]) == multiset(e.others) - multiset{e.others[i]} + multiset{e.best};
    }
  }

  /** All versions report statistics fit for comparison. */
  ghost predicate AllMeasured(e: Entry) {
    forall w: Wrapper :: Measured(StatsOf(e, w))
  }

  /** Resetting a deployment counter changes nothing that a comparison looks at. */
  lemma SwapKeepsStats(e: Entry, w: Wrapper)
    ensures StatsOf(FastSwap(e), w) == StatsOf(e, w)
  {
  }

  /** After a swap some other version is better than the new Best exactly if one that the scan passed over
      earlier is better than the one it ended on. */
  lemma SwapLeavesBetterIff(e: Entry)
    requires AllMeasured(e) && FastSwap(e).bestSwaps != e.bestSwaps
    ensures LastBetter(e, |e.others|).Some?
    ensures var s, i := FastSwap(e), LastBetter(e, |e.others|).value;
      (exists k :: 0 <= k < |s.others| && BetterThan(StatsOf(s, s.others[k]), StatsOf(s, s.best)))
      <==> (exists j :: 0 <= j < i && BetterThan(StatsOf(e, e.others[j]), StatsOf(e, e.others[i])))
  {
    var s, i := FastSwap(e), LastBetter(e, |e.others|).value;
    assert s.best == e.others[i] && s.others == e.others[i := e.best];
    forall w: Wrapper ensures StatsOf(s, w) == StatsOf(e, w) { SwapKeepsStats(e, w); }
    var b, old' := StatsOf(e, e.others[i]), StatsOf(e, e.best);
    assert Measured(b) && Measured(old');
    hide FastSwap, BetterThan, StatsOf;
    forall k | 0 <= k < |s.others| && BetterThan(StatsOf(s, s.others[k]), StatsOf(s, s.best)) ensures k < i {
      if k == i {
        Asymmetric(b, old');
        assert false;
      } else if k > i {
        assert Measured(StatsOf(e, e.others[k]));
        Transitive(StatsOf(e, e.others[k]), b, old');
        assert false;
      }
    }
    forall j | 0 <= j < i && BetterThan(StatsOf(e, e.others[j]), b) ensures s.others[j] == e.others[j] {
    }
  }

  /** It does happen: of three versions, two better than Best, the swap takes the worse of the two. */
  lemma SwapCanMissTheBest() returns (e: Entry)
    ensures EntryOk(e) && e.initialised && IsEmpty(e.trial)
    ensures FastSwap(e).bestSwaps == 1 && |FastSwap(e).others| == 2
    ensures BetterThan(StatsOf(FastSwap(e), FastSwap(e).others[0]), StatsOf(FastSwap(e), FastSwap(e).best))
  {
    var fast, medium, slow := Snapshot(100.0, 0.0, 3), Snapshot(200.0, 0.0, 3), Snapshot(300.0, 0.0, 3);
    var w0, w1, w2 := Wrapper(Some(0), Some(0), false), Wrapper(Some(1), Some(1), false), Wrapper(Some(2), Some(2), false);
    e := NEW_ENTRY.(initialised := true, best := w2, others := [w0, w1], obtained := 3, fullExperiments := 2, thresh := 72_000.0,
                    feedback := [TotalTime(fast, true, 0), TotalTime(medium, true, 0), TotalTime(slow, true, 72_000)]);
    assert OwnsAll([w0], 0) == 1 && [w0, w1][..1] == [w0] && [w0][..0] == [];
    forall v: nat ensures Places(e, v) == if v < 3 then 1 else 0 {
      assert OwnsAll(e.others, v) == OwnsAll([w0], v) + Owns(w1, v);
      assert OwnsAll([w0], v) == OwnsAll([], v) + Owns(w0, v);
    }
    assert BetterThan(medium, slow) && BetterThan(fast, medium);
    assert LastBetter(e, 2) == Some(1);
  }

  lemma FastSwapPlaces(e: Entry, v: nat)
    ensures Places(FastSwap(e), v) == Places(e, v)
  {
    if DeployedLongEnough(e) && e.others != [] && LastBetter(e, |e.others|).Some? {
      OwnsAllUpdate(e.others, LastBetter(e, |e.others|).value, e.best, v);
    }
  }

  lemma FastSwapOk(e: Entry)
    requires EntryOk(e) && e.initialised && IsEmpty(e.trial)
    ensures EntryOk(FastSwap(e)) && FastSwap(e).initialised && !IsEmpty(FastSwap(e).best)
  {
    forall v: nat ensures Places(FastSwap(e), v) == Places(e, v) { FastSwapPlaces(e, v); }
    if DeployedLongEnough(e) && e.others != [] && LastBetter(e, |e.others|).Some? {
      assert e.others[LastBetter(e, |e.others|).value] in e.others;
    }
  }

  function SlotOf(e: Entry, slot: Slot): Wrapper {
    if slot.InTrial? then e.trial else e.best
  }

  lemma SettleIgnoresRequests(e: Entry, requests: nat)
    ensures Settle(e.(requests := requests)) == Settle(e).(requests := requests)
  {
  }

  /** A call after the first, by way of the settled entry. */
  lemma LaterCall(e: Entry, who: Patience, status: Pipeline.Status, r: CompileResult) returns (s: Entry)
    requires e.initialised
    ensures s == Settle(e.(requests := e.requests + 1))
    ensures s.thresh == e.thresh && s.fullExperiments == e.fullExperiments && s.feedback == e.feedback && s.initialised
    ensures Reoptimize(e, who, status, r) ==
      if !IsEmpty(s.trial) then (s, InTrial)
      else if Experiments(s, who, status) then (Experiment(s, r), InTrial)
      else (FastSwap(s), InBest)
  {
    s := Settle(e.(requests := e.requests + 1));
  }

  lemma AsksBySettled(e: Entry, who: Patience, status: Pipeline.Status)
    requires e.initialised
    ensures var s := Settle(e.(requests := e.requests + 1));
            Asks(e, who, status) <==> IsEmpty(s.trial) && Experiments(s, who, status)
  {
    SettleIgnoresRequests(e, e.requests + 1);
  }

  lemma SettleOk(e: Entry, requests: nat)
    requires EntryOk(e) && e.initialised
    ensures var s := Settle(e.(requests := requests));
            && EntryOk(s) && s.initialised
            && s == Settle(e).(requests := requests)
            && (IsEmpty(s.trial) ==> s.trial == NULL_WRAPPER && !IsEmpty(s.best))
  {
    var e1 := e.(requests := requests);
    SettleSlots(e1);
    forall v: nat ensures Places(Settle(e1), v) == Places(e, v) { SettlePlaces(e1, v); }
  }

  lemma FirstCallOk(e: Entry, r: CompileResult)
    requires e == NEW_ENTRY && ResultOk(e, r)
    ensures var t := IntoTrial(e.(requests := 1, initialised := true), r);
            EntryOk(t) && t.initialised && !IsEmpty(t.trial)
  {
    NewEntryOk();
    IntoTrialOk(e.(requests := 1, initialised := true), r);
  }

  lemma SlotHolds(e: Entry, slot: Slot)
    requires EntryOk(e) && !IsEmpty(SlotOf(e, slot))
    ensures Whole(SlotOf(e, slot), e.obtained, |e.feedback|)
  {
  }

  /** Every call keeps the entry sound and returns a slot that holds a version. */
  lemma ReoptimizeOk(e: Entry, who: Patience, status: Pipeline.Status, r: CompileResult)
    requires EntryOk(e) && (Asks(e, who, status) ==> ResultOk(e, r))
    ensures var (t, slot) := Reoptimize(e, who, status, r);
            && EntryOk(t) && t.initialised
            && Whole(SlotOf(t, slot), t.obtained, |t.feedback|)
  {
    var (t, slot) := Reoptimize(e, who, status, r);
    if !e.initialised {
      assert e == NEW_ENTRY;
      FirstCallOk(e, r);
    } else {
      hide Settle, FastSwap, Experiment, Experiments, Reoptimize, Asks;
      SettleOk(e, e.requests + 1);
      AsksBySettled(e, who, status);
      var s := LaterCall(e, who, status, r);
      hide EntryOk;
      SettledCallOk(s, who, status, r);
    }
    hide *;
    SlotHolds(t, slot);
  }

  /** The part of a later call that comes after settling the trial. */
  lemma SettledCallOk(s: Entry, who: Patience, status: Pipeline.Status, r: CompileResult)
    requires EntryOk(s) && s.initialised && (IsEmpty(s.trial) ==> s.trial == NULL_WRAPPER && !IsEmpty(s.best))
    requires IsEmpty(s.trial) && Experiments(s, who, status) ==> ResultOk(s, r)
    ensures var (t, slot) := if !IsEmpty(s.trial) then (s, InTrial)
                             else if Experiments(s, who, status) then (Experiment(s, r), InTrial)
                             else (FastSwap(s), InBest);
            EntryOk(t) && t.initialised && !IsEmpty(SlotOf(t, slot))
  {
    hide EntryOk, Experiment, FastSwap, Experiments, ResultOk;
    if IsEmpty(s.trial) {
      if Experiments(s, who, status) {
        ExperimentOk(s, r);
      } else {
        FastSwapOk(s);
      }
    }
  }

  /** The driver asks for a version only on an entry's first call, or with the trial settled; and an
      impatient driver only when the pipeline is not Working and Best has been deployed long enough. */
  lemma AsksOnlyWhenSettled(e: Entry, who: Patience, status: Pipeline.Status, r: CompileResult)
    requires SlotsOk(e) && (e.initialised ==> !(IsEmpty(e.trial) && IsEmpty(e.best)))
    ensures Reoptimize(e, who, status, r).0.obtained == e.obtained + (if Asks(e, who, status) then 1 else 0)
    ensures Asks(e, who, status) && e.initialised ==>
      && (IsEmpty(e.trial) || TrialIsGood(e))
      && (who.impatient ==> status != Pipeline.Working && DeployedLongEnough(Settle(e)))
  {
    if e.initialised {
      SettleSlots(e);
      AsksBySettled(e, who, status);
      var s := LaterCall(e, who, status, r);
      SettleSlots(e.(requests := e.requests + 1));
      FastSwapConserves(s);
      hide Settle, FastSwap, Reoptimize;
    }
  }
}
