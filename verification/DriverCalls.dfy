/** What one call of `reoptimize` does to an entry, told from the entry alone: who is on trial, how good its
    feedback says it is, how long Best has been deployed, and what the threshold is. */
module DriverCalls {
  import opened Options
  import opened Comparison
  import opened Driver
  import Pipeline

  /** The feedback of a version held by the entry. */
  function FeedbackOf(e: Entry, w: Wrapper): Feedback
    requires SlotsOk(e) && Whole(w, e.obtained, |e.feedback|)
  {
    e.feedback[w.fb.value]
  }

  function Report(f: Feedback): Snapshot {
    match f
    case NoOpFeedback => Snapshot(0.0, 0.0, 0)
    case TotalTime(stats, _, _) => stats
    case RecentTime(stats, _, _) => stats
  }

  predicate HasGoodQuality(f: Feedback) {
    match f
    case NoOpFeedback => false
    case TotalTime(_, good, _) => good
    case RecentTime(_, good, _) => good
  }

  /** Deployed at least as long as the threshold; without measurements, always. */
  predicate ReachedBy(f: Feedback, thresh: real) {
    match f
    case NoOpFeedback => 0xFFFF_FFFF_FFFF_FFFF as real >= thresh
    case TotalTime(_, _, deployed) => deployed as real >= thresh
    case RecentTime(_, _, deployed) => deployed as real >= thresh
  }

  predicate OnTrial(e: Entry) {
    !e.trial.noInit
  }

  /** The trial has been measured well enough. */
  ghost predicate TrialDone(e: Entry)
    requires EntryOk(e) && e.initialised
  {
    OnTrial(e) && HasGoodQuality(FeedbackOf(e, e.trial))
  }

  /** A finished trial beats Best: there is none, or the trial is better. */
  ghost predicate TrialBeatsBest(e: Entry)
    requires EntryOk(e) && e.initialised
  {
    TrialDone(e) && (e.best.noInit || BetterThan(Report(FeedbackOf(e, e.trial)), Report(FeedbackOf(e, e.best))))
  }

  ghost function BestAfter(e: Entry): Wrapper
    requires EntryOk(e) && e.initialised
  {
    if TrialBeatsBest(e) then e.trial else e.best
  }

  ghost function OthersAfter(e: Entry): seq<Wrapper>
    requires EntryOk(e) && e.initialised
  {
    if TrialDone(e) && !TrialBeatsBest(e) then e.others + [e.trial] else e.others
  }

  /** The call stays with the trial. */
  ghost predicate KeepsTrial(e: Entry)
    requires EntryOk(e) && e.initialised
  {
    OnTrial(e) && !TrialDone(e)
  }

  /** The call obtains a new version: always from a patient caller, and from an impatient one if nothing is
      being compiled and Best has been deployed long enough. */
  ghost predicate WantsVersion(e: Entry, who: Patience, status: Pipeline.Status)
    requires EntryOk(e) && e.initialised && !KeepsTrial(e)
  {
    !who.noop && (who.impatient ==> status != Pipeline.Working && ReachedBy(FeedbackOf(e, BestAfter(e)), e.thresh))
  }

  lemma AfterSettling(e: Entry)
    requires EntryOk(e) && e.initialised
    ensures var s := Settle(e.(requests := e.requests + 1));
      && EntryOk(s) && s.initialised && s.requests == e.requests + 1
      && (KeepsTrial(e) <==> !IsEmpty(s.trial))
      && (KeepsTrial(e) ==> s == e.(requests := e.requests + 1))
      && (!KeepsTrial(e) ==> s.trial == NULL_WRAPPER && s.best == BestAfter(e) && s.others == OthersAfter(e)
                             && Whole(s.best, s.obtained, |s.feedback|))
      && s.thresh == e.thresh && s.feedback == e.feedback && s.obtained == e.obtained
      && s.fullExperiments == e.fullExperiments && s.fastExperiments == e.fastExperiments && s.bestSwaps == e.bestSwaps
  {
    SettleOk(e, e.requests + 1);
    SettleSlots(e);
    if OnTrial(e) {
      assert TrialIsGood(e) <==> TrialDone(e);
      assert Report(FeedbackOf(e, e.trial)) == StatsOf(e, e.trial);
      if !e.best.noInit {
        assert Report(FeedbackOf(e, e.best)) == StatsOf(e, e.best);
      }
    }
    hide Places, BetterThan;
  }

  /** A finished trial becomes Best if it beats it, and otherwise the last of Others. */
  lemma FinishedTrialMoves(e: Entry)
    requires EntryOk(e) && e.initialised && TrialDone(e)
    ensures var s := Settle(e.(requests := e.requests + 1));
      && IsEmpty(s.trial)
      && (TrialBeatsBest(e) ==> s.best == e.trial && s.others == e.others)
      && (!TrialBeatsBest(e) ==> s.best == e.best && s.others == e.others + [e.trial])
  {
    AfterSettling(e);
    hide EntryOk, Settle;
  }

  // ----- when the call obtains a version

  /** The first call obtains a version; a later one exactly if its trial is not still going on and the caller
      wants one.  Each call counts one request. */
  lemma ObtainsIff(e: Entry, who: Patience, status: Pipeline.Status, r: CompileResult)
    requires EntryOk(e)
    ensures var t := Reoptimize(e, who, status, r).0;
      && t.requests == e.requests + 1
      && t.obtained == e.obtained + (if !e.initialised || (!KeepsTrial(e) && WantsVersion(e, who, status)) then 1 else 0)
  {
    if e.initialised {
      AfterSettling(e);
      var s := LaterCall(e, who, status, r);
      hide Settle, EntryOk, Reoptimize;
      if IsEmpty(s.trial) {
        ExperimentsIff(s, who, status);
        SwapFrame(s);
      }
      hide FastSwap, Experiments, TrialIsGood;
    }
  }

  lemma ExperimentsIff(s: Entry, who: Patience, status: Pipeline.Status)
    requires Whole(s.best, s.obtained, |s.feedback|)
    ensures Experiments(s, who, status)
      <==> !who.noop && (who.impatient ==> status != Pipeline.Working && ReachedBy(s.feedback[s.best.fb.value], s.thresh))
    ensures DeployedLongEnough(s) <==> ReachedBy(s.feedback[s.best.fb.value], s.thresh)
  {
  }

  lemma SwapFrame(e: Entry)
    ensures var s := FastSwap(e);
      s.requests == e.requests && s.obtained == e.obtained && s.thresh == e.thresh && s.fullExperiments == e.fullExperiments
      && s.trial == e.trial && s.initialised == e.initialised
  {
  }

  /** What the obtaining call leaves: the version on trial with its feedback, Best as settled and its deployed
      time spent, the experiment counted and the threshold raised by a fifth. */
  lemma ObtainingCall(e: Entry, who: Patience, status: Pipeline.Status, r: CompileResult)
    requires EntryOk(e) && e.initialised && !KeepsTrial(e) && WantsVersion(e, who, status) && ResultOk(e, r)
    ensures var (t, slot) := Reoptimize(e, who, status, r);
      && slot == InTrial
      && t.best == BestAfter(e) && t.others == OthersAfter(e)
      && t.fullExperiments == e.fullExperiments + 1 && t.thresh == 1.2 * e.thresh
      && t.fastExperiments == e.fastExperiments && t.bestSwaps == e.bestSwaps
      && t.trial.fun == Some(e.obtained) && !t.trial.noInit
      && t.trial.fb == Some(if r.Fresh? then |e.feedback| else r.fb)
      && |t.feedback| == |e.feedback| + (if r.Fresh? then 1 else 0)
      && (r.Fresh? ==> t.feedback[|e.feedback|] == r.feedback)
      && forall k :: 0 <= k < |e.feedback| ==> t.feedback[k] == if BestAfter(e).fb == Some(k) then Spent(e.feedback[k]) else e.feedback[k]
  {
    AfterSettling(e);
    var s := LaterCall(e, who, status, r);
    ExperimentsIff(s, who, status);
    hide Settle, EntryOk, Reoptimize, Experiments, FastSwap;
  }

  /** The same feedback with its deployment counter at zero. */
  function Spent(f: Feedback): Feedback {
    match f
    case NoOpFeedback => NoOpFeedback
    case TotalTime(stats, good, _) => TotalTime(stats, good, 0)
    case RecentTime(stats, good, _) => RecentTime(stats, good, 0)
  }

  /** The first call's version goes on trial with its feedback. */
  lemma FirstCall(e: Entry, who: Patience, status: Pipeline.Status, r: CompileResult)
    requires EntryOk(e) && !e.initialised && ResultOk(e, r)
    ensures var (t, slot) := Reoptimize(e, who, status, r);
      && slot == InTrial && t.initialised && t.trial.fun == Some(0) && !t.trial.noInit && t.best.noInit && t.others == []
      && t.fullExperiments == 0 && t.thresh == 50_000.0
      && (r.Fresh? ==> t.trial.fb == Some(0) && t.feedback == [r.feedback])
  {
    hide Settle, FastSwap, Experiment, Experiments;
  }

  // ----- when the call swaps

  /** A call that neither keeps a trial nor wants a version returns Best.  It counts a fast experiment exactly
      if Best has been deployed long enough and there are others; and Best changes, by one swap, exactly if
      moreover one of the others is better than it. */
  lemma SwapsIff(e: Entry, who: Patience, status: Pipeline.Status, r: CompileResult)
    requires EntryOk(e) && e.initialised && !KeepsTrial(e) && !WantsVersion(e, who, status)
    ensures var (t, slot) := Reoptimize(e, who, status, r);
      var reached := ReachedBy(FeedbackOf(e, BestAfter(e)), e.thresh);
      var better := exists k :: 0 <= k < |OthersAfter(e)| && OtherIsBetter(e, k);
      && slot == InBest
      && t.fastExperiments == e.fastExperiments + (if reached && OthersAfter(e) != [] then 1 else 0)
      && t.bestSwaps == e.bestSwaps + (if reached && better then 1 else 0)
      && (t.best != BestAfter(e) <==> reached && better)
  {
    AfterSettling(e);
    var s := LaterCall(e, who, status, r);
    ExperimentsIff(s, who, status);
    SwapOrNot(s);
    hide Settle, Reoptimize, Experiments, FastSwap, Places, BetterThan;
    forall k | 0 <= k < |s.others| ensures OtherIsBetter(e, k) <==> IsBetter(s, k) {
      OthersReports(e, s, k);
    }
    assert (exists k :: 0 <= k < |s.others| && OtherIsBetter(e, k)) <==> (exists k :: 0 <= k < |s.others| && IsBetter(s, k));
    hide EntryOk, OtherIsBetter, IsBetter;
  }

  ghost predicate OtherIsBetter(e: Entry, k: nat)
    requires EntryOk(e) && e.initialised && !KeepsTrial(e) && k < |OthersAfter(e)|
  {
    BetterThan(Report(FeedbackOf(e, OthersAfter(e)[k])), Report(FeedbackOf(e, BestAfter(e))))
  }

  /** By the specification's own look at the statistics. */
  ghost predicate IsBetter(s: Entry, k: nat)
    requires k < |s.others|
  {
    BetterThan(StatsOf(s, s.others[k]), StatsOf(s, s.best))
  }

  lemma OthersReports(e: Entry, s: Entry, k: nat)
    requires EntryOk(e) && e.initialised && !KeepsTrial(e) && SlotsOk(s)
    requires s.best == BestAfter(e) && s.others == OthersAfter(e) && s.feedback == e.feedback && s.obtained == e.obtained
    requires k < |s.others| && Whole(s.best, s.obtained, |s.feedback|)
    ensures OtherIsBetter(e, k) <==> IsBetter(s, k)
  {
    assert s.others[k] in s.others;
    hide Places, BetterThan, Settle;
  }

  /** One swap of a settled entry. */
  lemma SwapOrNot(s: Entry)
    requires EntryOk(s) && Whole(s.best, s.obtained, |s.feedback|)
    ensures var t, better := FastSwap(s), exists k :: 0 <= k < |s.others| && IsBetter(s, k);
      && t.fastExperiments == s.fastExperiments + (if DeployedLongEnough(s) && s.others != [] then 1 else 0)
      && t.bestSwaps == s.bestSwaps + (if DeployedLongEnough(s) && better then 1 else 0)
      && (t.best != s.best <==> DeployedLongEnough(s) && better)
  {
    hide BetterThan, DeployedLongEnough;
    forall k | 0 <= k < |s.others| ensures s.others[k] != s.best {
      OtherIsNotBest(s, k);
    }
    hide EntryOk, StatsOf;
    var found := LastBetter(s, |s.others|);
    assert found.Some? <==> exists k :: 0 <= k < |s.others| && IsBetter(s, k) by {
      if found.Some? {
        assert IsBetter(s, found.value);
      }
    }
    hide LastBetter, IsBetter;
  }

  /** No version is in two slots. */
  lemma OtherIsNotBest(s: Entry, k: nat)
    requires EntryOk(s) && Whole(s.best, s.obtained, |s.feedback|) && k < |s.others|
    ensures s.others[k] != s.best
  {
    var v := s.best.fun.value;
    assert Places(s, v) == 1 && Owns(s.best, v) == 1;
    assert OwnsAll(s.others, v) == 0;
    if s.others[k] == s.best {
      OwnsOne(s.others, k, v);
      assert false;
    }
  }

  lemma {:induction false} OwnsOne(ws: seq<Wrapper>, k: nat, v: nat)
    requires k < |ws| && Owns(ws[k], v) == 1
    ensures OwnsAll(ws, v) >= 1
    decreases |ws|
  {
    if k < |ws| - 1 {
      OwnsOne(ws[..|ws| - 1], k, v);
    }
  }

  /** After a swap the new Best starts its deployed time afresh, and no other feedback changes. */
  lemma SwapSpendsNewBest(e: Entry, who: Patience, status: Pipeline.Status, r: CompileResult)
    requires EntryOk(e) && e.initialised && !KeepsTrial(e) && !WantsVersion(e, who, status)
    ensures var t := Reoptimize(e, who, status, r).0;
      && |t.feedback| == |e.feedback|
      && forall k :: 0 <= k < |e.feedback| ==>
           t.feedback[k] == if t.bestSwaps != e.bestSwaps && t.best.fb == Some(k) then Spent(e.feedback[k]) else e.feedback[k]
  {
    AfterSettling(e);
    var s := LaterCall(e, who, status, r);
    ExperimentsIff(s, who, status);
    SwapFeedback(s);
    hide Settle, EntryOk, Reoptimize, Experiments, FastSwap;
  }

  lemma SwapFeedback(s: Entry)
    requires SlotsOk(s)
    ensures var t := FastSwap(s);
      && |t.feedback| == |s.feedback|
      && forall k :: 0 <= k < |s.feedback| ==>
           t.feedback[k] == if t.bestSwaps != s.bestSwaps && t.best.fb == Some(k) then Spent(s.feedback[k]) else s.feedback[k]
  {
    hide BetterThan, DeployedLongEnough;
  }

  // ----- measuring

  /** A measurement shorter than 2^63 ns adds to the deployed time: up to 2^64 - 1 for the cumulative kind,
      modulo 2^64 for the recent one; it replaces the statistics, and leaves the no-op kind alone. */
  lemma MeasurementCounts(f: Feedback, elapsed: nat, stats: Snapshot, good: bool)
    requires 0 < elapsed < 0x8000_0000_0000_0000
    ensures f.NoOpFeedback? ==> EndMeasurement(f, elapsed, stats, good) == f
    ensures f.TotalTime? && f.deployed < 0x1_0000_0000_0000_0000 ==>
      var d := f.deployed + elapsed;
      EndMeasurement(f, elapsed, stats, good) == TotalTime(stats, good, if d < 0x1_0000_0000_0000_0000 then d else 0xFFFF_FFFF_FFFF_FFFF)
    ensures f.RecentTime? ==>
      var after := EndMeasurement(f, elapsed, stats, good);
      && after == RecentTime(stats, good, after.deployed)
      && after.deployed < 0x1_0000_0000_0000_0000
      && (f.deployed + elapsed - after.deployed) % 0x1_0000_0000_0000_0000 == 0
  {
  }
}
