/** The driver's entry as a mutable object: the stages of `reoptimize`, updating the slots in place by
    moves, proved against the functions of module Driver. */
module DriverEntry {
  import opened Options
  import opened Comparison
  import opened Driver
  import Pipeline

  class OptimizationInfo {
    const who: Patience
    var initialised: bool
    var trial: Wrapper
    var best: Wrapper
    var others: seq<Wrapper>
    var feedback: seq<Feedback>
    var deploymentThresh: real
    var requests: nat
    var fullExperiments: nat
    var fastExperiments: nat
    var bestSwaps: nat
    var obtained: nat
    ghost var replaced: seq<nat>

    ghost function View(): Entry
      reads this
    {
      Entry(initialised, trial, best, others, feedback, deploymentThresh, requests,
            fullExperiments, fastExperiments, bestSwaps, obtained, replaced)
    }

    constructor (who: Patience)
      ensures this.who == who && View() == NEW_ENTRY && EntryOk(View())
    {
      this.who := who;
      initialised, trial, best, others, feedback := false, NULL_WRAPPER, NULL_WRAPPER, [], [];
      deploymentThresh := EXPERIMENT_MIN_DEPLOY_NS;
      requests, fullExperiments, fastExperiments, bestSwaps, obtained, replaced := 0, 0, 0, 0, 0, [];
      new;
      NewEntryOk();
    }

    /** Check whether the trial is done; if so, move it out, erase the slot, and move it in elsewhere. */
    method SettleTrial()
      requires SlotsOk(View())
      modifies this`trial, this`best, this`others, this`replaced
      ensures View() == Settle(old(View()))
    {
      if !IsEmpty(trial) {
        if GoodQuality(feedback[trial.fb.value]) {
          var maybeGood := trial;
          trial := Husk(trial);
          trial := NULL_WRAPPER;
          if IsEmpty(best) || BetterThan(Stats(feedback[maybeGood.fb.value]), Stats(feedback[best.fb.value])) {
            if !IsEmpty(best) {
              replaced := replaced + [best.fun.value];
            }
            best := maybeGood;
            maybeGood := Husk(maybeGood);
          } else {
            others := others + [maybeGood];
            maybeGood := Husk(maybeGood);
          }
        }
      }
    }

    /** jit_with_optimizer's assignment to Trial. */
    method TakeTrial(r: CompileResult)
      requires ResultOk(View(), r)
      modifies this`trial, this`feedback, this`obtained
      ensures View() == IntoTrial(old(View()), r)
    {
      match r
      case Fresh(f) =>
        trial := Wrapper(Some(obtained), Some(|feedback|), false);
        feedback := feedback + [f];
        obtained := obtained + 1;
      case Again(fb) =>
        trial := Wrapper(Some(obtained), Some(fb), false);
        obtained := obtained + 1;
    }

    method RunExperiment(r: CompileResult)
      requires SlotsOk(View()) && !IsEmpty(best) && ResultOk(View(), r)
      modifies this
      ensures View() == Experiment(old(View()), r)
    {
      feedback := feedback[best.fb.value := ResetDeployed(feedback[best.fb.value])];
      fullExperiments := fullExperiments + 1;
      deploymentThresh := deploymentThresh + deploymentThresh * EXPERIMENT_DEPLOY_GROWTH_RATE;
      TakeTrial(r);
    }

    /** The scan over Others: remember the position of each better version, so the last one wins. */
    method FindLastBetter() returns (idx: Option<nat>)
      requires SlotsOk(View()) && !IsEmpty(best)
      ensures idx == LastBetter(View(), |others|)
    {
      idx := None;
      for i := 0 to |others|
        invariant idx == LastBetter(View(), i)
      {
        assert others[i] in others;
        if BetterThan(Stats(feedback[others[i].fb.value]), Stats(feedback[best.fb.value])) {
          idx := Some(i);
        }
      }
    }

    /** The quick recheck of Best against Others, exchanging slots by moves. */
    method RecheckOthers(deployedLongEnough: bool)
      requires SlotsOk(View()) && !IsEmpty(best)
      requires deployedLongEnough <==> DeployedLongEnough(View())
      modifies this
      ensures View() == FastSwap(old(View()))
    {
      if deployedLongEnough && |others| > 0 {
        var idx := FindLastBetter();
        fastExperiments := fastExperiments + 1;
        if idx.Some? {
          var i := idx.value;
          assert others[i] in others;
          bestSwaps := bestSwaps + 1;
          var oldBest := best;
          best := Husk(best);
          best := others[i];
          others := others[i := Husk(others[i])];
          feedback := feedback[best.fb.value := ResetDeployed(feedback[best.fb.value])];
          others := others[i := oldBest];
          oldBest := Husk(oldBest);
        }
      }
    }

    /** ATDriver::reoptimize on this entry.  `status` is what the optimizer answers if asked, and `r` what
        `recompile` returns if called. */
    method Reoptimize(status: Pipeline.Status, r: CompileResult) returns (slot: Slot)
      requires EntryOk(View()) && (Asks(View(), who, status) ==> ResultOk(View(), r))
      modifies this
      ensures (View(), slot) == Driver.Reoptimize(old(View()), who, status, r)
      ensures EntryOk(View()) && Whole(SlotOf(View(), slot), obtained, |feedback|)
    {
      ReoptimizeOk(View(), who, status, r);
      if !initialised {
        slot := ReoptimizeFirst(status, r);
      } else {
        slot := ReoptimizeLater(status, r);
      }
    }

    method ReoptimizeFirst(status: Pipeline.Status, r: CompileResult) returns (slot: Slot)
      requires !initialised && ResultOk(View(), r)
      modifies this
      ensures (View(), slot) == Driver.Reoptimize(old(View()), who, status, r)
    {
      requests := requests + 1;
      initialised := true;
      TakeTrial(r);
      slot := InTrial;
    }

    method ReoptimizeLater(status: Pipeline.Status, r: CompileResult) returns (slot: Slot)
      requires initialised && SlotsOk(View()) && !(IsEmpty(trial) && IsEmpty(best))
      requires Asks(View(), who, status) ==> ResultOk(View(), r)
      modifies this
      ensures (View(), slot) == Driver.Reoptimize(old(View()), who, status, r)
    {
      AsksBySettled(View(), who, status);
      ghost var s := LaterCall(View(), who, status, r);
      hide Settle, FastSwap, Experiment, IntoTrial, Experiments, Driver.Reoptimize, Asks;
      requests := requests + 1;
      slot := ReoptimizeAgain(s, status, r);
    }

    method ReoptimizeAgain(ghost s: Entry, status: Pipeline.Status, r: CompileResult) returns (slot: Slot)
      requires SlotsOk(View()) && !(IsEmpty(trial) && IsEmpty(best)) && s == Settle(View())
      requires IsEmpty(s.trial) && Experiments(s, who, status) ==> ResultOk(s, r)
      modifies this
      ensures (View(), slot) == if !IsEmpty(s.trial) then (s, InTrial)
                                else if Experiments(s, who, status) then (Experiment(s, r), InTrial)
                                else (FastSwap(s), InBest)
    {
      SettleSlots(View());
      SettleTrial();
      if !IsEmpty(trial) {
        return InTrial;
      }
      var deployedLongEnough := DeployedTime(feedback[best.fb.value]) as real >= deploymentThresh;
      var shouldReturnBest := who.noop;
      if !shouldReturnBest && who.impatient {
        if status.Working? {
          shouldReturnBest := true;
        } else {
          shouldReturnBest := !deployedLongEnough;
        }
      }
      if !shouldReturnBest {
        RunExperiment(r);
        return InTrial;
      }
      RecheckOthers(deployedLongEnough);
      return InBest;
    }
  }
}
