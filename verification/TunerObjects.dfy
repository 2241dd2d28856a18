/** The tuners as mutable objects, proved against the functions of module Tuners.  Each call hands back,
    as a ghost, the oracle that describes the draws it made. */
module TunerObjects {
  import opened Knobs
  import opened Tuners

  class RandomTuner {
    const ks: KnobSet
    var configs: seq<GenResult>
    var aheadOfTimeCount: nat

    ghost function View(): Tuner
      reads this
    {
      Random(configs, aheadOfTimeCount)
    }

    constructor (ks: KnobSet)
      ensures this.ks == ks && View() == Random([], 0)
    {
      this.ks := ks;
      configs, aheadOfTimeCount := [], 0;
    }

    method GetNextConfig() returns (g: GenResult, ghost o: Oracle)
      requires ks.Valid()
      modifies this
      ensures Legal(ks, old(View()), o) && (g, View()) == NextConfig(ks, old(View()), o)
    {
      var kc: KnobConfig;
      ghost var draw := Defaults(ks);
      DefaultsFit(ks);
      if configs == [] {
        kc := GenDefaultConfig(ks);
      } else {
        kc := GenRandomConfig(ks);
        draw := kc;
      }
      g := GenResult(kc, |configs|);
      configs := configs + [g];
      o := Oracle(draw, draw, [], [draw, draw, draw, draw, draw], false, false, false);
    }

    method ShouldCompileNext() returns (ans: bool)
      modifies this
      ensures (ans, View()) == Tuners.ShouldCompileNext(old(View()))
    {
      ans := aheadOfTimeCount < DEFAULT_COMPILE_AHEAD;
      if !ans {
        aheadOfTimeCount := 0;
      } else {
        aheadOfTimeCount := aheadOfTimeCount + 1;
      }
    }
  }

  class BayesianTuner {
    const ks: KnobSet
    var configs: seq<GenResult>
    var aheadOfTimeCount: nat
    var predictions: seq<KnobConfig>
    var sinceLastTraining: nat

    const SURROGATE_TEST_SZ := 200
    const EXPLORE_SZ := 100

    ghost function View(): Tuner
      reads this
    {
      Bayes(configs, aheadOfTimeCount, predictions, sinceLastTraining)
    }

    constructor (ks: KnobSet)
      ensures this.ks == ks && View() == Bayes([], 0, [], 0)
    {
      this.ks := ks;
      configs, aheadOfTimeCount, predictions, sinceLastTraining := [], 0, [], 0;
    }

    method SaveConfig(kc: KnobConfig) returns (g: GenResult)
      modifies this
      ensures (g, View()) == Tuners.SaveConfig(old(View()), kc)
    {
      g := GenResult(kc, |configs|);
      configs := configs + [g];
      sinceLastTraining := sinceLastTraining + 1;
    }

    /** updateDataset's effect on the tuner itself: the observations are shuffled in place. */
    method ShuffleObservations()
      modifies this
      ensures multiset(configs) == multiset(old(configs))
      ensures sinceLastTraining == 0
      ensures aheadOfTimeCount == old(aheadOfTimeCount) && predictions == old(predictions)
    {
      if sinceLastTraining == 0 {
        return;
      }
      sinceLastTraining := 0;
      var shuffled: seq<GenResult> :| multiset(shuffled) == multiset(configs);
      configs := shuffled;
    }

    /** createPredictions: the candidates are built here; which of them the trained model likes best is
        taken from outside, as positions among the candidates. */
    method CreatePredictions(best: nat, chosen: seq<nat>) returns (ok: bool)
      requires ks.Valid() && TunerOk(ks, View()) && predictions == []
      requires best < |configs|
      requires |chosen| == BATCH_SZ && forall i :: 0 <= i < |chosen| ==> chosen[i] < SURROGATE_TEST_SZ
      modifies this
      ensures ok
      ensures multiset(configs) == multiset(old(configs)) && aheadOfTimeCount == old(aheadOfTimeCount)
      ensures sinceLastTraining == 0
      ensures |predictions| == BATCH_SZ && AllFit(ks, predictions)
    {
      var bestKC := configs[best].config;
      ShuffleObservations();
      var test: seq<KnobConfig> := [];
      for i := 0 to EXPLORE_SZ
        invariant |test| == i && AllFit(ks, test)
        modifies {}
      {
        var kc := GenRandomConfig(ks);
        test := test + [kc];
      }
      for i := EXPLORE_SZ to SURROGATE_TEST_SZ
        invariant |test| == i && AllFit(ks, test)
        modifies {}
      {
        var ids: set<KnobId> :| ids <= ks.ints.Keys + ks.loops;
        var kc := PerturbConfig(bestKC, ks, ids);
        test := test + [kc];
      }
      for i := 0 to |chosen|
        invariant |predictions| == i && AllFit(ks, predictions)
        invariant sinceLastTraining == 0 && aheadOfTimeCount == old(aheadOfTimeCount)
        invariant multiset(configs) == multiset(old(configs))
      {
        predictions := predictions + [test[chosen[i]]];
      }
      ok := |predictions| > 0;
    }

    method GetNextConfig(best: nat, chosen: seq<nat>) returns (g: GenResult, ghost o: Oracle)
      requires ks.Valid() && TunerOk(ks, View())
      requires configs != [] ==> best < |configs|
      requires |chosen| == BATCH_SZ && forall i :: 0 <= i < |chosen| ==> chosen[i] < SURROGATE_TEST_SZ
      modifies this
      ensures Legal(ks, old(View()), o) && (g, View()) == NextConfig(ks, old(View()), o)
    {
      DefaultsFit(ks);
      ghost var d := Defaults(ks);
      o := Oracle(d, d, configs, [d, d, d, d, d], false, false, false);
      if |configs| < BATCH_SZ {
        if |configs| == 0 {
          var kc := GenDefaultConfig(ks);
          g := SaveConfig(kc);
        } else {
          var kc := GenRandomConfig(ks);
          o := o.(draw := kc);
          g := SaveConfig(kc);
        }
        return;
      }
      if predictions == [] {
        var ok := CreatePredictions(best, chosen);
        o := o.(shuffled := configs, predicted := predictions);
      }
      var kc := predictions[0];
      predictions := predictions[1..];
      g := SaveConfig(kc);
    }

    method ShouldCompileNext() returns (ans: bool)
      modifies this
      ensures (ans, View()) == Tuners.ShouldCompileNext(old(View()))
    {
      var bound := if BATCH_SZ < DEFAULT_COMPILE_AHEAD then BATCH_SZ else DEFAULT_COMPILE_AHEAD;
      var aotLimiter := aheadOfTimeCount < bound;
      if !aotLimiter {
        aheadOfTimeCount := 0;
      } else {
        aheadOfTimeCount := aheadOfTimeCount + 1;
      }
      ans := aotLimiter && |predictions| > 0;
    }
  }

  class AnnealingTuner {
    const ks: KnobSet
    var configs: seq<GenResult>
    var currentState: GenResult
    var trialState: GenResult
    var initializedFirstState: bool

    ghost function View(): Tuner
      reads this
    {
      Anneal(configs, currentState, trialState, initializedFirstState)
    }

    constructor (ks: KnobSet)
      ensures this.ks == ks && configs == [] && !initializedFirstState
    {
      this.ks := ks;
      configs, initializedFirstState := [], false;
      currentState, trialState := GenResult(EMPTY_CONFIG, 0), GenResult(EMPTY_CONFIG, 0);
    }

    method SaveConfig(kc: KnobConfig) returns (g: GenResult)
      modifies this
      ensures (g, View()) == Tuners.SaveConfig(old(View()), kc)
    {
      g := GenResult(kc, |configs|);
      configs := configs + [g];
    }

    method Analyze() returns (ghost firstTrial: KnobConfig)
      requires ks.Valid()
      modifies this
      ensures Fits(ks, firstTrial)
      ensures forall o: Oracle :: o.firstTrial == firstTrial ==> View() == Tuners.Analyze(ks, old(View()), o)
    {
      DefaultsFit(ks);
      firstTrial := Defaults(ks);
      if !initializedFirstState {
        var d := GenDefaultConfig(ks);
        currentState := SaveConfig(d);
        var r := GenRandomConfig(ks);
        firstTrial := r;
        trialState := SaveConfig(r);
        initializedFirstState := true;
      }
    }

    /** `missingCurrent` and `missingTrial` are what the feedback says; `keepCurrent` is the outcome of
        chooseNextState's comparison or draw. */
    method GetNextConfig(missingCurrent: bool, missingTrial: bool, keepCurrent: bool, ids: set<KnobId>)
      returns (g: GenResult, ghost o: Oracle)
      requires ks.Valid() && TunerOk(ks, View()) && initializedFirstState
      requires ids <= ks.ints.Keys + ks.loops
      modifies this
      ensures Legal(ks, old(View()), o) && (g, View()) == NextConfig(ks, old(View()), o)
    {
      DefaultsFit(ks);
      ghost var d := Defaults(ks);
      o := Oracle(d, d, [], [d, d, d, d, d], missingCurrent, missingTrial, keepCurrent);
      if missingCurrent {
        return currentState, o;
      }
      if missingTrial {
        return trialState, o;
      }
      if !keepCurrent {
        currentState := trialState;
      }
      var kc := PerturbConfig(currentState.config, ks, ids);
      o := o.(draw := kc);
      trialState := SaveConfig(kc);
      g := trialState;
    }

    method ShouldCompileNext() returns (ans: bool)
      ensures (ans, View()) == Tuners.ShouldCompileNext(View())
    {
      ans := false;
    }
  }
}
