/** The search algorithms, as the two questions the compile pipeline asks them:
    what is the next configuration, and should one more be compiled ahead of time? */
module Tuners {
  import opened Knobs

  const BATCH_SZ: nat := 5
  const DEFAULT_COMPILE_AHEAD: nat := 2

  /** A configuration and the feedback object that will measure the version compiled from it.
      Feedback objects are named by the order in which the tuner created them. */
  datatype GenResult = GenResult(config: KnobConfig, fb: nat)

  datatype Tuner =
    | NoOp
    | Random(configs: seq<GenResult>, ahead: nat)
    | Bayes(configs: seq<GenResult>, ahead: nat, predictions: seq<KnobConfig>, sinceTraining: nat)
    | Anneal(configs: seq<GenResult>, current: GenResult, trial: GenResult, started: bool)

  /** Everything one `getNextConfig` call takes from outside: random draws, the shuffle of the
      observations, the trained model's choices, and what the measurements say. */
  datatype Oracle = Oracle(
    draw: KnobConfig,
    firstTrial: KnobConfig,
    shuffled: seq<GenResult>,
    predicted: seq<KnobConfig>,
    missingCurrent: bool,
    missingTrial: bool,
    keepCurrent: bool)

  ghost predicate AllFit(ks: KnobSet, cs: seq<KnobConfig>) {
    forall i :: 0 <= i < |cs| ==> Fits(ks, cs[i])
  }

  ghost predicate Legal(ks: KnobSet, t: Tuner, o: Oracle) {
    && Fits(ks, o.draw)
    && Fits(ks, o.firstTrial)
    && AllFit(ks, o.predicted)
    && |o.predicted| == BATCH_SZ
    && (t.Bayes? ==> multiset(o.shuffled) == multiset(t.configs))
  }

  /** The next call to `getNextConfig` will run `createPredictions`. */
  predicate Trains(t: Tuner) {
    t.Bayes? && |t.configs| >= BATCH_SZ && t.predictions == []
  }

  function SaveConfig(t: Tuner, kc: KnobConfig): (GenResult, Tuner)
    requires !t.NoOp?
  {
    var g := GenResult(kc, |t.configs|);
    match t
    case Random(cs, ahead) => (g, Random(cs + [g], ahead))
    case Bayes(cs, ahead, ps, since) => (g, Bayes(cs + [g], ahead, ps, since + 1))
    case Anneal(cs, cur, trial, started) => (g, Anneal(cs + [g], cur, trial, started))
  }

  /** AnnealingTuner::analyze, which runs at the head of every optimize job. */
  function Analyze(ks: KnobSet, t: Tuner, o: Oracle): Tuner {
    if t.Anneal? && !t.started then
      var (cur, t1) := SaveConfig(t, Defaults(ks));
      var (trial, t2) := SaveConfig(t1, o.firstTrial);
      t2.(current := cur, trial := trial, started := true)
    else t
  }

  function NextConfig(ks: KnobSet, t: Tuner, o: Oracle): (GenResult, Tuner) {
    match t
    case NoOp => (GenResult(EMPTY_CONFIG, 0), t)
    case Random(cs, _) => SaveConfig(t, if cs == [] then Defaults(ks) else o.draw)
    case Bayes(cs, _, ps, _) =>
      if |cs| < BATCH_SZ then
        SaveConfig(t, if cs == [] then Defaults(ks) else o.draw)
      else
        var t' := if ps == [] then t.(configs := o.shuffled, predictions := o.predicted, sinceTraining := 0) else t;
        if t'.predictions == [] then (GenResult(EMPTY_CONFIG, 0), t')
        else SaveConfig(t'.(predictions := t'.predictions[1..]), t'.predictions[0])
    case Anneal(_, cur, trial, _) =>
      if o.missingCurrent then (cur, t)
      else if o.missingTrial then (trial, t)
      else
        var cur' := if o.keepCurrent then cur else trial;
        var (g, t') := SaveConfig(t.(current := cur'), o.draw);
        (g, t'.(trial := g))
  }

  function ShouldCompileNext(t: Tuner): (bool, Tuner) {
    match t
    case Random(cs, ahead) =>
      if ahead < DEFAULT_COMPILE_AHEAD then (true, Random(cs, ahead + 1)) else (false, Random(cs, 0))
    case Bayes(cs, ahead, ps, since) =>
      if ahead < DEFAULT_COMPILE_AHEAD then (ps != [], Bayes(cs, ahead + 1, ps, since))
      else (false, Bayes(cs, 0, ps, since))
    case _ => (false, t)
  }

  /** What every tuner state keeps. */
  ghost predicate TunerOk(ks: KnobSet, t: Tuner) {
    && (!t.NoOp? ==> forall i :: 0 <= i < |t.configs| ==> Fits(ks, t.configs[i].config))
    && (t.Bayes? ==> AllFit(ks, t.predictions))
    && (t.Bayes? && |t.configs| < BATCH_SZ ==> t.predictions == [])
    && (t.Anneal? && t.started ==> Fits(ks, t.current.config) && Fits(ks, t.trial.config))
  }

  lemma ShuffledFit(ks: KnobSet, t: Tuner, o: Oracle)
    requires t.Bayes? && TunerOk(ks, t) && Legal(ks, t, o)
    ensures forall i :: 0 <= i < |o.shuffled| ==> Fits(ks, o.shuffled[i].config)
    ensures |o.shuffled| == |t.configs|
  {
    assert |multiset(o.shuffled)| == |multiset(t.configs)|;
    forall i | 0 <= i < |o.shuffled| ensures Fits(ks, o.shuffled[i].config) {
      assert o.shuffled[i] in multiset(o.shuffled);
      assert o.shuffled[i] in multiset(t.configs);
    }
  }

  lemma BayesConfigOk(ks: KnobSet, t: Tuner, o: Oracle)
    requires t.Bayes? && ks.Valid() && TunerOk(ks, t) && Legal(ks, t, o)
    ensures Fits(ks, NextConfig(ks, t, o).0.config)
    ensures TunerOk(ks, NextConfig(ks, t, o).1)
  {
    hide Fits, Defaults;
    DefaultsFit(ks);
    ShuffledFit(ks, t, o);
    var ps := if t.predictions == [] then o.predicted else t.predictions;
    assert forall i :: 0 <= i < |ps[1..]| ==> ps[1..][i] == ps[i + 1];
  }

  lemma AnnealConfigOk(ks: KnobSet, t: Tuner, o: Oracle)
    requires t.Anneal? && ks.Valid() && TunerOk(ks, t) && Legal(ks, t, o)
    ensures var (g, t') := NextConfig(ks, Analyze(ks, t, o), o);
            TunerOk(ks, t') && Fits(ks, g.config)
  {
    hide Fits, Defaults;
    DefaultsFit(ks);
    assert TunerOk(ks, Analyze(ks, t, o));
  }

  /** Every generated configuration covers every knob, except the no-op tuner's empty one. */
  lemma NextConfigOk(ks: KnobSet, t: Tuner, o: Oracle)
    requires ks.Valid() && TunerOk(ks, t) && Legal(ks, t, o)
    ensures var (g, t') := NextConfig(ks, Analyze(ks, t, o), o);
            && TunerOk(ks, t')
            && (if t.NoOp? then g.config == EMPTY_CONFIG && t' == t else Fits(ks, g.config))
  {
    match t
    case NoOp =>
    case Random(_, _) => DefaultsFit(ks);
    case Bayes(_, _, _, _) => BayesConfigOk(ks, t, o);
    case Anneal(_, _, _, _) => AnnealConfigOk(ks, t, o);
  }

  /** An upper bound on the optimize jobs of a chain whose first job is still to ask
      `shouldCompileNext`, whatever the value of the ahead-of-time counter. */
  function JobsLeft(t: Tuner): (n: nat)
    ensures 1 <= n <= 3
  {
    match t
    case Random(_, ahead) => if ahead < DEFAULT_COMPILE_AHEAD then 3 - ahead else 1
    case Bayes(_, ahead, _, _) => if ahead < DEFAULT_COMPILE_AHEAD then 3 - ahead else 1
    case _ => 1
  }

  lemma AnswerUsesUpJobs(t: Tuner)
    ensures var (more, t') := ShouldCompileNext(t);
            more ==> JobsLeft(t') < JobsLeft(t)
  {
  }

  lemma NextConfigKeepsJobs(ks: KnobSet, t: Tuner, o: Oracle)
    ensures JobsLeft(NextConfig(ks, Analyze(ks, t, o), o).1) == JobsLeft(t)
  {
  }

  /** Running `n` jobs of a chain: the answers `shouldCompileNext` gives after each of them. */
  ghost function Answers(ks: KnobSet, t: Tuner, os: seq<Oracle>): seq<bool>
    decreases |os|
  {
    if os == [] then [] else
      var t1 := NextConfig(ks, Analyze(ks, t, os[0]), os[0]).1;
      var (more, t2) := ShouldCompileNext(t1);
      [more] + Answers(ks, t2, os[1..])
  }

  /** No tuner says yes three times in a row, whatever its counter and whatever it is fed. */
  lemma NoThreeYesses(ks: KnobSet, t: Tuner, os: seq<Oracle>)
    requires |os| == 3
    ensures var a := Answers(ks, t, os);
            |a| == 3 && !(a[0] && a[1] && a[2])
  {
    var t1 := NextConfig(ks, Analyze(ks, t, os[0]), os[0]).1;
    NextConfigKeepsJobs(ks, t, os[0]);
    AnswerUsesUpJobs(t1);
    var s1 := ShouldCompileNext(t1).1;
    var t2 := NextConfig(ks, Analyze(ks, s1, os[1]), os[1]).1;
    NextConfigKeepsJobs(ks, s1, os[1]);
    AnswerUsesUpJobs(t2);
    var s2 := ShouldCompileNext(t2).1;
    var t3 := NextConfig(ks, Analyze(ks, s2, os[2]), os[2]).1;
    NextConfigKeepsJobs(ks, s2, os[2]);
    AnswerUsesUpJobs(t3);
    assert os[1..][0] == os[1] && os[1..][1..][0] == os[2];
    assert Answers(ks, s1, os[1..]) == [ShouldCompileNext(t2).0] + Answers(ks, s2, os[1..][1..]);
    assert Answers(ks, s2, os[1..][1..]) == [ShouldCompileNext(t3).0] + Answers(ks, ShouldCompileNext(t3).1, os[1..][1..][1..]);
  }

  /** A random chain that starts with the counter at zero has exactly three jobs and leaves the counter at
      zero.  ChainLengths carries this over to runs of the pipeline. */
  lemma RandomChainIsThree(ks: KnobSet, t: Tuner, os: seq<Oracle>)
    requires t.Random? && t.ahead == 0 && |os| == 3
    ensures Answers(ks, t, os) == [true, true, false]
    ensures ChainEnd(ks, t, os).Random? && ChainEnd(ks, t, os).ahead == 0
  {
    var t1 := NextConfig(ks, Analyze(ks, t, os[0]), os[0]).1;
    var s1 := ShouldCompileNext(t1).1;
    var t2 := NextConfig(ks, Analyze(ks, s1, os[1]), os[1]).1;
    var s2 := ShouldCompileNext(t2).1;
    var t3 := NextConfig(ks, Analyze(ks, s2, os[2]), os[2]).1;
    var s3 := ShouldCompileNext(t3).1;
    assert os[1..][0] == os[1] && os[1..][1..][0] == os[2];
    assert Answers(ks, s1, os[1..]) == [true] + Answers(ks, s2, os[1..][1..]);
    assert Answers(ks, s2, os[1..][1..]) == [false] + Answers(ks, s3, os[1..][1..][1..]);
    assert ChainEnd(ks, s1, os[1..]) == ChainEnd(ks, s2, os[1..][1..]);
    assert ChainEnd(ks, s2, os[1..][1..]) == ChainEnd(ks, s3, os[1..][1..][1..]);
  }

  ghost function ChainEnd(ks: KnobSet, t: Tuner, os: seq<Oracle>): Tuner
    decreases |os|
  {
    if os == [] then t else
      ChainEnd(ks, ShouldCompileNext(NextConfig(ks, Analyze(ks, t, os[0]), os[0]).1).1, os[1..])
  }
}
