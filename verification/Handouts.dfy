/** Which configurations a tuner hands out, call by call and over whole runs of the pipeline. */
module Handouts {
  import opened Options
  import opened Knobs
  import opened Tuners
  import opened Pipeline

  /** The answers of successive `getNextConfig` calls, each preceded by its `analyze`, and the tuner after them. */
  ghost function Calls(ks: KnobSet, t: Tuner, os: seq<Oracle>): (seq<GenResult>, Tuner)
    decreases |os|
  {
    if os == [] then ([], t)
    else
      var o, (gs, t1) := os[|os| - 1], Calls(ks, t, os[..|os| - 1]);
      var (g, t2) := NextConfig(ks, Analyze(ks, t1, o), o);
      (gs + [g], t2)
  }

  ghost predicate AllLegal(ks: KnobSet, t: Tuner, os: seq<Oracle>)
    decreases |os|
  {
    os == [] || (AllLegal(ks, t, os[..|os| - 1]) && Legal(ks, Calls(ks, t, os[..|os| - 1]).1, os[|os| - 1]))
  }

  lemma CallsSnoc(ks: KnobSet, t: Tuner, os: seq<Oracle>, o: Oracle)
    requires AllLegal(ks, t, os) && Legal(ks, Calls(ks, t, os).1, o)
    ensures AllLegal(ks, t, os + [o])
    ensures var (gs, t1) := Calls(ks, t, os);
            var (g, t2) := NextConfig(ks, Analyze(ks, t1, o), o);
            Calls(ks, t, os + [o]) == (gs + [g], t2)
  {
    assert (os + [o])[..|os|] == os;
  }

  // ----- the random tuner

  const FRESH_RANDOM := Random([], 0)

  /** The first answer has every scalar knob at its default and every loop unset; each later one is that
      call's draw; and the answers are numbered, so each has a feedback object of its own. */
  ghost predicate RandomAnswers(ks: KnobSet, os: seq<Oracle>, gs: seq<GenResult>) {
    && |gs| == |os|
    && (gs != [] ==> IsDefault(ks, gs[0].config))
    && (forall i :: 1 <= i < |gs| ==> gs[i].config == os[i].draw)
    && (forall i :: 0 <= i < |gs| ==> gs[i].fb == i)
  }

  ghost predicate IsDefault(ks: KnobSet, c: KnobConfig) {
    && c.ints.Keys == ks.ints.Keys && c.loops.Keys == ks.loops
    && (forall id :: id in ks.ints ==> c.ints[id] == ks.ints[id].dflt)
    && (forall id :: id in ks.loops ==> c.loops[id] == LoopSetting(None, None, None, None, None, None, None, None))
  }

  lemma {:induction false} RandomHandsOut(ks: KnobSet, os: seq<Oracle>)
    ensures var (gs, t) := Calls(ks, FRESH_RANDOM, os);
            t == Random(gs, 0) && RandomAnswers(ks, os, gs)
    decreases |os|
  {
    if os != [] {
      RandomHandsOut(ks, os[..|os| - 1]);
    }
  }

  // ----- the Bayesian tuner

  const FRESH_BAYES := Bayes([], 0, [], 0)

  /** What call number `i` hands out: the defaults, four draws, and then batch after batch of five, each in
      the order in which it was chosen at the call that trained. */
  ghost predicate BayesAnswer(ks: KnobSet, os: seq<Oracle>, i: nat, g: GenResult)
    requires i < |os|
  {
    && g.fb == i
    && (i == 0 ==> IsDefault(ks, g.config))
    && (1 <= i < 5 ==> g.config == os[i].draw)
    && (i >= 5 ==> i % 5 < |os[i - i % 5].predicted| && g.config == os[i - i % 5].predicted[i % 5])
  }

  /** What is still waiting after these calls: the rest of the last batch. */
  ghost function Waiting(os: seq<Oracle>): seq<KnobConfig> {
    var n := |os|;
    if n < 5 || n % 5 == 0 || |os[n - n % 5].predicted| < 5 then []
    else os[n - n % 5].predicted[n % 5..]
  }

  ghost predicate BayesAnswers(ks: KnobSet, os: seq<Oracle>, gs: seq<GenResult>) {
    |gs| == |os| && forall i :: 0 <= i < |gs| ==> BayesAnswer(ks, os, i, gs[i])
  }

  /** Everything there is to say about a fresh Bayesian tuner after these calls. */
  ghost predicate BayesState(ks: KnobSet, os: seq<Oracle>, gs: seq<GenResult>, t: Tuner) {
    && t.Bayes? && t.ahead == 0 && t.predictions == Waiting(os)
    && multiset(t.configs) == multiset(gs) && |t.configs| == |os|
    && t.sinceTraining == SinceTraining(|os|)
    && BayesAnswers(ks, os, gs)
  }

  /** How many of `n` answers are newer than the last training; five whenever the next one is due, so that the
      training data is always rebuilt. */
  function SinceTraining(n: nat): nat {
    if n == 0 then 0 else (n - 1) % 5 + 1
  }

  lemma {:induction false} BatchesAreFull(ks: KnobSet, t: Tuner, os: seq<Oracle>)
    requires AllLegal(ks, t, os)
    ensures forall i :: 0 <= i < |os| ==> |os[i].predicted| == 5
    decreases |os|
  {
    if os != [] {
      BatchesAreFull(ks, t, os[..|os| - 1]);
    }
  }

  lemma {:induction false} BayesHandsOut(ks: KnobSet, os: seq<Oracle>)
    requires AllLegal(ks, FRESH_BAYES, os)
    ensures BayesState(ks, os, Calls(ks, FRESH_BAYES, os).0, Calls(ks, FRESH_BAYES, os).1)
    decreases |os|
  {
    if os != [] {
      var n := |os| - 1;
      BayesHandsOut(ks, os[..n]);
      BatchesAreFull(ks, FRESH_BAYES, os);
      var (gs, t) := Calls(ks, FRESH_BAYES, os[..n]);
      assert Analyze(ks, t, os[n]) == t;
      hide BayesState, Legal, NextConfig, Analyze;
      BayesCall(ks, os, gs, t);
    } else {
      assert multiset(FRESH_BAYES.configs) == multiset([]);
    }
  }

  /** One more call. */
  lemma BayesCall(ks: KnobSet, os: seq<Oracle>, gs: seq<GenResult>, t: Tuner)
    requires os != [] && Legal(ks, t, os[|os| - 1]) && BayesState(ks, os[..|os| - 1], gs, t)
    requires forall i :: 0 <= i < |os| ==> |os[i].predicted| == 5
    ensures BayesState(ks, os, gs + [NextConfig(ks, t, os[|os| - 1]).0], NextConfig(ks, t, os[|os| - 1]).1)
  {
    var n, o := |os| - 1, os[|os| - 1];
    var (g, t') := NextConfig(ks, t, o);
    NumberOf(ks, t, o);
    assert multiset(t'.configs) == multiset(gs + [g]) && |t'.configs| == |os|;
    assert t'.sinceTraining == SinceTraining(n + 1) by {
      CountsSinceTraining(ks, os, t);
    }
    assert BayesAnswer(ks, os, n, g) && t'.predictions == Waiting(os) by {
      hide BayesAnswers, Legal, IsDefault;
      if n < 5 {
        PriorCall(ks, os, t);
      } else {
        BatchCall(ks, os, t);
      }
    }
    assert BayesAnswers(ks, os, gs + [g]) by {
      hide NextConfig, Legal, IsDefault, Waiting;
      EarlierStand(ks, os, gs, g);
    }
    hide NextConfig, Legal, BayesAnswers, Waiting, SinceTraining;
  }

  lemma CountsSinceTraining(ks: KnobSet, os: seq<Oracle>, t: Tuner)
    requires os != [] && t.Bayes? && |t.configs| == |os| - 1 && Legal(ks, t, os[|os| - 1])
    requires t.predictions == Waiting(os[..|os| - 1]) && t.sinceTraining == SinceTraining(|os| - 1)
    requires forall i :: 0 <= i < |os| ==> |os[i].predicted| == 5
    ensures NextConfig(ks, t, os[|os| - 1]).1.sinceTraining == SinceTraining(|os|)
  {
    var n := |os| - 1;
    if n >= 5 {
      assert t.predictions == [] <==> n % 5 == 0;
      assert n % 5 != 0 ==> (n - 1) % 5 == n % 5 - 1;
    }
    hide Waiting, IsDefault;
  }

  lemma NumberOf(ks: KnobSet, t: Tuner, o: Oracle)
    requires t.Bayes? && Legal(ks, t, o)
    ensures var (g, t') := NextConfig(ks, t, o);
            t'.Bayes? && t'.ahead == t.ahead && |t'.configs| == |t.configs| + 1
            && multiset(t'.configs) == multiset(t.configs) + multiset{g} && g.fb == |t.configs|
  {
    assert |multiset(o.shuffled)| == |multiset(t.configs)|;
  }

  lemma PriorCall(ks: KnobSet, os: seq<Oracle>, t: Tuner)
    requires 0 < |os| <= 5 && t.Bayes? && |t.configs| == |os| - 1 && t.predictions == []
    ensures BayesAnswer(ks, os, |os| - 1, NextConfig(ks, t, os[|os| - 1]).0)
    ensures NextConfig(ks, t, os[|os| - 1]).1.predictions == Waiting(os)
  {
  }

  lemma BatchCall(ks: KnobSet, os: seq<Oracle>, t: Tuner)
    requires |os| > 5 && t.Bayes? && |t.configs| == |os| - 1 && Legal(ks, t, os[|os| - 1])
    requires t.predictions == Waiting(os[..|os| - 1])
    requires forall i :: 0 <= i < |os| ==> |os[i].predicted| == 5
    ensures BayesAnswer(ks, os, |os| - 1, NextConfig(ks, t, os[|os| - 1]).0)
    ensures NextConfig(ks, t, os[|os| - 1]).1.predictions == Waiting(os)
  {
    var n, o := |os| - 1, os[|os| - 1];
    var r, batch := n % 5, os[n - n % 5].predicted;
    var ps := if t.predictions == [] then o.predicted else t.predictions;
    WaitingBefore(os);
    WaitingAfter(os);
    hide Waiting;
    assert ps == batch[r..];
    assert ps[0] == batch[r] && ps[1..] == batch[r + 1..];
    BatchTaken(ks, t, o, ps);
    hide NextConfig, Legal, IsDefault;
  }

  lemma BatchTaken(ks: KnobSet, t: Tuner, o: Oracle, ps: seq<KnobConfig>)
    requires t.Bayes? && |t.configs| >= 5 && Legal(ks, t, o)
    requires ps == if t.predictions == [] then o.predicted else t.predictions
    ensures var (g, t') := NextConfig(ks, t, o);
            g == GenResult(ps[0], |t.configs|) && t'.Bayes? && t'.predictions == ps[1..]
  {
    NumberOf(ks, t, o);
  }

  /** What waits before call `n`, from the batch that call belongs to; nothing if it has to train. */
  lemma WaitingBefore(os: seq<Oracle>)
    requires |os| > 5 && forall i :: 0 <= i < |os| ==> |os[i].predicted| == 5
    ensures var n := |os| - 1;
      if n % 5 == 0 then Waiting(os[..n]) == [] && os[n].predicted == os[n - n % 5].predicted[n % 5..]
      else Waiting(os[..n]) == os[n - n % 5].predicted[n % 5..] != []
  {
  }

  lemma WaitingAfter(os: seq<Oracle>)
    requires |os| > 5 && forall i :: 0 <= i < |os| ==> |os[i].predicted| == 5
    ensures var n := |os| - 1;
      Waiting(os) == os[n - n % 5].predicted[n % 5 + 1..]
  {
    var n := |os| - 1;
    assert |os| % 5 == if n % 5 == 4 then 0 else n % 5 + 1;
  }

  lemma EarlierStand(ks: KnobSet, os: seq<Oracle>, gs: seq<GenResult>, g: GenResult)
    requires os != [] && BayesAnswers(ks, os[..|os| - 1], gs) && BayesAnswer(ks, os, |os| - 1, g)
    ensures BayesAnswers(ks, os, gs + [g])
  {
    forall i | 0 <= i < |gs| ensures BayesAnswer(ks, os, i, gs[i]) {
      assert BayesAnswer(ks, os[..|os| - 1], i, gs[i]);
    }
  }

  /** The model is trained at calls 5, 10, 15 and so on; each time the next five calls hand out exactly the
      batch, in order, and use it up. */
  lemma BatchIsHandedOut(ks: KnobSet, os: seq<Oracle>, at: nat)
    requires AllLegal(ks, FRESH_BAYES, os) && at >= 5 && at % 5 == 0 && |os| == at + 5
    ensures var (gs, t) := Calls(ks, FRESH_BAYES, os);
            && |gs| == |os| && |os[at].predicted| == 5
            && (forall i :: at <= i < at + 5 ==> gs[i].config == os[at].predicted[i - at])
            && Trains(t) && t.sinceTraining == 5
  {
    var (gs, t) := Calls(ks, FRESH_BAYES, os);
    BayesHandsOut(ks, os);
    BatchesAreFull(ks, FRESH_BAYES, os);
    hide Calls, AllLegal;
    BatchIn(ks, os, gs, t, at);
  }

  lemma BatchIn(ks: KnobSet, os: seq<Oracle>, gs: seq<GenResult>, t: Tuner, at: nat)
    requires BayesState(ks, os, gs, t) && at >= 5 && at % 5 == 0 && |os| == at + 5 && |os[at].predicted| == 5
    ensures |gs| == |os| && Trains(t) && t.sinceTraining == 5
    ensures forall i :: at <= i < at + 5 ==> gs[i].config == os[at].predicted[i - at]
  {
    assert |os| % 5 == 0 && (|os| - 1) % 5 == 4;
    assert t.predictions == [];
    hide Waiting, IsDefault;
    forall i | at <= i < at + 5 ensures gs[i].config == os[at].predicted[i - at] {
      assert BayesAnswer(ks, os, i, gs[i]);
      assert i % 5 == i - at;
    }
  }

  // ----- the annealing tuner

  /** One answer of a started annealing tuner: the current state, then the trial state while either lacks
      measurements; then the state kept becomes current and a new trial is made from the draw. */
  lemma AnnealAnswer(ks: KnobSet, t: Tuner, o: Oracle)
    requires t.Anneal? && t.started
    ensures var (g, t') := NextConfig(ks, Analyze(ks, t, o), o);
      && t'.Anneal? && t'.started
      && (o.missingCurrent ==> g == t.current && t' == t)
      && (!o.missingCurrent && o.missingTrial ==> g == t.trial && t' == t)
      && (!o.missingCurrent && !o.missingTrial ==>
            && g == GenResult(o.draw, |t.configs|) && t'.trial == g && t'.configs == t.configs + [g]
            && (o.keepCurrent ==> t'.current == t.current)
            && (!o.keepCurrent ==> t'.current == t.trial))
  {
  }

  /** A fresh annealing tuner begins with the defaults as its current state and a draw as its trial state. */
  lemma AnnealBegins(ks: KnobSet, o: Oracle)
    ensures var t := Analyze(ks, FRESH_ANNEAL, o);
      && t.Anneal? && t.started && t.configs == [t.current, t.trial]
      && IsDefault(ks, t.current.config) && t.current.fb == 0
      && t.trial == GenResult(o.firstTrial, 1)
      && Analyze(ks, t, o) == t
  {
  }

  /** The records of an annealing tuner are numbered, begin with the defaults, and hold its two states. */
  ghost predicate AnnealState(ks: KnobSet, t: Tuner) {
    && t.Anneal?
    && (forall k :: 0 <= k < |t.configs| ==> t.configs[k].fb == k)
    && (!t.started ==> t.configs == [])
    && (t.started ==> |t.configs| >= 2 && IsDefault(ks, t.configs[0].config) && t.current in t.configs && t.trial in t.configs)
  }

  const FRESH_ANNEAL := Anneal([], GenResult(EMPTY_CONFIG, 0), GenResult(EMPTY_CONFIG, 0), false)

  lemma {:induction false} AnnealHandsOut(ks: KnobSet, os: seq<Oracle>)
    ensures var (gs, t) := Calls(ks, FRESH_ANNEAL, os);
      && AnnealState(ks, t) && (os != [] ==> t.started)
      && forall i :: 0 <= i < |gs| ==> gs[i] in t.configs
    decreases |os|
  {
    if os != [] {
      var n := |os| - 1;
      AnnealHandsOut(ks, os[..n]);
      AnnealCall(ks, Calls(ks, FRESH_ANNEAL, os[..n]).1, os[n]);
    }
  }

  lemma AnnealCall(ks: KnobSet, t: Tuner, o: Oracle)
    requires AnnealState(ks, t)
    ensures var (g, t') := NextConfig(ks, Analyze(ks, t, o), o);
      AnnealState(ks, t') && t'.started && g in t'.configs && t.configs <= t'.configs
  {
    var a := Analyze(ks, t, o);
    assert AnnealState(ks, a) && a.started && t.configs <= a.configs by {
      if !t.started {
        assert a.configs == [GenResult(Defaults(ks), 0), GenResult(o.firstTrial, 1)];
        assert a.current == a.configs[0] && a.trial == a.configs[1];
      }
    }
    var (g, t') := NextConfig(ks, a, o);
    if !o.missingCurrent && !o.missingTrial {
      assert t'.configs == a.configs + [g] && t'.configs[|a.configs|] == g;
    }
    hide Analyze, NextConfig, IsDefault;
  }

  // ----- over runs of the pipeline

  /** The draws of the generating steps of a schedule, in order. */
  function Draws(tr: seq<Action>): seq<Oracle> {
    if tr == [] then [] else (if tr[0].OptGenerate? then [tr[0].oracle] else []) + Draws(tr[1..])
  }

  /** The same tuner but for the ahead-of-time counter. */
  predicate SameSearch(a: Tuner, b: Tuner) {
    match (a, b)
    case (NoOp, NoOp) => true
    case (Random(c, _), Random(d, _)) => c == d
    case (Bayes(c, _, p, n), Bayes(d, _, q, m)) => c == d && p == q && n == m
    case (Anneal(_, _, _, _), Anneal(_, _, _, _)) => a == b
    case _ => false
  }

  /** Asking whether to compile ahead changes nothing about what is handed out. */
  lemma SearchIgnoresCounter(ks: KnobSet, a: Tuner, b: Tuner, o: Oracle)
    requires SameSearch(a, b)
    ensures var (g, a') := NextConfig(ks, Analyze(ks, a, o), o);
            var (h, b') := NextConfig(ks, Analyze(ks, b, o), o);
            g == h && SameSearch(a', b')
    ensures SameSearch(ShouldCompileNext(a).1, b)
    ensures Legal(ks, a, o) == Legal(ks, b, o)
  {
  }

  ghost predicate HistoryOf(s: State, t0: Tuner, os: seq<Oracle>) {
    AllLegal(s.ks, t0, os) && s.history == Calls(s.ks, t0, os).0 && SameSearch(s.tuner, Calls(s.ks, t0, os).1)
  }

  lemma HistoryStep(s: State, t0: Tuner, os: seq<Oracle>, a: Action)
    requires HistoryOf(s, t0, os) && Enabled(s, a)
    ensures Next(s, a).value.ks == s.ks
    ensures HistoryOf(Next(s, a).value, t0, if a.OptGenerate? then os + [a.oracle] else os)
  {
    var t := Calls(s.ks, t0, os).1;
    SearchStep(s, a);
    hide Next, NextConfig, Analyze, Legal, AllLegal, Calls, SameSearch, ShouldCompileNext;
    if a.OptGenerate? {
      SearchIgnoresCounter(s.ks, s.tuner, t, a.oracle);
      CallsSnoc(s.ks, t0, os, a.oracle);
    } else {
      SearchIgnoresCounter(s.ks, s.tuner, t, Oracle(EMPTY_CONFIG, EMPTY_CONFIG, [], [], false, false, false));
    }
  }

  /** What one step does to the tuner and to the history. */
  lemma SearchStep(s: State, a: Action)
    requires Enabled(s, a)
    ensures var t := Next(s, a).value;
      && t.ks == s.ks
      && (if a.OptGenerate? then
            var (g, tuner) := NextConfig(s.ks, Analyze(s.ks, s.tuner, a.oracle), a.oracle);
            Legal(s.ks, s.tuner, a.oracle) && t.history == s.history + [g] && t.tuner == tuner
          else t.history == s.history && (t.tuner == s.tuner || t.tuner == ShouldCompileNext(s.tuner).1))
  {
    hide NextConfig, Analyze, ShouldCompileNext, Legal, Overlay, FlagsOf;
  }

  lemma {:induction false} HistoryRun(s: State, t0: Tuner, os: seq<Oracle>, tr: seq<Action>)
    requires HistoryOf(s, t0, os) && Exec(s, tr).Some?
    ensures Exec(s, tr).value.ks == s.ks && HistoryOf(Exec(s, tr).value, t0, os + Draws(tr))
    decreases |tr|
  {
    if tr == [] {
      assert os + [] == os;
    } else {
      var os' := if tr[0].OptGenerate? then os + [tr[0].oracle] else os;
      var s' := Next(s, tr[0]).value;
      assert Exec(s, tr) == Exec(s', tr[1..]);
      assert os + Draws(tr) == os' + Draws(tr[1..]);
      hide *;
      HistoryStep(s, t0, os, tr[0]);
      HistoryRun(s', t0, os', tr[1..]);
    }
  }

  lemma HistoryFromInit(ks: KnobSet, ipra: KnobId, t0: Tuner, tr: seq<Action>)
    requires Exec(Init(ks, ipra, t0), tr).Some?
    ensures AllLegal(ks, t0, Draws(tr))
    ensures Exec(Init(ks, ipra, t0), tr).value.history == Calls(ks, t0, Draws(tr)).0
    ensures SameSearch(Exec(Init(ks, ipra, t0), tr).value.tuner, Calls(ks, t0, Draws(tr)).1)
  {
    var s := Init(ks, ipra, t0);
    assert HistoryOf(s, t0, []);
    HistoryRun(s, t0, [], tr);
    assert [] + Draws(tr) == Draws(tr);
    hide Exec, AllLegal, Calls, SameSearch;
  }

  /** In every run of the pipeline with a fresh Bayesian tuner: the defaults, four draws, then the batches in
      the order they were chosen, each configuration once, each answer with its own feedback; and the
      predictions waiting are the rest of the last batch. */
  lemma BayesHistory(ks: KnobSet, ipra: KnobId, tr: seq<Action>)
    requires Exec(Init(ks, ipra, FRESH_BAYES), tr).Some?
    ensures var s, os := Exec(Init(ks, ipra, FRESH_BAYES), tr).value, Draws(tr);
      && |s.history| == |os|
      && (forall i :: 0 <= i < |os| ==> BayesAnswer(ks, os, i, s.history[i]))
      && s.tuner.Bayes? && s.tuner.predictions == Waiting(os)
      && multiset(s.tuner.configs) == multiset(s.history)
  {
    HistoryFromInit(ks, ipra, FRESH_BAYES, tr);
    BayesHandsOut(ks, Draws(tr));
    hide Exec, AllLegal, Calls, BayesAnswer, Waiting;
  }

  /** The same with a fresh random tuner: the defaults, then the draws, each with its own feedback. */
  lemma RandomHistory(ks: KnobSet, ipra: KnobId, tr: seq<Action>)
    requires Exec(Init(ks, ipra, FRESH_RANDOM), tr).Some?
    ensures var s := Exec(Init(ks, ipra, FRESH_RANDOM), tr).value;
      RandomAnswers(ks, Draws(tr), s.history) && s.tuner.Random? && s.tuner.configs == s.history
  {
    HistoryFromInit(ks, ipra, FRESH_RANDOM, tr);
    RandomHandsOut(ks, Draws(tr));
    hide Exec, AllLegal, Calls, RandomAnswers;
  }

  /** With a fresh annealing tuner every answer is one of its numbered records, so two answers share a
      feedback object only if they are the same record. */
  lemma AnnealHistory(ks: KnobSet, ipra: KnobId, tr: seq<Action>)
    requires Exec(Init(ks, ipra, FRESH_ANNEAL), tr).Some?
    ensures var s := Exec(Init(ks, ipra, FRESH_ANNEAL), tr).value;
      && AnnealState(ks, s.tuner)
      && (forall i :: 0 <= i < |s.history| ==> s.history[i].fb < |s.tuner.configs| && s.tuner.configs[s.history[i].fb] == s.history[i])
  {
    HistoryFromInit(ks, ipra, FRESH_ANNEAL, tr);
    AnnealHandsOut(ks, Draws(tr));
    var s := Exec(Init(ks, ipra, FRESH_ANNEAL), tr).value;
    hide Exec, AllLegal, Calls;
    forall i | 0 <= i < |s.history| ensures s.history[i].fb < |s.tuner.configs| && s.tuner.configs[s.history[i].fb] == s.history[i] {
      assert s.history[i] in s.tuner.configs;
    }
  }
}
