/** How many versions a chain compiles, in every run of the pipeline. */
module ChainLengths {
  import opened Knobs
  import opened Tuners
  import opened Pipeline
  import opened PipelineSafety

  /** The current job has asked for its configuration and not yet whether to go on. */
  predicate HasGenerated(s: State) {
    s.optimizing.Generated? || s.optimizing.Applied? || s.optimizing.Optimized?
  }

  /** The chain has another job: dispatched, running, or about to be dispatched. */
  predicate GoesOn(s: State) {
    s.optimizeQ > 0 || (OptCarries(s) && (s.optimizing.Decided? ==> s.optimizing.more))
  }

  /** The random tuner's counter says how far into a chain of three the history is. */
  ghost predicate CountsChain(s: State) {
    && s.tuner.Random? && s.tuner.ahead <= DEFAULT_COMPILE_AHEAD
    && |s.history| % 3 == (s.tuner.ahead + if HasGenerated(s) then 1 else 0) % 3
    && (s.tuner.ahead > 0 ==> GoesOn(s))
    && (s.optimizing.Decided? ==> (s.optimizing.more <==> s.tuner.ahead > 0))
  }

  lemma CountsChainStep(s: State, a: Action)
    requires Control(s) && CountsChain(s) && Enabled(s, a)
    ensures CountsChain(Next(s, a).value)
  {
    if OptimizerStep(a) {
      CountsOptStep(s, a);
    } else {
      hide Carriers, NextConfig, Analyze, ShouldCompileNext;
    }
  }

  lemma CountsOptStep(s: State, a: Action)
    requires Control(s) && CountsChain(s) && OptimizerStep(a) && OptNext(s, a).Some?
    ensures CountsChain(OptNext(s, a).value)
  {
    hide Legal, Overlay, FlagsOf, Defaults, CallerKnows;
    if a.OptGenerate? {
      assert !s.optimizing.Decided? && OptNext(s, a).value.tuner.ahead == s.tuner.ahead;
    }
  }

  /** With a tuner that always says no, every job ends its chain. */
  ghost predicate OneJobEach(s: State) {
    && (s.tuner.NoOp? || s.tuner.Anneal?)
    && (s.optimizing.Decided? ==> !s.optimizing.more) && !s.optimizing.Requeued?
    && (forall i :: 0 <= i < |s.codegenQ| ==> s.codegenQ[i].end)
  }

  lemma OneJobEachStep(s: State, a: Action)
    requires OneJobEach(s) && Enabled(s, a)
    ensures OneJobEach(Next(s, a).value)
  {
    hide Legal, Overlay, FlagsOf, Defaults;
  }

  lemma {:induction false} ChainRun(s: State, tr: seq<Action>)
    requires Control(s) && Exec(s, tr).Some?
    ensures CountsChain(s) ==> CountsChain(Exec(s, tr).value)
    ensures OneJobEach(s) ==> OneJobEach(Exec(s, tr).value)
    decreases |tr|
  {
    if tr != [] {
      var t := Next(s, tr[0]).value;
      ControlStep(s, tr[0]);
      hide CountsChain, OneJobEach, Control, Next;
      if CountsChain(s) { CountsChainStep(s, tr[0]); }
      if OneJobEach(s) { OneJobEachStep(s, tr[0]); }
      ChainRun(t, tr[1..]);
    }
  }

  /** A fresh random tuner compiles exactly three versions per chain: in every run, whenever the flag is
      clear, the number of versions so far is a multiple of three. */
  lemma RandomChainsHaveThree(ks: KnobSet, ipra: KnobId, tr: seq<Action>)
    requires Exec(Init(ks, ipra, Random([], 0)), tr).Some?
    requires !Exec(Init(ks, ipra, Random([], 0)), tr).value.recompileActive
    ensures |Exec(Init(ks, ipra, Random([], 0)), tr).value.history| % 3 == 0
  {
    var s := Init(ks, ipra, Random([], 0));
    assert CountsChain(s);
    ControlInit(ks, ipra, Random([], 0));
    ChainRun(s, tr);
    ControlRun(s, tr);
    InactiveIsQuiescent(Exec(s, tr).value);
    hide Exec, Next;
  }

  /** With the no-op or a fresh annealing tuner every version ends its chain, in every run. */
  lemma OtherChainsHaveOne(ks: KnobSet, ipra: KnobId, tuner: Tuner, tr: seq<Action>)
    requires tuner.NoOp? || tuner.Anneal?
    requires Exec(Init(ks, ipra, tuner), tr).Some?
    ensures OneJobEach(Exec(Init(ks, ipra, tuner), tr).value)
  {
    var s := Init(ks, ipra, tuner);
    assert OneJobEach(s);
    ControlInit(ks, ipra, tuner);
    ChainRun(s, tr);
  }

  lemma {:induction false} ControlRun(s: State, tr: seq<Action>)
    requires Control(s) && Exec(s, tr).Some?
    ensures Control(Exec(s, tr).value)
    decreases |tr|
  {
    if tr != [] {
      ControlStep(s, tr[0]);
      ControlRun(Next(s, tr[0]).value, tr[1..]);
    }
  }
}
