/** updateDataset: splitting the observations into a held-out and a training matrix. */
module Dataset {
  import opened Options
  import opened Knobs
  import opened Tuners
  import opened TrainingMatrix

  /** A configuration and its measured time.  No time means that the feedback still reports the largest
      double, its mark for having no sample. */
  datatype Observation = Observation(config: KnobConfig, time: Option<real>)

  /** std::max(1, round(0.1 * n)), rounding halves away from zero. */
  function HeldOut(n: nat): nat {
    var rounded := (0.1 * n as real + 0.5).Floor;
    if rounded < 1 then 1 else rounded
  }

  /** The held-out part is never empty, is the nearest whole number to a tenth, and leaves training rows. */
  lemma HeldOutIsATenth(n: nat)
    requires n >= BATCH_SZ
    ensures 1 <= HeldOut(n) < n
    ensures -5 <= 10 * HeldOut(n) - n <= 5
  {
  }

  /** Below five observations one is held out; from five on, a tenth rounded to the nearest, halves up. */
  lemma HeldOutRounds(n: nat)
    ensures n < 5 ==> HeldOut(n) == 1
    ensures n >= 5 ==> 10 * HeldOut(n) - 5 <= n < 10 * HeldOut(n) + 5
  {
  }

  /** The row index that the filling loop of updateDataset leaves after `n` observations: it counts the rows
      of one matrix, and starts afresh at the first row of the training matrix. */
  function RowIndex(n: nat, held: nat): nat {
    if n == 0 then 0
    else (if n - 1 == held then 0 else RowIndex(n - 1, held)) + 1
  }

  lemma {:induction false} RowIndexIs(n: nat, held: nat)
    ensures RowIndex(n, held) == if n <= held then n else n - held
    decreases n
  {
    if n > 0 { RowIndexIs(n - 1, held); }
  }

  /** The check after the loop, that the index equals the number of training rows, holds exactly with more
      than one observation: a single one is held out and leaves no training row. */
  lemma FinalCheckHoldsIff(n: nat)
    requires n > 0
    ensures RowIndex(n, HeldOut(n)) == n - HeldOut(n) <==> n > 1
    ensures HeldOut(n) < n <==> n > 1
  {
    RowIndexIs(n, HeldOut(n));
  }

  /** The rows of all observations, one after the other. */
  function Rows(obs: seq<Observation>, bs: seq<Block>, polly: bool): seq<Cell> {
    if obs == [] then [] else Rows(obs[..|obs| - 1], bs, polly) + Row(obs[|obs| - 1].config, bs, polly)
  }

  function Times(obs: seq<Observation>): seq<Option<real>> {
    seq(|obs|, i requires 0 <= i < |obs| => obs[i].time)
  }

  predicate Usable(o: Observation, bs: seq<Block>, polly: bool) {
    Covers(o.config, bs, polly) && o.time.Some?
  }

  lemma {:induction false} RowsWidth(obs: seq<Observation>, bs: seq<Block>, polly: bool)
    requires forall o :: o in obs ==> Covers(o.config, bs, polly)
    ensures |Rows(obs, bs, polly)| == |obs| * Width(bs)
    decreases |obs|
  {
    if obs != [] {
      var n := |obs| - 1;
      assert |Rows(obs, bs, polly)| == |Rows(obs[..n], bs, polly)| + |Row(obs[n].config, bs, polly)|;
      assert obs[n] in obs;
      hide Rows, Row, Width, Covers;
      RowsWidth(obs[..n], bs, polly);
      RowWidth(obs[n].config, bs, polly);
      OneMoreRow(n, Width(bs));
    }
  }

  lemma OneMoreRow(n: nat, w: nat)
    ensures (n + 1) * w == n * w + w
  {
  }

  lemma RowsSnoc(obs: seq<Observation>, o: Observation, bs: seq<Block>, polly: bool)
    ensures Rows(obs + [o], bs, polly) == Rows(obs, bs, polly) + Row(o.config, bs, polly)
    ensures Times(obs + [o]) == Times(obs) + [o.time]
  {
    assert (obs + [o])[..|obs|] == obs;
  }

  /** Cell `c` of observation `r`'s row in a matrix of rows. */
  lemma {:induction false} RowsCell(obs: seq<Observation>, bs: seq<Block>, polly: bool, r: nat, c: nat)
    requires forall o :: o in obs ==> Covers(o.config, bs, polly)
    requires r < |obs| && c < Width(bs)
    ensures |Row(obs[r].config, bs, polly)| == Width(bs)
    ensures r * Width(bs) + c < |Rows(obs, bs, polly)|
    ensures Rows(obs, bs, polly)[r * Width(bs) + c] == Row(obs[r].config, bs, polly)[c]
    ensures Times(obs)[r] == obs[r].time
    decreases |obs|
  {
    var n := |obs| - 1;
    RowsOfOneMore(obs, bs, polly);
    hide Rows, Row, Width, Covers;
    RowFits(r, |obs|, Width(bs));
    if r < n {
      RowsCell(obs[..n], bs, polly, r, c);
    }
  }

  lemma RowsOfOneMore(obs: seq<Observation>, bs: seq<Block>, polly: bool)
    requires obs != [] && forall o :: o in obs ==> Covers(o.config, bs, polly)
    ensures var n := |obs| - 1;
            && Rows(obs, bs, polly) == Rows(obs[..n], bs, polly) + Row(obs[n].config, bs, polly)
            && |Rows(obs[..n], bs, polly)| == n * Width(bs) && |Row(obs[n].config, bs, polly)| == Width(bs)
            && |Rows(obs, bs, polly)| == |obs| * Width(bs)
  {
    var n := |obs| - 1;
    assert obs[n] in obs;
    hide Row, Width, Covers;
    RowsWidth(obs[..n], bs, polly);
    RowsWidth(obs, bs, polly);
    RowWidth(obs[n].config, bs, polly);
  }

  /** The first rows of a matrix and of its label array hold these observations. */
  ghost predicate Filled(mat: seq<Cell>, labels: seq<Option<real>>, obs: seq<Observation>, bs: seq<Block>, polly: bool) {
    && Rows(obs, bs, polly) <= mat
    && |Rows(obs, bs, polly)| == |obs| * Width(bs)
    && Times(obs) <= labels
  }

  lemma FilledNext(mat: seq<Cell>, labels: seq<Option<real>>, obs: seq<Observation>, o: Observation, bs: seq<Block>, polly: bool)
    requires Filled(mat, labels, obs, bs, polly) && Usable(o, bs, polly)
    requires |obs| < |labels| && |mat| == |labels| * Width(bs)
    ensures |obs| * Width(bs) + Width(bs) <= |mat| && |Row(o.config, bs, polly)| == Width(bs)
    ensures Filled(Splice(mat, |obs| * Width(bs), Row(o.config, bs, polly)), labels[|obs| := o.time], obs + [o], bs, polly)
  {
    RowWidth(o.config, bs, polly);
    RowsSnoc(obs, o, bs, polly);
    RowFits(|obs|, |labels|, Width(bs));
    hide Width, Row, Rows, Covers;
    assert (|obs| + 1) * Width(bs) == |obs| * Width(bs) + Width(bs);
    SplicePrefix(mat, Rows(obs, bs, polly), Row(o.config, bs, polly));
    hide Splice;
  }

  lemma SplicePrefix(s: seq<Cell>, done: seq<Cell>, row: seq<Cell>)
    requires done <= s && |done| + |row| <= |s|
    ensures done + row <= Splice(s, |done|, row)
  {
  }

  /** A full matrix is its rows and nothing else. */
  lemma FilledUp(mat: seq<Cell>, labels: seq<Option<real>>, obs: seq<Observation>, bs: seq<Block>, polly: bool)
    requires Filled(mat, labels, obs, bs, polly) && |labels| == |obs| && |mat| == |labels| * Width(bs)
    ensures mat == Rows(obs, bs, polly) && labels == Times(obs)
  {
    hide Width, Rows;
  }

  lemma ShuffledAlike(a: seq<Observation>, b: seq<Observation>)
    requires multiset(a) == multiset(b)
    ensures |a| == |b| && forall o :: o in b <==> o in a
  {
    assert |multiset(a)| == |a| && |multiset(b)| == |b|;
    assert forall o :: o in a <==> o in multiset(a);
    assert forall o :: o in b <==> o in multiset(b);
  }

  class BayesianDataset {
    const bs: seq<Block>
    const polly: bool
    const colToKnob: seq<KnobId>
    var configs: seq<Observation>
    var sinceLastTraining: nat

    var cfg: array<Cell>
    var result: array<Option<real>>
    var test: array<Cell>
    var testResult: array<Option<real>>
    var trainingRows: nat
    var validateRows: nat

    ghost predicate Valid()
      reads this
    {
      && WellLaidOut(bs) && colToKnob == Columns(bs)
      && forall o :: o in configs ==> KindsAgree(o.config, bs, polly)
    }

    constructor (bs: seq<Block>, polly: bool, configs: seq<Observation>)
      requires WellLaidOut(bs) && forall o :: o in configs ==> KindsAgree(o.config, bs, polly)
      ensures Valid() && this.configs == configs && this.bs == bs && this.polly == polly && sinceLastTraining == |configs|
    {
      this.bs, this.polly, this.colToKnob, this.configs := bs, polly, Columns(bs), configs;
      sinceLastTraining, trainingRows, validateRows := |configs|, 0, 0;
      cfg, result, test, testResult := new Cell[0], new Option<real>[0], new Cell[0], new Option<real>[0];
    }

    /** std::random_shuffle of the observations. */
    method Shuffle()
      modifies this`configs
      ensures multiset(configs) == multiset(old(configs))
    {
      var shuffled: seq<Observation> :| multiset(shuffled) == multiset(configs);
      configs := shuffled;
    }

    /** Export one observation into row `i` of a matrix and its label array. */
    method FillRow(mat: array<Cell>, labels: array<Option<real>>, i: nat, o: Observation, ghost obs: seq<Observation>)
      returns (ok: bool)
      requires WellLaidOut(bs) && colToKnob == Columns(bs) && KindsAgree(o.config, bs, polly)
      requires i == |obs| < labels.Length && mat.Length == labels.Length * Width(bs)
      requires Filled(mat[..], labels[..], obs, bs, polly)
      modifies mat, labels
      ensures ok <==> Usable(o, bs, polly)
      ensures ok ==> Filled(mat[..], labels[..], obs + [o], bs, polly)
    {
      RowFits(i, labels.Length, Width(bs));
      ghost var beforeMat, beforeLabels := mat[..], labels[..];
      if Usable(o, bs, polly) {
        FilledNext(beforeMat, beforeLabels, obs, o, bs, polly);
      }
      hide Filled, Row, Covers, Splice, Columns, WellLaidOut, KindsAgree;
      ghost var writes;
      ok, writes := ExportConfig(o.config, mat, i, bs, colToKnob, polly);
      if !ok || o.time.None? {
        return false;
      }
      labels[i] := o.time;
      assert labels[..] == beforeLabels[i := o.time];
    }

    /** updateDataset.  Unless nothing is new, the shuffled observations fill the held-out matrix and then
        the training matrix, each observation in exactly one row; it fails on an observation without every
        knob or without a measured time. */
    method UpdateDataset() returns (ok: bool)
      requires Valid() && |configs| >= BATCH_SZ
      modifies this
      ensures Valid() && multiset(configs) == multiset(old(configs)) && sinceLastTraining == 0
      ensures old(sinceLastTraining) == 0 ==> ok && configs == old(configs) && test == old(test) && cfg == old(cfg)
      ensures old(sinceLastTraining) > 0 ==>
        && (ok <==> forall o :: o in configs ==> Usable(o, bs, polly))
        && validateRows == HeldOut(|configs|) <= |configs| && trainingRows == |configs| - validateRows
        && (ok ==> test[..] == Rows(configs[..validateRows], bs, polly) && testResult[..] == Times(configs[..validateRows]))
        && (ok ==> cfg[..] == Rows(configs[validateRows..], bs, polly) && result[..] == Times(configs[validateRows..]))
    {
      if sinceLastTraining == 0 {
        return true;
      }
      ok := Rebuild();
    }

    method Rebuild() returns (ok: bool)
      requires Valid() && |configs| >= BATCH_SZ
      modifies this
      ensures Valid() && multiset(configs) == multiset(old(configs)) && sinceLastTraining == 0
      ensures ok <==> forall o :: o in configs ==> Usable(o, bs, polly)
      ensures validateRows == HeldOut(|configs|) <= |configs| && trainingRows == |configs| - validateRows
      ensures ok ==> test[..] == Rows(configs[..validateRows], bs, polly) && testResult[..] == Times(configs[..validateRows])
      ensures ok ==> cfg[..] == Rows(configs[validateRows..], bs, polly) && result[..] == Times(configs[validateRows..])
    {
      hide Rows, Row, Times, Covers, Width, Columns, KindsAgree, WellLaidOut, HeldOut;
      sinceLastTraining := 0;
      HeldOutIsATenth(|configs|);
      validateRows := HeldOut(|configs|);
      trainingRows := |configs| - validateRows;
      var ncol := |colToKnob|;
      cfg, result := new Cell[ncol * trainingRows], new Option<real>[trainingRows];
      test, testResult := new Cell[ncol * validateRows], new Option<real>[validateRows];
      ghost var before := configs;
      Shuffle();
      ShuffledAlike(before, configs);
      var held, rest := configs[..validateRows], configs[validateRows..];
      assert configs == held + rest;
      ok := FillBoth(held, rest);
    }

    method FillBoth(held: seq<Observation>, rest: seq<Observation>) returns (ok: bool)
      requires WellLaidOut(bs) && colToKnob == Columns(bs)
      requires forall o :: o in held || o in rest ==> KindsAgree(o.config, bs, polly)
      requires testResult.Length == |held| && test.Length == testResult.Length * Width(bs)
      requires result.Length == |rest| && cfg.Length == result.Length * Width(bs)
      requires test != cfg && testResult != result
      modifies test, testResult, cfg, result
      ensures ok <==> forall o :: o in held || o in rest ==> Usable(o, bs, polly)
      ensures ok ==> test[..] == Rows(held, bs, polly) && testResult[..] == Times(held)
      ensures ok ==> cfg[..] == Rows(rest, bs, polly) && result[..] == Times(rest)
    {
      hide Rows, Times, Usable, Width, Columns, KindsAgree, WellLaidOut;
      ok := FillMatrix(test, testResult, held);
      if ok {
        ok := FillMatrix(cfg, result, rest);
      }
    }

    /** One stretch of the filling loop: all rows of one matrix. */
    method FillMatrix(mat: array<Cell>, labels: array<Option<real>>, obs: seq<Observation>) returns (ok: bool)
      requires WellLaidOut(bs) && colToKnob == Columns(bs) && forall o :: o in obs ==> KindsAgree(o.config, bs, polly)
      requires labels.Length == |obs| && mat.Length == labels.Length * Width(bs)
      modifies mat, labels
      ensures ok <==> forall o :: o in obs ==> Usable(o, bs, polly)
      ensures ok ==> mat[..] == Rows(obs, bs, polly) && labels[..] == Times(obs)
    {
      assert obs[..0] == [] && obs[..|obs|] == obs;
      for i := 0 to |obs|
        invariant Filled(mat[..], labels[..], obs[..i], bs, polly)
        invariant forall o :: o in obs[..i] ==> Usable(o, bs, polly)
      {
        assert obs[..i + 1] == obs[..i] + [obs[i]];
        ok := FillRow(mat, labels, i, obs[i], obs[..i]);
        if !ok {
          return;
        }
      }
      FilledUp(mat[..], labels[..], obs, bs, polly);
      ok := true;
    }
  }

  lemma RowFits(i: nat, rows: nat, w: nat)
    requires i < rows
    ensures i * w + w <= rows * w
  {
    assert rows * w == i * w + w + (rows - i - 1) * w;
    assert (rows - i - 1) * w >= 0;
  }
}
