/** Flattening configurations into the dense matrices that the surrogate model is trained on. */
module TrainingMatrix {
  import opened Options
  import opened Knobs

  /** One float of a matrix; `Missing` is the quiet NaN. */
  datatype Cell = Missing | Num(value: real)

  function OfInt(v: Option<nat>): Cell {
    if v.Some? then Num(v.value as real) else Missing
  }

  function OfBool(v: Option<bool>): Cell {
    if v.Some? then Num(if v.value then 1.0 else 0.0) else Missing
  }

  /** The components of a loop setting in their column order; the last one exists only with Polly knobs. */
  function Flatten(ls: LoopSetting, polly: bool): seq<Cell> {
    [OfInt(ls.vectorizeWidth), OfInt(ls.interleaveCount), OfBool(ls.unrollDisable), OfBool(ls.unrollFull),
     OfInt(ls.unrollCount), OfBool(ls.licmVerDisable), OfBool(ls.distribute)]
    + (if polly then [OfInt(ls.section)] else [])
  }

  function LoopSize(polly: bool): (n: nat)
    ensures n > 0 && forall ls: LoopSetting :: |Flatten(ls, polly)| == n
  {
    if polly then 8 else 7
  }

  // ----- columns

  /** A knob and the number of columns it takes. */
  datatype Block = Block(id: KnobId, size: nat)

  function Width(bs: seq<Block>): nat {
    if bs == [] then 0 else Width(bs[..|bs| - 1]) + bs[|bs| - 1].size
  }

  function Repeat(id: KnobId, n: nat): seq<KnobId> {
    seq(n, _ => id)
  }

  /** The map from columns to knob IDs. */
  function Columns(bs: seq<Block>): (cs: seq<KnobId>)
    ensures |cs| == Width(bs)
  {
    if bs == [] then [] else Columns(bs[..|bs| - 1]) + Repeat(bs[|bs| - 1].id, bs[|bs| - 1].size)
  }

  /** The knobs in the order the hash maps yield them: scalar knobs first, then loop knobs. */
  function Blocks(ints: seq<KnobId>, loops: seq<KnobId>, polly: bool): seq<Block> {
    seq(|ints| + |loops|, i requires 0 <= i < |ints| + |loops| =>
      if i < |ints| then Block(ints[i], 1) else Block(loops[i - |ints|], LoopSize(polly)))
  }

  /** What unique non-zero knob IDs give: no two blocks share an ID and none has ID zero. */
  predicate WellLaidOut(bs: seq<Block>) {
    && (forall i :: 0 <= i < |bs| ==> bs[i].id != 0 && bs[i].size > 0)
    && (forall i, j :: 0 <= i < j < |bs| ==> bs[i].id != bs[j].id)
  }

  /** A number in a cell stands for itself, true for one and false for zero; what is not set is missing. */
  lemma CellsStandFor(n: Option<nat>, b: Option<bool>)
    ensures OfInt(n) == if n.Some? then Num(n.value as real) else Missing
    ensures b == Some(true) ==> OfBool(b) == Num(1.0)
    ensures b == Some(false) ==> OfBool(b) == Num(0.0)
    ensures b == None ==> OfBool(b) == Missing
  {
  }

  /** A setting with every component set goes to its columns in this order. */
  lemma ColumnsOfSetting(v: nat, i: nat, u: nat, d: bool, f: bool, l: bool, x: bool, s: nat)
    ensures var row := Flatten(LoopSetting(Some(v), Some(i), Some(d), Some(f), Some(u), Some(l), Some(x), Some(s)), true);
      var one := (b: bool) => Num(if b then 1.0 else 0.0);
      row == [Num(v as real), Num(i as real), one(d), one(f), Num(u as real), one(l), one(x), Num(s as real)]
  {
  }

  /** KnobSet::size. */
  method KnobSetSize(ints: seq<KnobId>, loops: seq<KnobId>, polly: bool) returns (numVals: nat)
    ensures numVals == Width(Blocks(ints, loops, polly))
    ensures numVals == |ints| + |loops| * (if polly then 8 else 7)
  {
    var bs := Blocks(ints, loops, polly);
    numVals := 0;
    for i := 0 to |ints|
      invariant numVals == Width(bs[..i])
    {
      WidthSnoc(bs, i);
      numVals := numVals + 1;
    }
    for i := 0 to |loops|
      invariant numVals == Width(bs[..|ints| + i])
    {
      WidthSnoc(bs, |ints| + i);
      numVals := numVals + LoopSize(polly);
    }
    assert bs[..|bs|] == bs;
    BlocksWidth(ints, loops, polly, |bs|);
    hide Width, Blocks;
  }

  lemma BlockSize(ints: seq<KnobId>, loops: seq<KnobId>, polly: bool, i: nat)
    requires i < |ints| + |loops|
    ensures Blocks(ints, loops, polly)[i].size == if i < |ints| then 1 else if polly then 8 else 7
  {
    assert LoopSize(polly) == if polly then 8 else 7;
  }

  /** A column for every scalar knob, and eight for every loop knob with Polly or seven without. */
  lemma {:induction false} BlocksWidth(ints: seq<KnobId>, loops: seq<KnobId>, polly: bool, n: nat)
    requires n <= |ints| + |loops|
    ensures |Blocks(ints, loops, polly)| == |ints| + |loops|
    ensures Width(Blocks(ints, loops, polly)[..n]) ==
      if n <= |ints| then n else if polly then |ints| + 8 * (n - |ints|) else |ints| + 7 * (n - |ints|)
    decreases n
  {
    var bs := Blocks(ints, loops, polly);
    if n == 0 {
      assert bs[..0] == [];
    } else {
      BlocksWidth(ints, loops, polly, n - 1);
      WidthSnoc(bs, n - 1);
      BlockSize(ints, loops, polly, n - 1);
      assert bs[..n - 1 + 1] == bs[..n];
      hide Width, Columns, Blocks, LoopSize;
    }
  }

  lemma WidthSnoc(bs: seq<Block>, i: nat)
    requires i < |bs|
    ensures Width(bs[..i + 1]) == Width(bs[..i]) + bs[i].size
    ensures Columns(bs[..i + 1]) == Columns(bs[..i]) + Repeat(bs[i].id, bs[i].size)
  {
    assert bs[..i + 1][..i] == bs[..i];
  }

  lemma {:induction false} WidthMonotone(bs: seq<Block>, i: nat, j: nat)
    requires i <= j <= |bs|
    ensures Width(bs[..i]) <= Width(bs[..j])
    ensures Columns(bs[..i]) <= Columns(bs[..j])
    decreases j - i
  {
    if i < j {
      WidthMonotone(bs, i, j - 1);
      WidthSnoc(bs, j - 1);
    }
  }

  /** AssignToCols: fill the column map by visiting every knob. */
  method AssignToCols(bs: seq<Block>, colToKnob: array<KnobId>)
    requires colToKnob.Length == Width(bs)
    modifies colToKnob
    ensures colToKnob[..] == Columns(bs)
  {
    var i := 0;
    for b := 0 to |bs|
      invariant i == Width(bs[..b]) <= colToKnob.Length
      invariant colToKnob[..i] == Columns(bs[..b])
    {
      WidthSnoc(bs, b);
      WidthMonotone(bs, b + 1, |bs|);
      assert bs[..|bs|] == bs;
      for k := 0 to bs[b].size
        invariant i == Width(bs[..b]) + k <= colToKnob.Length
        invariant colToKnob[..i] == Columns(bs[..b]) + Repeat(bs[b].id, k)
      {
        colToKnob[i] := bs[b].id;
        i := i + 1;
      }
    }
    assert bs[..|bs|] == bs;
  }

  /** Where the columns of block `k` are. */
  lemma ColumnOf(bs: seq<Block>, k: nat, i: nat)
    requires k < |bs| && Width(bs[..k]) <= i < Width(bs[..k + 1])
    ensures i < |Columns(bs)| && Columns(bs)[i] == bs[k].id
  {
    WidthSnoc(bs, k);
    WidthMonotone(bs, k + 1, |bs|);
    assert bs[..|bs|] == bs;
    assert Columns(bs)[i] == Columns(bs[..k + 1])[i];
  }

  /** The IDs handed out by the knob ticker are distinct and never zero, so the layout is sound. */
  lemma TickerLaysOut(ints: seq<KnobId>, loops: seq<KnobId>, polly: bool)
    requires forall i :: 0 <= i < |ints + loops| ==> (ints + loops)[i] != 0
    requires forall i, j :: 0 <= i < j < |ints + loops| ==> (ints + loops)[i] != (ints + loops)[j]
    ensures WellLaidOut(Blocks(ints, loops, polly))
  {
    var bs, ids := Blocks(ints, loops, polly), ints + loops;
    assert LoopSize(polly) > 0;
    assert forall i :: 0 <= i < |bs| ==> bs[i].id == ids[i] && bs[i].size > 0;
  }

  // ----- one row

  /** The cells of one knob in a configuration that has it. */
  function Cells(kc: KnobConfig, id: KnobId, polly: bool): seq<Cell> {
    if id in kc.ints then [Num(kc.ints[id] as real)]
    else if id in kc.loops then Flatten(kc.loops[id], polly)
    else []
  }

  function Row(kc: KnobConfig, bs: seq<Block>, polly: bool): seq<Cell> {
    if bs == [] then [] else Row(kc, bs[..|bs| - 1], polly) + Cells(kc, bs[|bs| - 1].id, polly)
  }

  /** The configuration has every knob of the layout, with as many components as the layout reserves. */
  predicate Covers(kc: KnobConfig, bs: seq<Block>, polly: bool) {
    forall i :: 0 <= i < |bs| ==> |Cells(kc, bs[i].id, polly)| == bs[i].size
  }

  /** The configuration may lack knobs, but gives no knob a value of the wrong kind. */
  predicate KindsAgree(kc: KnobConfig, bs: seq<Block>, polly: bool) {
    forall i :: 0 <= i < |bs| ==>
      |Cells(kc, bs[i].id, polly)| == if bs[i].id in kc.ints || bs[i].id in kc.loops then bs[i].size else 0
  }

  /** A configuration generated for a knob set covers that knob set's layout. */
  lemma GeneratedCovers(ks: KnobSet, kc: KnobConfig, ints: seq<KnobId>, loops: seq<KnobId>, polly: bool)
    requires Fits(ks, kc) && ks.ints.Keys !! ks.loops
    requires forall i :: 0 <= i < |ints| ==> ints[i] in ks.ints
    requires forall i :: 0 <= i < |loops| ==> loops[i] in ks.loops
    ensures Covers(kc, Blocks(ints, loops, polly), polly) && KindsAgree(kc, Blocks(ints, loops, polly), polly)
  {
    var bs := Blocks(ints, loops, polly);
    forall i | 0 <= i < |bs| ensures |Cells(kc, bs[i].id, polly)| == bs[i].size && (bs[i].id in kc.ints || bs[i].id in kc.loops) {
      if i < |ints| {
        assert ints[i] in kc.ints;
      } else {
        assert loops[i - |ints|] in kc.loops.Keys;
        assert |Flatten(kc.loops[loops[i - |ints|]], polly)| == LoopSize(polly);
      }
    }
  }

  lemma RowSnoc(kc: KnobConfig, bs: seq<Block>, polly: bool, i: nat)
    requires i < |bs|
    ensures Row(kc, bs[..i + 1], polly) == Row(kc, bs[..i], polly) + Cells(kc, bs[i].id, polly)
  {
    assert bs[..i + 1][..i] == bs[..i];
  }

  lemma {:induction false} RowWidth(kc: KnobConfig, bs: seq<Block>, polly: bool)
    requires Covers(kc, bs, polly)
    ensures |Row(kc, bs, polly)| == Width(bs)
    decreases |bs|
  {
    if bs != [] {
      var n := |bs| - 1;
      assert forall j :: 0 <= j < n ==> bs[..n][j] == bs[j];
      RowWidth(kc, bs[..n], polly);
      assert |Cells(kc, bs[n].id, polly)| == bs[n].size;
    }
  }

  /** Each cell of a row is the right component of the right knob. */
  lemma RowCell(kc: KnobConfig, bs: seq<Block>, polly: bool, k: nat, c: nat)
    requires Covers(kc, bs, polly) && k < |bs| && c < bs[k].size
    ensures Width(bs[..k]) + c < |Row(kc, bs, polly)|
    ensures Row(kc, bs, polly)[Width(bs[..k]) + c] == Cells(kc, bs[k].id, polly)[c]
    ensures bs[k].id in kc.ints ==> Row(kc, bs, polly)[Width(bs[..k]) + c] == Num(kc.ints[bs[k].id] as real)
    ensures bs[k].id !in kc.ints ==>
      bs[k].id in kc.loops && c < LoopSize(polly) && Row(kc, bs, polly)[Width(bs[..k]) + c] == Flatten(kc.loops[bs[k].id], polly)[c]
  {
    CellOfBlock(kc, bs, polly, k, c);
    CellOfKnob(kc, bs[k].id, polly, c);
    hide *;
  }

  lemma CellOfBlock(kc: KnobConfig, bs: seq<Block>, polly: bool, k: nat, c: nat)
    requires Covers(kc, bs, polly) && k < |bs| && c < bs[k].size
    ensures c < |Cells(kc, bs[k].id, polly)| && Width(bs[..k]) + c < |Row(kc, bs, polly)|
    ensures Row(kc, bs, polly)[Width(bs[..k]) + c] == Cells(kc, bs[k].id, polly)[c]
  {
    assert bs[..|bs|] == bs;
    CoversParts(kc, bs, polly, k);
    hide *;
    RowWidth(kc, bs[..k], polly);
    RowSnoc(kc, bs, polly, k);
    RowPrefix(kc, bs, polly, k + 1, |bs|);
    var before, cells, row := Row(kc, bs[..k], polly), Cells(kc, bs[k].id, polly), Row(kc, bs, polly);
    CellBehind(before, cells, row, c);
  }

  lemma CoversParts(kc: KnobConfig, bs: seq<Block>, polly: bool, k: nat)
    requires Covers(kc, bs, polly) && k < |bs|
    ensures Covers(kc, bs[..k], polly) && |Cells(kc, bs[k].id, polly)| == bs[k].size
  {
    hide Cells;
  }

  lemma CellBehind(before: seq<Cell>, cells: seq<Cell>, row: seq<Cell>, c: nat)
    requires before + cells <= row && c < |cells|
    ensures |before| + c < |row| && row[|before| + c] == cells[c]
  {
    assert row[|before| + c] == (before + cells)[|before| + c];
  }

  lemma CellOfKnob(kc: KnobConfig, id: KnobId, polly: bool, c: nat)
    requires c < |Cells(kc, id, polly)|
    ensures id in kc.ints ==> Cells(kc, id, polly)[c] == Num(kc.ints[id] as real)
    ensures id !in kc.ints ==> id in kc.loops && c < LoopSize(polly) && Cells(kc, id, polly)[c] == Flatten(kc.loops[id], polly)[c]
  {
    hide Flatten;
  }

  lemma {:induction false} RowPrefix(kc: KnobConfig, bs: seq<Block>, polly: bool, i: nat, j: nat)
    requires i <= j <= |bs|
    ensures Row(kc, bs[..i], polly) <= Row(kc, bs[..j], polly)
    decreases j - i
  {
    if i < j {
      RowPrefix(kc, bs, polly, i, j - 1);
      RowSnoc(kc, bs, polly, j - 1);
    }
  }

  /** `s` with the cells `row` written at position `at`. */
  function Splice(s: seq<Cell>, at: nat, row: seq<Cell>): seq<Cell>
    requires at + |row| <= |s|
  {
    s[..at] + row + s[at + |row|..]
  }

  /** The positions at..at + n, in order. */
  function Positions(at: nat, n: nat): seq<nat> {
    seq(n, j => at + j)
  }

  /** From `before`, the first `n` cells of `row` have been stored at `at` one by one, as the log says. */
  ghost predicate Stored(before: seq<Cell>, now: seq<Cell>, at: nat, row: seq<Cell>, n: nat, log: seq<nat>) {
    n <= |row| && at + |row| <= |before| && now == Splice(before, at, row[..n]) && log == Positions(at, n)
  }

  /** One store into the matrix, logged. */
  method Store(mat: array<Cell>, i: nat, c: Cell, ghost log: seq<nat>) returns (ghost log': seq<nat>)
    requires i < mat.Length
    modifies mat
    ensures mat[..] == old(mat[..])[i := c] && log' == log + [i]
  {
    mat[i] := c;
    log' := log + [i];
  }

  lemma StoredNext(before: seq<Cell>, now: seq<Cell>, at: nat, row: seq<Cell>, n: nat, log: seq<nat>)
    requires Stored(before, now, at, row, n, log) && n < |row|
    ensures |now| == |before| > at + n
    ensures Stored(before, now[at + n := row[n]], at, row, n + 1, log + [at + n])
  {
    assert row[..n + 1] == row[..n] + [row[n]];
  }

  /** Store the next component. */
  method StoreNext(mat: array<Cell>, i: nat, c: Cell, ghost before: seq<Cell>, ghost at: nat, ghost row: seq<Cell>, ghost log: seq<nat>)
    returns (i': nat, ghost log': seq<nat>)
    requires i >= at && Stored(before, mat[..], at, row, i - at, log) && i - at < |row| && c == row[i - at]
    modifies mat
    ensures i' == i + 1 && Stored(before, mat[..], at, row, i' - at, log')
  {
    StoredNext(before, mat[..], at, row, i - at, log);
    hide Stored;
    log' := Store(mat, i, c, log);
    i' := i + 1;
  }

  lemma StoredStart(before: seq<Cell>, at: nat, row: seq<Cell>)
    requires at + |row| <= |before|
    ensures Stored(before, before, at, row, 0, [])
  {
  }

  lemma StoredAll(before: seq<Cell>, now: seq<Cell>, at: nat, row: seq<Cell>, log: seq<nat>)
    requires Stored(before, now, at, row, |row|, log)
    ensures at + |row| <= |before| && now == Splice(before, at, row) && log == Positions(at, |row|)
  {
    assert row[..|row|] == row;
  }

  lemma FlattenAt(ls: LoopSetting, polly: bool)
    ensures var r := Flatten(ls, polly);
            && |r| == LoopSize(polly) == (if polly then 8 else 7)
            && r[0] == OfInt(ls.vectorizeWidth) && r[1] == OfInt(ls.interleaveCount)
            && r[2] == OfBool(ls.unrollDisable) && r[3] == OfBool(ls.unrollFull) && r[4] == OfInt(ls.unrollCount)
            && r[5] == OfBool(ls.licmVerDisable) && r[6] == OfBool(ls.distribute)
            && (polly ==> r[7] == OfInt(ls.section))
  {
  }

  /** LoopSetting::flatten: store the components to successive slots, each once. */
  method FlattenInto(mat: array<Cell>, at: nat, ls: LoopSetting, polly: bool) returns (ghost log: seq<nat>)
    requires at + LoopSize(polly) <= mat.Length
    modifies mat
    ensures mat[..] == Splice(old(mat[..]), at, Flatten(ls, polly))
    ensures log == Positions(at, LoopSize(polly))
  {
    FlattenAt(ls, polly);
    hide *;
    ghost var before, row := mat[..], Flatten(ls, polly);
    log := [];
    StoredStart(before, at, row);
    var i := at;
    i, log := StoreNext(mat, i, OfInt(ls.vectorizeWidth), before, at, row, log);
    i, log := StoreNext(mat, i, OfInt(ls.interleaveCount), before, at, row, log);
    i, log := StoreNext(mat, i, OfBool(ls.unrollDisable), before, at, row, log);
    i, log := StoreNext(mat, i, OfBool(ls.unrollFull), before, at, row, log);
    i, log := StoreNext(mat, i, OfInt(ls.unrollCount), before, at, row, log);
    i, log := StoreNext(mat, i, OfBool(ls.licmVerDisable), before, at, row, log);
    i, log := StoreNext(mat, i, OfBool(ls.distribute), before, at, row, log);
    if polly {
      i, log := StoreNext(mat, i, OfInt(ls.section), before, at, row, log);
    }
    StoredAll(before, mat[..], at, row, log);
  }

  /** KnobConfigExporter applied to one ID: look among the scalar knobs, then among the loop knobs; finding
      neither is an error. */
  method ExportKnob(kc: KnobConfig, id: KnobId, mat: array<Cell>, at: nat, polly: bool) returns (found: bool, ghost log: seq<nat>)
    requires at + |Cells(kc, id, polly)| <= mat.Length
    modifies mat
    ensures found <==> id in kc.ints || id in kc.loops
    ensures mat[..] == Splice(old(mat[..]), at, Cells(kc, id, polly))
    ensures log == Positions(at, |Cells(kc, id, polly)|)
  {
    if id in kc.ints {
      log := Store(mat, at, Num(kc.ints[id] as real), []);
      return true, log;
    }
    if id in kc.loops {
      log := FlattenInto(mat, at, kc.loops[id], polly);
      return true, log;
    }
    return false, [];
  }

  lemma SpliceTwice(s: seq<Cell>, at: nat, a: seq<Cell>, b: seq<Cell>)
    requires at + |a| + |b| <= |s|
    ensures Splice(Splice(s, at, a), at + |a|, b) == Splice(s, at, a + b)
  {
  }

  /** Before looking at column `i`: the first `k` blocks have been exported, and `i` is in the last of them
      or just behind it. */
  predicate Between(bs: seq<Block>, k: nat, i: nat, prev: KnobId) {
    && k <= |bs|
    && i <= Width(bs[..k])
    && (if i == 0 then k == 0 && prev == 0 else k > 0 && Width(bs[..k - 1]) < i && prev == bs[k - 1].id)
  }

  /** A column starts a knob exactly when its ID differs from the previous column's. */
  lemma ColumnStartsKnob(bs: seq<Block>, k: nat, i: nat, prev: KnobId)
    requires WellLaidOut(bs) && Between(bs, k, i, prev) && i < Width(bs)
    ensures i < |Columns(bs)|
    ensures prev != Columns(bs)[i] <==> i == Width(bs[..k])
    ensures i == Width(bs[..k]) ==> k < |bs| && Columns(bs)[i] == bs[k].id
    ensures Between(bs, if i == Width(bs[..k]) then k + 1 else k, i + 1, Columns(bs)[i])
  {
    if i < Width(bs[..k]) {
      InsideKnob(bs, k, i, prev);
    } else {
      BehindKnob(bs, k, i, prev);
    }
    hide WellLaidOut, Width, Columns;
  }

  lemma InsideKnob(bs: seq<Block>, k: nat, i: nat, prev: KnobId)
    requires Between(bs, k, i, prev) && i < Width(bs[..k])
    ensures i < |Columns(bs)| && Columns(bs)[i] == prev && Between(bs, k, i + 1, prev)
  {
    hide Width, Columns;
    if i == 0 {
      EmptyIsNarrow(bs);
    } else {
      ColumnOf(bs, k - 1, i);
    }
  }

  lemma EmptyIsNarrow(bs: seq<Block>)
    ensures Width(bs[..0]) == 0
  {
  }

  lemma BehindKnob(bs: seq<Block>, k: nat, i: nat, prev: KnobId)
    requires WellLaidOut(bs) && Between(bs, k, i, prev) && i == Width(bs[..k]) < Width(bs)
    ensures i < |Columns(bs)| && k < |bs| && Columns(bs)[i] == bs[k].id != prev
    ensures Between(bs, k + 1, i + 1, bs[k].id)
  {
    assert bs[..|bs|] == bs;
    hide Width, Columns;
    assert k < |bs|;
    WidthSnoc(bs, k);
    ColumnOf(bs, k, i);
  }

  /** The first `k` blocks are in the row at `base`, each cell written once and nothing else touched. */
  ghost predicate Exported(before: seq<Cell>, now: seq<Cell>, base: nat, kc: KnobConfig, bs: seq<Block>, polly: bool, k: nat, writes: seq<nat>) {
    && k <= |bs|
    && Covers(kc, bs[..k], polly)
    && |Row(kc, bs[..k], polly)| == Width(bs[..k])
    && base + Width(bs) <= |before| && Width(bs[..k]) <= Width(bs)
    && now == Splice(before, base, Row(kc, bs[..k], polly))
    && writes == Positions(base, Width(bs[..k]))
  }

  lemma NothingExported(before: seq<Cell>, base: nat, kc: KnobConfig, bs: seq<Block>, polly: bool)
    requires base + Width(bs) <= |before|
    ensures Exported(before, before, base, kc, bs, polly, 0, [])
  {
    assert bs[..0] == [];
  }

  /** There is room for block `k`, and exporting it extends what has been exported. */
  lemma ExportedNext(before: seq<Cell>, now: seq<Cell>, base: nat, kc: KnobConfig, bs: seq<Block>, polly: bool, k: nat, writes: seq<nat>)
    requires Exported(before, now, base, kc, bs, polly, k, writes) && k < |bs| && |Cells(kc, bs[k].id, polly)| == bs[k].size
    ensures |now| == |before| && base + Width(bs[..k]) + bs[k].size <= |now|
    ensures Exported(before, Splice(now, base + Width(bs[..k]), Cells(kc, bs[k].id, polly)), base, kc, bs, polly, k + 1,
                     writes + Positions(base + Width(bs[..k]), bs[k].size))
  {
    var w, cells := Width(bs[..k]), Cells(kc, bs[k].id, polly);
    OneMoreBlock(kc, bs, polly, k);
    hide Row, Width, Columns, Cells, Covers;
    SpliceTwice(before, base, Row(kc, bs[..k], polly), cells);
    LogNext(base, w, bs[k].size);
    hide Splice;
  }

  lemma CoversOneMore(kc: KnobConfig, bs: seq<Block>, polly: bool, k: nat)
    requires k < |bs| && Covers(kc, bs[..k], polly) && |Cells(kc, bs[k].id, polly)| == bs[k].size
    ensures Covers(kc, bs[..k + 1], polly)
  {
    hide Cells;
    assert forall j :: 0 <= j < k ==> bs[..k + 1][j] == bs[..k][j];
  }

  lemma OneMoreBlock(kc: KnobConfig, bs: seq<Block>, polly: bool, k: nat)
    requires k < |bs| && Covers(kc, bs[..k], polly) && |Cells(kc, bs[k].id, polly)| == bs[k].size
    ensures Covers(kc, bs[..k + 1], polly)
    ensures Row(kc, bs[..k + 1], polly) == Row(kc, bs[..k], polly) + Cells(kc, bs[k].id, polly)
    ensures |Row(kc, bs[..k + 1], polly)| == Width(bs[..k + 1]) == Width(bs[..k]) + bs[k].size <= Width(bs)
  {
    CoversOneMore(kc, bs, polly, k);
    hide Cells, Covers, Row, Width, Columns;
    WidthSnoc(bs, k);
    WidthMonotone(bs, k + 1, |bs|);
    assert bs[..|bs|] == bs;
    RowSnoc(kc, bs, polly, k);
    RowWidth(kc, bs[..k + 1], polly);
  }

  lemma LogNext(base: nat, w: nat, n: nat)
    ensures Positions(base, w) + Positions(base + w, n) == Positions(base, w + n)
  {
  }

  lemma AllExported(before: seq<Cell>, now: seq<Cell>, base: nat, kc: KnobConfig, bs: seq<Block>, polly: bool, k: nat, writes: seq<nat>, prev: KnobId)
    requires WellLaidOut(bs) && Exported(before, now, base, kc, bs, polly, k, writes) && Between(bs, k, Width(bs), prev)
    ensures k == |bs| && Covers(kc, bs, polly) && |Row(kc, bs, polly)| == Width(bs)
    ensures now == Splice(before, base, Row(kc, bs, polly))
    ensures writes == Positions(base, Width(bs))
  {
    if k < |bs| {
      WidthSnoc(bs, k);
      WidthMonotone(bs, k + 1, |bs|);
    }
    assert bs[..|bs|] == bs && bs[..k] == bs;
  }

  /** Nothing outside the row differs. */
  predicate OnlyRowChanged(before: seq<Cell>, now: seq<Cell>, base: nat, width: nat) {
    && |now| == |before| && base + width <= |before|
    && now[..base] == before[..base] && now[base + width..] == before[base + width..]
  }

  lemma ExportedStaysInRow(before: seq<Cell>, now: seq<Cell>, base: nat, kc: KnobConfig, bs: seq<Block>, polly: bool, k: nat, writes: seq<nat>)
    requires Exported(before, now, base, kc, bs, polly, k, writes)
    ensures OnlyRowChanged(before, now, base, Width(bs))
  {
    var row := Row(kc, bs[..k], polly);
    assert forall j :: base + |row| <= j < |before| ==> now[j] == before[j];
  }

  /** exportConfig: one pass over the columns, exporting a knob where its first column begins.  Each cell of
      the row is stored once (`writes` logs every store, in order), and no other cell is.  A configuration
      that lacks a knob of the layout is an error. */
  method ExportConfig(kc: KnobConfig, mat: array<Cell>, row: nat, bs: seq<Block>, colToKnob: seq<KnobId>, polly: bool)
    returns (ok: bool, ghost writes: seq<nat>)
    requires WellLaidOut(bs) && colToKnob == Columns(bs) && KindsAgree(kc, bs, polly)
    requires row * |colToKnob| + |colToKnob| <= mat.Length
    modifies mat
    ensures ok <==> Covers(kc, bs, polly)
    ensures ok ==> |Row(kc, bs, polly)| == |colToKnob|
    ensures ok ==> mat[..] == Splice(old(mat[..]), row * |colToKnob|, Row(kc, bs, polly))
    ensures ok ==> writes == Positions(row * |colToKnob|, |colToKnob|)
    ensures OnlyRowChanged(old(mat[..]), mat[..], row * |colToKnob|, |colToKnob|)
  {
    var ncol := |colToKnob|;
    var base := row * ncol;
    ok, writes := ExportColumns(kc, mat, base, bs, colToKnob, polly);
  }

  method ExportColumns(kc: KnobConfig, mat: array<Cell>, base: nat, bs: seq<Block>, colToKnob: seq<KnobId>, polly: bool)
    returns (ok: bool, ghost writes: seq<nat>)
    requires WellLaidOut(bs) && colToKnob == Columns(bs) && KindsAgree(kc, bs, polly)
    requires base + |colToKnob| <= mat.Length
    modifies mat
    ensures ok <==> Covers(kc, bs, polly)
    ensures ok ==> |Row(kc, bs, polly)| == |colToKnob|
    ensures ok ==> mat[..] == Splice(old(mat[..]), base, Row(kc, bs, polly))
    ensures ok ==> writes == Positions(base, |colToKnob|)
    ensures OnlyRowChanged(old(mat[..]), mat[..], base, |colToKnob|)
  {
    var prev, cur := 0, 0;
    ghost var before, k := mat[..], 0;
    writes := [];
    NothingExported(before, base, kc, bs, polly);
    var i := 0;
    hide Row, Columns, Splice, Exported, Covers, OnlyRowChanged;
    while i < |colToKnob|
      invariant 0 <= i <= |colToKnob| && Between(bs, k, i, prev)
      invariant Exported(before, mat[..], base, kc, bs, polly, k, writes)
    {
      cur := colToKnob[i];
      ColumnStartsKnob(bs, k, i, prev);
      if prev != cur {
        if cur !in kc.ints && cur !in kc.loops {
          ExportedStaysInRow(before, mat[..], base, kc, bs, polly, k, writes);
          LacksKnob(kc, bs, polly, k);
          return false, writes;
        }
        writes := ExportBlock(kc, mat, before, base, bs, polly, k, cur, i, writes);
        k := k + 1;
      }
      prev := cur;
      i := i + 1;
    }
    AllExported(before, mat[..], base, kc, bs, polly, k, writes, prev);
    ExportedStaysInRow(before, mat[..], base, kc, bs, polly, k, writes);
    ok := true;
  }

  /** Export the knob whose first column is `i`. */
  method ExportBlock(kc: KnobConfig, mat: array<Cell>, ghost before: seq<Cell>, base: nat, ghost bs: seq<Block>, polly: bool,
                     ghost k: nat, cur: KnobId, i: nat, ghost writes: seq<nat>) returns (ghost writes': seq<nat>)
    requires Exported(before, mat[..], base, kc, bs, polly, k, writes) && KindsAgree(kc, bs, polly)
    requires k < |bs| && cur == bs[k].id && i == Width(bs[..k]) && (cur in kc.ints || cur in kc.loops)
    modifies mat
    ensures Exported(before, mat[..], base, kc, bs, polly, k + 1, writes')
  {
    assert |Cells(kc, cur, polly)| == bs[k].size;
    ExportedNext(before, mat[..], base, kc, bs, polly, k, writes);
    hide Exported, Row, Columns, Splice, Covers, Cells, Positions;
    ghost var log;
    var found;
    found, log := ExportKnob(kc, cur, mat, base + i, polly);
    writes' := writes + log;
  }

  lemma LacksKnob(kc: KnobConfig, bs: seq<Block>, polly: bool, k: nat)
    requires WellLaidOut(bs) && k < |bs| && bs[k].id !in kc.ints && bs[k].id !in kc.loops
    ensures !Covers(kc, bs, polly)
  {
    assert Cells(kc, bs[k].id, polly) == [];
  }
}
