/** Knobs, configurations, and the generic visitors that generate and apply configurations. */
module Knobs {
  import opened Options

  type KnobId = nat

  /** A ScalarRange<int>: inclusive bounds and a default value. */
  datatype Range = Range(min: int, max: int, dflt: int) {
    predicate Valid() {
      min <= dflt <= max
    }
  }

  datatype LoopSetting = LoopSetting(
    vectorizeWidth: Option<nat>,
    interleaveCount: Option<nat>,
    unrollDisable: Option<bool>,
    unrollFull: Option<bool>,
    unrollCount: Option<nat>,
    licmVerDisable: Option<bool>,
    distribute: Option<bool>,
    section: Option<nat>)

  const EMPTY_SETTING := LoopSetting(None, None, None, None, None, None, None, None)

  /** An ID-indexed snapshot of knob values. */
  datatype KnobConfig = KnobConfig(ints: map<KnobId, int>, loops: map<KnobId, LoopSetting>)

  const EMPTY_CONFIG := KnobConfig(map[], map[])

  datatype KnobSet = KnobSet(ints: map<KnobId, Range>, loops: set<KnobId>) {
    ghost predicate Valid() {
      forall id :: id in ints ==> ints[id].Valid()
    }
  }

  /** The configuration sets every knob, and every scalar knob to a value inside its range. */
  ghost predicate Fits(ks: KnobSet, c: KnobConfig) {
    && c.ints.Keys == ks.ints.Keys
    && c.loops.Keys == ks.loops
    && forall id :: id in ks.ints ==> ks.ints[id].min <= c.ints[id] <= ks.ints[id].max
  }

  function Defaults(ks: KnobSet): KnobConfig {
    KnobConfig(map id | id in ks.ints :: ks.ints[id].dflt, map id | id in ks.loops :: EMPTY_SETTING)
  }

  /** The knob values after `c` has been applied on top of `base`. */
  function Overlay(base: KnobConfig, c: KnobConfig): KnobConfig {
    KnobConfig(base.ints + c.ints, base.loops + c.loops)
  }

  /** A configuration that fits erases whatever values the knobs had before. */
  lemma OverlayErases(ks: KnobSet, base: KnobConfig, c: KnobConfig)
    requires base.ints.Keys == ks.ints.Keys && base.loops.Keys == ks.loops
    requires Fits(ks, c)
    ensures Overlay(base, c) == c
  {
    assert base.ints + c.ints == c.ints;
    assert base.loops + c.loops == c.loops;
  }

  lemma OverlayEmpty(base: KnobConfig)
    ensures Overlay(base, EMPTY_CONFIG) == base
  {
    assert base.ints + map[] == base.ints;
    assert base.loops + map[] == base.loops;
  }

  lemma DefaultsFit(ks: KnobSet)
    requires ks.Valid()
    ensures Fits(ks, Defaults(ks))
  {
  }

  lemma DefaultsAre(ks: KnobSet, ints: map<KnobId, int>, loops: map<KnobId, LoopSetting>)
    requires ints.Keys == ks.ints.Keys && forall id :: id in ks.ints ==> ints[id] == ks.ints[id].dflt
    requires loops.Keys == ks.loops && forall id :: id in ks.loops ==> loops[id] == EMPTY_SETTING
    ensures KnobConfig(ints, loops) == Defaults(ks)
  {
    var d := Defaults(ks);
    assert ints == d.ints;
    assert loops == d.loops;
  }

  /** genDefaultConfig's visit of the scalar knobs, in whatever order the hash map yields them. */
  method DefaultInts(ranges: map<KnobId, Range>) returns (ints: map<KnobId, int>)
    ensures ints.Keys == ranges.Keys
    ensures forall id :: id in ranges ==> ints[id] == ranges[id].dflt
  {
    ints := map[];
    var todo := ranges.Keys;
    while todo != {}
      invariant todo <= ranges.Keys
      invariant ints.Keys == ranges.Keys - todo
      invariant forall id :: id in ints ==> ints[id] == ranges[id].dflt
      decreases |todo|
    {
      var id :| id in todo;
      ints, todo := ints[id := ranges[id].dflt], todo - {id};
    }
  }

  method DefaultLoops(ids: set<KnobId>) returns (loops: map<KnobId, LoopSetting>)
    ensures loops.Keys == ids
    ensures forall id :: id in ids ==> loops[id] == EMPTY_SETTING
  {
    loops := map[];
    var todo := ids;
    while todo != {}
      invariant todo <= ids
      invariant loops.Keys == ids - todo
      invariant forall id :: id in loops ==> loops[id] == EMPTY_SETTING
      decreases |todo|
    {
      var id :| id in todo;
      loops, todo := loops[id := EMPTY_SETTING], todo - {id};
    }
  }

  method GenDefaultConfig(ks: KnobSet) returns (c: KnobConfig)
    ensures c == Defaults(ks)
    ensures c.ints.Keys == ks.ints.Keys && forall id :: id in ks.ints ==> c.ints[id] == ks.ints[id].dflt
    ensures c.loops.Keys == ks.loops
    ensures forall id :: id in ks.loops ==> c.loops[id] == LoopSetting(None, None, None, None, None, None, None, None)
  {
    var ints := DefaultInts(ks.ints);
    var loops := DefaultLoops(ks.loops);
    c := KnobConfig(ints, loops);
    DefaultsAre(ks, ints, loops);
    hide Defaults;
  }

  /** genRandomConfig's visit of the scalar knobs: a uniform draw is any value of the inclusive range. */
  method DrawInts(ranges: map<KnobId, Range>) returns (ints: map<KnobId, int>)
    requires forall id :: id in ranges ==> ranges[id].Valid()
    ensures ints.Keys == ranges.Keys
    ensures forall id :: id in ranges ==> ranges[id].min <= ints[id] <= ranges[id].max
  {
    ints := map[];
    var todo := ranges.Keys;
    while todo != {}
      invariant todo <= ranges.Keys
      invariant ints.Keys == ranges.Keys - todo
      invariant forall id :: id in ints ==> ranges[id].min <= ints[id] <= ranges[id].max
      decreases |todo|
    {
      var id :| id in todo;
      var r := ranges[id];
      assert r.min <= r.dflt <= r.max;
      var v: int :| r.min <= v <= r.max;
      ints, todo := ints[id := v], todo - {id};
    }
  }

  method DrawLoops(ids: set<KnobId>) returns (loops: map<KnobId, LoopSetting>)
    ensures loops.Keys == ids
  {
    loops := map[];
    var todo := ids;
    while todo != {}
      invariant todo <= ids
      invariant loops.Keys == ids - todo
      decreases |todo|
    {
      var id :| id in todo;
      var setting: LoopSetting := *;
      loops, todo := loops[id := setting], todo - {id};
    }
  }

  method GenRandomConfig(ks: KnobSet) returns (c: KnobConfig)
    requires ks.Valid()
    ensures Fits(ks, c)
    ensures c.ints.Keys == ks.ints.Keys && c.loops.Keys == ks.loops
    ensures forall id :: id in ks.ints ==> ks.ints[id].min <= c.ints[id] <= ks.ints[id].max
  {
    var ints := DrawInts(ks.ints);
    var loops := DrawLoops(ks.loops);
    c := KnobConfig(ints, loops);
  }

  /** nearbyInt, after the draw: clamp to the range, lower bound first. */
  function Clamp(v: int, r: Range): (w: int)
    requires r.Valid()
    ensures r.min <= w <= r.max
    ensures r.min <= v <= r.max ==> w == v
    ensures v < r.min ==> w == r.min
    ensures v > r.max ==> w == r.max
  {
    var low := if v < r.min then r.min else v;
    if low > r.max then r.max else low
  }

  /** perturbConfig's visit of the scalar knobs, with the IDs to change already chosen.  A knob that the
      old configuration lacks is drawn afresh; a knob that was not chosen keeps its old value. */
  method PerturbInts(before: map<KnobId, int>, ranges: map<KnobId, Range>, chosen: set<KnobId>)
    returns (ints: map<KnobId, int>)
    requires forall id :: id in ranges ==> ranges[id].Valid()
    requires chosen <= ranges.Keys
    ensures ints.Keys == before.Keys + chosen
    ensures forall id :: id in before && id !in chosen ==> ints[id] == before[id]
    ensures forall id :: id in chosen ==> ranges[id].min <= ints[id] <= ranges[id].max
  {
    ints := before;
    var todo := chosen;
    while todo != {}
      invariant todo <= chosen
      invariant forall id :: id in ints <==> id in before || (id in chosen && id !in todo)
      invariant forall id :: id in before && id !in chosen ==> ints[id] == before[id]
      invariant forall id :: id in chosen && id !in todo ==> ranges[id].min <= ints[id] <= ranges[id].max
      decreases |todo|
    {
      var id :| id in todo;
      var v := PerturbedValue(if id in ints then Some(ints[id]) else None, ranges[id]);
      ints, todo := ints[id := v], todo - {id};
    }
  }

  /** One scalar knob: a nearby value of the old one, clamped, or any value of the range. */
  method PerturbedValue(previous: Option<int>, r: Range) returns (v: int)
    requires r.Valid()
    ensures r.min <= v <= r.max
  {
    if previous.None? {
      assert r.min <= r.dflt <= r.max;
      v :| r.min <= v <= r.max;
    } else {
      var draw: int := *;
      v := Clamp(previous.value + draw, r);
    }
  }

  /** perturbConfig's visit of the loop knobs. */
  method PerturbLoops(before: map<KnobId, LoopSetting>, chosen: set<KnobId>) returns (loops: map<KnobId, LoopSetting>)
    ensures loops.Keys == before.Keys + chosen
    ensures forall id :: id in before && id !in chosen ==> loops[id] == before[id]
  {
    loops := before;
    var todo := chosen;
    while todo != {}
      invariant todo <= chosen
      invariant forall id :: id in loops <==> id in before || (id in chosen && id !in todo)
      invariant forall id :: id in before && id !in chosen ==> loops[id] == before[id]
      decreases |todo|
    {
      var id :| id in todo;
      var setting: LoopSetting := *;
      loops, todo := loops[id := setting], todo - {id};
    }
  }

  method PerturbConfig(kc: KnobConfig, ks: KnobSet, chosen: set<KnobId>) returns (c: KnobConfig)
    requires ks.Valid()
    requires chosen <= ks.ints.Keys + ks.loops
    ensures forall id :: id in kc.ints.Keys - chosen ==> id in c.ints && c.ints[id] == kc.ints[id]
    ensures forall id :: id in kc.loops.Keys - chosen ==> id in c.loops && c.loops[id] == kc.loops[id]
    ensures Fits(ks, kc) ==> Fits(ks, c)
  {
    var ints := PerturbInts(kc.ints, ks.ints, chosen * ks.ints.Keys);
    var loops := PerturbLoops(kc.loops, chosen * ks.loops);
    c := KnobConfig(ints, loops);
  }

  /** A KnobSetter visits every entry of a configuration and sets the knob with that ID. */
  method SetEach<V>(values: map<KnobId, V>, entries: map<KnobId, V>) returns (after: map<KnobId, V>)
    ensures after == values + entries
  {
    after := values;
    var todo := entries.Keys;
    while todo != {}
      invariant todo <= entries.Keys
      invariant forall id :: id in after <==> id in values || (id in entries && id !in todo)
      invariant forall id :: id in after ==> after[id] == if id in entries && id !in todo then entries[id] else values[id]
      decreases |todo|
    {
      var id :| id in todo;
      after, todo := after[id := entries[id]], todo - {id};
    }
  }

  /** The live knob objects of one optimizer, seen as their current values. */
  class KnobBank {
    var values: KnobConfig

    constructor (ks: KnobSet)
      ensures values == Defaults(ks)
    {
      new;
      var d := GenDefaultConfig(ks);
      values := d;
    }

    /** The first half of applyConfig: every knob is set before any knob touches the module. */
    method ApplyConfig(c: KnobConfig)
      modifies this
      ensures values == Overlay(old(values), c)
      ensures values.ints.Keys == old(values).ints.Keys + c.ints.Keys && values.loops.Keys == old(values).loops.Keys + c.loops.Keys
      ensures forall id :: id in values.ints ==> values.ints[id] == if id in c.ints then c.ints[id] else old(values).ints[id]
      ensures forall id :: id in values.loops ==> values.loops[id] == if id in c.loops then c.loops[id] else old(values).loops[id]
    {
      var ints := SetEach(values.ints, c.ints);
      var loops := SetEach(values.loops, c.loops);
      values := KnobConfig(ints, loops);
    }
  }
}
