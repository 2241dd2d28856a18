/** The compile-time side of partial application: the parameter list of the specialised function, computed
    by recursive templates over type lists. */
module Signature {
  import opened Collections
  import opened Options
  import opened Types

  /** One argument at the type level.  Two spellings of a placeholder (say, const and non-const) are
      different types with the same placeholder value. */
  datatype ArgTy = Placeholder(index: nat, spelling: nat) | OptionArg | OtherArg

  // ----- type lists

  function At<T>(ts: seq<T>, i: nat): Option<T> {
    if ts == [] then None else if i == 0 then Some(ts[0]) else At(ts[1..], i - 1)
  }

  function Set<T>(ts: seq<T>, i: nat, t: T): seq<T> {
    if ts == [] then [] else if i == 0 then [t] + ts[1..] else [ts[0]] + Set(ts[1..], i - 1, t)
  }

  lemma {:induction false} AtIsIndex<T>(ts: seq<T>, i: nat)
    ensures At(ts, i) == if i < |ts| then Some(ts[i]) else None
    decreases i
  {
    if ts != [] && i > 0 {
      AtIsIndex(ts[1..], i - 1);
    }
  }

  lemma {:induction false} SetIsUpdate<T>(ts: seq<T>, i: nat, t: T)
    ensures Set(ts, i, t) == if i < |ts| then ts[i := t] else ts
    decreases i
  {
    if ts != [] && i > 0 {
      SetIsUpdate(ts[1..], i - 1, t);
      assert ts == [ts[0]] + ts[1..];
    }
  }

  // ----- the templates

  function DiscardOptions(al: seq<ArgTy>): seq<ArgTy> {
    if al == [] then [] else (if al[0].OptionArg? then [] else [al[0]]) + DiscardOptions(al[1..])
  }

  /** Discarding distributes over a list's parts, so what is kept keeps its order. */
  lemma {:induction false} DiscardConcat(a: seq<ArgTy>, b: seq<ArgTy>)
    ensures DiscardOptions(a + b) == DiscardOptions(a) + DiscardOptions(b)
    decreases |a|
  {
    if a == [] {
      assert a + b == b;
    } else {
      assert (a + b)[1..] == a[1..] + b;
      DiscardConcat(a[1..], b);
    }
  }

  lemma {:induction false} DiscardKeepsOrDrops(al: seq<ArgTy>)
    ensures (forall i :: 0 <= i < |al| ==> al[i].OptionArg?) ==> DiscardOptions(al) == []
    ensures (forall i :: 0 <= i < |al| ==> !al[i].OptionArg?) ==> DiscardOptions(al) == al
    decreases |al|
  {
    if al != [] {
      DiscardKeepsOrDrops(al[1..]);
      assert al == [al[0]] + al[1..];
    }
  }

  /** Of a binding followed by its options, exactly the binding remains. */
  lemma TrailingOptionsGo(al: seq<ArgTy>, options: seq<ArgTy>)
    requires forall i :: 0 <= i < |al| ==> !al[i].OptionArg?
    requires forall i :: 0 <= i < |options| ==> options[i].OptionArg?
    ensures DiscardOptions(al + options) == al
  {
    DiscardConcat(al, options);
    DiscardKeepsOrDrops(al);
    DiscardKeepsOrDrops(options);
  }

  function PlaceholderValue(a: ArgTy): nat {
    if a.Placeholder? then a.index else 0
  }

  function MaxFrom(al: seq<ArgTy>, max: nat): nat
    decreases |al|
  {
    if al == [] then max
    else MaxFrom(al[1..], if PlaceholderValue(al[0]) > max then PlaceholderValue(al[0]) else max)
  }

  function MaxPlaceholder(al: seq<ArgTy>): nat {
    MaxFrom(al, 0)
  }

  function Voids(n: nat): seq<Option<Ty>> {
    seq(n, _ => None)
  }

  /** map_placeholder_to_type::helper.  A failed static_assert is None. */
  function MapHelper(pl: seq<Ty>, al: seq<ArgTy>, result: seq<Option<Ty>>, seen: seq<ArgTy>, n: nat): Option<seq<Option<Ty>>>
    decreases |al|
  {
    if |seen| == n then
      if |result| == n && None !in result then Some(result) else None
    else if al == [] || |pl| < |al| then None
    else
      var parse := IsPlaceholder(al[0]) && al[0] !in seen;
      var idx := if parse then al[0].index - 1 else 0;
      if idx >= |result| then None
      else MapHelper(pl, al[1..],
                     if parse then Set(result, idx, At(pl, |pl| - |al|)) else result,
                     if parse then seen + [al[0]] else seen, n)
  }

  function MapPlaceholders(pl: seq<Ty>, al: seq<ArgTy>): Option<seq<Option<Ty>>> {
    var n := MaxPlaceholder(al);
    MapHelper(pl, al, Voids(n), [], n)
  }

  // ----- what the maximum is

  lemma {:induction false} MaxFromIs(al: seq<ArgTy>, max: nat)
    ensures MaxFrom(al, max) >= max
    ensures forall i :: 0 <= i < |al| ==> PlaceholderValue(al[i]) <= MaxFrom(al, max)
    ensures MaxFrom(al, max) == max || exists i :: 0 <= i < |al| && PlaceholderValue(al[i]) == MaxFrom(al, max)
    decreases |al|
  {
    if al != [] {
      var m := if PlaceholderValue(al[0]) > max then PlaceholderValue(al[0]) else max;
      MaxFromIs(al[1..], m);
      forall i | 0 <= i < |al| ensures PlaceholderValue(al[i]) <= MaxFrom(al, max) {
        if i > 0 { assert al[i] == al[1..][i - 1]; }
      }
      if MaxFrom(al, max) != max {
        if MaxFrom(al[1..], m) == m {
          assert PlaceholderValue(al[0]) == MaxFrom(al, max);
        } else {
          var i :| 0 <= i < |al[1..]| && PlaceholderValue(al[1..][i]) == MaxFrom(al[1..], m);
          assert PlaceholderValue(al[i + 1]) == MaxFrom(al, max);
        }
      }
    }
  }

  // ----- counting placeholders

  predicate IsPlaceholder(a: ArgTy) {
    a.Placeholder? && a.index > 0
  }

  /** Placeholder number `k` is among the arguments. */
  predicate Occurs(al: seq<ArgTy>, k: nat) {
    exists i :: 0 <= i < |al| && IsPlaceholder(al[i]) && al[i].index == k
  }

  predicate AllOccur(al: seq<ArgTy>, n: nat) {
    forall k :: 1 <= k <= n ==> Occurs(al, k)
  }

  /** No placeholder number is spelt in two ways. */
  predicate OneSpelling(al: seq<ArgTy>) {
    forall i, j :: 0 <= i < |al| && 0 <= j < |al| && IsPlaceholder(al[i]) && IsPlaceholder(al[j]) && al[i].index == al[j].index
      ==> al[i] == al[j]
  }

  lemma {:induction false} NumbersTo(n: nat) returns (all: set<nat>)
    ensures |all| == n && forall k :: k in all <==> 1 <= k <= n
  {
    if n == 0 {
      all := {};
    } else {
      var less := NumbersTo(n - 1);
      all := less + {n};
    }
  }

  /** A list of n numbers that holds all of 1..n repeats none. */
  lemma FullListIsDistinct(s: seq<nat>, n: nat)
    requires |s| == n && forall k :: 1 <= k <= n ==> k in s
    ensures forall i, j :: 0 <= i < j < n ==> s[i] != s[j]
  {
    var all := NumbersTo(n);
    forall i, j | 0 <= i < j < n ensures s[i] != s[j] {
      if s[i] == s[j] {
        var rest := s[..j] + s[j + 1..];
        forall k | k in all ensures k in Elements(rest) {
          assert k in s;
          var p :| 0 <= p < n && s[p] == k;
          if p < j { assert rest[p] == k; } else if p > j { assert rest[p - 1] == k; } else { assert rest[i] == k; }
        }
        ElementsAtMost(rest);
        SubsetSize(all, Elements(rest));
      }
    }
  }

  /** A list of n different numbers out of 1..n holds all of them. */
  lemma DistinctListIsFull(s: seq<nat>, n: nat)
    requires |s| == n && forall i :: 0 <= i < n ==> 1 <= s[i] <= n
    requires forall i, j :: 0 <= i < j < n ==> s[i] != s[j]
    ensures forall k :: 1 <= k <= n ==> k in s
  {
    var all := NumbersTo(n);
    DistinctSize(s);
    SubsetSize(Elements(s), all);
    forall k | 1 <= k <= n ensures k in s {
      assert k in all;
      assert k in Elements(s);
    }
  }

  // ----- the helper's invariant

  /** The first argument that uses placeholder `k`. */
  function FirstUse(al: seq<ArgTy>, k: nat): (r: Option<nat>)
    ensures r.Some? <==> Occurs(al, k)
    ensures r.Some? ==> r.value < |al| && IsPlaceholder(al[r.value]) && al[r.value].index == k
    decreases |al|
  {
    if al == [] then None
    else
      var front := al[..|al| - 1];
      assert forall i :: 0 <= i < |front| ==> front[i] == al[i];
      var r := FirstUse(front, k);
      if r.Some? then r
      else if IsPlaceholder(al[|al| - 1]) && al[|al| - 1].index == k then Some(|al| - 1)
      else None
  }

  /** No argument before the one found uses the placeholder. */
  lemma {:induction false} FirstUseIsFirst(al: seq<ArgTy>, k: nat)
    requires FirstUse(al, k).Some?
    ensures forall i :: 0 <= i < FirstUse(al, k).value ==> !(IsPlaceholder(al[i]) && al[i].index == k)
    decreases |al|
  {
    var front := al[..|al| - 1];
    if FirstUse(front, k).Some? {
      FirstUseIsFirst(front, k);
      assert forall i :: 0 <= i < |front| ==> front[i] == al[i];
    } else {
      forall i | 0 <= i < |front| ensures !(IsPlaceholder(al[i]) && al[i].index == k) {
        assert front[i] == al[i];
        assert !Occurs(front, k);
      }
    }
  }

  /** `seen` has the different placeholders among the first `j` arguments, once each. */
  ghost predicate SeenOk(al: seq<ArgTy>, j: nat, seen: seq<ArgTy>)
    requires j <= |al|
  {
    && (forall a :: a in seen <==> a in al[..j] && IsPlaceholder(a))
    && (forall p, q :: 0 <= p < q < |seen| ==> seen[p] != seen[q])
  }

  /** A slot is filled if its placeholder occurred among the first `j` arguments. */
  ghost predicate FilledOk(al: seq<ArgTy>, j: nat, result: seq<Option<Ty>>)
    requires j <= |al|
  {
    forall k :: 0 <= k < |result| ==> (result[k].Some? <==> Occurs(al[..j], k + 1))
  }

  /** Slot `k` has the type at the first use of its placeholder. */
  predicate SlotTyped(pl: seq<Ty>, al: seq<ArgTy>, result: seq<Option<Ty>>, k: nat)
    requires |al| <= |pl| && k < |result|
  {
    Occurs(al, k + 1) && result[k] == Some(pl[FirstUse(al, k + 1).value])
  }

  /** Filled slots are so typed, unless spellings differ. */
  ghost predicate TypedOk(pl: seq<Ty>, al: seq<ArgTy>, j: nat, result: seq<Option<Ty>>)
    requires j <= |al| <= |pl|
  {
    OneSpelling(al[..j]) ==> forall k :: 0 <= k < |result| && result[k].Some? ==> SlotTyped(pl, al[..j], result, k)
  }

  /** Where the helper stands after the first `j` arguments. */
  ghost predicate Half(pl: seq<Ty>, al: seq<ArgTy>, j: nat, result: seq<Option<Ty>>, seen: seq<ArgTy>, n: nat) {
    && j <= |al| && |pl| == |al| && n == MaxPlaceholder(al) && |result| == n
    && SeenOk(al, j, seen) && FilledOk(al, j, result) && TypedOk(pl, al, j, result)
  }

  function Indices(seen: seq<ArgTy>): seq<nat> {
    seq(|seen|, i requires 0 <= i < |seen| => PlaceholderValue(seen[i]))
  }

  lemma FirstUsePrefix(al: seq<ArgTy>, m: nat, k: nat)
    requires m <= |al| && Occurs(al[..m], k)
    ensures FirstUse(al, k) == FirstUse(al[..m], k)
    decreases |al|
  {
    if m < |al| {
      var front := al[..|al| - 1];
      assert front[..m] == al[..m];
      FirstUsePrefix(front, m, k);
    } else {
      assert al[..m] == al;
    }
  }

  lemma OccursPrefix(al: seq<ArgTy>, i: nat, j: nat, k: nat)
    requires i <= j <= |al| && Occurs(al[..i], k)
    ensures Occurs(al[..j], k)
  {
    var p :| 0 <= p < i && IsPlaceholder(al[..i][p]) && al[..i][p].index == k;
    assert al[..j][p] == al[..i][p];
  }

  lemma OccursSnoc(al: seq<ArgTy>, j: nat, k: nat)
    requires j < |al|
    ensures Occurs(al[..j + 1], k) <==> Occurs(al[..j], k) || (IsPlaceholder(al[j]) && al[j].index == k)
  {
    if Occurs(al[..j], k) {
      OccursPrefix(al, j, j + 1, k);
    }
    if IsPlaceholder(al[j]) && al[j].index == k {
      assert al[..j + 1][j] == al[j];
    }
    if Occurs(al[..j + 1], k) {
      var p :| 0 <= p < j + 1 && IsPlaceholder(al[..j + 1][p]) && al[..j + 1][p].index == k;
      assert p < j ==> al[..j][p] == al[..j + 1][p];
    }
  }

  lemma OneSpellingPrefix(al: seq<ArgTy>, i: nat, j: nat)
    requires i <= j <= |al| && OneSpelling(al[..j])
    ensures OneSpelling(al[..i])
  {
    assert forall p :: 0 <= p < i ==> al[..i][p] == al[..j][p];
  }

  lemma HalfStart(pl: seq<Ty>, al: seq<ArgTy>)
    requires |pl| == |al|
    ensures Half(pl, al, 0, Voids(MaxPlaceholder(al)), [], MaxPlaceholder(al))
  {
  }

  /** What the helper does with its next argument. */
  lemma HalfStep(pl: seq<Ty>, al: seq<ArgTy>, j: nat, result: seq<Option<Ty>>, seen: seq<ArgTy>, n: nat)
    returns (result': seq<Option<Ty>>, seen': seq<ArgTy>)
    requires Half(pl, al, j, result, seen, n) && j < |al| && |seen| != n
    ensures Half(pl, al, j + 1, result', seen', n)
    ensures MapHelper(pl, al[j..], result, seen, n) == MapHelper(pl, al[j + 1..], result', seen', n)
  {
    MaxFromIs(al, 0);
    var a := al[j];
    assert PlaceholderValue(a) <= MaxPlaceholder(al);
    hide SeenOk, FilledOk, TypedOk, MaxPlaceholder, MaxFrom;
    SomethingToSee(al, j, seen, n);
    HelperStep(pl, al, j, result, seen, n);
    hide MapHelper;
    if IsPlaceholder(a) && a !in seen {
      result', seen' := result[a.index - 1 := Some(pl[j])], seen + [a];
      SeesNew(pl, al, j, result, seen, n);
    } else {
      result', seen' := result, seen;
      SeesNothingNew(pl, al, j, result, seen, n);
    }
    hide Half;
  }

  lemma SomethingToSee(al: seq<ArgTy>, j: nat, seen: seq<ArgTy>, n: nat)
    requires j <= |al| && SeenOk(al, j, seen) && n == MaxPlaceholder(al) && |seen| != n
    ensures n > 0
  {
    MaxFromIs(al, 0);
    if seen != [] {
      assert seen[0] in al[..j] && IsPlaceholder(seen[0]);
      var p :| 0 <= p < j && al[..j][p] == seen[0];
      assert PlaceholderValue(al[p]) > 0;
    }
  }

  /** One recursion of the helper, without its type lists. */
  lemma HelperStep(pl: seq<Ty>, al: seq<ArgTy>, j: nat, result: seq<Option<Ty>>, seen: seq<ArgTy>, n: nat)
    requires j < |al| == |pl| && |seen| != n && |result| == n > 0 && PlaceholderValue(al[j]) <= n
    ensures MapHelper(pl, al[j..], result, seen, n) ==
      if IsPlaceholder(al[j]) && al[j] !in seen then
        MapHelper(pl, al[j + 1..], result[al[j].index - 1 := Some(pl[j])], seen + [al[j]], n)
      else MapHelper(pl, al[j + 1..], result, seen, n)
  {
    AtIsIndex(pl, j);
    if IsPlaceholder(al[j]) && al[j] !in seen {
      SetIsUpdate(result, al[j].index - 1, Some(pl[j]));
    }
    hide At, Set;
    assert al[j..][0] == al[j] && al[j..][1..] == al[j + 1..] && |al[j..]| == |al| - j;
  }

  lemma SeesNew(pl: seq<Ty>, al: seq<ArgTy>, j: nat, result: seq<Option<Ty>>, seen: seq<ArgTy>, n: nat)
    requires Half(pl, al, j, result, seen, n) && j < |al|
    requires IsPlaceholder(al[j]) && al[j] !in seen && al[j].index <= n
    ensures Half(pl, al, j + 1, result[al[j].index - 1 := Some(pl[j])], seen + [al[j]], n)
  {
    hide SeenOk, FilledOk, TypedOk, MaxPlaceholder;
    SeenNext(al, j, seen);
    FilledNext(al, j, result, Some(pl[j]));
    TypedNext(pl, al, j, result, seen);
  }

  lemma SeenNext(al: seq<ArgTy>, j: nat, seen: seq<ArgTy>)
    requires j < |al| && SeenOk(al, j, seen)
    ensures SeenOk(al, j + 1, if IsPlaceholder(al[j]) && al[j] !in seen then seen + [al[j]] else seen)
  {
    assert al[..j + 1] == al[..j] + [al[j]];
  }

  lemma FilledNext(al: seq<ArgTy>, j: nat, result: seq<Option<Ty>>, t: Option<Ty>)
    requires j < |al| && FilledOk(al, j, result) && t.Some?
    requires IsPlaceholder(al[j]) && al[j].index <= |result|
    ensures FilledOk(al, j + 1, result[al[j].index - 1 := t])
  {
    var result' := result[al[j].index - 1 := t];
    forall k | 0 <= k < |result'| ensures result'[k].Some? <==> Occurs(al[..j + 1], k + 1) {
      OccursSnoc(al, j, k + 1);
    }
    hide Occurs;
  }

  /** With one spelling only, a placeholder not seen before has not occurred before. */
  lemma NewIsFirstUse(al: seq<ArgTy>, j: nat, seen: seq<ArgTy>)
    requires j < |al| && SeenOk(al, j, seen) && OneSpelling(al[..j + 1])
    requires IsPlaceholder(al[j]) && al[j] !in seen
    ensures !Occurs(al[..j], al[j].index)
    ensures FirstUse(al[..j + 1], al[j].index) == Some(j)
  {
    var front := al[..j + 1];
    assert front[..|front| - 1] == al[..j] && front[j] == al[j];
    forall p | 0 <= p < j && IsPlaceholder(al[..j][p]) ensures al[..j][p].index != al[j].index {
      assert front[p] == al[..j][p];
      assert al[..j][p] in al[..j];
    }
  }

  lemma TypedNext(pl: seq<Ty>, al: seq<ArgTy>, j: nat, result: seq<Option<Ty>>, seen: seq<ArgTy>)
    requires j < |al| <= |pl| && SeenOk(al, j, seen) && TypedOk(pl, al, j, result)
    requires IsPlaceholder(al[j]) && al[j] !in seen && al[j].index <= |result|
    ensures TypedOk(pl, al, j + 1, result[al[j].index - 1 := Some(pl[j])])
  {
    var x, result' := al[j].index - 1, result[al[j].index - 1 := Some(pl[j])];
    if OneSpelling(al[..j + 1]) {
      NewIsFirstUse(al, j, seen);
      OneSpellingPrefix(al, j, j + 1);
      OccursSnoc(al, j, x + 1);
      hide OneSpelling, SeenOk;
      forall k | 0 <= k < |result'| && result'[k].Some? ensures SlotTyped(pl, al[..j + 1], result', k) {
        if k != x {
          TypedStays(pl, al, j, result, k);
        }
      }
    }
  }

  lemma TypedStays(pl: seq<Ty>, al: seq<ArgTy>, j: nat, result: seq<Option<Ty>>, k: nat)
    requires j < |al| <= |pl| && k < |result| && SlotTyped(pl, al[..j], result, k)
    ensures SlotTyped(pl, al[..j + 1], result, k)
  {
    assert al[..j + 1][..j] == al[..j];
    OccursPrefix(al, j, j + 1, k + 1);
    FirstUsePrefix(al[..j + 1], j, k + 1);
  }

  lemma SeesNothingNew(pl: seq<Ty>, al: seq<ArgTy>, j: nat, result: seq<Option<Ty>>, seen: seq<ArgTy>, n: nat)
    requires Half(pl, al, j, result, seen, n) && j < |al|
    requires IsPlaceholder(al[j]) ==> al[j] in seen
    ensures Half(pl, al, j + 1, result, seen, n)
  {
    SeenNext(al, j, seen);
    FilledSame(al, j, result, seen);
    TypedSame(pl, al, j, result);
    hide SeenOk, FilledOk, TypedOk, MaxPlaceholder;
  }

  lemma FilledSame(al: seq<ArgTy>, j: nat, result: seq<Option<Ty>>, seen: seq<ArgTy>)
    requires j < |al| && SeenOk(al, j, seen) && FilledOk(al, j, result)
    requires IsPlaceholder(al[j]) ==> al[j] in seen
    ensures FilledOk(al, j + 1, result)
  {
    forall k | 0 <= k < |result| ensures result[k].Some? <==> Occurs(al[..j + 1], k + 1) {
      OccursSnoc(al, j, k + 1);
      if IsPlaceholder(al[j]) && al[j].index == k + 1 {
        assert al[j] in al[..j];
        var p :| 0 <= p < j && al[..j][p] == al[j];
        assert Occurs(al[..j], k + 1);
      }
    }
    hide Occurs, SeenOk;
  }

  lemma TypedSame(pl: seq<Ty>, al: seq<ArgTy>, j: nat, result: seq<Option<Ty>>)
    requires j < |al| <= |pl| && TypedOk(pl, al, j, result)
    ensures TypedOk(pl, al, j + 1, result)
  {
    if OneSpelling(al[..j + 1]) {
      OneSpellingPrefix(al, j, j + 1);
      hide OneSpelling;
      forall k | 0 <= k < |result| && result[k].Some? ensures SlotTyped(pl, al[..j + 1], result, k) {
        TypedStays(pl, al, j, result, k);
      }
    }
    hide SlotTyped, OneSpelling;
  }

  /** The different placeholders seen are the placeholders of the prefix, number by number. */
  lemma IndicesOfSeen(pl: seq<Ty>, al: seq<ArgTy>, j: nat, result: seq<Option<Ty>>, seen: seq<ArgTy>, n: nat)
    requires Half(pl, al, j, result, seen, n)
    ensures forall i :: 0 <= i < |seen| ==> 1 <= Indices(seen)[i] <= n
    ensures forall k :: k in Indices(seen) <==> Occurs(al[..j], k)
    ensures OneSpelling(al[..j]) <==> forall p, q :: 0 <= p < q < |seen| ==> Indices(seen)[p] != Indices(seen)[q]
  {
    MaxFromIs(al, 0);
    forall i | 0 <= i < |seen| ensures 1 <= Indices(seen)[i] <= n && Occurs(al[..j], Indices(seen)[i]) {
      assert seen[i] in seen && seen[i] in al[..j];
      var p :| 0 <= p < j && al[..j][p] == seen[i];
      assert PlaceholderValue(al[p]) <= n;
    }
    forall k | Occurs(al[..j], k) ensures k in Indices(seen) {
      var p :| 0 <= p < j && IsPlaceholder(al[..j][p]) && al[..j][p].index == k;
      assert al[..j][p] in seen;
      var q :| 0 <= q < |seen| && seen[q] == al[..j][p];
      assert Indices(seen)[q] == k;
    }
    if OneSpelling(al[..j]) {
      forall p, q | 0 <= p < q < |seen| ensures Indices(seen)[p] != Indices(seen)[q] {
        assert seen[p] in al[..j] && seen[q] in al[..j];
      }
    } else {
      var x, y :| 0 <= x < j && 0 <= y < j && IsPlaceholder(al[..j][x]) && IsPlaceholder(al[..j][y])
                  && al[..j][x].index == al[..j][y].index && al[..j][x] != al[..j][y];
      assert al[..j][x] in seen && al[..j][y] in seen;
      var p :| 0 <= p < |seen| && seen[p] == al[..j][x];
      var q :| 0 <= q < |seen| && seen[q] == al[..j][y];
      assert Indices(seen)[p] == Indices(seen)[q] && p != q;
      assert if p < q then Indices(seen)[p] == Indices(seen)[q] else Indices(seen)[q] == Indices(seen)[p];
    }
  }

  /** `m` arguments are enough: they have every placeholder, each in one spelling. */
  predicate Enough(al: seq<ArgTy>, m: nat) {
    m <= |al| && AllOccur(al[..m], MaxPlaceholder(al)) && OneSpelling(al[..m])
  }

  lemma DoneMeansEnough(pl: seq<Ty>, al: seq<ArgTy>, j: nat, result: seq<Option<Ty>>, seen: seq<ArgTy>, n: nat)
    requires Half(pl, al, j, result, seen, n) && |seen| == n
    ensures None !in result <==> Enough(al, j)
  {
    IndicesOfSeen(pl, al, j, result, seen, n);
    if None !in result {
      forall k | 1 <= k <= n ensures k in Indices(seen) {
        assert result[k - 1] in result;
        assert Occurs(al[..j], k);
      }
      FullListIsDistinct(Indices(seen), n);
    }
    if Enough(al, j) {
      forall k | 0 <= k < n ensures result[k].Some? {
        assert Occurs(al[..j], k + 1);
      }
    }
  }

  /** Every slot of `r` has the type at the first use of its placeholder. */
  predicate TypesAtFirstUse(pl: seq<Ty>, al: seq<ArgTy>, r: seq<Option<Ty>>)
    requires |pl| == |al|
  {
    |r| == MaxPlaceholder(al) && forall k :: 0 <= k < |r| ==> SlotTyped(pl, al, r, k)
  }

  /** The helper succeeds only over enough arguments, and then gives each placeholder the type at its first use. */
  lemma {:induction false} HelperSound(pl: seq<Ty>, al: seq<ArgTy>, j: nat, result: seq<Option<Ty>>, seen: seq<ArgTy>, n: nat)
    returns (m: nat)
    requires Half(pl, al, j, result, seen, n) && MapHelper(pl, al[j..], result, seen, n).Some?
    ensures Enough(al, m)
    ensures TypesAtFirstUse(pl, al, MapHelper(pl, al[j..], result, seen, n).value)
    decreases |al| - j
  {
    if |seen| == n {
      DoneMeansEnough(pl, al, j, result, seen, n);
      m := j;
      DoneHasTypes(pl, al, j, result, seen, n);
    } else {
      hide TypesAtFirstUse, Enough;
      var result', seen' := HalfStep(pl, al, j, result, seen, n);
      m := HelperSound(pl, al, j + 1, result', seen', n);
    }
  }

  lemma DoneHasTypes(pl: seq<Ty>, al: seq<ArgTy>, j: nat, result: seq<Option<Ty>>, seen: seq<ArgTy>, n: nat)
    requires Half(pl, al, j, result, seen, n) && Enough(al, j)
    ensures TypesAtFirstUse(pl, al, result)
  {
    forall k | 0 <= k < n ensures SlotTyped(pl, al, result, k) {
      assert Occurs(al[..j], k + 1);
      assert SlotTyped(pl, al[..j], result, k);
      assert al[..|al|] == al;
      OccursPrefix(al, j, |al|, k + 1);
      FirstUsePrefix(al, j, k + 1);
    }
    hide SlotTyped, Half, Enough;
  }

  /** With enough arguments to come, the helper succeeds. */
  lemma {:induction false} HelperComplete(pl: seq<Ty>, al: seq<ArgTy>, j: nat, result: seq<Option<Ty>>, seen: seq<ArgTy>, n: nat, m: nat)
    requires Half(pl, al, j, result, seen, n) && j <= m && Enough(al, m)
    ensures MapHelper(pl, al[j..], result, seen, n).Some?
    decreases |al| - j
  {
    OneSpellingPrefix(al, j, m);
    IndicesOfSeen(pl, al, j, result, seen, n);
    if |seen| == n {
      DistinctListIsFull(Indices(seen), n);
      forall k | 1 <= k <= n ensures Occurs(al[..j], k) {
        assert k in Indices(seen);
      }
      DoneMeansEnough(pl, al, j, result, seen, n);
    } else {
      if j == m {
        SeenIsFull(Indices(seen), n);
        assert false;
      }
      var result', seen' := HalfStep(pl, al, j, result, seen, n);
      HelperComplete(pl, al, j + 1, result', seen', n, m);
    }
  }

  lemma SeenIsFull(s: seq<nat>, n: nat)
    requires forall i :: 0 <= i < |s| ==> 1 <= s[i] <= n
    requires forall k :: 1 <= k <= n ==> k in s
    requires forall i, j :: 0 <= i < j < |s| ==> s[i] != s[j]
    ensures |s| == n
  {
    var all := NumbersTo(n);
    DistinctSize(s);
    assert Elements(s) == all;
  }

  // ----- the results

  lemma MapSound(pl: seq<Ty>, al: seq<ArgTy>) returns (m: nat)
    requires |pl| == |al| && MapPlaceholders(pl, al).Some?
    ensures Enough(al, m)
    ensures TypesAtFirstUse(pl, al, MapPlaceholders(pl, al).value)
  {
    hide TypesAtFirstUse, Enough, MapHelper;
    HalfStart(pl, al);
    assert al[0..] == al;
    hide Half;
    m := HelperSound(pl, al, 0, Voids(MaxPlaceholder(al)), [], MaxPlaceholder(al));
  }

  /** For every signature and binding, the template succeeds exactly when some prefix of the arguments has
      every placeholder 1..N, each in one spelling; the list it gives has the type at each first use. */
  lemma MapSucceedsIff(pl: seq<Ty>, al: seq<ArgTy>)
    requires |pl| == |al|
    ensures MapPlaceholders(pl, al).Some? <==> exists m :: Enough(al, m)
    ensures MapPlaceholders(pl, al).Some? ==> TypesAtFirstUse(pl, al, MapPlaceholders(pl, al).value)
  {
    if MapPlaceholders(pl, al).Some? {
      var m := MapSound(pl, al);
    } else if exists m :: Enough(al, m) {
      var m :| Enough(al, m);
      HalfStart(pl, al);
      assert al[0..] == al;
      HelperComplete(pl, al, 0, Voids(MaxPlaceholder(al)), [], MaxPlaceholder(al), m);
    }
  }

  /** When no placeholder is spelt in two ways: exactly when placeholders 1..N all occur. */
  lemma MapSucceedsIffAllOccur(pl: seq<Ty>, al: seq<ArgTy>)
    requires |pl| == |al| && OneSpelling(al)
    ensures MapPlaceholders(pl, al).Some? <==> AllOccur(al, MaxPlaceholder(al))
  {
    MapSucceedsIff(pl, al);
    assert al[..|al|] == al;
    if AllOccur(al, MaxPlaceholder(al)) {
      assert Enough(al, |al|);
    }
    if MapPlaceholders(pl, al).Some? {
      var m :| Enough(al, m);
      forall k | 1 <= k <= MaxPlaceholder(al) ensures Occurs(al, k) {
        OccursPrefix(al, m, |al|, k);
      }
    }
  }

  /** Two spellings of _1 before _2: all placeholders occur, yet the template fails. */
  lemma TwoSpellingsCanFail(pl: seq<Ty>)
    requires |pl| == 3
    ensures var al := [Placeholder(1, 0), Placeholder(1, 1), Placeholder(2, 0)];
            AllOccur(al, MaxPlaceholder(al)) && MapPlaceholders(pl, al).None?
  {
    var al := [Placeholder(1, 0), Placeholder(1, 1), Placeholder(2, 0)];
    assert al[1..] == [Placeholder(1, 1), Placeholder(2, 0)] && al[1..][1..] == [Placeholder(2, 0)] && al[1..][1..][1..] == [];
    assert MaxPlaceholder(al) == 2;
    assert al[0].index == 1 && al[2].index == 2;
    MapSucceedsIff(pl, al);
    forall m: nat ensures !Enough(al, m) {
      if m == 3 {
        assert al[..m] == al;
        assert al[0].index == al[1].index && al[0] != al[1];
      } else if m < 3 {
        assert !Occurs(al[..m], 2);
      }
    }
  }
}
