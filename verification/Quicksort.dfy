/** The tunable quicksort of the benchmarks: insertion sort below a cutoff, partitioning above it. */
module Quicksort {
  type Comparator = (int, int) -> int

  predicate Less(a: int, b: int, cmp: Comparator) {
    cmp(a, b) < 0
  }

  predicate Leq(a: int, b: int, cmp: Comparator) {
    cmp(a, b) <= 0
  }

  /** What a comparator has to be for sorting to make sense: a total preorder, by the sign of its result. */
  ghost predicate Preorder(cmp: Comparator) {
    && (forall a, b :: !Leq(a, b, cmp) <==> Less(b, a, cmp))
    && (forall a, b, c :: Leq(a, b, cmp) && Leq(b, c, cmp) ==> Leq(a, c, cmp))
  }

  function IntCmp(a: int, b: int): int {
    if a > b then 1 else if a == b then 0 else -1
  }

  /** int_cmp orders all integers and calls only equal integers equal. */
  lemma IntCmpIsTotalOrder()
    ensures Preorder(IntCmp)
    ensures forall a, b :: IntCmp(a, b) == 0 <==> a == b
    ensures forall a, b :: IntCmp(a, b) < 0 <==> a < b
  {
  }

  ghost predicate SortedBetween(s: seq<int>, lo: int, hi: int, cmp: Comparator)
    requires lo < hi ==> 0 <= lo && hi <= |s|
  {
    forall p, q :: lo <= p < q < hi ==> Leq(s[p], s[q], cmp)
  }

  /** `b` is `a` with the slice lo..hi rearranged and everything else in place. */
  ghost predicate Rearranged(a: seq<int>, b: seq<int>, lo: nat, hi: nat)
    requires lo <= hi <= |a|
  {
    |a| == |b| && a[..lo] == b[..lo] && a[hi..] == b[hi..] && multiset(a[lo..hi]) == multiset(b[lo..hi])
  }

  lemma RearrangedThen(a: seq<int>, b: seq<int>, c: seq<int>, lo: nat, hi: nat)
    requires lo <= hi <= |a| && Rearranged(a, b, lo, hi) && Rearranged(b, c, lo, hi)
    ensures Rearranged(a, c, lo, hi)
  {
  }

  /** Rearranging a part of a slice rearranges the slice. */
  lemma RearrangedPart(a: seq<int>, b: seq<int>, lo: nat, hi: nat, lo': nat, hi': nat)
    requires lo' <= lo <= hi <= hi' <= |a| && Rearranged(a, b, lo, hi)
    ensures Rearranged(a, b, lo', hi')
  {
    assert a[..lo'] == a[..lo][..lo'] && b[..lo'] == b[..lo][..lo'];
    assert a[hi'..] == a[hi..][hi' - hi..] && b[hi'..] == b[hi..][hi' - hi..];
    assert a[lo'..hi'] == a[..lo][lo'..] + a[lo..hi] + a[hi..][..hi' - hi];
    assert b[lo'..hi'] == b[..lo][lo'..] + b[lo..hi] + b[hi..][..hi' - hi];
  }

  /** Every element of a rearranged slice was somewhere in it before. */
  lemma CameFrom(a: seq<int>, b: seq<int>, lo: nat, hi: nat, k: nat) returns (from: nat)
    requires lo <= hi <= |a| && Rearranged(a, b, lo, hi) && lo <= k < hi
    ensures lo <= from < hi && a[from] == b[k]
  {
    assert b[k] == b[lo..hi][k - lo];
    assert b[k] in multiset(b[lo..hi]);
    assert b[k] in a[lo..hi];
    var i :| 0 <= i < hi - lo && a[lo..hi][i] == b[k];
    from := lo + i;
  }

  function Swapped(s: seq<int>, i: nat, j: nat): seq<int>
    requires i < |s| && j < |s|
  {
    s[i := s[j]][j := s[i]]
  }

  lemma SwapRearranges(a: seq<int>, b: seq<int>, i: nat, j: nat, lo: nat, hi: nat)
    requires lo <= i < hi && lo <= j < hi && hi <= |a| && Rearranged(a, b, lo, hi)
    ensures Rearranged(a, Swapped(b, i, j), lo, hi)
  {
    assert Swapped(b, i, j)[lo..hi] == Swapped(b[lo..hi], i - lo, j - lo);
  }

  lemma LeavesAlone(s: seq<int>, i: nat, j: nat, k: nat)
    requires i < |s| && j < |s| && k < |s| && k != i && k != j
    ensures |Swapped(s, i, j)| == |s| && Swapped(s, i, j)[k] == s[k]
  {
  }

  /** An untouched slice is rearranged, and sorted if it has fewer than two elements. */
  lemma Unsorted(a: seq<int>, lo: nat, hi: nat, cmp: Comparator)
    requires lo <= hi <= |a|
    ensures Rearranged(a, a, lo, hi) && (hi - lo < 2 ==> SortedBetween(a, lo, hi, cmp))
  {
  }

  method Swap(v: array<int>, i: nat, j: nat)
    requires i < v.Length && j < v.Length
    modifies v
    ensures v[..] == Swapped(old(v[..]), i, j)
    ensures v[i] == old(v[j]) && v[j] == old(v[i]) && forall k :: 0 <= k < v.Length && k != i && k != j ==> v[k] == old(v[k])
  {
    var temp := v[i];
    v[i] := v[j];
    v[j] := temp;
  }

  /** isSorted: comparing neighbours is enough. */
  method IsSorted(v: array<int>, lo: int, hi: int, cmp: Comparator) returns (sorted: bool)
    requires lo < hi ==> 0 <= lo && hi < v.Length
    ensures Preorder(cmp) ==> (sorted <==> lo >= hi || SortedBetween(v[..], lo, hi + 1, cmp))
  {
    hide Leq, Less;
    if hi - lo + 1 < 2 {
      return true;
    }
    for i := lo + 1 to hi + 1
      invariant Preorder(cmp) ==> SortedBetween(v[..], lo, i, cmp)
    {
      if !Leq(v[i - 1], v[i], cmp) {
        return false;
      }
      if Preorder(cmp) {
        SortedSnoc(v[..], lo, i, cmp);
      }
    }
    return true;
  }

  lemma SortedSnoc(s: seq<int>, lo: nat, i: nat, cmp: Comparator)
    requires lo < i < |s| && Preorder(cmp) && SortedBetween(s, lo, i, cmp) && Leq(s[i - 1], s[i], cmp)
    ensures SortedBetween(s, lo, i + 1, cmp)
  {
    hide Leq, Less;
    forall p | lo <= p < i ensures Leq(s[p], s[i], cmp) {
      assert p < i - 1 ==> Leq(s[p], s[i - 1], cmp);
    }
  }

  // ----- insertion sort

  /** Sorted but for the element at `j`, which may be too small for its place. */
  ghost predicate SortedBut(s: seq<int>, lo: nat, hi: nat, j: nat, cmp: Comparator)
    requires hi <= |s|
  {
    forall p, q :: lo <= p < q < hi && q != j ==> Leq(s[p], s[q], cmp)
  }

  lemma MovesDown(s: seq<int>, lo: nat, hi: nat, j: nat, cmp: Comparator)
    requires Preorder(cmp) && lo < j < hi <= |s| && SortedBut(s, lo, hi, j, cmp) && !Leq(s[j - 1], s[j], cmp)
    ensures SortedBut(Swapped(s, j - 1, j), lo, hi, j - 1, cmp)
  {
  }

  lemma InPlace(s: seq<int>, lo: nat, hi: nat, j: nat, cmp: Comparator)
    requires Preorder(cmp) && lo <= j < hi <= |s| && SortedBut(s, lo, hi, j, cmp)
    requires j == lo || Leq(s[j - 1], s[j], cmp)
    ensures SortedBetween(s, lo, hi, cmp)
  {
    hide Leq, Less;
    forall p | lo <= p < j ensures Leq(s[p], s[j], cmp) {
      assert p < j - 1 ==> Leq(s[p], s[j - 1], cmp);
    }
  }

  /** Where isort's inner loop stands when the element from `i` has moved down to `j`. */
  ghost predicate Inserting(start: seq<int>, s: seq<int>, lo: nat, i: nat, j: nat, hi: nat, cmp: Comparator)
    requires lo <= j <= i < hi <= |start|
  {
    Rearranged(start, s, lo, hi) && (Preorder(cmp) ==> SortedBut(s, lo, i + 1, j, cmp))
  }

  lemma InsertingStart(s: seq<int>, lo: nat, i: nat, hi: nat, cmp: Comparator)
    requires lo <= i < hi <= |s| && (Preorder(cmp) ==> SortedBetween(s, lo, i, cmp))
    ensures Inserting(s, s, lo, i, i, hi, cmp)
  {
    hide Leq, Preorder;
  }

  lemma InsertingStep(start: seq<int>, s: seq<int>, lo: nat, i: nat, j: nat, hi: nat, cmp: Comparator)
    requires lo < j <= i < hi <= |start| == |s| && Inserting(start, s, lo, i, j, hi, cmp) && !Leq(s[j - 1], s[j], cmp)
    ensures Inserting(start, Swapped(s, j - 1, j), lo, i, j - 1, hi, cmp)
  {
    hide Leq, Less, Rearranged, Swapped, SortedBut, Preorder;
    SwapRearranges(start, s, j - 1, j, lo, hi);
    if Preorder(cmp) {
      MovesDown(s, lo, i + 1, j, cmp);
    }
  }

  lemma Inserted(start: seq<int>, s: seq<int>, lo: nat, i: nat, j: nat, hi: nat, cmp: Comparator)
    requires lo <= j <= i < hi <= |start| && Inserting(start, s, lo, i, j, hi, cmp)
    requires j == lo || Leq(s[j - 1], s[j], cmp)
    ensures Rearranged(start, s, lo, hi) && (Preorder(cmp) ==> SortedBetween(s, lo, i + 1, cmp))
  {
    hide Leq, Less;
    if Preorder(cmp) {
      InPlace(s, lo, i + 1, j, cmp);
    }
  }

  /** isort's inner loop: the element at `i` moves down to its place among the sorted ones before it. */
  method Insert(v: array<int>, lo: nat, i: nat, hi: nat, cmp: Comparator)
    requires lo <= i <= hi < v.Length
    requires Preorder(cmp) ==> SortedBetween(v[..], lo, i, cmp)
    modifies v
    ensures Rearranged(old(v[..]), v[..], lo, hi + 1)
    ensures Preorder(cmp) ==> SortedBetween(v[..], lo, i + 1, cmp)
  {
    hide Leq, Preorder, Rearranged, Swapped, SortedBetween, Inserting;
    ghost var start := v[..];
    InsertingStart(start, lo, i, hi + 1, cmp);
    var j := i;
    while j > lo && !Leq(v[j - 1], v[j], cmp)
      invariant lo <= j <= i
      invariant Inserting(start, v[..], lo, i, j, hi + 1, cmp)
    {
      InsertingStep(start, v[..], lo, i, j, hi + 1, cmp);
      Swap(v, j - 1, j);
      j := j - 1;
    }
    Inserted(start, v[..], lo, i, j, hi + 1, cmp);
  }

  /** `after` is `before` with the slice left..right, both ends included, sorted if the comparator is a
      preorder, rearranged in any case, and everything else in place.  A slice of fewer than two
      elements, whatever its bounds, stays as it is. */
  ghost predicate Sorts(before: seq<int>, after: seq<int>, left: int, right: int, cmp: Comparator)
    requires left < right ==> 0 <= left && right < |before|
  {
    if left < right then
      Rearranged(before, after, left, right + 1) && (Preorder(cmp) ==> SortedBetween(after, left, right + 1, cmp))
    else after == before
  }

  lemma SortsSlice(before: seq<int>, after: seq<int>, left: nat, right: int, cmp: Comparator)
    requires left <= right + 1 <= |before| && Sorts(before, after, left, right, cmp)
    ensures Rearranged(before, after, left, right + 1) && (Preorder(cmp) ==> SortedBetween(after, left, right + 1, cmp))
  {
    if left >= right {
      Unsorted(before, left, right + 1, cmp);
    }
    hide Preorder, Rearranged;
  }

  /** isort's outer loop. */
  method InsertionSort(v: array<int>, lo: int, hi: int, cmp: Comparator)
    requires lo < hi ==> 0 <= lo && hi < v.Length
    modifies v
    ensures Sorts(old(v[..]), v[..], lo, hi, cmp)
  {
    hide Leq, Less, Preorder, Rearranged, SortedBetween;
    if lo < hi {
      Unsorted(v[..], lo, lo + 1, cmp);
      Unsorted(v[..], lo, hi + 1, cmp);
    }
    var i := lo + 1;
    while i <= hi
      invariant lo >= hi ==> v[..] == old(v[..])
      invariant lo < hi ==> lo < i <= hi + 1 && Rearranged(old(v[..]), v[..], lo, hi + 1)
      invariant lo < hi && Preorder(cmp) ==> SortedBetween(v[..], lo, i, cmp)
    {
      ghost var before := v[..];
      Insert(v, lo, i, hi, cmp);
      RearrangedThen(old(v[..]), before, v[..], lo, hi + 1);
      i := i + 1;
    }
  }

  // ----- partitioning

  /** The slice left..j is split at `i` into elements below the pivot and elements that are not. */
  ghost predicate SplitAt(s: seq<int>, left: nat, i: nat, j: nat, pivot: int, cmp: Comparator)
    requires left <= i <= j <= |s|
  {
    && (forall k :: left <= k < i ==> Less(s[k], pivot, cmp))
    && (forall k :: i <= k < j ==> !Less(s[k], pivot, cmp))
  }

  lemma SplitNext(s: seq<int>, left: nat, i: nat, j: nat, pivot: int, cmp: Comparator)
    requires left <= i <= j < |s| && SplitAt(s, left, i, j, pivot, cmp)
    ensures if Less(s[j], pivot, cmp) then SplitAt(Swapped(s, i, j), left, i + 1, j + 1, pivot, cmp)
            else SplitAt(s, left, i, j + 1, pivot, cmp)
  {
    hide Leq, Less;
  }

  /** The pivot at `i` has smaller elements on its left and no smaller ones on its right. */
  ghost predicate Parted(s: seq<int>, left: nat, i: nat, right: nat, cmp: Comparator)
    requires left <= i <= right < |s|
  {
    && (forall k :: left <= k < i ==> Less(s[k], s[i], cmp))
    && (forall k :: i < k <= right ==> !Less(s[k], s[i], cmp))
  }

  lemma PivotInPlace(s: seq<int>, left: nat, i: nat, right: nat, cmp: Comparator)
    requires left <= i <= right < |s| && SplitAt(s, left, i, right, s[right], cmp)
    ensures Parted(Swapped(s, i, right), left, i, right, cmp)
  {
    hide Leq, Less;
  }

  /** Where the partition loop stands at `j`. */
  ghost predicate Partitioning(start: seq<int>, s: seq<int>, left: nat, i: nat, j: nat, right: nat, cmp: Comparator)
    requires left <= i <= j <= right < |start|
  {
    Rearranged(start, s, left, right + 1) && s[right] == start[right] && SplitAt(s, left, i, j, s[right], cmp)
  }

  lemma PartitioningStep(start: seq<int>, s: seq<int>, left: nat, i: nat, j: nat, right: nat, cmp: Comparator)
    requires left <= i <= j < right < |start| == |s| && Partitioning(start, s, left, i, j, right, cmp)
    ensures if Less(s[j], start[right], cmp) then Partitioning(start, Swapped(s, i, j), left, i + 1, j + 1, right, cmp)
            else Partitioning(start, s, left, i, j + 1, right, cmp)
  {
    hide Less, Rearranged, SplitAt, Swapped;
    SplitNext(s, left, i, j, s[right], cmp);
    if Less(s[j], start[right], cmp) {
      SwapRearranges(start, s, i, j, left, right + 1);
      LeavesAlone(s, i, j, right);
    }
  }

  lemma Partitioned(start: seq<int>, s: seq<int>, left: nat, i: nat, right: nat, cmp: Comparator)
    requires left <= i <= right < |start| == |s| && Partitioning(start, s, left, i, right, right, cmp)
    ensures Rearranged(start, Swapped(s, i, right), left, right + 1) && Parted(Swapped(s, i, right), left, i, right, cmp)
  {
    hide Less, SplitAt, Parted;
    PivotInPlace(s, left, i, right, cmp);
    SwapRearranges(start, s, i, right, left, right + 1);
  }

  /** The partition loop, and the pivot put in its place. */
  method Partition(v: array<int>, left: nat, right: nat, cmp: Comparator) returns (i: nat)
    requires left < right < v.Length
    modifies v
    ensures left <= i <= right && Rearranged(old(v[..]), v[..], left, right + 1)
    ensures Parted(v[..], left, i, right, cmp)
  {
    ghost var start := v[..];
    assert Partitioning(start, start, left, left, left, right, cmp);
    hide Rearranged, Swapped, Parted, Partitioning, Less, SplitAt;
    var pivot := v[right];
    i := left;
    for j := left to right
      invariant left <= i <= j && Partitioning(start, v[..], left, i, j, right, cmp)
    {
      PartitioningStep(start, v[..], left, i, j, right, cmp);
      if Less(v[j], pivot, cmp) {
        Swap(v, i, j);
        i := i + 1;
      }
    }
    Partitioned(start, v[..], left, i, right, cmp);
    Swap(v, i, right);
  }

  /** Both sides sorted around a pivot that separates them: the whole slice is sorted. */
  lemma JoinSorted(s: seq<int>, left: nat, i: nat, right: nat, cmp: Comparator)
    requires Preorder(cmp) && left <= i <= right < |s|
    requires SortedBetween(s, left, i, cmp) && SortedBetween(s, i + 1, right + 1, cmp)
    requires Parted(s, left, i, right, cmp)
    ensures SortedBetween(s, left, right + 1, cmp)
  {
    forall p, q | left <= p < q < right + 1 ensures Leq(s[p], s[q], cmp) {
      if q < i || i < p {
      } else {
        assert p <= i ==> Leq(s[p], s[i], cmp);
        assert q > i ==> Leq(s[i], s[q], cmp);
      }
    }
  }

  /** Rearranging one side of the pivot leaves it on that side. */
  lemma SideKept(a: seq<int>, b: seq<int>, lo: nat, hi: nat, pivot: int, cmp: Comparator)
    requires lo <= hi <= |a| && Rearranged(a, b, lo, hi)
    ensures (forall k :: lo <= k < hi ==> Less(a[k], pivot, cmp)) ==> forall k :: lo <= k < hi ==> Less(b[k], pivot, cmp)
    ensures (forall k :: lo <= k < hi ==> !Less(a[k], pivot, cmp)) ==> forall k :: lo <= k < hi ==> !Less(b[k], pivot, cmp)
  {
    hide Leq, Less;
    forall k | lo <= k < hi
      ensures exists from :: lo <= from < hi && a[from] == b[k]
    {
      var from := CameFrom(a, b, lo, hi, k);
    }
  }

  /** Nothing outside a rearranged slice moves. */
  lemma Outside(a: seq<int>, b: seq<int>, lo: nat, hi: nat)
    requires lo <= hi <= |a| && Rearranged(a, b, lo, hi)
    ensures forall k :: 0 <= k < lo || hi <= k < |a| ==> a[k] == b[k]
  {
    forall k | 0 <= k < lo || hi <= k < |a| ensures a[k] == b[k] {
      if k < lo {
        assert a[k] == a[..lo][k] && b[k] == b[..lo][k];
      } else {
        assert a[k] == a[hi..][k - hi] && b[k] == b[hi..][k - hi];
      }
    }
  }

  /** Sorting the two sides leaves the pivot and the sides where they are. */
  lemma StillParted(a: seq<int>, b: seq<int>, c: seq<int>, left: nat, i: nat, right: nat, cmp: Comparator)
    requires left <= i <= right < |a| && Rearranged(a, b, left, i) && Rearranged(b, c, i + 1, right + 1)
    requires Parted(a, left, i, right, cmp)
    ensures Parted(c, left, i, right, cmp) && forall k :: left <= k < i ==> b[k] == c[k]
  {
    hide Leq, Less;
    Outside(a, b, left, i);
    Outside(b, c, i + 1, right + 1);
    SideKept(a, b, left, i, a[i], cmp);
    SideKept(b, c, i + 1, right + 1, a[i], cmp);
    hide Rearranged;
  }

  /** The two recursive calls, as values: `b` is the partitioned slice with the left side sorted, `c` with
      the right side sorted as well. */
  lemma SidesJoin(a: seq<int>, b: seq<int>, c: seq<int>, left: nat, i: nat, right: nat, cmp: Comparator)
    requires left <= i <= right < |a| && Rearranged(a, b, left, i) && Rearranged(b, c, i + 1, right + 1)
    requires Parted(a, left, i, right, cmp)
    requires Preorder(cmp) ==> SortedBetween(b, left, i, cmp) && SortedBetween(c, i + 1, right + 1, cmp)
    ensures Rearranged(a, c, left, right + 1)
    ensures Preorder(cmp) ==> SortedBetween(c, left, right + 1, cmp)
  {
    hide Preorder, SortedBetween, Parted;
    StillParted(a, b, c, left, i, right, cmp);
    RearrangedPart(a, b, left, i, left, right + 1);
    RearrangedPart(b, c, i + 1, right + 1, left, right + 1);
    RearrangedThen(a, b, c, left, right + 1);
    if Preorder(cmp) {
      SortedSame(b, c, left, i, cmp);
      JoinSorted(c, left, i, right, cmp);
    }
    hide Rearranged;
  }

  lemma SortedSame(a: seq<int>, b: seq<int>, lo: nat, hi: nat, cmp: Comparator)
    requires |a| == |b| && lo <= hi <= |a| && SortedBetween(a, lo, hi, cmp)
    requires forall k :: lo <= k < hi ==> a[k] == b[k]
    ensures SortedBetween(b, lo, hi, cmp)
  {
    hide Leq;
  }

  /** Qsort, with any cutoff. */
  method Qsort(v: array<int>, left: int, right: int, cmp: Comparator, cutOff: int)
    requires left < right ==> 0 <= left && right < v.Length
    modifies v
    ensures Sorts(old(v[..]), v[..], left, right, cmp)
    decreases right - left + 1
  {
    hide Leq, Less, Preorder, SortedBetween, Rearranged, Parted;
    var sz := right - left + 1;
    if sz < 2 {
      return;
    }
    if sz <= cutOff {
      InsertionSort(v, left, right, cmp);
      return;
    }
    ghost var start := v[..];
    var i: int := Partition(v, left, right, cmp);
    ghost var parted := v[..];
    Qsort(v, left, i - 1, cmp, cutOff);
    ghost var halfway := v[..];
    SortsSlice(parted, halfway, left, i - 1, cmp);
    Qsort(v, i + 1, right, cmp, cutOff);
    SortsSlice(halfway, v[..], i + 1, right, cmp);
    SidesJoin(parted, halfway, v[..], left, i, right, cmp);
    RearrangedThen(start, parted, v[..], left, right + 1);
  }

  // ----- the cutoff does not matter

  /** How many elements of `s` come after `t` in the order. */
  ghost function After(s: seq<int>, t: int, cmp: Comparator): nat {
    if s == [] then 0 else (if Less(t, s[|s| - 1], cmp) then 1 else 0) + After(s[..|s| - 1], t, cmp)
  }

  lemma {:induction false} AfterConcat(a: seq<int>, b: seq<int>, t: int, cmp: Comparator)
    ensures After(a + b, t, cmp) == After(a, t, cmp) + After(b, t, cmp)
    decreases |b|
  {
    hide Leq, Less;
    if b == [] {
      assert a + b == a;
    } else {
      var front := b[..|b| - 1];
      AfterConcat(a, front, t, cmp);
      assert (a + b)[..|a + b| - 1] == a + front;
    }
  }

  /** Taking one element out of a list. */
  lemma AfterWithout(b: seq<int>, x: int, t: int, cmp: Comparator) returns (rest: seq<int>)
    requires x in b
    ensures multiset(rest) == multiset(b) - multiset{x}
    ensures After(b, t, cmp) == After(rest, t, cmp) + (if Less(t, x, cmp) then 1 else 0)
  {
    hide Leq, Less;
    var i :| 0 <= i < |b| && b[i] == x;
    rest := b[..i] + b[i + 1..];
    assert b == b[..i] + [x] + b[i + 1..];
    assert After([x], t, cmp) == if Less(t, x, cmp) then 1 else 0;
    hide After;
    AfterConcat(b[..i], b[i + 1..], t, cmp);
    AfterConcat(b[..i], [x], t, cmp);
    AfterConcat(b[..i] + [x], b[i + 1..], t, cmp);
  }

  /** The number depends on the elements only, not on their places. */
  lemma {:induction false} AfterRearranged(a: seq<int>, b: seq<int>, t: int, cmp: Comparator)
    requires multiset(a) == multiset(b)
    ensures After(a, t, cmp) == After(b, t, cmp)
    decreases |a|
  {
    hide Leq, Less;
    if a == [] {
      assert |multiset(b)| == 0;
    } else {
      var x, front := a[|a| - 1], a[..|a| - 1];
      assert a == front + [x];
      assert x in multiset(b);
      var rest := AfterWithout(b, x, t, cmp);
      AfterRearranged(front, rest, t, cmp);
    }
  }

  lemma {:induction false} AfterBounds(s: seq<int>, t: int, cmp: Comparator)
    ensures After(s, t, cmp) <= |s|
    ensures (forall k :: 0 <= k < |s| ==> Less(t, s[k], cmp)) ==> After(s, t, cmp) == |s|
    ensures (forall k :: 0 <= k < |s| ==> !Less(t, s[k], cmp)) ==> After(s, t, cmp) == 0
    decreases |s|
  {
    hide Leq, Less;
    if s != [] {
      AfterBounds(s[..|s| - 1], t, cmp);
    }
  }

  lemma FewAfter(a: seq<int>, k: nat, t: int, cmp: Comparator)
    requires k <= |a| && forall q :: 0 <= q < k ==> !Less(t, a[q], cmp)
    ensures After(a, t, cmp) <= |a| - k
  {
    assert a == a[..k] + a[k..];
    hide Leq, Less;
    AfterConcat(a[..k], a[k..], t, cmp);
    AfterBounds(a[..k], t, cmp);
    AfterBounds(a[k..], t, cmp);
    hide After;
  }

  lemma ManyAfter(a: seq<int>, k: nat, t: int, cmp: Comparator)
    requires k <= |a| && forall q :: k <= q < |a| ==> Less(t, a[q], cmp)
    ensures After(a, t, cmp) >= |a| - k
  {
    assert a == a[..k] + a[k..];
    hide Leq, Less;
    AfterConcat(a[..k], a[k..], t, cmp);
    AfterBounds(a[k..], t, cmp);
    hide After;
  }

  /** No sorted arrangement has a smaller element at any place than another one. */
  lemma NotBefore(a: seq<int>, b: seq<int>, k: nat, cmp: Comparator)
    requires Preorder(cmp) && multiset(a) == multiset(b) && k < |a| == |b|
    requires SortedBetween(a, 0, |a|, cmp) && SortedBetween(b, 0, |b|, cmp)
    ensures !Less(a[k], b[k], cmp)
  {
    var t := a[k];
    if Less(t, b[k], cmp) {
      forall q | 0 <= q < k + 1 ensures !Less(t, a[q], cmp) {
        assert q < k ==> Leq(a[q], a[k], cmp);
      }
      forall q | k <= q < |b| ensures Less(t, b[q], cmp) {
        assert q > k ==> Leq(b[k], b[q], cmp);
        assert !Leq(b[k], t, cmp);
      }
      hide Preorder, SortedBetween, Less, Leq;
      FewAfter(a, k + 1, t, cmp);
      ManyAfter(b, k, t, cmp);
      AfterRearranged(a, b, t, cmp);
      hide After;
      assert false;
    }
  }

  /** What two cutoffs leave of one array has equivalent elements in every place, whatever the order. */
  lemma CutoffsAgree(before: seq<int>, x: seq<int>, y: seq<int>, left: int, right: int, cmp: Comparator)
    requires Preorder(cmp) && (left < right ==> 0 <= left && right < |before|)
    requires Sorts(before, x, left, right, cmp) && Sorts(before, y, left, right, cmp)
    ensures |x| == |y| && forall k :: 0 <= k < |x| ==> cmp(x[k], y[k]) == 0
  {
    forall k | 0 <= k < |x| ensures cmp(x[k], y[k]) == 0 {
      assert Leq(x[k], x[k], cmp) && !Less(x[k], x[k], cmp);
      if left < right {
        Outside(before, x, left, right + 1);
        Outside(before, y, left, right + 1);
        if left <= k <= right {
          SlicesAgree(before, x, y, left, right + 1, k, cmp);
        }
      }
      hide Sorts, Preorder;
    }
  }

  lemma SlicesAgree(before: seq<int>, x: seq<int>, y: seq<int>, lo: nat, hi: nat, k: nat, cmp: Comparator)
    requires Preorder(cmp) && lo <= k < hi <= |before|
    requires Rearranged(before, x, lo, hi) && SortedBetween(x, lo, hi, cmp)
    requires Rearranged(before, y, lo, hi) && SortedBetween(y, lo, hi, cmp)
    ensures Leq(x[k], y[k], cmp) && !Less(x[k], y[k], cmp)
  {
    assert SortedBetween(x[lo..hi], 0, hi - lo, cmp) && SortedBetween(y[lo..hi], 0, hi - lo, cmp);
    hide SortedBetween, Leq, Less;
    NotBefore(x[lo..hi], y[lo..hi], k - lo, cmp);
    NotBefore(y[lo..hi], x[lo..hi], k - lo, cmp);
    assert x[lo..hi][k - lo] == x[k] && y[lo..hi][k - lo] == y[k];
    hide Rearranged;
  }

  /** Sorted under int_cmp is ascending. */
  lemma SortedIsAscending(s: seq<int>, lo: int, hi: int)
    requires lo < hi ==> 0 <= lo && hi <= |s|
    ensures SortedBetween(s, lo, hi, IntCmp) <==> forall p, q :: lo <= p < q < hi ==> s[p] <= s[q]
  {
    assert forall a, b :: Leq(a, b, IntCmp) <==> a <= b;
  }

  /** Under int_cmp every cutoff gives the same array. */
  lemma CutoffDoesNotMatter(before: seq<int>, x: seq<int>, y: seq<int>, left: int, right: int)
    requires left < right ==> 0 <= left && right < |before|
    requires Sorts(before, x, left, right, IntCmp) && Sorts(before, y, left, right, IntCmp)
    ensures x == y
  {
    IntCmpIsTotalOrder();
    CutoffsAgree(before, x, y, left, right, IntCmp);
  }
}
