/** analyzeSections: grouping the sectioned loops of a loop tree into multi-dimensional sections. */
module LoopSections {
  import opened Options

  datatype Loop = Loop(name: nat, section: Option<nat>, kids: seq<Loop>)

  /** One dimension of a section group: a loop's name and its section size. */
  datatype Dim = Dim(name: nat, size: nat)

  /** A path from the root: which child to take at each level. */
  type Path = seq<nat>

  predicate Has(t: Loop, p: Path) {
    p == [] || (p[0] < |t.kids| && Has(t.kids[p[0]], p[1..]))
  }

  function At(t: Loop, p: Path): Loop
    requires Has(t, p)
  {
    if p == [] then t else At(t.kids[p[0]], p[1..])
  }

  /** A loop that passes its section on to its only child. */
  predicate Links(t: Loop) {
    t.section.Some? && |t.kids| == 1 && t.kids[0].section.Some?
  }

  /** `p` starts a maximal downward chain: it is sectioned, and no parent links to it. */
  predicate StartsChain(t: Loop, p: Path) {
    Has(t, p) && At(t, p).section.Some? && (p == [] || !(Has(t, p[..|p| - 1]) && Links(At(t, p[..|p| - 1]))))
  }

  /** The chain of linked sectioned loops that goes down from `t`. */
  function Chain(t: Loop): seq<Dim>
    decreases t
  {
    if t.section.None? then []
    else [Dim(t.name, t.section.value)] + (if |t.kids| == 1 then Chain(t.kids[0]) else [])
  }

  /** The loop where the walk down the spine stops: the last sectioned loop, or the first loop without a section. */
  function Stop(t: Loop): Loop
    decreases t
  {
    if t.section.Some? && |t.kids| == 1 then Stop(t.kids[0]) else t
  }

  function Depth(t: Loop): (n: nat)
    ensures forall i :: 0 <= i < |t.kids| ==> Depth(t.kids[i]) < n
    decreases t
  {
    1 + MaxDepth(t.kids)
  }

  function MaxDepth(ts: seq<Loop>): (n: nat)
    ensures forall i :: 0 <= i < |ts| ==> Depth(ts[i]) <= n
    decreases ts
  {
    if ts == [] then 0
    else
      var a, b := Depth(ts[0]), MaxDepth(ts[1..]);
      assert forall i :: 1 <= i < |ts| ==> ts[i] == ts[1..][i - 1];
      if a > b then a else b
  }

  /** How many levels the walk goes down. */
  function Down(t: Loop): nat
    decreases t
  {
    if t.section.Some? && |t.kids| == 1 then 1 + Down(t.kids[0]) else 0
  }

  function Zeros(n: nat): Path {
    seq(n, _ => 0)
  }

  /** The walk down the spine until a fork, a leaf or a loop without a section. */
  method WalkSpine(root: Loop) returns (dims: seq<Dim>, cur: Loop)
    ensures dims == Chain(root) && cur == Stop(root)
  {
    dims := [];
    cur := root;
    var sectionSz := cur.section;
    while sectionSz.Some?
      invariant sectionSz.Some? ==> sectionSz == cur.section
      invariant sectionSz.Some? ==> Chain(root) == dims + Chain(cur) && Stop(root) == Stop(cur)
      invariant sectionSz.None? ==> Chain(root) == dims && Stop(root) == cur
      decreases sectionSz.Some?, cur
    {
      ChainStep(dims, cur);
      dims := dims + [Dim(cur.name, sectionSz.value)];
      if |cur.kids| != 1 {
        sectionSz := None;
      } else {
        cur := cur.kids[0];
        sectionSz := cur.section;
      }
    }
  }

  lemma ChainStep(dims: seq<Dim>, t: Loop)
    requires t.section.Some?
    ensures var after := dims + [Dim(t.name, t.section.value)];
            dims + Chain(t) == if |t.kids| != 1 then after else after + Chain(t.kids[0])
    ensures Stop(t) == if |t.kids| != 1 then t else Stop(t.kids[0])
    ensures |t.kids| == 1 && t.kids[0].section.None? ==> Chain(t.kids[0]) == [] && Stop(t.kids[0]) == t.kids[0]
  {
  }

  /** The program: walk down the spine collecting dimensions, emit the group if it has two or more, and go
      on below the loop where the walk stopped.  `starts` says, as a ghost, where each group begins. */
  method AnalyzeSections(root: Loop, ghost at: Path) returns (xforms: seq<seq<Dim>>, ghost starts: seq<Path>)
    ensures xforms == Groups(root, at).0
    ensures starts == Groups(root, at).1
    decreases Depth(root), 1
  {
    var dims, cur := WalkSpine(root);
    xforms := [];
    if |dims| >= 2 {
      xforms := [dims];
    }
    var below;
    StopIsShallower(root);
    below, starts := AnalyzeBelow(cur, at + Zeros(Down(root)), |cur.kids|);
    xforms := xforms + below;
    if |dims| >= 2 {
      starts := [at] + starts;
    } else {
      assert [] + below == below;
    }
  }

  /** The recursive processing of the first `n` children. */
  method AnalyzeBelow(cur: Loop, ghost at: Path, n: nat) returns (xforms: seq<seq<Dim>>, ghost starts: seq<Path>)
    requires n <= |cur.kids|
    ensures xforms == Below(cur, at, n).0
    ensures starts == Below(cur, at, n).1
    decreases Depth(cur), 0
  {
    xforms, starts := [], [];
    for i := 0 to n
      invariant xforms == Below(cur, at, i).0 && starts == Below(cur, at, i).1
    {
      ghost var more;
      var found;
      found, more := AnalyzeSections(cur.kids[i], at + [i]);
      xforms := xforms + found;
      starts := starts + more;
    }
  }

  ghost function FirstGroup(root: Loop, at: Path, below: (seq<seq<Dim>>, seq<Path>)): (seq<seq<Dim>>, seq<Path>) {
    if |Chain(root)| >= 2 then ([Chain(root)] + below.0, [at] + below.1) else below
  }

  lemma StopIsShallower(t: Loop)
    ensures Depth(Stop(t)) <= Depth(t)
    decreases t
  {
  }

  /** The groups of a tree rooted at path `at`, with the paths where they begin. */
  ghost function Groups(root: Loop, at: Path): (seq<seq<Dim>>, seq<Path>)
    decreases Depth(root), 0
  {
    StopIsShallower(root);
    FirstGroup(root, at, Below(Stop(root), at + Zeros(Down(root)), |Stop(root).kids|))
  }

  ghost function Below(cur: Loop, at: Path, n: nat): (seq<seq<Dim>>, seq<Path>)
    requires n <= |cur.kids|
    decreases Depth(cur), 0, n
  {
    if n == 0 then ([], [])
    else
      var first, last := Below(cur, at, n - 1), Groups(cur.kids[n - 1], at + [n - 1]);
      (first.0 + last.0, first.1 + last.1)
  }

  // ----- a plain reference: visit every loop, and emit the chain of each one that no parent links to

  ghost function Sections(t: Loop, at: Path, linked: bool): (seq<seq<Dim>>, seq<Path>)
    decreases Depth(t), 1, 0
  {
    var kids := KidSections(t, at, |t.kids|);
    if !linked && |Chain(t)| >= 2 then ([Chain(t)] + kids.0, [at] + kids.1) else kids
  }

  ghost function KidSections(t: Loop, at: Path, n: nat): (seq<seq<Dim>>, seq<Path>)
    requires n <= |t.kids|
    decreases Depth(t), 0, n
  {
    if n == 0 then ([], [])
    else
      var first, last := KidSections(t, at, n - 1), Sections(t.kids[n - 1], at + [n - 1], Links(t));
      (first.0 + last.0, first.1 + last.1)
  }

  /** The walk down the spine skips exactly the loops that emit nothing. */
  lemma {:induction false} SpineEmitsNothing(t: Loop, at: Path)
    ensures KidSections(t, at, |t.kids|) == Below(Stop(t), at + Zeros(Down(t)), |Stop(t).kids|)
    decreases Depth(t), 0
  {
    if t.section.Some? && |t.kids| == 1 {
      var kid := t.kids[0];
      SpineEmitsNothing(kid, at + [0]);
      assert at + [0] + Zeros(Down(kid)) == at + Zeros(Down(t));
      var k := KidSections(kid, at + [0], |kid.kids|);
      assert Sections(kid, at + [0], Links(t)) == k;
      assert KidSections(t, at, 1).0 == [] + k.0 && KidSections(t, at, 1).1 == [] + k.1;
      assert [] + k.0 == k.0 && [] + k.1 == k.1;
    } else {
      assert at + Zeros(0) == at;
      BelowIsKids(t, at, |t.kids|);
    }
  }

  lemma {:induction false} BelowIsKids(t: Loop, at: Path, n: nat)
    requires n <= |t.kids| && !Links(t)
    ensures KidSections(t, at, n) == Below(t, at, n)
    decreases Depth(t), 0, n
  {
    if n > 0 {
      BelowIsKids(t, at, n - 1);
      GroupsAreSections(t.kids[n - 1], at + [n - 1]);
    }
  }

  /** The program's walk computes the plain reference. */
  lemma {:induction false} GroupsAreSections(t: Loop, at: Path)
    ensures Groups(t, at) == Sections(t, at, false)
    decreases Depth(t), 1
  {
    SpineEmitsNothing(t, at);
  }

  // ----- what the reference emits

  /** `r` starts a chain inside `t`, when `linked` says whether `t` itself is linked to from above. */
  predicate IsStart(t: Loop, r: Path, linked: bool) {
    Has(t, r) && At(t, r).section.Some? && (if r == [] then !linked else Has(t, r[..|r| - 1]) && !Links(At(t, r[..|r| - 1])))
  }

  predicate IsGroup(t: Loop, r: Path, linked: bool) {
    IsStart(t, r, linked) && |Chain(At(t, r))| >= 2
  }

  /** `out` lists the groups inside `t`, whose root is at path `at`: each with its start, once. */
  ghost predicate Lists(t: Loop, at: Path, linked: bool, out: (seq<seq<Dim>>, seq<Path>)) {
    && |out.0| == |out.1|
    && (forall k :: 0 <= k < |out.1| ==>
          at <= out.1[k] && IsGroup(t, out.1[k][|at|..], linked) && out.0[k] == Chain(At(t, out.1[k][|at|..])))
    && (forall r :: IsGroup(t, r, linked) ==> at + r in out.1)
    && (forall i, j :: 0 <= i < j < |out.1| ==> out.1[i] != out.1[j])
  }

  /** The same for the groups inside the first `n` children. */
  ghost predicate ListsKids(t: Loop, at: Path, n: nat, out: (seq<seq<Dim>>, seq<Path>))
    requires n <= |t.kids|
  {
    && |out.0| == |out.1|
    && (forall k :: 0 <= k < |out.1| ==>
          && at < out.1[k] && out.1[k][|at|] < n
          && IsGroup(t.kids[out.1[k][|at|]], out.1[k][|at| + 1..], Links(t))
          && out.0[k] == Chain(At(t.kids[out.1[k][|at|]], out.1[k][|at| + 1..])))
    && (forall i, r :: 0 <= i < n && IsGroup(t.kids[i], r, Links(t)) ==> at + [i] + r in out.1)
    && (forall i, j :: 0 <= i < j < |out.1| ==> out.1[i] != out.1[j])
  }

  /** A start below the root of `t` is a start inside one of its children. */
  lemma StartInKid(t: Loop, i: nat, r: Path, linked: bool)
    requires i < |t.kids|
    ensures Has(t, [i] + r) <==> Has(t.kids[i], r)
    ensures Has(t.kids[i], r) ==> At(t, [i] + r) == At(t.kids[i], r)
    ensures IsStart(t, [i] + r, linked) <==> IsStart(t.kids[i], r, Links(t))
  {
    assert ([i] + r)[1..] == r;
    if r == [] {
      assert ([i] + r)[..|[i] + r| - 1] == [];
    } else {
      assert ([i] + r)[..|[i] + r| - 1] == [i] + r[..|r| - 1];
      assert ([i] + r[..|r| - 1])[1..] == r[..|r| - 1];
    }
  }

  lemma {:induction false} KidsListed(t: Loop, at: Path, n: nat)
    requires n <= |t.kids|
    ensures ListsKids(t, at, n, KidSections(t, at, n))
    decreases Depth(t), 0, n
  {
    if n > 0 {
      KidsListed(t, at, n - 1);
      SectionsListed(t.kids[n - 1], at + [n - 1], Links(t));
      AppendKid(t, at, n - 1, KidSections(t, at, n - 1), Sections(t.kids[n - 1], at + [n - 1], Links(t)));
    }
  }

  lemma AppendKid(t: Loop, at: Path, n: nat, a: (seq<seq<Dim>>, seq<Path>), b: (seq<seq<Dim>>, seq<Path>))
    requires n < |t.kids|
    requires ListsKids(t, at, n, a) && Lists(t.kids[n], at + [n], Links(t), b)
    ensures ListsKids(t, at, n + 1, (a.0 + b.0, a.1 + b.1))
  {
    var ps := a.1 + b.1;
    hide IsGroup, Chain, At, Has;
    forall k | 0 <= k < |b.1|
      ensures at < b.1[k] && b.1[k][|at|] == n && b.1[k][|at| + 1..] == b.1[k][|at + [n]|..]
    {
      assert at + [n] <= b.1[k];
    }
    forall i, r | 0 <= i < n + 1 && IsGroup(t.kids[i], r, Links(t)) ensures at + [i] + r in ps {
      if i == n {
        assert at + [n] + r in b.1;
      } else {
        assert at + [i] + r in a.1;
      }
    }
  }

  lemma {:induction false} SectionsListed(t: Loop, at: Path, linked: bool)
    ensures Lists(t, at, linked, Sections(t, at, linked))
    decreases Depth(t), 1, 0
  {
    KidsListed(t, at, |t.kids|);
    AddRoot(t, at, linked, KidSections(t, at, |t.kids|));
  }

  lemma KidGroupIsGroup(t: Loop, at: Path, linked: bool, p: Path, chain: seq<Dim>)
    requires at < p && p[|at|] < |t.kids| && IsGroup(t.kids[p[|at|]], p[|at| + 1..], Links(t))
    requires chain == Chain(At(t.kids[p[|at|]], p[|at| + 1..]))
    ensures IsGroup(t, p[|at|..], linked) && chain == Chain(At(t, p[|at|..]))
  {
    var i, r := p[|at|], p[|at| + 1..];
    assert p[|at|..] == [i] + r;
    StartInKid(t, i, r, linked);
  }

  lemma GroupBelowIsKidGroup(t: Loop, at: Path, linked: bool, r: Path, ps: seq<Path>)
    requires forall i, q :: 0 <= i < |t.kids| && IsGroup(t.kids[i], q, Links(t)) ==> at + [i] + q in ps
    requires r != [] && IsGroup(t, r, linked)
    ensures at + r in ps
  {
    assert r == [r[0]] + r[1..];
    StartInKid(t, r[0], r[1..], linked);
    assert at + [r[0]] + r[1..] in ps;
    assert at + [r[0]] + r[1..] == at + r;
  }

  /** The groups inside `t` other than the one its root may start. */
  ghost predicate ListsBelow(t: Loop, at: Path, linked: bool, out: (seq<seq<Dim>>, seq<Path>)) {
    && |out.0| == |out.1|
    && (forall k :: 0 <= k < |out.1| ==>
          at < out.1[k] && IsGroup(t, out.1[k][|at|..], linked) && out.0[k] == Chain(At(t, out.1[k][|at|..])))
    && (forall r :: r != [] && IsGroup(t, r, linked) ==> at + r in out.1)
    && (forall i, j :: 0 <= i < j < |out.1| ==> out.1[i] != out.1[j])
  }

  lemma KidsAreBelow(t: Loop, at: Path, linked: bool, kids: (seq<seq<Dim>>, seq<Path>))
    requires ListsKids(t, at, |t.kids|, kids)
    ensures ListsBelow(t, at, linked, kids)
  {
    forall k | 0 <= k < |kids.1|
      ensures IsGroup(t, kids.1[k][|at|..], linked) && kids.0[k] == Chain(At(t, kids.1[k][|at|..]))
    {
      KidGroupIsGroup(t, at, linked, kids.1[k], kids.0[k]);
    }
    forall r | r != [] && IsGroup(t, r, linked) ensures at + r in kids.1 {
      GroupBelowIsKidGroup(t, at, linked, r, kids.1);
    }
    hide IsGroup, Chain, At, Has;
  }

  lemma AddRoot(t: Loop, at: Path, linked: bool, kids: (seq<seq<Dim>>, seq<Path>))
    requires ListsKids(t, at, |t.kids|, kids)
    ensures Lists(t, at, linked, if !linked && |Chain(t)| >= 2 then ([Chain(t)] + kids.0, [at] + kids.1) else kids)
  {
    KidsAreBelow(t, at, linked, kids);
    assert At(t, []) == t;
    assert IsGroup(t, [], linked) <==> !linked && |Chain(t)| >= 2;
    hide IsGroup, Chain, At, Has, ListsKids;
    if !linked && |Chain(t)| >= 2 {
      WithRoot(t, at, linked, kids);
    } else {
      hide Lists;
      WithoutRoot(t, at, linked, kids);
    }
  }

  lemma WithRoot(t: Loop, at: Path, linked: bool, kids: (seq<seq<Dim>>, seq<Path>))
    requires ListsBelow(t, at, linked, kids) && IsGroup(t, [], linked)
    ensures Lists(t, at, linked, ([Chain(t)] + kids.0, [at] + kids.1))
  {
    RootIsRight(t, at, linked, kids);
    RootIsFirst(t, at, linked, kids);
    assert |kids.0| == |kids.1|;
    hide IsGroup, Chain, At, Has, ListsBelow;
  }

  lemma RootIsRight(t: Loop, at: Path, linked: bool, kids: (seq<seq<Dim>>, seq<Path>))
    requires ListsBelow(t, at, linked, kids) && IsGroup(t, [], linked)
    ensures var out := ([Chain(t)] + kids.0, [at] + kids.1);
            forall k :: 0 <= k < |out.1| ==>
              at <= out.1[k] && IsGroup(t, out.1[k][|at|..], linked) && out.0[k] == Chain(At(t, out.1[k][|at|..]))
  {
    assert At(t, []) == t && at[|at|..] == [];
    hide IsGroup, Chain, At, Has;
    var out := ([Chain(t)] + kids.0, [at] + kids.1);
    forall k | 0 <= k < |out.1|
      ensures at <= out.1[k] && IsGroup(t, out.1[k][|at|..], linked) && out.0[k] == Chain(At(t, out.1[k][|at|..]))
    {
      if k > 0 {
        assert out.1[k] == kids.1[k - 1] && out.0[k] == kids.0[k - 1];
      } else {
        assert out.1[k] == at && out.0[k] == Chain(t);
      }
    }
  }

  /** With the root in front, every group has its place and no two places are the same. */
  lemma RootIsFirst(t: Loop, at: Path, linked: bool, kids: (seq<seq<Dim>>, seq<Path>))
    requires ListsBelow(t, at, linked, kids)
    ensures forall r :: IsGroup(t, r, linked) ==> at + r in [at] + kids.1
    ensures forall i, j :: 0 <= i < j < |[at] + kids.1| ==> ([at] + kids.1)[i] != ([at] + kids.1)[j]
  {
    hide IsGroup, Chain, At, Has;
    var ps := [at] + kids.1;
    forall r | IsGroup(t, r, linked) ensures at + r in ps {
      if r == [] {
        assert at + r == ps[0];
      } else {
        assert at + r in kids.1;
      }
    }
    forall i, j | 0 <= i < j < |ps| ensures ps[i] != ps[j] {
      assert ps[j] == kids.1[j - 1];
      if i > 0 {
        assert ps[i] == kids.1[i - 1];
      } else {
        assert ps[i] == at && at < kids.1[j - 1];
      }
    }
  }

  lemma WithoutRoot(t: Loop, at: Path, linked: bool, kids: (seq<seq<Dim>>, seq<Path>))
    requires ListsBelow(t, at, linked, kids) && !IsGroup(t, [], linked)
    ensures Lists(t, at, linked, kids)
  {
    hide IsGroup, Chain, At, Has;
  }

  // ----- the order of the groups

  /** `p` is met before `q` on a walk that visits each loop before its children, and those from first to last. */
  predicate Precedes(p: Path, q: Path) {
    q != [] && (p == [] || p[0] < q[0] || (p[0] == q[0] && Precedes(p[1..], q[1..])))
  }

  predicate InOrder(ps: seq<Path>) {
    forall i, j :: 0 <= i < j < |ps| ==> Precedes(ps[i], ps[j])
  }

  lemma {:induction false} PrefixPrecedes(at: Path, q: Path)
    requires at < q
    ensures Precedes(at, q)
    decreases |at|
  {
    if at != [] {
      assert at[1..] == q[1..][..|at| - 1];
      PrefixPrecedes(at[1..], q[1..]);
    }
  }

  lemma {:induction false} EarlierKidPrecedes(at: Path, p: Path, q: Path)
    requires at < p && at < q && p[|at|] < q[|at|]
    ensures Precedes(p, q)
    decreases |at|
  {
    if at != [] {
      assert at[1..] == q[1..][..|at| - 1] && at[1..] == p[1..][..|at| - 1];
      EarlierKidPrecedes(at[1..], p[1..], q[1..]);
    }
  }

  lemma {:induction false} KidsInOrder(t: Loop, at: Path, n: nat)
    requires n <= |t.kids|
    ensures InOrder(KidSections(t, at, n).1)
    decreases Depth(t), 0, n
  {
    if n > 0 {
      var a, b := KidSections(t, at, n - 1), Sections(t.kids[n - 1], at + [n - 1], Links(t));
      KidsInOrder(t, at, n - 1);
      SectionsInOrder(t.kids[n - 1], at + [n - 1], Links(t));
      KidsListed(t, at, n - 1);
      SectionsListed(t.kids[n - 1], at + [n - 1], Links(t));
      assert KidSections(t, at, n).1 == a.1 + b.1;
      LaterKidFollows(t, at, n - 1, a, b);
    }
  }

  lemma LaterKidFollows(t: Loop, at: Path, n: nat, a: (seq<seq<Dim>>, seq<Path>), b: (seq<seq<Dim>>, seq<Path>))
    requires n < |t.kids| && ListsKids(t, at, n, a) && Lists(t.kids[n], at + [n], Links(t), b)
    requires InOrder(a.1) && InOrder(b.1)
    ensures InOrder(a.1 + b.1)
  {
    hide IsGroup, Chain, At, Has, Precedes;
    var ps := a.1 + b.1;
    forall i, j | 0 <= i < j < |ps| ensures Precedes(ps[i], ps[j]) {
      if i < |a.1| <= j {
        var q := b.1[j - |a.1|];
        assert at + [n] <= q;
        assert at == q[..|at|] && q[|at|] == n;
        EarlierKidPrecedes(at, a.1[i], q);
      }
    }
  }

  lemma {:induction false} SectionsInOrder(t: Loop, at: Path, linked: bool)
    ensures InOrder(Sections(t, at, linked).1)
    decreases Depth(t), 1, 0
  {
    var kids := KidSections(t, at, |t.kids|);
    KidsInOrder(t, at, |t.kids|);
    KidsListed(t, at, |t.kids|);
    RootPrecedes(t, at, kids);
  }

  lemma RootPrecedes(t: Loop, at: Path, kids: (seq<seq<Dim>>, seq<Path>))
    requires ListsKids(t, at, |t.kids|, kids) && InOrder(kids.1)
    ensures InOrder([at] + kids.1)
  {
    hide IsGroup, Chain, At, Has, Precedes;
    var ps := [at] + kids.1;
    forall i, j | 0 <= i < j < |ps| ensures Precedes(ps[i], ps[j]) {
      if i == 0 {
        PrefixPrecedes(at, kids.1[j - 1]);
      }
    }
  }

  // ----- the main result, on the program's own output

  predicate MaximalChain(t: Loop, p: Path) {
    StartsChain(t, p) && |Chain(At(t, p))| >= 2
  }

  lemma ChainStartIsGroup(t: Loop, p: Path)
    ensures MaximalChain(t, p) <==> IsGroup(t, p, false)
  {
    if Has(t, p) && p != [] {
      HasPrefix(t, p, |p| - 1);
    }
  }

  lemma {:induction false} HasPrefix(t: Loop, p: Path, n: nat)
    requires Has(t, p) && n <= |p|
    ensures Has(t, p[..n])
    decreases n
  {
    if n > 0 {
      HasPrefix(t.kids[p[0]], p[1..], n - 1);
      assert p[..n][1..] == p[1..][..n - 1];
    }
  }

  /** The groups emitted are exactly the maximal downward chains of length two or more, each once and with
      its own dimensions, in the order a walk from the root meets them. */
  lemma EmitsExactlyMaximalChains(root: Loop, xforms: seq<seq<Dim>>, starts: seq<Path>)
    requires xforms == Groups(root, []).0 && starts == Groups(root, []).1
    ensures |xforms| == |starts|
    ensures forall p :: p in starts <==> MaximalChain(root, p)
    ensures forall k :: 0 <= k < |starts| ==> Has(root, starts[k]) && xforms[k] == Chain(At(root, starts[k]))
    ensures forall i, j :: 0 <= i < j < |starts| ==> starts[i] != starts[j]
    ensures InOrder(starts)
  {
    SectionsInOrder(root, [], false);
    GroupsAreSections(root, []);
    SectionsListed(root, [], false);
    forall p ensures p in starts <==> MaximalChain(root, p) {
      ChainStartIsGroup(root, p);
      assert [] + p == p && p[0..] == p;
    }
  }

  /** What a chain is: from its start, follow only children as long as each loop links to the next. */
  lemma {:induction false} ChainMeaning(t: Loop, k: nat)
    requires k < |Chain(t)|
    ensures Has(t, Zeros(k)) && At(t, Zeros(k)).section.Some?
    ensures Chain(t)[k] == Dim(At(t, Zeros(k)).name, At(t, Zeros(k)).section.value)
    ensures Links(At(t, Zeros(k))) <==> k + 1 < |Chain(t)|
    decreases k
  {
    if k > 0 {
      ChainMeaning(t.kids[0], k - 1);
      assert Zeros(k)[1..] == Zeros(k - 1);
    }
  }

  /** No loop belongs to two groups. */
  lemma ChainsAreDisjoint(root: Loop, p: Path, q: Path, j: nat, k: nat)
    requires StartsChain(root, p) && StartsChain(root, q)
    requires j < |Chain(At(root, p))| && k < |Chain(At(root, q))|
    requires p + Zeros(j) == q + Zeros(k)
    ensures p == q && j == k
  {
    if |p| < |q| {
      DeeperStartIsLinked(root, p, q, j);
    } else if |q| < |p| {
      DeeperStartIsLinked(root, q, p, k);
    } else {
      assert p == (p + Zeros(j))[..|p|] == q;
    }
  }

  /** A loop further down a chain is linked to by its parent, so it starts no chain. */
  lemma DeeperStartIsLinked(root: Loop, p: Path, q: Path, j: nat)
    requires Has(root, p) && Has(root, q) && |p| < |q| <= |p| + j && j < |Chain(At(root, p))|
    requires q == (p + Zeros(j))[..|q|]
    ensures !StartsChain(root, q)
  {
    var d := |q| - |p|;
    ChainMeaning(At(root, p), d - 1);
    AtConcat(root, p, Zeros(d - 1));
    hide Has, At, Chain;
    ParentOnChain(p, q, j);
  }

  lemma ParentOnChain(p: Path, q: Path, j: nat)
    requires |p| < |q| <= |p| + j && q == (p + Zeros(j))[..|q|]
    ensures q[..|q| - 1] == p + Zeros(|q| - |p| - 1)
  {
  }

  lemma {:induction false} AtConcat(t: Loop, p: Path, r: Path)
    requires Has(t, p) && Has(At(t, p), r)
    ensures Has(t, p + r) && At(t, p + r) == At(At(t, p), r)
    decreases |p|
  {
    if p == [] {
      assert p + r == r;
    } else {
      assert (p + r)[1..] == p[1..] + r;
      AtConcat(t.kids[p[0]], p[1..], r);
    }
  }
}
