/** The may-alias tracer of the static pass: two mutually recursive traversals over one value graph. */
module AliasTracer {
  import opened Options
  import opened Collections
  import opened Reachability

  type ValueId = nat

  /** The IR values the tracer tells apart, with the operands it follows. */
  datatype Value =
    | GlobalVariable(init: Option<ValueId>)
    | Function
    | Memcpy(dest: ValueId, source: ValueId)
    | Store(value: ValueId)
    | Alloca
    | GetElementPtr(pointer: ValueId)
    | BitCast(operand: ValueId)
    | Phi(incoming: seq<ValueId>)
    | Select(whenTrue: ValueId, whenFalse: ValueId)
    | AddressExpr(base: ValueId)                // a constant GetElementPtr or BitCast expression
    | ConstantArray(elements: seq<ValueId>)
    | OtherValue

  datatype Node = Node(value: Value, users: seq<ValueId>)

  type Graph = map<ValueId, Node>

  datatype Mode = Loaded | Stored

  /** A node of the product graph: a value, seen through loads or through stores. */
  datatype Seen = Seen(mode: Mode, id: ValueId)

  predicate IsGlobalObject(v: Value) {
    v.GlobalVariable? || v.Function?
  }

  function Through(mode: Mode, ids: seq<ValueId>): set<Seen> {
    set i | 0 <= i < |ids| :: Seen(mode, ids[i])
  }

  function LoadedEdges(id: ValueId, n: Node): set<Seen> {
    match n.value
    case Phi(ops) => Through(Loaded, ops)
    case Select(t, f) => Through(Loaded, [t, f])
    case Alloca => {Seen(Stored, id)}
    case GetElementPtr(p) => {Seen(Loaded, p)}
    case BitCast(op) => {Seen(Loaded, op)}
    case AddressExpr(base) => {Seen(Loaded, base)}
    case GlobalVariable(init) => (if init.Some? then {Seen(Loaded, init.value)} else {}) + {Seen(Stored, id)}
    case ConstantArray(es) => Through(Loaded, es)
    case _ => {}
  }

  function StoredEdges(n: Node): set<Seen> {
    match n.value
    case Memcpy(_, source) => {Seen(Loaded, source)}
    case Store(v) => {Seen(Loaded, v)}
    case Alloca => Through(Stored, n.users)
    case GetElementPtr(_) => Through(Stored, n.users)
    case BitCast(_) => Through(Stored, n.users)
    case _ => {}
  }

  function Edges(g: Graph, s: Seen): set<Seen> {
    if s.id !in g then {}
    else match s.mode
      case Loaded => LoadedEdges(s.id, g[s.id])
      case Stored => StoredEdges(g[s.id])
  }

  /** The rules of the tracer, one by one.  A value seen through loads leads to: the operands of a phi and the two
      choices of a select; the pointer of an address computation and the operand of a cast, as instruction or
      as constant; the elements of a constant array; the initializer of a global variable; and, for a stack
      slot or a global variable, to itself seen through stores. */
  lemma LoadedRules(g: Graph, a: ValueId, t: Seen)
    requires a in g
    ensures t in Edges(g, Seen(Loaded, a)) <==>
      || (g[a].value.Phi? && t.mode.Loaded? && t.id in g[a].value.incoming)
      || (g[a].value.Select? && t.mode.Loaded? && (t.id == g[a].value.whenTrue || t.id == g[a].value.whenFalse))
      || (g[a].value.GetElementPtr? && t == Seen(Loaded, g[a].value.pointer))
      || (g[a].value.BitCast? && t == Seen(Loaded, g[a].value.operand))
      || (g[a].value.AddressExpr? && t == Seen(Loaded, g[a].value.base))
      || (g[a].value.ConstantArray? && t.mode.Loaded? && t.id in g[a].value.elements)
      || (g[a].value.GlobalVariable? && t.mode.Loaded? && g[a].value.init == Some(t.id))
      || ((g[a].value.Alloca? || g[a].value.GlobalVariable?) && t == Seen(Stored, a))
  {
    ThroughIs(Loaded, if g[a].value.Phi? then g[a].value.incoming else if g[a].value.ConstantArray? then g[a].value.elements else [], t);
    if g[a].value.Select? {
      ThroughIs(Loaded, [g[a].value.whenTrue, g[a].value.whenFalse], t);
    }
    hide Through;
  }

  /** A value seen through stores leads to: what a store writes and what a memcpy copies from, through loads; and
      the users of a stack slot, an address computation or a cast, through stores. */
  lemma StoredRules(g: Graph, a: ValueId, t: Seen)
    requires a in g
    ensures t in Edges(g, Seen(Stored, a)) <==>
      || (g[a].value.Memcpy? && t == Seen(Loaded, g[a].value.source))
      || (g[a].value.Store? && t == Seen(Loaded, g[a].value.value))
      || ((g[a].value.Alloca? || g[a].value.GetElementPtr? || g[a].value.BitCast?) && t.mode.Stored? && t.id in g[a].users)
  {
    ThroughIs(Stored, g[a].users, t);
    hide Through;
  }

  lemma ThroughIs(mode: Mode, ids: seq<ValueId>, t: Seen)
    ensures t in Through(mode, ids) <==> t.mode == mode && t.id in ids
  {
    if t.mode == mode && t.id in ids {
      var i :| 0 <= i < |ids| && ids[i] == t.id;
      assert t == Seen(mode, ids[i]);
    }
  }

  function EdgesOf(g: Graph): Seen -> set<Seen> {
    (s: Seen) => Edges(g, s)
  }

  /** Every value the tracer can step to is in the graph. */
  ghost predicate WellFormed(g: Graph) {
    forall s: Seen, t: Seen :: s.id in g && t in Edges(g, s) ==> t.id in g
  }

  function Pairs(loaded: set<ValueId>, stored: set<ValueId>): set<Seen> {
    (set id | id in loaded :: Seen(Loaded, id)) + (set id | id in stored :: Seen(Stored, id))
  }

  class MayAliasTracer {
    const g: Graph
    var loaded: set<ValueId>
    var stored: set<ValueId>
    var globals: set<ValueId>

    ghost function Visited(): set<Seen>
      reads this
    {
      Pairs(loaded, stored)
    }

    ghost predicate Valid()
      reads this
    {
      && WellFormed(g)
      && loaded <= g.Keys && stored <= g.Keys
      && globals == set id | id in loaded + stored && IsGlobalObject(g[id].value)
    }

    function Budget(): nat
      requires loaded <= g.Keys && stored <= g.Keys
      reads this
    {
      SubsetSize(loaded, g.Keys);
      SubsetSize(stored, g.Keys);
      (|g.Keys| - |loaded|) + (|g.Keys| - |stored|)
    }

    method MayAliasWithStoredValues(v: ValueId)
      requires Valid() && v in g
      modifies this
      ensures Valid() && Budget() <= old(Budget())
      ensures Explored(EdgesOf(g), old(Visited()), Visited(), {Seen(Stored, v)})
      decreases Budget(), 0
    {
      hide Explored, Edges, LoadedEdges, StoredEdges;
      ghost var before := Visited();
      if v in stored {
        ExploredNothing(EdgesOf(g), before, {Seen(Stored, v)});
        return;
      }
      MarkStored(v);
      FollowStored(v);
      ExploredNode(EdgesOf(g), before, Visited(), Seen(Stored, v));
    }

    /** The edges of a value seen through stores. */
    method FollowStored(v: ValueId)
      requires Valid() && v in g
      modifies this
      ensures Valid() && Budget() <= old(Budget())
      ensures Explored(EdgesOf(g), old(Visited()), Visited(), Edges(g, Seen(Stored, v)))
      decreases Budget(), 2
    {
      hide Explored;
      ghost var here := Seen(Stored, v);
      match g[v].value
      case Memcpy(_, source) =>
        assert Edges(g, here) == {Seen(Loaded, source)};
        MayAliasWithLoadedValues(source);
      case Store(value) =>
        assert Edges(g, here) == {Seen(Loaded, value)};
        MayAliasWithLoadedValues(value);
      case Alloca => VisitAll(Stored, g[v].users, here);
      case GetElementPtr(_) => VisitAll(Stored, g[v].users, here);
      case BitCast(_) => VisitAll(Stored, g[v].users, here);
      case _ =>
        assert Edges(g, here) == {};
        ExploredNothing(EdgesOf(g), Visited(), {});
    }

    method MayAliasWithLoadedValues(v: ValueId)
      requires Valid() && v in g
      modifies this
      ensures Valid() && Budget() <= old(Budget())
      ensures Explored(EdgesOf(g), old(Visited()), Visited(), {Seen(Loaded, v)})
      decreases Budget(), 0
    {
      hide Explored, Edges, LoadedEdges, StoredEdges;
      ghost var before := Visited();
      if v in loaded {
        ExploredNothing(EdgesOf(g), before, {Seen(Loaded, v)});
        return;
      }
      MarkLoaded(v);
      FollowLoaded(v);
      ExploredNode(EdgesOf(g), before, Visited(), Seen(Loaded, v));
    }

    /** The edges of a value seen through loads. */
    method FollowLoaded(v: ValueId)
      requires Valid() && v in g
      modifies this
      ensures Valid() && Budget() <= old(Budget())
      ensures Explored(EdgesOf(g), old(Visited()), Visited(), Edges(g, Seen(Loaded, v)))
      decreases Budget(), 2
    {
      hide Explored;
      ghost var here := Seen(Loaded, v);
      match g[v].value
      case Phi(incoming) => VisitAll(Loaded, incoming, here);
      case Select(whenTrue, whenFalse) =>
        VisitAll(Loaded, [whenTrue, whenFalse], here);
      case Alloca =>
        assert Edges(g, here) == {Seen(Stored, v)};
        MayAliasWithStoredValues(v);
      case GetElementPtr(pointer) =>
        assert Edges(g, here) == {Seen(Loaded, pointer)};
        MayAliasWithLoadedValues(pointer);
      case BitCast(operand) =>
        assert Edges(g, here) == {Seen(Loaded, operand)};
        MayAliasWithLoadedValues(operand);
      case AddressExpr(base) =>
        assert Edges(g, here) == {Seen(Loaded, base)};
        MayAliasWithLoadedValues(base);
      case GlobalVariable(init) => VisitGlobal(v, init);
      case ConstantArray(elements) => VisitAll(Loaded, elements, here);
      case _ =>
        assert Edges(g, here) == {};
        ExploredNothing(EdgesOf(g), Visited(), {});
    }

    /** A global variable: its initializer through loads, then the variable itself through stores. */
    method VisitGlobal(v: ValueId, init: Option<ValueId>)
      requires Valid() && v in g && g[v].value == GlobalVariable(init)
      modifies this
      ensures Valid() && Budget() <= old(Budget())
      ensures Explored(EdgesOf(g), old(Visited()), Visited(), Edges(g, Seen(Loaded, v)))
      decreases Budget(), 1
    {
      ghost var marked := Visited();
      ghost var first: set<Seen> := {};
      ExploredNothing(EdgesOf(g), marked, {});
      if init.Some? {
        assert Seen(Loaded, init.value) in Edges(g, Seen(Loaded, v));
        MayAliasWithLoadedValues(init.value);
        first := {Seen(Loaded, init.value)};
      }
      ghost var between := Visited();
      MayAliasWithStoredValues(v);
      ExploredThen(EdgesOf(g), marked, between, Visited(), first, {Seen(Stored, v)});
    }

    /** A loop over operands or users. */
    method VisitAll(mode: Mode, ids: seq<ValueId>, ghost here: Seen)
      requires Valid() && here.id in g && Through(mode, ids) == Edges(g, here)
      modifies this
      ensures Valid() && Budget() <= old(Budget())
      ensures Explored(EdgesOf(g), old(Visited()), Visited(), Edges(g, here))
      decreases Budget(), 1
    {
      ghost var marked := Visited();
      assert Through(mode, ids[..0]) == {};
      ExploredNothing(EdgesOf(g), marked, {});
      for i := 0 to |ids|
        invariant Valid() && Budget() <= old(Budget())
        invariant Explored(EdgesOf(g), marked, Visited(), Through(mode, ids[..i]))
      {
        ghost var between := Visited();
        assert Seen(mode, ids[i]) in Through(mode, ids);
        if mode.Loaded? {
          MayAliasWithLoadedValues(ids[i]);
        } else {
          MayAliasWithStoredValues(ids[i]);
        }
        ExploredThen(EdgesOf(g), marked, between, Visited(), Through(mode, ids[..i]), {Seen(mode, ids[i])});
        ThroughSnoc(mode, ids, i);
      }
      assert ids[..|ids|] == ids;
    }

    method MarkLoaded(v: ValueId)
      requires Valid() && v in g && v !in loaded
      modifies this`loaded, this`globals
      ensures Valid()
      ensures Visited() == old(Visited()) + {Seen(Loaded, v)}
      ensures Budget() < old(Budget())
    {
      loaded := loaded + {v};
      if IsGlobalObject(g[v].value) {
        globals := globals + {v};
      }
    }

    method MarkStored(v: ValueId)
      requires Valid() && v in g && v !in stored
      modifies this`stored, this`globals
      ensures Valid()
      ensures Visited() == old(Visited()) + {Seen(Stored, v)}
      ensures Budget() < old(Budget())
    {
      stored := stored + {v};
      if IsGlobalObject(g[v].value) {
        globals := globals + {v};
      }
    }

    /** The tracer's constructor: the global objects found are exactly those reachable from `root`, seen
        through loads, over loads and stores. */
    constructor (g: Graph, root: ValueId)
      requires WellFormed(g) && root in g
      ensures Valid() && this.g == g
      ensures forall s :: s in Visited() <==> Reach(EdgesOf(g), Seen(Loaded, root), s)
      ensures forall id :: id in globals <==>
        id in g && IsGlobalObject(g[id].value) && exists mode :: Reach(EdgesOf(g), Seen(Loaded, root), Seen(mode, id))
    {
      this.g := g;
      loaded, stored, globals := {}, {}, {};
      new;
      assert Visited() == {};
      MayAliasWithLoadedValues(root);
      ExploredIsReachable(EdgesOf(g), Visited(), Seen(Loaded, root));
      forall id
        ensures id in globals <==> id in g && IsGlobalObject(g[id].value) && exists mode :: Seen(mode, id) in Visited()
      {
        if id in globals {
          assert Seen(if id in loaded then Loaded else Stored, id) in Visited();
        }
      }
    }

    /** count: is this global object among those found? */
    method Count(go: ValueId) returns (n: nat)
      ensures n == if go in globals then 1 else 0
    {
      n := if go in globals then 1 else 0;
    }
  }

  lemma ThroughSnoc(mode: Mode, ids: seq<ValueId>, i: nat)
    requires i < |ids|
    ensures Through(mode, ids[..i + 1]) == Through(mode, ids[..i]) + {Seen(mode, ids[i])}
  {
    forall s ensures s in Through(mode, ids[..i + 1]) <==> s in Through(mode, ids[..i]) + {Seen(mode, ids[i])} {
      if s in Through(mode, ids[..i]) + {Seen(mode, ids[i])} && s != Seen(mode, ids[i]) {
        var j :| 0 <= j < i && s == Seen(mode, ids[..i][j]);
        assert s == Seen(mode, ids[..i + 1][j]);
      }
      if s == Seen(mode, ids[i]) {
        assert s == Seen(mode, ids[..i + 1][i]);
      }
      if s in Through(mode, ids[..i + 1]) {
        var j :| 0 <= j < i + 1 && s == Seen(mode, ids[..i + 1][j]);
        assert j < i ==> s == Seen(mode, ids[..i][j]);
      }
    }
  }
}
