/** getReferencedFromEntry: the worklist that lists every function an entry refers to. */
module References {
  import opened Options
  import opened Collections
  import opened Reachability

  type UserId = nat

  /** The users of a module.  Operands that are not users (arguments, basic blocks) name no entry. */
  datatype User =
    | Function(instructions: seq<seq<UserId>>, operands: seq<UserId>)
    | GlobalVariable(init: Option<UserId>, operands: seq<UserId>)
    | OtherUser(operands: seq<UserId>)

  type Module = map<UserId, User>

  function UsersIn(m: Module, ids: seq<UserId>): set<UserId> {
    set i | 0 <= i < |ids| && ids[i] in m :: ids[i]
  }

  function UsersInAll(m: Module, lists: seq<seq<UserId>>): set<UserId> {
    set i, j | 0 <= i < |lists| && 0 <= j < |lists[i]| && lists[i][j] in m :: lists[i][j]
  }

  /** The users that `u` mentions. */
  function Mentions(m: Module, u: UserId): set<UserId> {
    if u !in m then {} else UsersIn(m, m[u].operands) + MentionsInside(m, m[u])
  }

  /** Beyond its own operands, a function mentions its instructions' operands and a variable its initializer. */
  function MentionsInside(m: Module, user: User): set<UserId> {
    match user
    case Function(instructions, _) => UsersInAll(m, instructions)
    case GlobalVariable(init, _) => if init.Some? && init.value in m then {init.value} else {}
    case OtherUser(_) => {}
  }

  /** What it is to mention: to have it as an operand, to have an instruction that has it as an operand, or to be
      initialized with it. */
  lemma MentionRules(m: Module, u: UserId, w: UserId)
    requires u in m
    ensures w !in m ==> w !in Mentions(m, u)
    ensures w in m ==> (w in Mentions(m, u) <==>
      || w in m[u].operands
      || (m[u].Function? && exists i :: 0 <= i < |m[u].instructions| && w in m[u].instructions[i])
      || (m[u].GlobalVariable? && m[u].init == Some(w)))
  {
    if m[u].Function? && w in m && exists i :: 0 <= i < |m[u].instructions| && w in m[u].instructions[i] {
      var i :| 0 <= i < |m[u].instructions| && w in m[u].instructions[i];
      var j :| 0 <= j < |m[u].instructions[i]| && m[u].instructions[i][j] == w;
      assert m[u].instructions[i][j] in UsersInAll(m, m[u].instructions);
    }
  }

  function MentionsIn(m: Module): UserId -> set<UserId> {
    (u: UserId) => Mentions(m, u)
  }

  /** Push every operand that is a user. */
  method PushUsers(m: Module, toVisit: seq<UserId>, ops: seq<UserId>) returns (pushed: seq<UserId>)
    ensures toVisit <= pushed
    ensures Elements(pushed) == Elements(toVisit) + UsersIn(m, ops)
  {
    pushed := toVisit;
    for i := 0 to |ops|
      invariant toVisit <= pushed
      invariant Elements(pushed) == Elements(toVisit) + UsersIn(m, ops[..i])
    {
      assert UsersIn(m, ops[..i + 1]) == UsersIn(m, ops[..i]) + (if ops[i] in m then {ops[i]} else {}) by {
        UsersInSnoc(m, ops, i);
      }
      if ops[i] in m {
        ElementsSnoc(pushed, ops[i]);
        pushed := pushed + [ops[i]];
      }
    }
    assert ops[..|ops|] == ops;
  }

  lemma UsersInSnoc(m: Module, ops: seq<UserId>, i: nat)
    requires i < |ops|
    ensures UsersIn(m, ops[..i + 1]) == UsersIn(m, ops[..i]) + (if ops[i] in m then {ops[i]} else {})
  {
    var last: set<UserId> := if ops[i] in m then {ops[i]} else {};
    forall u | u in UsersIn(m, ops[..i + 1]) ensures u in UsersIn(m, ops[..i]) + last {
      var j :| 0 <= j < i + 1 && ops[..i + 1][j] == u && u in m;
      assert j < i ==> ops[..i][j] == u;
    }
    forall u | u in UsersIn(m, ops[..i]) + last ensures u in UsersIn(m, ops[..i + 1]) {
      if u in last {
        assert ops[..i + 1][i] == u;
      } else {
        var j :| 0 <= j < i && ops[..i][j] == u && u in m;
        assert ops[..i + 1][j] == u;
      }
    }
  }

  method PushInstructions(m: Module, toVisit: seq<UserId>, instructions: seq<seq<UserId>>) returns (pushed: seq<UserId>)
    ensures toVisit <= pushed
    ensures Elements(pushed) == Elements(toVisit) + UsersInAll(m, instructions)
  {
    pushed := toVisit;
    for i := 0 to |instructions|
      invariant toVisit <= pushed
      invariant Elements(pushed) == Elements(toVisit) + UsersInAll(m, instructions[..i])
    {
      pushed := PushUsers(m, pushed, instructions[i]);
      InstructionsSnoc(m, instructions, i);
    }
    assert instructions[..|instructions|] == instructions;
  }

  lemma InstructionsSnoc(m: Module, lists: seq<seq<UserId>>, i: nat)
    requires i < |lists|
    ensures UsersInAll(m, lists[..i + 1]) == UsersInAll(m, lists[..i]) + UsersIn(m, lists[i])
  {
    forall u ensures u in UsersInAll(m, lists[..i + 1]) <==> u in UsersInAll(m, lists[..i]) + UsersIn(m, lists[i]) {
      if u in UsersInAll(m, lists[..i + 1]) {
        var k, j :| 0 <= k < i + 1 && 0 <= j < |lists[..i + 1][k]| && lists[..i + 1][k][j] == u && u in m;
        assert k < i ==> lists[..i][k][j] == u;
      }
      if u in UsersInAll(m, lists[..i]) {
        var k, j :| 0 <= k < i && 0 <= j < |lists[..i][k]| && lists[..i][k][j] == u && u in m;
        assert lists[..i + 1][k][j] == u;
      }
      if u in UsersIn(m, lists[i]) {
        var j :| 0 <= j < |lists[i]| && lists[i][j] == u && u in m;
        assert lists[..i + 1][i][j] == u;
      }
    }
  }

  predicate Distinct<T(==)>(s: seq<T>) {
    forall i, j :: 0 <= i < j < |s| ==> s[i] != s[j]
  }

  predicate IsFunction(m: Module, u: UserId) {
    u in m && m[u].Function?
  }

  /** Between two turns of the worklist. */
  ghost predicate Working(m: Module, entry: UserId, visited: set<UserId>, toVisit: seq<UserId>, funs: seq<UserId>) {
    && visited <= m.Keys && Elements(toVisit) <= m.Keys
    && entry in visited + Elements(toVisit)
    && (forall u :: u in visited + Elements(toVisit) ==> Reach(MentionsIn(m), entry, u))
    && (forall u :: u in visited ==> Mentions(m, u) <= visited + Elements(toVisit))
    && Distinct(funs)
    && (forall u :: u in funs <==> u in visited && IsFunction(m, u))
  }

  /** Push what one user mentions, in the program's order. */
  method PushMentions(m: Module, toVisit: seq<UserId>, u: UserId) returns (pushed: seq<UserId>)
    requires u in m
    ensures Elements(pushed) == Elements(toVisit) + Mentions(m, u)
  {
    pushed := toVisit;
    match m[u] {
      case Function(instructions, _) =>
        pushed := PushInstructions(m, pushed, instructions);
      case GlobalVariable(init, _) =>
        if init.Some? && init.value in m {
          ElementsSnoc(pushed, init.value);
          pushed := pushed + [init.value];
        }
      case OtherUser(_) =>
    }
    pushed := PushUsers(m, pushed, m[u].operands);
  }

  /** With nothing left to visit, the functions listed are the reachable ones. */
  lemma NothingLeft(m: Module, entry: UserId, visited: set<UserId>, toVisit: seq<UserId>, funs: seq<UserId>)
    requires Working(m, entry, visited, toVisit, funs) && toVisit == []
    ensures Distinct(funs)
    ensures forall u :: u in funs <==> IsFunction(m, u) && Reach(MentionsIn(m), entry, u)
  {
    var succ := MentionsIn(m);
    assert Elements(toVisit) == {};
    assert Closed(succ, visited);
    forall u ensures u in visited <==> Reach(succ, entry, u) {
      if Reach(succ, entry, u) {
        ClosedHoldsReachable(succ, visited, entry, u);
      }
    }
  }

  /** Visiting a new user keeps the worklist sound. */
  lemma VisitKeeps(m: Module, entry: UserId, visited: set<UserId>, rest: seq<UserId>, u: UserId, pushed: seq<UserId>, funs: seq<UserId>)
    requires Working(m, entry, visited, rest + [u], funs) && u !in visited
    requires Elements(pushed) == Elements(rest) + Mentions(m, u)
    ensures Working(m, entry, visited + {u}, pushed, if IsFunction(m, u) then funs + [u] else funs)
  {
    ElementsSnoc(rest, u);
    assert u in visited + Elements(rest + [u]);
    forall w | w in Mentions(m, u) ensures Reach(MentionsIn(m), entry, w) && w in m {
      ReachEdge(MentionsIn(m), entry, u, w);
    }
  }

  lemma SkipKeeps(m: Module, entry: UserId, visited: set<UserId>, rest: seq<UserId>, u: UserId, funs: seq<UserId>)
    requires Working(m, entry, visited, rest + [u], funs) && u in visited
    ensures Working(m, entry, visited, rest, funs)
  {
    ElementsSnoc(rest, u);
    assert visited + Elements(rest + [u]) == visited + Elements(rest);
  }

  lemma TopIsUser(m: Module, entry: UserId, visited: set<UserId>, rest: seq<UserId>, u: UserId, funs: seq<UserId>)
    requires Working(m, entry, visited, rest + [u], funs)
    ensures u in m && visited <= m.Keys
    ensures u !in visited ==> |m.Keys - (visited + {u})| < |m.Keys - visited|
  {
    ElementsSnoc(rest, u);
    assert u in Elements(rest + [u]);
    if u !in visited {
      assert m.Keys - (visited + {u}) == (m.Keys - visited) - {u};
    }
  }

  lemma StartWorking(m: Module, entry: UserId)
    requires entry in m
    ensures Working(m, entry, {}, [entry], [])
  {
    ReachSelf(MentionsIn(m), entry);
    assert Elements([entry]) == {entry};
  }

  /** One turn of the worklist: pop a user and, if it is new, list it and push what it mentions. */
  method Turn(m: Module, entry: UserId, visited: set<UserId>, toVisit: seq<UserId>, funs: seq<UserId>)
    returns (visited': set<UserId>, toVisit': seq<UserId>, funs': seq<UserId>)
    requires Working(m, entry, visited, toVisit, funs) && toVisit != []
    ensures Working(m, entry, visited', toVisit', funs')
    ensures |m.Keys - visited'| < |m.Keys - visited| || (visited' == visited && |toVisit'| < |toVisit|)
  {
    var u := toVisit[|toVisit| - 1];
    var rest := toVisit[..|toVisit| - 1];
    assert toVisit == rest + [u];
    hide Working, Elements, Mentions;
    TopIsUser(m, entry, visited, rest, u, funs);
    if u in visited {
      SkipKeeps(m, entry, visited, rest, u, funs);
      return visited, rest, funs;
    }
    visited' := visited + {u};
    funs' := if IsFunction(m, u) then funs + [u] else funs;
    toVisit' := PushMentions(m, rest, u);
    VisitKeeps(m, entry, visited, rest, u, toVisit', funs);
  }

  /** Each function reachable from the entry is listed exactly once, and nothing else is. */
  method GetReferencedFromEntry(m: Module, entry: UserId) returns (funs: seq<UserId>)
    requires entry in m
    ensures Distinct(funs)
    ensures forall u :: u in funs <==> IsFunction(m, u) && Reach(MentionsIn(m), entry, u)
  {
    funs := [];
    var visited: set<UserId> := {};
    var toVisit := [entry];
    StartWorking(m, entry);
    hide Working;
    while toVisit != []
      invariant Working(m, entry, visited, toVisit, funs)
      decreases |m.Keys - visited|, |toVisit|
    {
      visited, toVisit, funs := Turn(m, entry, visited, toVisit, funs);
    }
    NothingLeft(m, entry, visited, toVisit, funs);
  }
}
