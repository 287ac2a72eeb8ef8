/**
 Nested transactions on one connection: a BEGIN outermost, savepoints below it.
 What the statement machine commits is compared with the tree of scopes.
 */
module Transactions {
  import opened Sequences

  type Row = nat

  /** What runs inside a transaction. */
  datatype Prog =
    | Write(row: Row)
    | Raise
    | Seq(first: Prog, second: Prog)
    | Try(body: Prog)
    | Scope(body: Prog)

  /* ---- Tree semantics ---- */

  /** The body raises out of the program. */
  function Raises(p: Prog): bool {
    match p
    case Write(_) => false
    case Raise => true
    case Seq(a, b) => Raises(a) || Raises(b)
    case Try(_) => false
    case Scope(body) => Raises(body)
  }

  /** A write that was executed, and whether some enclosing scope failed. */
  datatype Step = Step(row: Row, lost: bool)

  function AllLost(steps: seq<Step>): seq<Step> {
    seq(|steps|, i requires 0 <= i < |steps| => steps[i].(lost := true))
  }

  /** Every write in execution order. */
  function Executed(p: Prog): seq<Step> {
    match p
    case Write(row) => [Step(row, false)]
    case Raise => []
    case Seq(a, b) => if Raises(a) then Executed(a) else Executed(a) + Executed(b)
    case Try(body) => Executed(body)
    case Scope(body) => if Raises(body) then AllLost(Executed(body)) else Executed(body)
  }

  /** The writes that no failed scope encloses. */
  function Kept(steps: seq<Step>): seq<Row> {
    if steps == [] then []
    else
      var last := steps[|steps| - 1];
      if last.lost then Kept(steps[..|steps| - 1]) else Kept(steps[..|steps| - 1]) + [last.row]
  }

  function Survivors(p: Prog): seq<Row> {
    Kept(Executed(p))
  }

  lemma {:induction false} KeptAppend(a: seq<Step>, b: seq<Step>)
    ensures Kept(a + b) == Kept(a) + Kept(b)
  {
    if b == [] {
      assert a + b == a;
    } else {
      assert (a + b)[..|a + b| - 1] == a + b[..|b| - 1];
      KeptAppend(a, b[..|b| - 1]);
    }
  }

  lemma {:induction false} LostKeepsNothing(steps: seq<Step>)
    ensures Kept(AllLost(steps)) == []
  {
    if steps != [] {
      var last := |steps| - 1;
      assert AllLost(steps)[..last] == AllLost(steps[..last]);
      LostKeepsNothing(steps[..last]);
    }
  }

  lemma SurvivorsOf(p: Prog)
    ensures p.Write? ==> Survivors(p) == [p.row]
    ensures p.Raise? ==> Survivors(p) == []
    ensures p.Seq? ==> Survivors(p) == Survivors(p.first) + if Raises(p.first) then [] else Survivors(p.second)
    ensures p.Try? ==> Survivors(p) == Survivors(p.body)
    ensures p.Scope? ==> Survivors(p) == if Raises(p.body) then [] else Survivors(p.body)
  {
    match p
    case Write(row) => WriteSurvives(row);
    case Raise =>
    case Seq(a, b) => SeqSurvives(a, b);
    case Try(_) =>
    case Scope(body) => LostKeepsNothing(Executed(body));
  }

  lemma SeqSurvives(a: Prog, b: Prog)
    ensures Survivors(Seq(a, b)) == Survivors(a) + if Raises(a) then [] else Survivors(b)
  {
    KeptAppend(Executed(a), Executed(b));
  }

  lemma WriteSurvives(row: Row)
    ensures Survivors(Write(row)) == [row]
  {
    var steps := Executed(Write(row));
    assert steps == [Step(row, false)] && steps[..0] == [] && Kept([]) == [];
  }

  /* ---- What raises and what survives, by the text of the program ---- */

  /** A way down from a program to a part of it. */
  datatype Turn = First | Second | Body

  function Child(p: Prog, turn: Turn): Option<Prog> {
    match p
    case Write(_) => None
    case Raise => None
    case Seq(a, b) => if turn.First? then Some(a) else if turn.Second? then Some(b) else None
    case Try(body) => if turn.Body? then Some(body) else None
    case Scope(body) => if turn.Body? then Some(body) else None
  }

  /** The part of the program at the end of a path. */
  function Part(p: Prog, path: seq<Turn>): Option<Prog> {
    if path == [] then Some(p)
    else if Child(p, path[0]).None? then None
    else Part(Child(p, path[0]).value, path[1..])
  }

  /** Some part that the path leads through is a `Try`. */
  predicate ThroughTry(p: Prog, path: seq<Turn>) {
    path != [] && (p.Try? || (Child(p, path[0]).Some? && ThroughTry(Child(p, path[0]).value, path[1..])))
  }

  /** A `Raise` stands at the end of the path and no `Try` around it. */
  predicate Uncaught(p: Prog, path: seq<Turn>) {
    Part(p, path) == Some(Raise) && !ThroughTry(p, path)
  }

  lemma StepInto(p: Prog, turn: Turn, path: seq<Turn>)
    requires Child(p, turn).Some?
    ensures Part(p, [turn] + path) == Part(Child(p, turn).value, path)
    ensures ThroughTry(p, [turn] + path) <==> p.Try? || ThroughTry(Child(p, turn).value, path)
  {
    assert ([turn] + path)[0] == turn && ([turn] + path)[1..] == path;
  }

  /** A program raises exactly when some `Raise` stands under no `Try`, in however many nested scopes. */
  lemma {:induction false} RaisesIff(p: Prog)
    ensures Raises(p) <==> exists path :: Uncaught(p, path)
  {
    match p
    case Write(_) =>
    case Raise => assert Uncaught(p, []);
    case Seq(a, b) =>
      RaisesIff(a);
      RaisesIff(b);
      RaisesInside(p, First, a);
      RaisesInside(p, Second, b);
    case Try(_) =>
    case Scope(body) =>
      RaisesIff(body);
      RaisesInside(p, Body, body);
  }

  /** A `Raise` inside a part that is no `Try` is one of the whole. */
  lemma RaisesInside(p: Prog, turn: Turn, part: Prog)
    requires !p.Try? && Child(p, turn) == Some(part) && (Raises(part) <==> exists path :: Uncaught(part, path))
    ensures Raises(part) ==> exists path :: Uncaught(p, path)
    ensures (exists path :: path != [] && path[0] == turn && Uncaught(p, path)) ==> Raises(part)
  {
    if Raises(part) {
      var path :| Uncaught(part, path);
      StepInto(p, turn, path);
      assert Uncaught(p, [turn] + path);
    }
    if path :| path != [] && path[0] == turn && Uncaught(p, path) {
      StepInto(p, turn, path[1..]);
      assert path == [turn] + path[1..];
      assert Uncaught(part, path[1..]);
    }
  }

  ghost predicate WithoutTry(p: Prog) {
    forall path :: Part(p, path).Some? ==> !Part(p, path).value.Try?
  }

  /** Every write in the text, in order. */
  function Writes(p: Prog): seq<Row> {
    match p
    case Write(row) => [row]
    case Raise => []
    case Seq(a, b) => Writes(a) + Writes(b)
    case Try(body) => Writes(body)
    case Scope(body) => Writes(body)
  }

  /** Without any `Try`, one `Raise` anywhere loses everything, and without any all writes survive in order. */
  lemma AllOrNothing(p: Prog)
    requires WithoutTry(p)
    ensures Raises(p) <==> exists path :: Part(p, path) == Some(Raise)
    ensures Survivors(Scope(p)) == if (exists path :: Part(p, path) == Some(Raise)) then [] else Writes(p)
  {
    RaisesIff(p);
    forall path | Part(p, path) == Some(Raise) ensures Uncaught(p, path) {
      NeverThroughTry(p, path);
    }
    SurvivorsOf(Scope(p));
    if Raises(p) {
      var path :| Uncaught(p, path);
      assert Part(p, path) == Some(Raise);
    } else {
      QuietWrites(p);
    }
  }

  lemma {:induction false} NeverThroughTry(p: Prog, path: seq<Turn>)
    requires WithoutTry(p) && Part(p, path).Some?
    ensures !ThroughTry(p, path)
  {
    assert Part(p, []).value == p;
    if path != [] {
      InsideWithoutTry(p, path[0]);
      NeverThroughTry(Child(p, path[0]).value, path[1..]);
    }
  }

  lemma InsideWithoutTry(p: Prog, turn: Turn)
    requires WithoutTry(p) && Child(p, turn).Some?
    ensures WithoutTry(Child(p, turn).value) && !p.Try?
  {
    assert Part(p, []).value == p;
    var part := Child(p, turn).value;
    forall path | Part(part, path).Some? ensures !Part(part, path).value.Try? {
      StepInto(p, turn, path);
    }
  }

  lemma {:induction false} QuietWrites(p: Prog)
    requires WithoutTry(p) && !Raises(p)
    ensures Survivors(p) == Writes(p)
  {
    SurvivorsOf(p);
    assert Part(p, []).value == p;
    match p
    case Write(_) =>
    case Raise =>
    case Seq(a, b) =>
      InsideWithoutTry(p, First);
      InsideWithoutTry(p, Second);
      QuietWrites(a);
      QuietWrites(b);
    case Try(_) =>
    case Scope(body) =>
      InsideWithoutTry(p, Body);
      QuietWrites(body);
  }

  /* ---- The statement machine ---- */

  datatype Savepoint = Savepoint(name: nat, snapshot: seq<Row>)

  /** The newest savepoint with the name. */
  function Find(stack: seq<Savepoint>, name: nat): (i: int)
    ensures -1 <= i < |stack|
    ensures i >= 0 ==> stack[i].name == name
  {
    if stack == [] then -1
    else if stack[|stack| - 1].name == name then |stack| - 1
    else Find(stack[..|stack| - 1], name)
  }

  lemma {:induction false} FindNewest(stack: seq<Savepoint>, name: nat)
    ensures forall j :: Find(stack, name) < j < |stack| ==> stack[j].name != name
  {
    if stack != [] && stack[|stack| - 1].name != name {
      FindNewest(stack[..|stack| - 1], name);
    }
  }

  /** One connection with the calling thread's depth counter. */
  class Connection {
    var committed: seq<Row>
    var current: seq<Row>
    var inTransaction: bool
    var begun: bool
    var stack: seq<Savepoint>
    var depth: nat
    var nextName: nat

    /** `begun` tells a BEGIN from a transaction that an outermost savepoint opened. */
    ghost predicate Valid()
      reads this
    {
      && (!inTransaction ==> current == committed && stack == [] && !begun)
      && (inTransaction && !begun ==> stack != [])
      && (forall i :: 0 <= i < |stack| ==> stack[i].name < nextName)
    }

    /** The connection is in this state, whatever the uncommitted rows. */
    ghost predicate Is(c: seq<Row>, i: bool, b: bool, s: seq<Savepoint>, d: nat)
      reads this
    {
      committed == c && inTransaction == i && begun == b && stack == s && depth == d
    }

    constructor ()
      ensures Valid() && committed == [] && !inTransaction && depth == 0
    {
      committed, current, inTransaction, begun, stack, depth, nextName := [], [], false, false, [], 0, 1;
    }

    method Begin(fails: bool) returns (ok: bool)
      requires Valid()
      modifies this
      ensures Valid() && Is(old(committed), old(inTransaction) || ok, old(begun) || ok, old(stack), old(depth))
      ensures current == old(current) && nextName == old(nextName)
      ensures ok <==> !old(inTransaction) && !fails
    {
      ok := !inTransaction && !fails;
      if ok {
        inTransaction, begun := true, true;
      }
    }

    method Commit(fails: bool) returns (ok: bool)
      requires Valid()
      modifies this
      ensures Valid() && depth == old(depth) && nextName == old(nextName)
      ensures ok <==> old(inTransaction) && !fails
      ensures ok ==> committed == old(current) == current && !inTransaction
      ensures !ok ==> current == old(current) && Is(old(committed), old(inTransaction), old(begun), old(stack), old(depth))
    {
      ok := inTransaction && !fails;
      if ok {
        committed, inTransaction, begun, stack := current, false, false, [];
      }
    }

    method Rollback()
      requires Valid()
      modifies this
      ensures Valid() && depth == old(depth) && nextName == old(nextName)
      ensures committed == old(committed) == current && !inTransaction
    {
      current, inTransaction, begun, stack := committed, false, false, [];
    }

    /** Outside a transaction a savepoint opens one. */
    method PushSavepoint(name: nat)
      requires Valid() && name < nextName
      modifies this
      ensures Valid() && current == old(current) && nextName == old(nextName)
      ensures Is(old(committed), true, old(begun), old(stack) + [Savepoint(name, old(current))], old(depth))
    {
      inTransaction, stack := true, stack + [Savepoint(name, current)];
    }

    /** Releasing the savepoint that opened the transaction commits it. */
    method Release(name: nat)
      requires Valid() && Find(stack, name) >= 0
      modifies this
      ensures Valid() && current == old(current) && nextName == old(nextName) && depth == old(depth)
      ensures stack == old(stack[..Find(stack, name)])
      ensures begun == old(begun)
      ensures if stack == [] && !begun then !inTransaction && committed == current
              else inTransaction == old(inTransaction) && committed == old(committed)
    {
      stack := stack[..Find(stack, name)];
      if stack == [] && !begun {
        inTransaction, committed := false, current;
      }
    }

    method RollbackTo(name: nat)
      requires Valid() && Find(stack, name) >= 0
      modifies this
      ensures Valid() && nextName == old(nextName)
      ensures current == old(stack[Find(stack, name)].snapshot)
      ensures Is(old(committed), old(inTransaction), old(begun), old(stack[..Find(stack, name) + 1]), old(depth))
    {
      var i := Find(stack, name);
      current, stack := stack[i].snapshot, stack[..i + 1];
    }

    /* ---- Running a program inside an open transaction ---- */

    /** Every operation runs at a depth one above the savepoints around it, and leaves no scope behind. */
    method Execute(p: Prog) returns (raised: bool)
      requires Valid() && inTransaction && depth == |stack| + 1
      modifies this
      ensures Valid() && Is(old(committed), true, old(begun), old(stack), old(depth)) && nextName >= old(nextName)
      ensures raised == Raises(p) && current == old(current) + Survivors(p)
      decreases p, 0
    {
      SurvivorsOf(p);
      raised := false;
      match p
      case Write(row) =>
        current := current + [row];
      case Raise =>
        raised := true;
      case Seq(first, second) =>
        raised := Execute(first);
        if !raised {
          raised := Execute(second);
        }
      case Try(body) =>
        var _ := Execute(body);
      case Scope(body) =>
        raised := Nested(body);
    }

    /** The reentrant path: a savepoint around the operation. */
    method Nested(body: Prog) returns (raised: bool)
      requires Valid() && depth == |stack| + 1
      modifies this
      ensures Valid() && Is(committed, old(inTransaction), old(begun), old(stack), old(depth)) && nextName >= old(nextName)
      ensures raised == Raises(body) && current == old(current) + Survivors(Scope(body))
      ensures committed == if old(inTransaction) then old(committed) else current
      decreases body, 1
    {
      SurvivorsOf(Scope(body));
      var name := nextName;
      nextName := nextName + 1;
      PushSavepoint(name);
      depth := depth + 1;
      raised := Execute(body);
      LeaveSavepoint(name, raised);
      depth := depth - 1;
    }

    /** The innermost savepoint goes; a failure takes its writes along. */
    method LeaveSavepoint(name: nat, failed: bool)
      requires Valid() && stack != [] && stack[|stack| - 1].name == name
      modifies this
      ensures Valid() && nextName == old(nextName) && depth == old(depth) && begun == old(begun)
      ensures stack == old(stack[..|stack| - 1])
      ensures current == if failed then old(stack[|stack| - 1].snapshot) else old(current)
      ensures if stack == [] && !begun then !inTransaction && committed == current
              else inTransaction == old(inTransaction) && committed == old(committed)
    {
      if failed {
        RollbackTo(name);
      }
      Release(name);
    }

    /**
     The outermost path.  Whatever an implicit transaction held is committed first.
     When BEGIN fails the depth stays at one.
     */
    method Outermost(body: Prog, beginFails: bool, commitFails: bool) returns (raised: bool)
      requires Valid() && depth == 0
      modifies this
      ensures Valid() && !inTransaction
      ensures depth == if beginFails then 1 else 0
      ensures raised <==> beginFails || Raises(body) || commitFails
      ensures committed == old(current) + if raised then [] else Survivors(Scope(body))
    {
      SurvivorsOf(Scope(body));
      depth := 1;
      if inTransaction {
        var _ := Commit(false);
      }
      var began := Begin(beginFails);
      if !began {
        return true;
      }
      raised := Execute(body);
      if !raised {
        var ok := Commit(commitFails);
        raised := !ok;
      }
      if raised {
        Rollback();
      }
      depth := 0;
    }

    /** The entry point picks the path by the depth. */
    method WithTransaction(body: Prog, beginFails: bool, commitFails: bool) returns (raised: bool)
      requires Valid() && (depth > 0 ==> depth == |stack| + 1)
      modifies this
      ensures Valid()
      ensures old(depth) == 0 ==>
        depth == (if beginFails then 1 else 0) && (raised <==> beginFails || Raises(body) || commitFails)
      ensures old(depth) > 0 ==> depth == old(depth) && (raised <==> Raises(body))
      ensures current == old(current) + if raised then [] else Survivors(Scope(body))
      ensures if old(depth) > 0 && old(inTransaction) then inTransaction && committed == old(committed)
              else !inTransaction && committed == current
    {
      SurvivorsOf(Scope(body));
      if depth > 0 {
        raised := Nested(body);
      } else {
        raised := Outermost(body, beginFails, commitFails);
      }
    }
  }
}
