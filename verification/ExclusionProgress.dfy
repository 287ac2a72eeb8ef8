/** What calls leave behind, and that threads on one connection never wait for each other forever. */
module ExclusionProgress {
  import opened Sequences
  import opened Exclusion

  /* ---- Whole calls ---- */

  lemma RunCons(s: State, a: Action, rest: seq<Action>)
    ensures Run(s, [a] + rest) == Run(Next(s, a), rest)
  {
    RunAppend(s, [a], rest);
    RunOne(s, a);
  }

  lemma RunThree(s: State, a: Action, b: Action, c: Action)
    ensures Run(s, [a, b, c]) == Next(Next(Next(s, a), b), c)
  {
    RunCons(s, a, [b, c]);
    RunTwo(Next(s, a), b, c);
    assert [a] + [b, c] == [a, b, c];
  }

  /** The thread in the state with one more call on top. */
  function Calling(th: Thread, db: Db, point: Point): Thread {
    th.(frames := th.frames + [Frame(db, point)])
  }

  function WithThread(s: State, t: Tid, th: Thread): State
    requires t < |s.threads|
  {
    s.(threads := s.threads[t := th])
  }

  lemma MoveTop(th: Thread, db: Db, point: Point, to: Point, depths: map<Db, nat>, leaked: set<Db>)
    ensures Move(Calling(th, db, point).(depths := depths, leaked := leaked), to) == Calling(th, db, to).(depths := depths, leaked := leaked)
    ensures Drop(Calling(th, db, point).(depths := depths, leaked := leaked)) == th.(depths := depths, leaked := leaked)
    ensures TopDb(Calling(th, db, point).(depths := depths, leaked := leaked)) == db
    ensures At(Calling(th, db, point).(depths := depths, leaked := leaked), point)
  {
  }

  lemma StepOf(s: State, a: Action, th': Thread)
    requires a.t < |s.threads| && ThreadStep(s.threads[a.t], a) == Some(th')
    requires a.Acquire? ==> TopDb(s.threads[a.t]) !in s.owners
    ensures Next(s, a) == State(s.threads[a.t := th'],
      if a.Acquire? then s.owners[TopDb(s.threads[a.t]) := a.t]
      else if a.Release? then s.owners - {TopDb(s.threads[a.t])} else s.owners)
  {
  }

  lemma Rewrite<T>(xs: seq<T>, i: nat, x: T, y: T)
    requires i < |xs|
    ensures xs[i := x][i := y] == xs[i := y] && xs[i := x][i] == x && |xs[i := x]| == |xs| && xs[i := xs[i]] == xs
  {
  }

  /** The thread takes the free lock and counts its call. */
  lemma Takes(s: State, t: Tid, db: Db)
    requires t < |s.threads| && CanCall(s.threads[t]) && s.threads[t].Depth(db) == 0 && db !in s.owners
    ensures var th := s.threads[t];
      Run(s, [Call(t, db), Acquire(t), Mark(t)]) ==
      State(s.threads[t := Calling(th, db, Marked).(depths := th.depths[db := 1])], s.owners[db := t])
  {
    var th := s.threads[t];
    var waiting, locked := Calling(th, db, Waiting), Calling(th, db, Locked);
    MoveTop(th, db, Waiting, Locked, th.depths, th.leaked);
    MoveTop(th, db, Locked, Marked, th.depths, th.leaked);
    Rewrite(s.threads, t, waiting, locked);
    Rewrite(s.threads, t, locked, Calling(th, db, Marked).(depths := th.depths[db := 1]));
    StepOf(s, Call(t, db), waiting);
    StepOf(WithThread(s, t, waiting), Acquire(t), locked);
    StepOf(State(s.threads[t := locked], s.owners[db := t]), Mark(t), Calling(th, db, Marked).(depths := th.depths[db := 1]));
    RunThree(s, Call(t, db), Acquire(t), Mark(t));
  }

  /** From there a call whose BEGIN succeeds goes back to where the thread was. */
  lemma Leaves(s: State, t: Tid, th: Thread, db: Db)
    requires t < |s.threads| && s.threads[t] == Calling(th, db, Running) && db in th.depths
    ensures Run(s, [Finish(t), Pop(t), Release(t)]) == State(s.threads[t := th.(depths := th.depths - {db})], s.owners - {db})
  {
    var popping, releasing := Calling(th, db, Popping), Calling(th, db, Releasing).(depths := th.depths - {db});
    var out := th.(depths := th.depths - {db});
    MoveTop(th, db, Running, Popping, th.depths, th.leaked);
    MoveTop(th, db, Popping, Releasing, th.depths, th.leaked);
    MoveTop(th, db, Releasing, Releasing, th.depths - {db}, th.leaked);
    Rewrite(s.threads, t, popping, releasing);
    Rewrite(s.threads, t, releasing, out);
    StepOf(s, Finish(t), popping);
    StepOf(WithThread(s, t, popping), Pop(t), releasing);
    StepOf(WithThread(s, t, releasing), Release(t), out);
    RunThree(s, Finish(t), Pop(t), Release(t));
  }

  lemma Commits(s: State, t: Tid, th: Thread, db: Db)
    requires t < |s.threads| && s.threads[t] == Calling(th, db, Marked) && db in th.depths
    ensures Run(s, [Begin(t, true)] + [Finish(t), Pop(t), Release(t)]) ==
      State(s.threads[t := th.(depths := th.depths - {db})], s.owners - {db})
  {
    var running, out := Calling(th, db, Running), th.(depths := th.depths - {db});
    MoveTop(th, db, Marked, Running, th.depths, th.leaked);
    StepOf(s, Begin(t, true), running);
    Rewrite(s.threads, t, running, out);
    Leaves(WithThread(s, t, running), t, th, db);
    RunCons(s, Begin(t, true), [Finish(t), Pop(t), Release(t)]);
  }

  lemma GivesUp(s: State, t: Tid, th: Thread, db: Db)
    requires t < |s.threads| && s.threads[t] == Calling(th, db, Marked)
    ensures Run(s, [Begin(t, false), Release(t)]) == State(s.threads[t := th.(leaked := th.leaked + {db})], s.owners - {db})
  {
    var out := th.(leaked := th.leaked + {db});
    var unwinding := Calling(out, db, Unwinding);
    MoveTop(th, db, Marked, Unwinding, th.depths, th.leaked);
    MoveTop(out, db, Unwinding, Unwinding, out.depths, out.leaked);
    StepOf(s, Begin(t, false), unwinding);
    Rewrite(s.threads, t, unwinding, out);
    StepOf(WithThread(s, t, unwinding), Release(t), out);
    RunTwo(s, Begin(t, false), Release(t));
  }

  /** The state in which the call has taken the lock and counted itself. */
  function Entered(s: State, t: Tid, db: Db): State
    requires t < |s.threads|
  {
    var th := s.threads[t];
    State(s.threads[t := Calling(th.(depths := th.depths[db := 1]), db, Marked)], s.owners[db := t])
  }

  lemma TakesIt(s: State, t: Tid, db: Db, after: Thread)
    requires t < |s.threads| && CanCall(s.threads[t]) && s.threads[t].Depth(db) == 0 && db !in s.owners
    ensures Run(s, [Call(t, db), Acquire(t), Mark(t)]) == Entered(s, t, db)
    ensures Entered(s, t, db).threads[t] == Calling(s.threads[t].(depths := s.threads[t].depths[db := 1]), db, Marked)
    ensures Entered(s, t, db).threads[t := after] == s.threads[t := after]
    ensures Entered(s, t, db).owners - {db} == s.owners
  {
    Takes(s, t, db);
  }

  /** A whole outermost call leaves every thread and every lock as they were. */
  lemma OuterCallReturns(s: State, t: Tid, db: Db)
    requires t < |s.threads| && CanCall(s.threads[t]) && db !in s.threads[t].depths && db !in s.owners
    ensures Run(s, [Call(t, db), Acquire(t), Mark(t)] + ([Begin(t, true)] + [Finish(t), Pop(t), Release(t)])) == s
  {
    var th := s.threads[t];
    var inner := th.(depths := th.depths[db := 1]);
    TakesIt(s, t, db, th);
    Commits(Entered(s, t, db), t, inner, db);
    RunAppend(s, [Call(t, db), Acquire(t), Mark(t)], [Begin(t, true)] + [Finish(t), Pop(t), Release(t)]);
    assert th.depths[db := 1] - {db} == th.depths;
    assert inner.(depths := th.depths) == th;
    Rewrite(s.threads, t, th, th);
  }

  /** One whose BEGIN fails gives the lock back but keeps the depth, which is marked as leaked. */
  lemma FailedCallLeaks(s: State, t: Tid, db: Db)
    requires t < |s.threads| && CanCall(s.threads[t]) && db !in s.threads[t].depths && db !in s.owners
    ensures var th := s.threads[t];
      Run(s, [Call(t, db), Acquire(t), Mark(t)] + [Begin(t, false), Release(t)]) ==
      WithThread(s, t, th.(depths := th.depths[db := 1], leaked := th.leaked + {db}))
  {
    var th := s.threads[t];
    TakesIt(s, t, db, th.(depths := th.depths[db := 1], leaked := th.leaked + {db}));
    GivesUp(Entered(s, t, db), t, th.(depths := th.depths[db := 1]), db);
    RunAppend(s, [Call(t, db), Acquire(t), Mark(t)], [Begin(t, false), Release(t)]);
  }

  lemma Nests(s: State, t: Tid, db: Db)
    requires t < |s.threads| && CanCall(s.threads[t]) && s.threads[t].Depth(db) > 0
    ensures var th := s.threads[t];
      Run(s, [Call(t, db), Enter(t, true)]) == WithThread(s, t, Calling(Deeper(th, db), db, Inside))
  {
    var th := s.threads[t];
    var entering, inside := Calling(th, db, Entering), Calling(Deeper(th, db), db, Inside);
    MoveTop(th, db, Entering, Inside, th.depths, th.leaked);
    Rewrite(s.threads, t, entering, inside);
    StepOf(s, Call(t, db), entering);
    StepOf(WithThread(s, t, entering), Enter(t, true), inside);
    RunTwo(s, Call(t, db), Enter(t, true));
  }

  lemma Unnests(s: State, t: Tid, th: Thread, db: Db)
    requires t < |s.threads| && s.threads[t] == Calling(th, db, Inside) && th.Depth(db) > 1
    ensures Next(s, Finish(t)) == WithThread(s, t, th.(depths := th.depths[db := th.Depth(db) - 1]))
  {
    MoveTop(th, db, Inside, Inside, th.depths, th.leaked);
    StepOf(s, Finish(t), th.(depths := th.depths[db := th.Depth(db) - 1]));
  }

  lemma Restored(s: State, t: Tid, x: Thread)
    requires t < |s.threads|
    ensures WithThread(s, t, x).threads[t] == x && WithThread(WithThread(s, t, x), t, s.threads[t]) == s
  {
    Rewrite(s.threads, t, x, s.threads[t]);
  }

  function Deeper(th: Thread, db: Db): Thread {
    th.(depths := th.depths[db := th.Depth(db) + 1])
  }

  lemma DeeperAndBack(th: Thread, db: Db)
    requires th.Depth(db) > 0
    ensures var deeper := Deeper(th, db);
      deeper.Depth(db) > 1 && deeper.(depths := deeper.depths[db := deeper.Depth(db) - 1]) == th
  {
    assert th.depths[db := th.Depth(db) + 1][db := th.Depth(db)] == th.depths;
  }

  /** A whole nested call leaves everything as it was. */
  lemma NestedCallReturns(s: State, t: Tid, db: Db)
    requires t < |s.threads| && CanCall(s.threads[t]) && s.threads[t].Depth(db) > 0
    ensures Run(s, [Call(t, db), Enter(t, true)] + [Finish(t)]) == s
  {
    var deeper := Deeper(s.threads[t], db);
    var mid := WithThread(s, t, Calling(deeper, db, Inside));
    Nests(s, t, db);
    Restored(s, t, Calling(deeper, db, Inside));
    DeeperAndBack(s.threads[t], db);
    Unnests(mid, t, deeper, db);
    RunAppend(s, [Call(t, db), Enter(t, true)], [Finish(t)]);
    RunOne(mid, Finish(t));
  }

  /** And so does one whose SAVEPOINT fails. */
  lemma RefusedCallReturns(s: State, t: Tid, db: Db)
    requires t < |s.threads| && CanCall(s.threads[t]) && s.threads[t].Depth(db) > 0
    ensures Run(s, [Call(t, db), Enter(t, false)]) == s
  {
    var th := s.threads[t];
    var entering := Calling(th, db, Entering);
    MoveTop(th, db, Entering, Entering, th.depths, th.leaked);
    Rewrite(s.threads, t, entering, th);
    StepOf(s, Call(t, db), entering);
    StepOf(WithThread(s, t, entering), Enter(t, false), th);
    RunTwo(s, Call(t, db), Enter(t, false));
  }

  /* ---- Waiting ---- */

  /** Some thread can take a step of a call it is in. */
  ghost predicate Moves(s: State, t: Tid) {
    t < |s.threads| && exists a: Action {:trigger Next(s, a)} :: a.t == t && !a.Call? && Next(s, a) != s
  }

  /** The step that a thread's innermost call takes next. */
  function NextStep(t: Tid, point: Point): Action {
    match point
    case Waiting => Acquire(t)
    case Locked => Mark(t)
    case Marked => Begin(t, true)
    case Running => Finish(t)
    case Popping => Pop(t)
    case Releasing => Release(t)
    case Unwinding => Release(t)
    case Entering => Enter(t, true)
    case Inside => Finish(t)
  }

  /** A thread in a call moves unless it waits for a lock that is taken. */
  lemma MovesUnlessWaiting(s: State, t: Tid)
    requires t < |s.threads| && s.threads[t].frames != []
    requires At(s.threads[t], Waiting) ==> TopDb(s.threads[t]) !in s.owners
    ensures Moves(s, t)
  {
    var th := s.threads[t];
    var last := |th.frames| - 1;
    var a := NextStep(t, th.frames[last].point);
    var th' := ThreadStep(th, a).value;
    assert |th'.frames| == |th.frames| ==> th'.frames[last] != th.frames[last];
    StepOf(s, a, th');
    assert Next(s, a).threads[t] == th' != th;
  }

  /** Every call is on this connection. */
  ghost predicate OnlyOn(s: State, db: Db) {
    forall t, i {:trigger s.threads[t].frames[i]} :: 0 <= t < |s.threads| && 0 <= i < |s.threads[t].frames| ==> s.threads[t].frames[i].db == db
  }

  /** The owner of a lock that is waited for does not wait itself, with one connection. */
  lemma OwnerMoves(s: State, db: Db, u: Tid)
    requires Inv(s) && OnlyOn(s, db) && db in s.owners && s.owners[db] == u
    ensures Moves(s, u)
  {
    assert OwnerExact(s, u, db);
    var th := s.threads[u];
    var i :| 0 <= i < |th.frames| && th.frames[i].db == db && th.frames[i].Holds();
    assert FirstOnDb(th.frames, |th.frames| - 1, i);
    assert th.frames[|th.frames| - 1].db == db;
    MovesUnlessWaiting(s, u);
  }

  /** With one connection no interleaving leads to a deadlock: while some call is open, some thread moves. */
  lemma NoDeadlock(n: nat, actions: seq<Action>, db: Db, t: Tid)
    requires var s := Run(Init(n), actions); OnlyOn(s, db) && t < |s.threads| && s.threads[t].frames != []
    ensures exists u :: Moves(Run(Init(n), actions), u)
  {
    var s := Run(Init(n), actions);
    InitInv(n);
    RunKeepsInv(Init(n), actions);
    if At(s.threads[t], Waiting) && TopDb(s.threads[t]) in s.owners {
      assert s.threads[t].frames[|s.threads[t].frames| - 1].db == db;
      OwnerMoves(s, db, s.owners[db]);
    } else {
      MovesUnlessWaiting(s, t);
    }
  }

  /** An outermost call up to where its operation runs. */
  function Opening(t: Tid, db: Db): seq<Action> {
    [Call(t, db), Acquire(t), Mark(t)] + [Begin(t, true)]
  }

  lemma Opens(s: State, t: Tid, db: Db)
    requires t < |s.threads| && CanCall(s.threads[t]) && s.threads[t].Depth(db) == 0 && db !in s.owners
    ensures var th := s.threads[t];
      Run(s, Opening(t, db)) == State(s.threads[t := Calling(th.(depths := th.depths[db := 1]), db, Running)], s.owners[db := t])
  {
    var inner := s.threads[t].(depths := s.threads[t].depths[db := 1]);
    TakesIt(s, t, db, Calling(inner, db, Running));
    MoveTop(inner, db, Marked, Running, inner.depths, inner.leaked);
    StepOf(Entered(s, t, db), Begin(t, true), Calling(inner, db, Running));
    RunAppend(s, [Call(t, db), Acquire(t), Mark(t)], [Begin(t, true)]);
    RunOne(Entered(s, t, db), Begin(t, true));
  }

  const FIRST := Calling(IDLE.(depths := map[1 := 1]), 1, Running)
  const SECOND := Calling(IDLE.(depths := map[2 := 1]), 2, Running)

  /** Each of two threads holds one connection. */
  const HOLDING := State([FIRST, SECOND], map[1 := 0, 2 := 1])

  /** And waits for the other's. */
  const CROSSED := State([Calling(FIRST, 2, Waiting), Calling(SECOND, 1, Waiting)], map[1 := 0, 2 := 1])

  lemma BothOpen()
    ensures Run(Init(2), Opening(0, 1) + Opening(1, 2)) == HOLDING
  {
    var one := State([FIRST, IDLE], map[1 := 0]);
    assert Init(2).threads == [IDLE, IDLE];
    Opens(Init(2), 0, 1);
    assert IDLE.depths[1 := 1] == map[1 := 1] && [IDLE, IDLE][0 := FIRST] == [FIRST, IDLE];
    Opens(one, 1, 2);
    assert IDLE.depths[2 := 1] == map[2 := 1] && [FIRST, IDLE][1 := SECOND] == [FIRST, SECOND];
    assert map[1 := 0][2 := 1] == map[1 := 0, 2 := 1];
    RunAppend(Init(2), Opening(0, 1), Opening(1, 2));
  }

  lemma StartsWaiting(s: State, t: Tid, db: Db)
    requires t < |s.threads| && At(s.threads[t], Running) && s.threads[t].Depth(db) == 0
    ensures Next(s, Call(t, db)) == WithThread(s, t, Calling(s.threads[t], db, Waiting))
  {
    StepOf(s, Call(t, db), Calling(s.threads[t], db, Waiting));
  }

  lemma TwoStartWaiting(x: Thread, y: Thread, owners: map<Db, Tid>, dx: Db, dy: Db)
    requires At(x, Running) && At(y, Running) && x.Depth(dx) == 0 && y.Depth(dy) == 0
    ensures Run(State([x, y], owners), [Call(0, dx), Call(1, dy)]) ==
      State([Calling(x, dx, Waiting), Calling(y, dy, Waiting)], owners)
  {
    var s, x', y' := State([x, y], owners), Calling(x, dx, Waiting), Calling(y, dy, Waiting);
    StartsWaiting(s, 0, dx);
    assert [x, y][0 := x'] == [x', y] && [x', y][1 := y'] == [x', y'];
    StartsWaiting(State([x', y], owners), 1, dy);
    RunTwo(s, Call(0, dx), Call(1, dy));
  }

  lemma BothCall()
    ensures Run(HOLDING, [Call(0, 2), Call(1, 1)]) == CROSSED
  {
    TopRuns(IDLE.(depths := map[1 := 1]), 1);
    TopRuns(IDLE.(depths := map[2 := 1]), 2);
    TwoStartWaiting(FIRST, SECOND, map[1 := 0, 2 := 1], 2, 1);
  }

  lemma TopRuns(th: Thread, db: Db)
    ensures At(Calling(th, db, Running), Running)
  {
  }

  /** A thread that waits for a lock another owns does not move. */
  lemma WaitsOn(s: State, t: Tid)
    requires t < |s.threads| && At(s.threads[t], Waiting) && TopDb(s.threads[t]) in s.owners
    ensures !Moves(s, t)
  {
  }

  /** With two connections it can: calls that cross leave both threads waiting for good. */
  lemma CrossedCallsWait()
    ensures Run(Init(2), Opening(0, 1) + Opening(1, 2) + [Call(0, 2), Call(1, 1)]) == CROSSED
    ensures forall u: Tid :: !Moves(CROSSED, u)
  {
    BothOpen();
    BothCall();
    RunAppend(Init(2), Opening(0, 1) + Opening(1, 2), [Call(0, 2), Call(1, 1)]);
    WaitsOn(CROSSED, 0);
    WaitsOn(CROSSED, 1);
  }
}
