/**
 Threads that interleave calls of the transaction helper, one visible effect at a
 time: who holds a connection's lock, and what a failed BEGIN leaves behind.
 */
module Exclusion {
  import opened Sequences

  type Db = nat
  type Tid = nat

  /**
   Where a call stands.  The outermost path goes Waiting, Locked, Marked, Running,
   Popping, Releasing; a failed BEGIN goes from Marked to Unwinding.  The nested path
   goes Entering, Inside.
   */
  datatype Point = Waiting | Locked | Marked | Running | Popping | Releasing | Unwinding | Entering | Inside

  datatype Frame = Frame(db: Db, point: Point) {
    predicate Outer() { !point.Entering? && !point.Inside? }

    /** The frame's call holds the lock. */
    predicate Holds() { Outer() && !point.Waiting? }

    /** The frame's call counts in the depth. */
    predicate Counts() { point.Marked? || point.Running? || point.Popping? || point.Inside? }
  }

  /** The calls a thread is in, outermost first, and its thread-local depths. */
  datatype Thread = Thread(frames: seq<Frame>, depths: map<Db, nat>, leaked: set<Db>) {
    function Depth(db: Db): nat { if db in depths then depths[db] else 0 }
  }

  datatype State = State(threads: seq<Thread>, owners: map<Db, Tid>)

  datatype Action =
    | Call(t: Tid, db: Db)
    | Acquire(t: Tid)
    | Mark(t: Tid)
    | Begin(t: Tid, ok: bool)
    | Enter(t: Tid, ok: bool)
    | Finish(t: Tid)
    | Pop(t: Tid)
    | Release(t: Tid)

  predicate CanCall(th: Thread) {
    th.frames == [] || th.frames[|th.frames| - 1].point.Running? || th.frames[|th.frames| - 1].point.Inside?
  }

  predicate At(th: Thread, point: Point) {
    th.frames != [] && th.frames[|th.frames| - 1].point == point
  }

  function Move(th: Thread, point: Point): Thread
    requires th.frames != []
  {
    var last := |th.frames| - 1;
    th.(frames := th.frames[..last] + [th.frames[last].(point := point)])
  }

  function Drop(th: Thread): Thread
    requires th.frames != []
  {
    th.(frames := th.frames[..|th.frames| - 1])
  }

  function TopDb(th: Thread): Db
    requires th.frames != []
  {
    th.frames[|th.frames| - 1].db
  }

  /** One step of one thread; `None` when the action is not enabled. */
  function ThreadStep(th: Thread, a: Action): Option<Thread> {
    match a
    case Call(_, db) =>
      if CanCall(th) then Some(th.(frames := th.frames + [Frame(db, if th.Depth(db) > 0 then Entering else Waiting)]))
      else None
    case Acquire(_) => if At(th, Waiting) then Some(Move(th, Locked)) else None
    case Mark(_) => if At(th, Locked) then Some(Move(th, Marked).(depths := th.depths[TopDb(th) := 1])) else None
    case Begin(_, ok) =>
      if !At(th, Marked) then None
      else if ok then Some(Move(th, Running))
      else Some(Move(th, Unwinding).(leaked := th.leaked + {TopDb(th)}))
    case Enter(_, ok) =>
      if !At(th, Entering) then None
      else if ok then Some(Move(th, Inside).(depths := th.depths[TopDb(th) := th.Depth(TopDb(th)) + 1]))
      else Some(Drop(th))
    case Finish(_) =>
      if At(th, Running) then Some(Move(th, Popping))
      else if At(th, Inside) then
        var db, d := TopDb(th), th.Depth(TopDb(th));
        Some(Drop(th).(depths := if d <= 1 then th.depths - {db} else th.depths[db := d - 1]))
      else None
    case Pop(_) => if At(th, Popping) then Some(Move(th, Releasing).(depths := th.depths - {TopDb(th)})) else None
    case Release(_) => if At(th, Releasing) || At(th, Unwinding) then Some(Drop(th)) else None
  }

  function Next(s: State, a: Action): State {
    if a.t >= |s.threads| then s
    else
      var th := s.threads[a.t];
      var step := ThreadStep(th, a);
      if step.None? || (a.Acquire? && TopDb(th) in s.owners) then s
      else
        State(s.threads[a.t := step.value],
              if a.Acquire? then s.owners[TopDb(th) := a.t]
              else if a.Release? then s.owners - {TopDb(th)}
              else s.owners)
  }

  function Run(s: State, actions: seq<Action>): State {
    if actions == [] then s else Next(Run(s, actions[..|actions| - 1]), actions[|actions| - 1])
  }

  function Init(n: nat): State {
    State(seq(n, _ => Thread([], map[], {})), map[])
  }

  /* ---- One thread ---- */

  /** Frames of one database that count in the depth. */
  function Counted(frames: seq<Frame>, db: Db): nat {
    if frames == [] then 0
    else
      var last := frames[|frames| - 1];
      Counted(frames[..|frames| - 1], db) + if last.db == db && last.Counts() then 1 else 0
  }

  ghost predicate HoldsLock(frames: seq<Frame>, db: Db) {
    exists i :: 0 <= i < |frames| && frames[i].db == db && frames[i].Holds()
  }

  /** Only the innermost call is between two running points. */
  ghost predicate Steady(frames: seq<Frame>, i: int) {
    0 <= i < |frames| - 1 ==> frames[i].point.Running? || frames[i].point.Inside?
  }

  /** An outermost call is the first on its database. */
  ghost predicate FirstOnDb(frames: seq<Frame>, i: int, j: int) {
    0 <= j < i < |frames| && frames[i].Outer() ==> frames[j].db != frames[i].db
  }

  /** A nested call stands above an outermost one, unless the depth was leaked. */
  ghost predicate Nests(th: Thread, i: int) {
    0 <= i < |th.frames| && !th.frames[i].Outer() ==>
      th.frames[i].db in th.leaked || exists j :: 0 <= j < i && th.frames[j].db == th.frames[i].db && th.frames[j].point.Running?
  }

  /** A leaked database has no outermost call but the one that is unwinding. */
  ghost predicate LeakedApart(th: Thread, i: int) {
    0 <= i < |th.frames| && th.frames[i].Outer() ==> (th.frames[i].db in th.leaked <==> th.frames[i].point.Unwinding?)
  }

  ghost predicate DepthExact(th: Thread, db: Db) {
    th.Depth(db) == Counted(th.frames, db) + if db in th.leaked then 1 else 0
  }

  ghost predicate ThreadInv(th: Thread) {
    && (forall i {:trigger Steady(th.frames, i)} :: Steady(th.frames, i))
    && (forall i, j {:trigger FirstOnDb(th.frames, i, j)} :: FirstOnDb(th.frames, i, j))
    && (forall i {:trigger Nests(th, i)} :: Nests(th, i))
    && (forall i {:trigger LeakedApart(th, i)} :: LeakedApart(th, i))
    && (forall db {:trigger DepthExact(th, db)} :: DepthExact(th, db))
  }

  /* ---- Steps keep the thread's invariant ---- */

  lemma CountedSnoc(frames: seq<Frame>, f: Frame, db: Db)
    ensures Counted(frames + [f], db) == Counted(frames, db) + if f.db == db && f.Counts() then 1 else 0
  {
    assert (frames + [f])[..|frames|] == frames;
  }

  lemma {:induction false} CountedZero(frames: seq<Frame>, db: Db)
    requires forall i :: 0 <= i < |frames| ==> frames[i].db != db || !frames[i].Counts()
    ensures Counted(frames, db) == 0
  {
    if frames != [] {
      CountedZero(frames[..|frames| - 1], db);
    }
  }

  lemma {:induction false} CountedSome(frames: seq<Frame>, db: Db) returns (i: nat)
    requires Counted(frames, db) > 0
    ensures i < |frames| && frames[i].db == db && frames[i].Counts()
  {
    var last := |frames| - 1;
    if frames[last].db == db && frames[last].Counts() {
      i := last;
    } else {
      i := CountedSome(frames[..last], db);
    }
  }

  /** The innermost call moves on: same database, same path. */
  lemma MoveKeeps(th: Thread, point: Point, th': Thread)
    requires ThreadInv(th) && th.frames != [] && th'.frames == Move(th, point).frames
    requires var top := th.frames[|th.frames| - 1];
      && top.Outer() == Frame(top.db, point).Outer()
      && (th'.leaked == th.leaked || (th'.leaked == th.leaked + {top.db} && top.Outer()))
    requires LeakedApart(th', |th.frames| - 1)
    requires forall db {:trigger DepthExact(th', db)} :: DepthExact(th', db)
    ensures ThreadInv(th')
  {
    var last := |th.frames| - 1;
    forall i ensures Steady(th'.frames, i) {
      assert Steady(th.frames, i);
    }
    forall i, j ensures FirstOnDb(th'.frames, i, j) {
      assert FirstOnDb(th.frames, i, j);
    }
    forall i ensures Nests(th', i) {
      assert Nests(th, i);
      if 0 <= i < |th.frames| && !th.frames[i].Outer() && th.frames[i].db !in th.leaked {
        var j :| 0 <= j < i && th.frames[j].db == th.frames[i].db && th.frames[j].point.Running?;
        assert th'.frames[j] == th.frames[j];
      }
    }
    forall i ensures LeakedApart(th', i) {
      if i != last {
        assert LeakedApart(th, i) && FirstOnDb(th.frames, last, i);
      }
    }
  }

  lemma DropKeeps(th: Thread, th': Thread)
    requires ThreadInv(th) && th.frames != [] && th'.frames == Drop(th).frames && th'.leaked == th.leaked
    requires forall db {:trigger DepthExact(th', db)} :: DepthExact(th', db)
    ensures ThreadInv(th')
  {
    forall i ensures Steady(th'.frames, i) {
      assert Steady(th.frames, i);
    }
    forall i, j ensures FirstOnDb(th'.frames, i, j) {
      assert FirstOnDb(th.frames, i, j);
    }
    forall i ensures Nests(th', i) {
      assert Nests(th, i);
      if 0 <= i < |th'.frames| && !th.frames[i].Outer() && th.frames[i].db !in th.leaked {
        var j :| 0 <= j < i && th.frames[j].db == th.frames[i].db && th.frames[j].point.Running?;
        assert th'.frames[j] == th.frames[j];
      }
    }
    forall i ensures LeakedApart(th', i) {
      assert LeakedApart(th, i);
    }
  }

  /** A thread that may call is running at every level. */
  lemma AllRunning(th: Thread, i: nat)
    requires ThreadInv(th) && CanCall(th) && i < |th.frames|
    ensures th.frames[i].Counts() && (th.frames[i].Outer() ==> th.frames[i].point.Running?)
  {
    assert Steady(th.frames, i);
  }

  lemma PushKeeps(th: Thread, db: Db, th': Thread)
    requires ThreadInv(th) && CanCall(th)
    requires th' == th.(frames := th.frames + [Frame(db, if th.Depth(db) > 0 then Entering else Waiting)])
    ensures ThreadInv(th')
  {
    var n := |th.frames|;
    assert DepthExact(th, db);
    forall i ensures Steady(th'.frames, i) {
      assert Steady(th.frames, i);
      if i == n - 1 && n > 0 {
        AllRunning(th, i);
      }
    }
    forall i, j ensures FirstOnDb(th'.frames, i, j) {
      assert FirstOnDb(th.frames, i, j);
      if i == n && 0 <= j < n && th.Depth(db) == 0 {
        NoFrameAtZero(th, db, j);
      }
    }
    forall i ensures Nests(th', i) {
      PushNests(th, db, th', i);
    }
    forall i ensures LeakedApart(th', i) {
      assert LeakedApart(th, i);
    }
    forall x ensures DepthExact(th', x) {
      assert DepthExact(th, x);
      CountedSnoc(th.frames, th'.frames[n], x);
    }
  }

  lemma NoFrameAtZero(th: Thread, db: Db, j: nat)
    requires ThreadInv(th) && CanCall(th) && th.Depth(db) == 0 && j < |th.frames|
    ensures th.frames[j].db != db
  {
    assert DepthExact(th, db);
    AllRunning(th, j);
    CountedAt(th.frames, j);
  }

  lemma {:induction false} CountedAt(frames: seq<Frame>, j: nat)
    requires j < |frames| && frames[j].Counts()
    ensures Counted(frames, frames[j].db) > 0
  {
    if j < |frames| - 1 {
      CountedAt(frames[..|frames| - 1], j);
    }
  }

  lemma PushNests(th: Thread, db: Db, th': Thread, i: int)
    requires ThreadInv(th) && CanCall(th)
    requires th' == th.(frames := th.frames + [Frame(db, if th.Depth(db) > 0 then Entering else Waiting)])
    ensures Nests(th', i)
  {
    var n := |th.frames|;
    assert Nests(th, i);
    if i == n && th.Depth(db) > 0 && db !in th.leaked {
      assert DepthExact(th, db);
      var k := CountedSome(th.frames, db);
      AllRunning(th, k);
      var j := k;
      if !th.frames[k].Outer() {
        assert Nests(th, k);
        j :| 0 <= j < k && th.frames[j].db == db && th.frames[j].point.Running?;
      }
      assert th'.frames[j] == th.frames[j] && th.frames[j].point.Running?;
    } else if 0 <= i < n && !th.frames[i].Outer() && th.frames[i].db !in th.leaked {
      var j :| 0 <= j < i && th.frames[j].db == th.frames[i].db && th.frames[j].point.Running?;
      assert th'.frames[j] == th.frames[j];
    }
  }

  /** What the innermost call adds to its database's depth. */
  lemma TopCounted(th: Thread, db: Db)
    requires ThreadInv(th) && th.frames != []
    ensures var init, top := th.frames[..|th.frames| - 1], th.frames[|th.frames| - 1];
      && Counted(th.frames, db) == Counted(init, db) + (if top.db == db && top.Counts() then 1 else 0)
      && (top.Outer() ==> Counted(init, top.db) == 0)
      && th.frames == init + [top]
  {
    var last := |th.frames| - 1;
    var init, top := th.frames[..last], th.frames[last];
    CountedSnoc(init, top, db);
    assert th.frames == init + [top];
    if top.Outer() {
      forall i | 0 <= i < |init| ensures init[i].db != top.db {
        assert FirstOnDb(th.frames, last, i);
      }
      CountedZero(init, top.db);
    }
  }

  lemma MoveDepth(th: Thread, point: Point, th': Thread, db: Db)
    requires ThreadInv(th) && th.frames != [] && th'.frames == Move(th, point).frames
    requires var top := th.frames[|th.frames| - 1];
      th'.Depth(db) - (if db in th'.leaked then 1 else 0) == th.Depth(db) - (if db in th.leaked then 1 else 0)
        + (if db == top.db then (if Frame(db, point).Counts() then 1 else 0) - (if top.Counts() then 1 else 0) else 0)
    ensures DepthExact(th', db)
  {
    var last := |th.frames| - 1;
    assert DepthExact(th, db);
    TopCounted(th, db);
    CountedSnoc(th.frames[..last], th.frames[last].(point := point), db);
  }

  lemma DropDepth(th: Thread, th': Thread, db: Db)
    requires ThreadInv(th) && th.frames != [] && th'.frames == Drop(th).frames && th'.leaked == th.leaked
    requires var top := th.frames[|th.frames| - 1];
      th'.Depth(db) == th.Depth(db) - if db == top.db && top.Counts() then 1 else 0
    ensures DepthExact(th', db)
  {
    assert DepthExact(th, db);
    TopCounted(th, db);
  }

  lemma MoveStepKeeps(th: Thread, a: Action)
    requires ThreadInv(th) && !a.Call? && ThreadStep(th, a).Some? && |ThreadStep(th, a).value.frames| == |th.frames|
    ensures ThreadInv(ThreadStep(th, a).value)
  {
    var th', last := ThreadStep(th, a).value, |th.frames| - 1;
    var point := th'.frames[last].point;
    assert DepthExact(th, TopDb(th)) && LeakedApart(th, last);
    TopCounted(th, TopDb(th));
    forall x ensures DepthExact(th', x) {
      MoveDepth(th, point, th', x);
    }
    MoveKeeps(th, point, th');
  }

  lemma DropStepKeeps(th: Thread, a: Action)
    requires ThreadInv(th) && !a.Call? && ThreadStep(th, a).Some? && |ThreadStep(th, a).value.frames| != |th.frames|
    ensures ThreadInv(ThreadStep(th, a).value)
  {
    var th' := ThreadStep(th, a).value;
    assert DepthExact(th, TopDb(th)) && LeakedApart(th, |th.frames| - 1);
    TopCounted(th, TopDb(th));
    forall x ensures DepthExact(th', x) {
      DropDepth(th, th', x);
    }
    DropKeeps(th, th');
  }

  lemma StepKeepsThread(th: Thread, a: Action)
    requires ThreadInv(th) && ThreadStep(th, a).Some?
    ensures ThreadInv(ThreadStep(th, a).value)
  {
    if a.Call? {
      PushKeeps(th, a.db, ThreadStep(th, a).value);
    } else if |ThreadStep(th, a).value.frames| == |th.frames| {
      MoveStepKeeps(th, a);
    } else {
      DropStepKeeps(th, a);
    }
  }

  /* ---- All threads ---- */

  /** The lock of `db` is owned by `t` exactly when `t` is in an outermost call that holds it. */
  ghost predicate OwnerExact(s: State, t: Tid, db: Db) {
    db in s.owners && s.owners[db] == t <==> t < |s.threads| && HoldsLock(s.threads[t].frames, db)
  }

  ghost predicate Inv(s: State) {
    && (forall t :: 0 <= t < |s.threads| ==> ThreadInv(s.threads[t]))
    && (forall t, db {:trigger OwnerExact(s, t, db)} :: OwnerExact(s, t, db))
  }

  lemma HoldsSnoc(init: seq<Frame>, top: Frame, db: Db)
    ensures HoldsLock(init + [top], db) <==> HoldsLock(init, db) || (top.db == db && top.Holds())
  {
    var frames := init + [top];
    assert frames[|init|] == top;
    assert forall i :: 0 <= i < |init| ==> frames[i] == init[i];
  }

  /** The innermost outermost-path call is the only one on its database. */
  lemma TopAlone(th: Thread)
    requires ThreadInv(th) && th.frames != [] && th.frames[|th.frames| - 1].Outer()
    ensures !HoldsLock(th.frames[..|th.frames| - 1], TopDb(th))
  {
    var last := |th.frames| - 1;
    forall i | 0 <= i < last ensures th.frames[..last][i].db != TopDb(th) {
      assert FirstOnDb(th.frames, last, i);
    }
  }

  /** Which locks a thread holds changes only by acquiring and releasing. */
  lemma StepHolds(th: Thread, a: Action, db: Db)
    requires ThreadInv(th) && ThreadStep(th, a).Some?
    ensures var th' := ThreadStep(th, a).value;
      HoldsLock(th'.frames, db) <==>
      if a.Acquire? && db == TopDb(th) then true
      else if a.Release? && db == TopDb(th) then false
      else HoldsLock(th.frames, db)
    ensures a.Acquire? ==> !HoldsLock(th.frames, TopDb(th))
    ensures a.Release? ==> HoldsLock(th.frames, TopDb(th))
  {
    var th' := ThreadStep(th, a).value;
    if a.Call? {
      HoldsSnoc(th.frames, th'.frames[|th.frames|], db);
    } else {
      var last := |th.frames| - 1;
      assert th.frames == th.frames[..last] + [th.frames[last]];
      HoldsSnoc(th.frames[..last], th.frames[last], db);
      HoldsSnoc(th.frames[..last], th.frames[last], TopDb(th));
      if th.frames[last].Outer() {
        TopAlone(th);
      }
      if |th'.frames| == |th.frames| {
        HoldsSnoc(th.frames[..last], th'.frames[last], db);
      }
    }
  }

  lemma NextKeepsInv(s: State, a: Action)
    requires Inv(s)
    ensures Inv(Next(s, a))
  {
    var s' := Next(s, a);
    if s' != s {
      var th := s.threads[a.t];
      StepKeepsThread(th, a);
      forall t, db ensures OwnerExact(s', t, db) {
        assert OwnerExact(s, t, db) && OwnerExact(s, a.t, db);
        StepHolds(th, a, db);
        if a.Release? {
          assert OwnerExact(s, a.t, TopDb(th));
        }
      }
    }
  }

  lemma InitInv(n: nat)
    ensures Inv(Init(n))
  {
    forall t | 0 <= t < n ensures ThreadInv(Init(n).threads[t]) {
      var th := Init(n).threads[t];
      assert forall db {:trigger DepthExact(th, db)} :: DepthExact(th, db);
    }
  }

  lemma {:induction false} RunKeepsInv(s: State, actions: seq<Action>)
    requires Inv(s)
    ensures Inv(Run(s, actions))
  {
    if actions != [] {
      RunKeepsInv(s, actions[..|actions| - 1]);
      NextKeepsInv(Run(s, actions[..|actions| - 1]), actions[|actions| - 1]);
    }
  }

  /** The thread owns the connection's lock. */
  predicate Owns(s: State, t: Tid, db: Db) {
    db in s.owners && s.owners[db] == t
  }

  /** The thread is on its way out of a call whose BEGIN failed. */
  predicate IsUnwinding(th: Thread, db: Db) {
    At(th, Unwinding) && TopDb(th) == db
  }

  /**
   Over every interleaving: a thread with a positive depth owns the connection's
   lock, except exactly when a failed BEGIN leaked that depth and the failing call
   has gone.
   */
  lemma OwnershipExact(n: nat, actions: seq<Action>, t: Tid, db: Db)
    requires t < |Run(Init(n), actions).threads| && Run(Init(n), actions).threads[t].Depth(db) > 0
    ensures var s := Run(Init(n), actions);
      Owns(s, t, db) <==> db !in s.threads[t].leaked || IsUnwinding(s.threads[t], db)
  {
    var s := Run(Init(n), actions);
    InitInv(n);
    RunKeepsInv(Init(n), actions);
    var th := s.threads[t];
    assert OwnerExact(s, t, db) && DepthExact(th, db);
    if db !in th.leaked {
      CountedHolds(th, db);
    } else {
      LeakedHolds(th, db);
    }
  }

  lemma CountedHolds(th: Thread, db: Db)
    requires ThreadInv(th) && db !in th.leaked && Counted(th.frames, db) > 0
    ensures HoldsLock(th.frames, db)
  {
    var k := CountedSome(th.frames, db);
    if !th.frames[k].Outer() {
      assert Nests(th, k);
      var j :| 0 <= j < k && th.frames[j].db == db && th.frames[j].point.Running?;
      assert th.frames[j].Holds();
    }
  }

  lemma LeakedHolds(th: Thread, db: Db)
    requires ThreadInv(th) && db in th.leaked
    ensures HoldsLock(th.frames, db) <==> IsUnwinding(th, db)
  {
    forall i | 0 <= i < |th.frames| && th.frames[i].db == db && th.frames[i].Holds() ensures IsUnwinding(th, db) {
      assert LeakedApart(th, i) && Steady(th.frames, i);
    }
    if IsUnwinding(th, db) {
      assert th.frames[|th.frames| - 1].Holds();
    }
  }

  /** So at most one thread has an unleaked scope open on a connection. */
  lemma OneWriter(n: nat, actions: seq<Action>, t: Tid, u: Tid, db: Db)
    requires var s := Run(Init(n), actions);
      t < |s.threads| && u < |s.threads| && s.threads[t].Depth(db) > 0 && s.threads[u].Depth(db) > 0
      && db !in s.threads[t].leaked && db !in s.threads[u].leaked
    ensures t == u
  {
    OwnershipExact(n, actions, t, db);
    OwnershipExact(n, actions, u, db);
  }

  /** A thread that is in no call owns no lock, and its depth is back at zero unless it leaked. */
  lemma FinishedLetsGo(n: nat, actions: seq<Action>, t: Tid, db: Db)
    requires t < |Run(Init(n), actions).threads| && Run(Init(n), actions).threads[t].frames == []
    ensures var s := Run(Init(n), actions);
      !Owns(s, t, db) && s.threads[t].Depth(db) == if db in s.threads[t].leaked then 1 else 0
  {
    var s := Run(Init(n), actions);
    InitInv(n);
    RunKeepsInv(Init(n), actions);
    assert OwnerExact(s, t, db) && DepthExact(s.threads[t], db);
  }

  ghost predicate BeginsSucceed(actions: seq<Action>) {
    forall a <- actions :: a.Begin? ==> a.ok
  }

  ghost predicate NothingLeaked(s: State) {
    forall t :: 0 <= t < |s.threads| ==> s.threads[t].leaked == {}
  }

  lemma {:induction false} SuccessLeaksNothing(n: nat, actions: seq<Action>)
    requires BeginsSucceed(actions)
    ensures NothingLeaked(Run(Init(n), actions))
  {
    if actions != [] {
      SuccessLeaksNothing(n, actions[..|actions| - 1]);
      assert actions[|actions| - 1] in actions;
    }
  }

  /** When every BEGIN succeeds, every thread with an open scope owns the lock, whatever the interleaving. */
  lemma Exclusive(n: nat, actions: seq<Action>, t: Tid, db: Db)
    requires BeginsSucceed(actions)
    requires t < |Run(Init(n), actions).threads| && Run(Init(n), actions).threads[t].Depth(db) > 0
    ensures Owns(Run(Init(n), actions), t, db)
  {
    SuccessLeaksNothing(n, actions);
    OwnershipExact(n, actions, t, db);
  }

  lemma OneFrame(f: Frame, depths: map<Db, nat>, leaked: set<Db>)
    ensures forall point :: Move(Thread([f], depths, leaked), point) == Thread([Frame(f.db, point)], depths, leaked)
    ensures Drop(Thread([f], depths, leaked)) == Thread([], depths, leaked)
    ensures [] + [f] == [f]
  {
    assert [f][..0] == [];
  }

  /** One step in a system of two threads. */
  lemma StepOfTwo(x: Thread, y: Thread, owners: map<Db, Tid>, a: Action)
    requires a.t < 2
    requires ThreadStep(if a.t == 0 then x else y, a).Some?
    requires a.Acquire? ==> TopDb(if a.t == 0 then x else y) !in owners
    ensures var th := if a.t == 0 then x else y;
      var th' := ThreadStep(th, a).value;
      Next(State([x, y], owners), a) ==
      State(if a.t == 0 then [th', y] else [x, th'],
            if a.Acquire? then owners[TopDb(th) := a.t] else if a.Release? then owners - {TopDb(th)} else owners)
  {
  }

  const IDLE := Thread([], map[], {})
  const FAILS := [Call(0, 7), Acquire(0)] + [Mark(0), Begin(0, false)]
  const REENTERS := [Release(0), Call(0, 7)] + [Enter(0, true)]
  const FOLLOWS := [Call(1, 7), Acquire(1)] + [Mark(1), Begin(1, true)]
  const LEAKING := FAILS + REENTERS + FOLLOWS

  /** One failed BEGIN lets two threads into scopes on the same connection. */
  lemma FailedBeginBreaksExclusion()
    ensures Run(Init(2), LEAKING) ==
      State([Thread([Frame(7, Inside)], map[7 := 2], {7}), Thread([Frame(7, Running)], map[7 := 1], {})], map[7 := 1])
  {
    assert Init(2) == State([IDLE, IDLE], map[]);
    FirstThreadLocks();
    BeginFails();
    RunAppend(Init(2), [Call(0, 7), Acquire(0)], [Mark(0), Begin(0, false)]);
    LeakedThreadReenters();
    SecondThreadEnters(Thread([Frame(7, Inside)], map[7 := 2], {7}));
    RunAppend(Init(2), FAILS, REENTERS);
    RunAppend(Init(2), FAILS + REENTERS, FOLLOWS);
  }

  lemma FirstThreadLocks()
    ensures Run(State([IDLE, IDLE], map[]), [Call(0, 7), Acquire(0)]) ==
      State([Thread([Frame(7, Locked)], map[], {}), IDLE], map[7 := 0])
  {
    var waiting := Thread([Frame(7, Waiting)], map[], {});
    OneFrame(Frame(7, Waiting), map[], {});
    StepOfTwo(IDLE, IDLE, map[], Call(0, 7));
    StepOfTwo(waiting, IDLE, map[], Acquire(0));
    RunTwo(State([IDLE, IDLE], map[]), Call(0, 7), Acquire(0));
  }

  lemma BeginFails()
    ensures Run(State([Thread([Frame(7, Locked)], map[], {}), IDLE], map[7 := 0]), [Mark(0), Begin(0, false)]) ==
      State([Thread([Frame(7, Unwinding)], map[7 := 1], {7}), IDLE], map[7 := 0])
  {
    var locked, marked := Thread([Frame(7, Locked)], map[], {}), Thread([Frame(7, Marked)], map[7 := 1], {});
    OneFrame(Frame(7, Locked), map[], {});
    StepOfTwo(locked, IDLE, map[7 := 0], Mark(0));
    OneFrame(Frame(7, Marked), map[7 := 1], {});
    StepOfTwo(marked, IDLE, map[7 := 0], Begin(0, false));
    assert marked.leaked + {7} == {7};
    RunTwo(State([locked, IDLE], map[7 := 0]), Mark(0), Begin(0, false));
  }

  lemma LeakedThreadCalls()
    ensures Run(State([Thread([Frame(7, Unwinding)], map[7 := 1], {7}), IDLE], map[7 := 0]), [Release(0), Call(0, 7)]) ==
      State([Thread([Frame(7, Entering)], map[7 := 1], {7}), IDLE], map[])
  {
    var unwinding, gone := Thread([Frame(7, Unwinding)], map[7 := 1], {7}), Thread([], map[7 := 1], {7});
    OneFrame(Frame(7, Unwinding), map[7 := 1], {7});
    StepOfTwo(unwinding, IDLE, map[7 := 0], Release(0));
    assert map[7 := 0] - {7} == map[];
    StepOfTwo(gone, IDLE, map[], Call(0, 7));
    RunTwo(State([unwinding, IDLE], map[7 := 0]), Release(0), Call(0, 7));
  }

  lemma LeakedThreadEnters()
    ensures Run(State([Thread([Frame(7, Entering)], map[7 := 1], {7}), IDLE], map[]), [Enter(0, true)]) ==
      State([Thread([Frame(7, Inside)], map[7 := 2], {7}), IDLE], map[])
  {
    var entering := Thread([Frame(7, Entering)], map[7 := 1], {7});
    OneFrame(Frame(7, Entering), map[7 := 1], {7});
    assert entering.depths[7 := 2] == map[7 := 2];
    StepOfTwo(entering, IDLE, map[], Enter(0, true));
    RunOne(State([entering, IDLE], map[]), Enter(0, true));
  }

  lemma LeakedThreadReenters()
    ensures Run(State([Thread([Frame(7, Unwinding)], map[7 := 1], {7}), IDLE], map[7 := 0]), REENTERS) ==
      State([Thread([Frame(7, Inside)], map[7 := 2], {7}), IDLE], map[])
  {
    LeakedThreadCalls();
    LeakedThreadEnters();
    RunAppend(State([Thread([Frame(7, Unwinding)], map[7 := 1], {7}), IDLE], map[7 := 0]),
              [Release(0), Call(0, 7)], [Enter(0, true)]);
  }

  lemma SecondThreadLocks(x: Thread)
    ensures Run(State([x, IDLE], map[]), [Call(1, 7), Acquire(1)]) ==
      State([x, Thread([Frame(7, Locked)], map[], {})], map[7 := 1])
  {
    var waiting := Thread([Frame(7, Waiting)], map[], {});
    OneFrame(Frame(7, Waiting), map[], {});
    StepOfTwo(x, IDLE, map[], Call(1, 7));
    StepOfTwo(x, waiting, map[], Acquire(1));
    RunTwo(State([x, IDLE], map[]), Call(1, 7), Acquire(1));
  }

  lemma SecondThreadBegins(x: Thread)
    ensures Run(State([x, Thread([Frame(7, Locked)], map[], {})], map[7 := 1]), [Mark(1), Begin(1, true)]) ==
      State([x, Thread([Frame(7, Running)], map[7 := 1], {})], map[7 := 1])
  {
    var locked, marked := Thread([Frame(7, Locked)], map[], {}), Thread([Frame(7, Marked)], map[7 := 1], {});
    OneFrame(Frame(7, Locked), map[], {});
    StepOfTwo(x, locked, map[7 := 1], Mark(1));
    OneFrame(Frame(7, Marked), map[7 := 1], {});
    StepOfTwo(x, marked, map[7 := 1], Begin(1, true));
    RunTwo(State([x, locked], map[7 := 1]), Mark(1), Begin(1, true));
  }

  lemma SecondThreadEnters(x: Thread)
    ensures Run(State([x, IDLE], map[]), FOLLOWS) ==
      State([x, Thread([Frame(7, Running)], map[7 := 1], {})], map[7 := 1])
  {
    SecondThreadLocks(x);
    SecondThreadBegins(x);
    RunAppend(State([x, IDLE], map[]), [Call(1, 7), Acquire(1)], [Mark(1), Begin(1, true)]);
  }

  lemma {:induction false} RunAppend(s: State, a: seq<Action>, b: seq<Action>)
    ensures Run(s, a + b) == Run(Run(s, a), b)
  {
    if b == [] {
      assert a + b == a;
    } else {
      assert (a + b)[..|a + b| - 1] == a + b[..|b| - 1];
      RunAppend(s, a, b[..|b| - 1]);
    }
  }

  lemma RunOne(s: State, a: Action)
    ensures Run(s, [a]) == Next(s, a)
  {
    assert [a][..0] == [];
  }

  lemma RunTwo(s: State, a: Action, b: Action)
    ensures Run(s, [a, b]) == Next(Next(s, a), b)
  {
    RunOne(s, a);
    assert [a, b][..1] == [a];
  }
}
