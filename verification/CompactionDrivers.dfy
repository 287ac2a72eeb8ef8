/** The drivers as the program runs them, over an engine whose tables change in place. */
module CompactionDrivers {
  import opened Sequences
  import opened SummaryDag
  import opened CompactionSteps
  import opened Lossless
  import opened CompactionTail
  import opened CompactionMeasure
  import opened CompactionEngine
  import opened CompactionSweep
  import opened CompactionRounds

  datatype SweepResult = SweepResult(
    actionTaken: bool, tokensBefore: int, tokensAfter: int, created: Option<SummaryId>,
    condensed: bool, passes: nat, authFailure: bool, records: seq<PassRecord>)

  method EvaluateLeafTrigger(engine: Engine) returns (trigger: bool)
    requires engine.Valid()
    ensures trigger == LeafTrigger(engine.View(), engine.config)
  {
    var s := engine.View();
    var limit := engine.ResolveFreshTailOrdinal();
    var total, i := 0, 0;
    while i < |engine.rows| && engine.rows[i].ordinal < limit
      invariant 0 <= i <= TailStart(s, engine.config) && total == RawTokens(s, s.context[..i])
    {
      assert s.context[..i + 1][..i] == s.context[..i];
      if s.context[i].RawItem? {
        total := total + TokensOf(s, s.context[i].message);
      }
      i := i + 1;
    }
    trigger := total >= engine.config.ChunkTokens();
  }

  /** Leaf passes until one is refused, reaches the threshold or makes no progress. */
  method LeafPhase(engine: Engine, replies: seq<Reply>, threshold: int, force: bool, start: Counters, ghost begun: seq<Event>)
      returns (c: Counters, ghost events: seq<Event>)
    requires engine.Valid() && start.stop.Going?
    modifies engine
    ensures engine.Valid()
    ensures Progress(engine.View(), events, c) ==
      LeafSweep(Progress(old(engine.View()), begun, start), engine.config, replies, threshold, force)
  {
    ghost var goal := LeafSweep(Progress(engine.View(), begun, start), engine.config, replies, threshold, force);
    c, events := start, begun;
    while c.stop.Going?
      invariant engine.Valid()
      invariant LeafSweep(Progress(engine.View(), events, c), engine.config, replies, threshold, force) == goal
      decreases if c.stop.Going? then 1 + |RawMessages(engine.View().context)| else 0
    {
      ghost var p := Progress(engine.View(), events, c);
      LeafTurnFewer(p, engine.config, replies, threshold, force);
      var reply := ReplyAt(replies, c.call);
      var outcome := engine.RunLeafPass(reply);
      if outcome.Made? {
        events := events + [RunLeaf(engine.config, reply)];
      }
      c := Advance(c, outcome, threshold, force, false);
      assert Progress(engine.View(), events, c) == LeafTurn(p, engine.config, replies, threshold, force);
    }
  }

  /** Condensed passes while forced or above the threshold, with the same ways to stop. */
  method CondensedPhase(engine: Engine, replies: seq<Reply>, threshold: int, force: bool, hard: bool,
                        start: Counters, ghost begun: seq<Event>)
      returns (c: Counters, ghost events: seq<Event>)
    requires engine.Valid() && Inv(engine.View()) && start.stop.Going?
    modifies engine
    ensures engine.Valid()
    ensures Progress(engine.View(), events, c) ==
      CondensedSweep(Progress(old(engine.View()), begun, start), engine.config, replies, threshold, force, hard)
  {
    ghost var goal := CondensedSweep(Progress(engine.View(), begun, start), engine.config, replies, threshold, force, hard);
    c, events := start, begun;
    while c.stop.Going? && (force || c.previous > threshold)
      invariant engine.Valid() && Inv(engine.View())
      invariant CondensedSweep(Progress(engine.View(), events, c), engine.config, replies, threshold, force, hard) == goal
      decreases if c.stop.Going? then 1 + SummaryMass(engine.View()) else 0
    {
      ghost var p := Progress(engine.View(), events, c);
      CondensedTurnLowers(p, engine.config, replies, threshold, force, hard);
      var reply := ReplyAt(replies, c.call);
      var outcome := engine.RunCondensedPass(hard, reply);
      if outcome.Made? {
        events := events + [RunCondensed(engine.config, hard, reply)];
      }
      c := Advance(c, outcome, threshold, force, true);
      assert Progress(engine.View(), events, c) == CondensedTurn(p, engine.config, replies, threshold, force, hard);
    }
  }

  /** What the sweep reports of its locals. */
  function Report(before: int, c: Counters): SweepResult {
    SweepResult(c.records != [], before, c.running, c.created, c.records != [] && c.records[|c.records| - 1].condensed,
                |c.records|, c.auth, c.records)
  }

  method FullSweep(engine: Engine, budget: int, replies: seq<Reply>, force: bool, hard: bool) returns (result: SweepResult)
    requires engine.Valid() && Inv(engine.View())
    modifies engine
    ensures engine.Valid()
    ensures var s := old(engine.View());
      var q := Sweep(s, engine.config, budget, replies, force, hard);
      engine.View() == q.store && result == Report(ContextTokens(s, s.context), q.counters)
  {
    ghost var s := engine.View();
    var before := ContextTokens(engine.View(), engine.View().context);
    var threshold := Threshold(engine.config, budget);
    var trigger := EvaluateLeafTrigger(engine);
    if !force && before <= threshold && !trigger {
      return Report(before, Fresh(before));
    }
    if engine.rows == [] {
      return Report(before, Fresh(before));
    }
    LeafPartTracks(s, engine.config, budget, replies, force);
    var c;
    ghost var events;
    c, events := LeafPhase(engine, replies, threshold, force, Fresh(before), []);
    c, events := CondensedPhase(engine, replies, threshold, force, hard, c.(stop := Going), events);
    result := Report(before, c);
  }

  /** Forced sweeps until the goal is met, for at most `maxRounds` rounds. */
  method CompactUntilUnder(engine: Engine, budget: int, replies: seq<seq<Reply>>,
                           targetTokens: Option<int>, currentTokens: Option<int>)
      returns (result: RoundsResult)
    requires engine.Valid() && Inv(engine.View())
    modifies engine
    ensures engine.Valid()
    ensures var s := old(engine.View());
      var trail := Trail(s, engine.config, budget, replies, Max(0, engine.config.maxRounds));
      var r := UntilUnder(trail, engine.config.maxRounds, Goal(budget, targetTokens), StartTokens(s, currentTokens));
      |r.floors| <= |trail| && result == r.result && engine.View() == StoreAfter(trail, s, |r.floors|)
  {
    var goal, last := Goal(budget, targetTokens), StartTokens(engine.View(), currentTokens);
    if last < goal {
      return RoundsResult(true, 0, last, false);
    }
    ghost var s, n := engine.View(), Max(0, engine.config.maxRounds);
    TrailSwept(s, engine.config, budget, replies, n);
    result := RunRounds(engine, budget, goal, replies, last, Trail(s, engine.config, budget, replies, n));
  }

  /** One forced sweep. */
  method RunRound(engine: Engine, budget: int, replies: seq<seq<Reply>>, round: nat, ghost s: Store, ghost trail: seq<Progress>)
      returns (sweep: SweepResult)
    requires AllSwept(trail, s, engine.config, budget, replies) && round < |trail|
    requires engine.Valid() && Inv(engine.View()) && engine.View() == StoreAfter(trail, s, round)
    modifies engine
    ensures engine.Valid() && Inv(engine.View()) && engine.View() == StoreAfter(trail, s, round + 1)
    ensures var c := trail[round].counters;
      sweep.authFailure == c.auth && sweep.tokensAfter == c.running && sweep.actionTaken == (c.records != [])
  {
    assert SweptAt(trail, s, engine.config, budget, replies, round);
    ForcedKeeps(engine.View(), engine.config, budget, replies, round);
    sweep := FullSweep(engine, budget, Script(replies, round), true, false);
  }

  method RunRounds(engine: Engine, budget: int, goal: int, replies: seq<seq<Reply>>, start: int, ghost trail: seq<Progress>)
      returns (result: RoundsResult)
    requires engine.Valid() && Inv(engine.View()) && |trail| == Max(0, engine.config.maxRounds)
    requires AllSwept(trail, engine.View(), engine.config, budget, replies)
    modifies engine
    ensures engine.Valid()
    ensures var r := Decide(trail, engine.config.maxRounds, goal, 0, start);
      |r.floors| <= |trail| && result == r.result && engine.View() == StoreAfter(trail, old(engine.View()), |r.floors|)
  {
    ghost var s := engine.View();
    var last := start;
    for round: nat := 0 to Max(0, engine.config.maxRounds)
      invariant engine.Valid() && Inv(engine.View()) && engine.View() == StoreAfter(trail, s, round)
      invariant SameEnd(Decide(trail, engine.config.maxRounds, goal, 0, start),
                        Decide(trail, engine.config.maxRounds, goal, round, last), round)
    {
      var sweep := RunRound(engine, budget, replies, round, s, trail);
      if sweep.authFailure {
        return RoundsResult(false, round + 1, sweep.tokensAfter, true);
      }
      if sweep.tokensAfter <= goal {
        return RoundsResult(true, round + 1, sweep.tokensAfter, false);
      }
      if !sweep.actionTaken || sweep.tokensAfter >= last {
        return RoundsResult(false, round + 1, sweep.tokensAfter, false);
      }
      last := sweep.tokensAfter;
    }
    result := RoundsResult(last <= goal, engine.config.maxRounds, last, false);
  }

  /** The rounds `r` that remain after `made` end as the whole does. */
  predicate SameEnd(whole: Rounds, r: Rounds, made: nat) {
    r.result == whole.result && |whole.floors| == made + |r.floors|
  }
}
