/**
 What the drivers promise, said without their own vocabulary: the trigger and the threshold,
 which replies a sweep uses and what it reports, and when the rounds go on.
 */
module CompactionPromises {
  import opened Sequences
  import opened ChunkSelection
  import opened SummaryDag
  import opened CompactionSteps
  import opened Lossless
  import opened CompactionTail
  import opened CompactionMeasure
  import opened CompactionFolds
  import opened CompactionSweep
  import opened CompactionRounds
  import opened CompactionDrivers

  /* ---- The fresh tail, the trigger and the threshold ---- */

  /** The tail by its meaning; a negative cap is no cap. */
  lemma TailMeaning(s: Store, cfg: Config)
    ensures var cap := if cfg.freshTailMaxTokens.Some? && cfg.freshTailMaxTokens.value >= 0
                       then Some(cfg.freshTailMaxTokens.value as nat) else None;
      IsProtectedTail(Weigh(s, RawMessages(s.context)), cfg.freshTailCount, cap, TailLength(s, cfg))
  {
    ProtectedMeaning(Weigh(s, RawMessages(s.context)), cfg.freshTailCount, cfg.TailCap());
  }

  lemma {:induction false} RawTokensAre(s: Store, items: seq<Item>)
    ensures RawTokens(s, items) == RemovedTokens(s, RawMessages(items))
  {
    if items != [] {
      var init, last := items[..|items| - 1], items[|items| - 1];
      RawTokensAre(s, init);
      RawsSnoc(s, init, last);
      assert items == init + [last];
    }
  }

  /** The messages that the tail does not hold. */
  function Unprotected(s: Store, cfg: Config): seq<MessageId> {
    RawMessages(s.context)[..|RawMessages(s.context)| - TailLength(s, cfg)]
  }

  /** The trigger fires exactly when the messages outside the tail reach the chunk size, 20000 unless configured. */
  lemma TriggerIff(s: Store, cfg: Config)
    ensures LeafTrigger(s, cfg) <==>
      RemovedTokens(s, Unprotected(s, cfg)) >=
      if cfg.leafChunkTokens.Some? && cfg.leafChunkTokens.value > 0 then cfg.leafChunkTokens.value else 20_000
  {
    var limit := TailStart(s, cfg);
    var pre, post := s.context[..limit], s.context[limit..];
    RawTokensAre(s, pre);
    TailSplits(s, cfg);
    assert s.context == pre + post;
    RawAppend(pre, post);
    assert RawMessages(pre) == Unprotected(s, cfg);
  }

  /** The threshold is the configured share of the budget, cut off toward zero. */
  lemma ThresholdMeaning(cfg: Config, budget: int)
    ensures var share, t := cfg.contextThreshold * budget as real, Threshold(cfg, budget) as real;
      if share >= 0.0 then t <= share < t + 1.0 else t - 1.0 < share <= t
  {
  }

  /* ---- One sweep ---- */

  /** The passes of a sweep use the replies from the first on; a refusal that ends the first phase uses one as well. */
  lemma SweepScript(s: Store, cfg: Config, budget: int, replies: seq<Reply>, force: bool, hard: bool)
    requires Inv(s) && !Idle(s, cfg, budget, force)
    ensures var p, q := LeafPart(s, cfg, budget, replies, force), Sweep(s, cfg, budget, replies, force, hard);
      var m := |p.counters.records|;
      && m <= |q.counters.records|
      && q.events == LeafEvents(cfg, replies, 0, m) +
        CondensedEvents(cfg, hard, replies, m + (if p.counters.stop.Refused? then 1 else 0), |q.counters.records| - m)
  {
    var p, q, t := LeafPart(s, cfg, budget, replies, force), Sweep(s, cfg, budget, replies, force, hard), Threshold(cfg, budget);
    LeafScript(Begin(s), cfg, replies, t, force);
    LeafPartTracks(s, cfg, budget, replies, force);
    CondensedScript(Again(p), cfg, replies, t, force, hard);
    assert [] + LeafEvents(cfg, replies, 0, |p.counters.records|) == LeafEvents(cfg, replies, 0, |p.counters.records|);
  }

  /** One summary for each record, and the newest is the one reported. */
  ghost predicate Numbered(p: Progress, s0: Store) {
    && p.store.nextSummary == s0.nextSummary + |p.counters.records|
    && p.counters.created == if p.counters.records == [] then None else Some((p.store.nextSummary - 1) as nat)
  }

  /** A pass that makes a summary takes the next id. */
  ghost predicate TakesNext(s: Store, p: Pass) {
    && p.store.nextSummary == s.nextSummary + (if p.outcome.Made? then 1 else 0)
    && (p.outcome.Made? ==> p.outcome.id == s.nextSummary)
  }

  lemma LeafTakesNext(s: Store, cfg: Config, reply: Reply)
    ensures TakesNext(s, LeafPass(s, cfg, reply))
  {
    if LeafChunk(s, cfg).length > 0 && Usable(reply) {
      LeafMakes(s, cfg, reply);
    } else {
      LeafSkips(s, cfg, reply);
    }
  }

  lemma CondensedTakesNext(s: Store, cfg: Config, hard: bool, reply: Reply)
    ensures TakesNext(s, CondensedPass(s, cfg, hard, reply))
  {
    if Candidate(s, cfg, hard).Some? && Usable(reply) {
      CondensedMakes(s, cfg, hard, reply);
    } else {
      CondensedSkips(s, cfg, hard, reply);
    }
  }

  lemma PassNumbered(p: Progress, pass: Pass, events: seq<Event>, threshold: int, force: bool, condensed: bool, s0: Store)
    requires Numbered(p, s0) && TakesNext(p.store, pass)
    ensures Numbered(Progress(pass.store, events, Advance(p.counters, pass.outcome, threshold, force, condensed)), s0)
  {
  }

  lemma LeafTurnNumbered(p: Progress, cfg: Config, replies: seq<Reply>, threshold: int, force: bool, s0: Store)
    requires Numbered(p, s0)
    ensures Numbered(LeafTurn(p, cfg, replies, threshold, force), s0)
  {
    var pass := LeafPass(p.store, cfg, ReplyAt(replies, p.counters.call));
    LeafTakesNext(p.store, cfg, ReplyAt(replies, p.counters.call));
    PassNumbered(p, pass, LeafTurn(p, cfg, replies, threshold, force).events, threshold, force, false, s0);
  }

  lemma CondensedTurnNumbered(p: Progress, cfg: Config, replies: seq<Reply>, threshold: int, force: bool, hard: bool, s0: Store)
    requires Numbered(p, s0)
    ensures Numbered(CondensedTurn(p, cfg, replies, threshold, force, hard), s0)
  {
    var pass := CondensedPass(p.store, cfg, hard, ReplyAt(replies, p.counters.call));
    CondensedTakesNext(p.store, cfg, hard, ReplyAt(replies, p.counters.call));
    PassNumbered(p, pass, CondensedTurn(p, cfg, replies, threshold, force, hard).events, threshold, force, true, s0);
  }

  lemma {:induction false} LeafSweepNumbered(p: Progress, cfg: Config, replies: seq<Reply>, threshold: int, force: bool, s0: Store)
    requires Numbered(p, s0)
    ensures Numbered(LeafSweep(p, cfg, replies, threshold, force), s0)
    decreases if p.counters.stop.Going? then 1 + |RawMessages(p.store.context)| else 0
  {
    if p.counters.stop.Going? {
      LeafTurnFewer(p, cfg, replies, threshold, force);
      LeafTurnNumbered(p, cfg, replies, threshold, force, s0);
      LeafSweepNumbered(LeafTurn(p, cfg, replies, threshold, force), cfg, replies, threshold, force, s0);
    }
  }

  lemma {:induction false} CondensedSweepNumbered(p: Progress, cfg: Config, replies: seq<Reply>, threshold: int, force: bool, hard: bool, s0: Store)
    requires Inv(p.store) && Numbered(p, s0)
    ensures Numbered(CondensedSweep(p, cfg, replies, threshold, force, hard), s0)
    decreases if p.counters.stop.Going? then 1 + SummaryMass(p.store) else 0
  {
    if p.counters.stop.Going? && (force || p.counters.previous > threshold) {
      CondensedTurnLowers(p, cfg, replies, threshold, force, hard);
      CondensedTurnNumbered(p, cfg, replies, threshold, force, hard, s0);
      CondensedSweepNumbered(CondensedTurn(p, cfg, replies, threshold, force, hard), cfg, replies, threshold, force, hard, s0);
    }
  }

  lemma SweepNumbered(s: Store, cfg: Config, budget: int, replies: seq<Reply>, force: bool, hard: bool)
    requires Inv(s)
    ensures Numbered(Sweep(s, cfg, budget, replies, force, hard), s)
  {
    if !Idle(s, cfg, budget, force) {
      LeafSweepNumbered(Begin(s), cfg, replies, Threshold(cfg, budget), force, s);
      LeafPartTracks(s, cfg, budget, replies, force);
      CondensedSweepNumbered(Again(LeafPart(s, cfg, budget, replies, force)), cfg, replies, Threshold(cfg, budget), force, hard, s);
    }
  }

  /**
   The report matches the store: it took action exactly when the store changed, it counts the
   new summaries, names the newest, and says condensed exactly when a pass condensed.
   */
  lemma ReportMeaning(s: Store, cfg: Config, budget: int, replies: seq<Reply>, force: bool, hard: bool)
    requires Inv(s)
    ensures var q := Sweep(s, cfg, budget, replies, force, hard);
      var r := Report(ContextTokens(s, s.context), q.counters);
      && r.tokensBefore == ContextTokens(s, s.context) && r.tokensAfter == q.counters.running
      && (r.actionTaken <==> q.store != s) && r.passes == q.store.nextSummary - s.nextSummary
      && r.created == (if r.actionTaken then Some((q.store.nextSummary - 1) as nat) else None)
      && (r.condensed <==> exists i :: 0 <= i < |r.records| && r.records[i].condensed)
  {
    SweepNumbered(s, cfg, budget, replies, force, hard);
    IdleSweep(s, cfg, budget, replies, force, hard);
    SweepCondensedLast(s, cfg, budget, replies, force, hard);
  }

  lemma SweepCondensedLast(s: Store, cfg: Config, budget: int, replies: seq<Reply>, force: bool, hard: bool)
    requires Inv(s)
    ensures var all := Sweep(s, cfg, budget, replies, force, hard).counters.records;
      (exists i :: 0 <= i < |all| && all[i].condensed) <==> all != [] && all[|all| - 1].condensed
  {
    SweepPhases(s, cfg, budget, replies, force, hard);
    if !Idle(s, cfg, budget, force) {
      CondensedLast(LeafPart(s, cfg, budget, replies, force).counters.records, Sweep(s, cfg, budget, replies, force, hard).counters.records);
    }
  }

  /** Leaf records come first, so a condensed one shows at the end. */
  lemma CondensedLast(leaves: seq<PassRecord>, all: seq<PassRecord>)
    requires PhaseRecords(leaves, 0, false) && leaves <= all && PhaseRecords(all, |leaves|, true)
    ensures (exists i :: 0 <= i < |all| && all[i].condensed) <==> all != [] && all[|all| - 1].condensed
  {
    forall i: nat | i < |all| && all[i].condensed ensures all[|all| - 1].condensed {
      assert i < |leaves| ==> OfPhase(leaves, i, false);
      assert OfPhase(all, |all| - 1, true);
    }
  }

  /* ---- The rounds ---- */

  /** No reason to stop after the sweep: no auth failure, above the goal, some pass made, and below the count before it. */
  ghost predicate Progressed(c: Counters, goal: int, before: int) {
    !c.auth && goal < c.running < before && c.records != []
  }

  /** The k-th sweep of the trail made progress toward the goal. */
  ghost predicate Went(trail: seq<Progress>, goal: int, start: int, k: nat) {
    k < |trail| && Progressed(trail[k].counters, goal, Before(trail, k, start))
  }

  /** The rounds go on exactly while the sweeps make progress toward the goal and rounds are left. */
  lemma RoundsGoOn(trail: seq<Progress>, maxRounds: int, goal: int, start: int)
    requires |trail| == maxRounds >= 1 && start >= goal
    ensures var floors := UntilUnder(trail, maxRounds, goal, start).floors;
      && 0 < |floors| <= |trail|
      && (forall k: nat {:trigger Went(trail, goal, start, k)} :: k + 1 < |floors| ==> Went(trail, goal, start, k))
      && (|floors| < |trail| ==> !Went(trail, goal, start, |floors| - 1))
  {
    var floors := UntilUnder(trail, maxRounds, goal, start).floors;
    SuccessIsASweep(trail, maxRounds, goal, start);
    forall k: nat | k + 1 < |floors| ensures Went(trail, goal, start, k) {
      FloorsAreSweeps(trail, maxRounds, goal, 0, start, k);
    }
    FloorsAreSweeps(trail, maxRounds, goal, 0, start, |floors| - 1);
  }

  /** The goal is a positive target or else the budget; the start is the larger of the stored and a positive live count. */
  lemma EntryMeaning(s: Store, budget: int, targetTokens: Option<int>, currentTokens: Option<int>)
    ensures var goal, start, stored := Goal(budget, targetTokens), StartTokens(s, currentTokens), ContextTokens(s, s.context);
      && (if targetTokens.Some? && targetTokens.value > 0 then targetTokens == Some(goal) else goal == budget)
      && start >= stored && start >= 0 && (currentTokens.Some? ==> start >= currentTokens.value)
      && (start == stored || start == 0 || currentTokens == Some(start))
  {
  }

  /** Every round is a forced sweep, not a hard one, with its own replies, from the store that the one before it left. */
  lemma RoundIsForced(s: Store, cfg: Config, budget: int, replies: seq<seq<Reply>>, n: nat, i: nat)
    requires Inv(s) && i < n
    ensures var trail := Trail(s, cfg, budget, replies, n);
      var from := if i == 0 then s else trail[i - 1].store;
      Inv(from) && trail[i] == Sweep(from, cfg, budget, if i < |replies| then replies[i] else [], true, false)
  {
    var trail := Trail(s, cfg, budget, replies, n);
    TrailSwept(s, cfg, budget, replies, n);
    RoundsKeep(trail, s, cfg, budget, replies, i);
    assert SweptAt(trail, s, cfg, budget, replies, i);
  }
}
