/**
 The two drivers as functions: a full sweep of both phases, and bounded rounds of forced
 sweeps, with what they keep, why they end and when they succeed.
 */
module CompactionRounds {
  import opened Sequences
  import opened ChunkSelection
  import opened SummaryDag
  import opened CompactionSteps
  import opened Lossless
  import opened CompactionRuns
  import opened CompactionTail
  import opened CompactionProgress
  import opened CompactionMeasure
  import opened CompactionSweep

  /* ---- The leaf trigger ---- */

  function RawTokens(s: Store, items: seq<Item>): nat {
    if items == [] then 0
    else
      var last := items[|items| - 1];
      RawTokens(s, items[..|items| - 1]) + if last.RawItem? then TokensOf(s, last.message) else 0
  }

  function LeafTrigger(s: Store, cfg: Config): bool {
    RawTokens(s, s.context[..TailStart(s, cfg)]) >= cfg.ChunkTokens()
  }

  lemma {:induction false} RawTokensNeedRaw(s: Store, items: seq<Item>)
    requires forall i :: 0 <= i < |items| ==> items[i].SummaryItem?
    ensures RawTokens(s, items) == 0
  {
    if items != [] {
      RawTokensNeedRaw(s, items[..|items| - 1]);
    }
  }

  /** Whenever the trigger fires there is a chunk for the leaf pass to take. */
  lemma TriggerHasChunk(s: Store, cfg: Config)
    requires LeafTrigger(s, cfg)
    ensures LeafChunk(s, cfg).length > 0
  {
    var ws := LeafWeights(s, cfg);
    if LeafChunk(s, cfg).length == 0 {
      var items := s.context[..TailStart(s, cfg)];
      SelectEligible(ws, cfg.ChunkTokens());
      forall i | 0 <= i < |items| ensures items[i].SummaryItem? {
        assert ws[i] == LeafWeight(s, s.context[i]);
      }
      RawTokensNeedRaw(s, items);
    }
  }

  /* ---- Why the phases end ---- */

  /** The reply to the last pass of the sweep so far. */
  function LastReply(p: Progress, replies: seq<Reply>): Reply {
    if p.counters.call > 0 then ReplyAt(replies, p.counters.call - 1) else Skip
  }

  /** The leaf phase stopped on a refusal by the provider's authentication. */
  ghost predicate LeafAuth(p: Progress, cfg: Config, replies: seq<Reply>) {
    p.counters.stop.Refused? && LeafChunk(p.store, cfg).length > 0 && LastReply(p, replies).AuthFailure?
  }

  ghost predicate CondensedAuth(p: Progress, cfg: Config, replies: seq<Reply>, hard: bool) {
    p.counters.stop.Refused? && Candidate(p.store, cfg, hard).Some? && LastReply(p, replies).AuthFailure?
  }

  lemma LeafTurnRefusal(p: Progress, cfg: Config, replies: seq<Reply>, threshold: int, force: bool)
    requires p.counters.stop.Going?
    ensures var q := LeafTurn(p, cfg, replies, threshold, force);
      && (q.counters.auth <==> p.counters.auth || LeafAuth(q, cfg, replies))
      && (q.counters.stop.Refused? ==> LeafChunk(q.store, cfg).length == 0 || !Usable(LastReply(q, replies)))
  {
    var reply := ReplyAt(replies, p.counters.call);
    if LeafChunk(p.store, cfg).length == 0 || !Usable(reply) {
      LeafSkips(p.store, cfg, reply);
    } else {
      LeafMakes(p.store, cfg, reply);
    }
  }

  lemma {:induction false} LeafSweepRefusal(p: Progress, cfg: Config, replies: seq<Reply>, threshold: int, force: bool)
    requires p.counters.stop.Going?
    ensures var q := LeafSweep(p, cfg, replies, threshold, force);
      && (q.counters.auth <==> p.counters.auth || LeafAuth(q, cfg, replies))
      && (q.counters.stop.Refused? ==> LeafChunk(q.store, cfg).length == 0 || !Usable(LastReply(q, replies)))
    decreases |RawMessages(p.store.context)|
  {
    var q := LeafTurn(p, cfg, replies, threshold, force);
    LeafTurnFewer(p, cfg, replies, threshold, force);
    LeafTurnRefusal(p, cfg, replies, threshold, force);
    if q.counters.stop.Going? {
      LeafSweepRefusal(q, cfg, replies, threshold, force);
    }
  }

  lemma CondensedTurnRefusal(p: Progress, cfg: Config, replies: seq<Reply>, threshold: int, force: bool, hard: bool)
    requires p.counters.stop.Going?
    ensures var q := CondensedTurn(p, cfg, replies, threshold, force, hard);
      && (q.counters.auth <==> p.counters.auth || CondensedAuth(q, cfg, replies, hard))
      && (q.counters.stop.Refused? ==> Candidate(q.store, cfg, hard).None? || !Usable(LastReply(q, replies)))
  {
    var reply := ReplyAt(replies, p.counters.call);
    if Candidate(p.store, cfg, hard).None? || !Usable(reply) {
      CondensedSkips(p.store, cfg, hard, reply);
    } else {
      CondensedMakes(p.store, cfg, hard, reply);
    }
  }

  lemma {:induction false} CondensedSweepRefusal(p: Progress, cfg: Config, replies: seq<Reply>, threshold: int, force: bool, hard: bool)
    requires Inv(p.store) && p.counters.stop.Going?
    ensures var q := CondensedSweep(p, cfg, replies, threshold, force, hard);
      && (q.counters.auth <==> p.counters.auth || CondensedAuth(q, cfg, replies, hard))
      && (q.counters.stop.Refused? ==> Candidate(q.store, cfg, hard).None? || !Usable(LastReply(q, replies)))
    decreases SummaryMass(p.store)
  {
    if force || p.counters.previous > threshold {
      var q := CondensedTurn(p, cfg, replies, threshold, force, hard);
      CondensedTurnLowers(p, cfg, replies, threshold, force, hard);
      CondensedTurnRefusal(p, cfg, replies, threshold, force, hard);
      if q.counters.stop.Going? {
        CondensedSweepRefusal(q, cfg, replies, threshold, force, hard);
      }
    }
  }

  /* ---- The full sweep ---- */

  /** `int(x)`: truncation toward zero. */
  function Truncated(x: real): int {
    if x >= 0.0 then x.Floor else -((-x).Floor)
  }

  function Threshold(cfg: Config, budget: int): int {
    Truncated(cfg.contextThreshold * budget as real)
  }

  /** Nothing to do: under the threshold without a trigger and not forced, or nothing in the context. */
  predicate Idle(s: Store, cfg: Config, budget: int, force: bool) {
    || (!force && ContextTokens(s, s.context) <= Threshold(cfg, budget) && !LeafTrigger(s, cfg))
    || s.context == []
  }

  function Fresh(tokens: int): Counters {
    Counters(tokens, tokens, 0, [], None, Going, false)
  }

  function Begin(s: Store): Progress {
    Progress(s, [], Fresh(ContextTokens(s, s.context)))
  }

  /** The second phase starts where the first one stopped. */
  function Again(p: Progress): Progress {
    p.(counters := p.counters.(stop := Going))
  }

  ghost function LeafPart(s: Store, cfg: Config, budget: int, replies: seq<Reply>, force: bool): Progress {
    LeafSweep(Begin(s), cfg, replies, Threshold(cfg, budget), force)
  }

  lemma LeafPartTracks(s: Store, cfg: Config, budget: int, replies: seq<Reply>, force: bool)
    requires Inv(s)
    ensures var p := LeafPart(s, cfg, budget, replies, force);
      Inv(p.store) && Tracks(p, cfg, s, ContextTokens(s, s.context))
  {
    LeafSweepTracks(Begin(s), cfg, replies, Threshold(cfg, budget), force, s, ContextTokens(s, s.context));
    RunKeepsInv(s, LeafPart(s, cfg, budget, replies, force).events);
  }

  ghost function Sweep(s: Store, cfg: Config, budget: int, replies: seq<Reply>, force: bool, hard: bool): Progress
    requires Inv(s)
  {
    if Idle(s, cfg, budget, force) then Begin(s)
    else
      LeafPartTracks(s, cfg, budget, replies, force);
      CondensedSweep(Again(LeafPart(s, cfg, budget, replies, force)), cfg, replies, Threshold(cfg, budget), force, hard)
  }

  /** The sweep's store is a run of passes, and its count is the store's total short of the drift. */
  lemma SweepTracks(s: Store, cfg: Config, budget: int, replies: seq<Reply>, force: bool, hard: bool)
    requires Inv(s)
    ensures Tracks(Sweep(s, cfg, budget, replies, force, hard), cfg, s, ContextTokens(s, s.context))
  {
    if !Idle(s, cfg, budget, force) {
      var p := LeafPart(s, cfg, budget, replies, force);
      LeafPartTracks(s, cfg, budget, replies, force);
      CondensedSweepTracks(Again(p), cfg, replies, Threshold(cfg, budget), force, hard, s, ContextTokens(s, s.context));
    }
  }

  /** A sweep keeps the invariant and touches no protected message, no message row and no part of the chronicle. */
  lemma SweepKeeps(s: Store, cfg: Config, budget: int, replies: seq<Reply>, force: bool, hard: bool)
    requires Inv(s)
    ensures Kept(Sweep(s, cfg, budget, replies, force, hard).store, s, cfg)
  {
    var q := Sweep(s, cfg, budget, replies, force, hard);
    SweepTracks(s, cfg, budget, replies, force, hard);
    RunKeepsInv(s, q.events);
    PassesKeepTail(s, q.events, cfg);
    PassesKeepMessages(s, q.events, cfg);
  }

  /** Invariants, protected messages, messages and chronicle are as they were. */
  ghost predicate Kept(s: Store, s0: Store, cfg: Config) {
    Inv(s) && FreshTail(s, cfg) == FreshTail(s0, cfg) && s.messages == s0.messages && s.log == s0.log
  }

  /** The sweep's count is the store's total exactly when every message it folded is counted exactly. */
  lemma SweepCountExact(s: Store, cfg: Config, budget: int, replies: seq<Reply>, force: bool, hard: bool)
    requires Inv(s)
    ensures var q := Sweep(s, cfg, budget, replies, force, hard);
      q.counters.running == ContextTokens(q.store, q.store.context) <==> AllExact(s, Folded(s, q.events))
  {
    var q := Sweep(s, cfg, budget, replies, force, hard);
    SweepTracks(s, cfg, budget, replies, force, hard);
    DriftOverZeroIff(s, q.events, cfg);
  }

  /**
   Unless it is forced, a sweep with the total at or under the threshold and no trigger does
   nothing, and so does any sweep of an empty context.  Otherwise both phases run to their
   ends; the second makes no pass when, unforced, the floor is at or under the threshold.
   */
  lemma SweepPhases(s: Store, cfg: Config, budget: int, replies: seq<Reply>, force: bool, hard: bool)
    requires Inv(s)
    ensures var q, t, total := Sweep(s, cfg, budget, replies, force, hard), Threshold(cfg, budget), ContextTokens(s, s.context);
      if (!force && total <= t && !LeafTrigger(s, cfg)) || s.context == [] then q == Begin(s)
      else
        var p := LeafPart(s, cfg, budget, replies, force);
        && !p.counters.stop.Going?
        && Ended(Fresh(total), p.counters, t, force, false)
        && Ended(Again(p).counters, q.counters, t, force, true)
        && (if force || p.counters.previous > t then !q.counters.stop.Going? else q == Again(p))
  {
    if !Idle(s, cfg, budget, force) {
      var p, t := LeafPart(s, cfg, budget, replies, force), Threshold(cfg, budget);
      LeafSweepEnds(Begin(s).counters, Begin(s), cfg, replies, t, force);
      LeafPartTracks(s, cfg, budget, replies, force);
      CondensedSweepEnds(Again(p).counters, Again(p), cfg, replies, t, force, hard);
    }
  }

  /**
   The sweep reports an authentication failure exactly when one of its phases stopped on
   one; a phase that stopped on a refusal had nothing to fold or no usable reply.
   */
  lemma SweepRefusals(s: Store, cfg: Config, budget: int, replies: seq<Reply>, force: bool, hard: bool)
    requires Inv(s) && !Idle(s, cfg, budget, force)
    ensures var p, q := LeafPart(s, cfg, budget, replies, force), Sweep(s, cfg, budget, replies, force, hard);
      && (q.counters.auth <==> LeafAuth(p, cfg, replies) || CondensedAuth(q, cfg, replies, hard))
      && (p.counters.stop.Refused? ==> LeafChunk(p.store, cfg).length == 0 || !Usable(LastReply(p, replies)))
      && (q.counters.stop.Refused? ==> Candidate(q.store, cfg, hard).None? || !Usable(LastReply(q, replies)))
  {
    var p, t := LeafPart(s, cfg, budget, replies, force), Threshold(cfg, budget);
    LeafSweepRefusal(Begin(s), cfg, replies, t, force);
    LeafPartTracks(s, cfg, budget, replies, force);
    CondensedSweepRefusal(Again(p), cfg, replies, t, force, hard);
  }

  /** A sweep that made no pass left the store as it was. */
  lemma IdleSweep(s: Store, cfg: Config, budget: int, replies: seq<Reply>, force: bool, hard: bool)
    requires Inv(s)
    ensures var q := Sweep(s, cfg, budget, replies, force, hard);
      q.counters.records == [] ==> q.store == s && q.counters.running == ContextTokens(s, s.context)
  {
    SweepTracks(s, cfg, budget, replies, force, hard);
  }

  /* ---- The script of replies ---- */

  /** `n` passes that use the replies from `first` on. */
  function LeafEvents(cfg: Config, replies: seq<Reply>, first: nat, n: nat): seq<Event> {
    seq(n, i requires 0 <= i < n => RunLeaf(cfg, ReplyAt(replies, first + i)))
  }

  function CondensedEvents(cfg: Config, hard: bool, replies: seq<Reply>, first: nat, n: nat): seq<Event> {
    seq(n, i requires 0 <= i < n => RunCondensed(cfg, hard, ReplyAt(replies, first + i)))
  }

  /** From `p` to `q`, `n` passes used the replies in turn, and a refusal used one more. */
  predicate Scripted(p: Progress, q: Progress, more: seq<Event>) {
    && q.events == p.events + more && |q.counters.records| == |p.counters.records| + |more|
    && q.counters.call == p.counters.call + |more| + if q.counters.stop.Refused? then 1 else 0
  }

  lemma ScriptedJoin(p: Progress, q: Progress, r: Progress, a: seq<Event>, b: seq<Event>)
    requires Scripted(p, q, a) && Scripted(q, r, b) && q.counters.stop.Going?
    ensures Scripted(p, r, a + b)
  {
    Associative(p.events, a, b);
  }

  lemma EventsJoin(cfg: Config, hard: bool, replies: seq<Reply>, first: nat, m: nat, n: nat)
    ensures LeafEvents(cfg, replies, first, m) + LeafEvents(cfg, replies, first + m, n) == LeafEvents(cfg, replies, first, m + n)
    ensures CondensedEvents(cfg, hard, replies, first, m) + CondensedEvents(cfg, hard, replies, first + m, n) ==
      CondensedEvents(cfg, hard, replies, first, m + n)
  {
  }

  /** How many passes separate two points of a sweep. */
  function Between(p: Progress, q: Progress): nat {
    Max(0, |q.counters.records| - |p.counters.records|)
  }

  lemma PassScript(p: Progress, t: Store, outcome: Outcome, e: Event, threshold: int, force: bool, condensed: bool)
    requires p.counters.stop.Going?
    ensures var q := Progress(t, if outcome.Made? then p.events + [e] else p.events, Advance(p.counters, outcome, threshold, force, condensed));
      && Scripted(p, q, if outcome.Made? then [e] else [])
      && Between(p, q) == if outcome.Made? then 1 else 0
  {
    assert p.events + [] == p.events;
  }

  lemma EventsOfOne(cfg: Config, hard: bool, replies: seq<Reply>, first: nat)
    ensures LeafEvents(cfg, replies, first, 0) == [] == CondensedEvents(cfg, hard, replies, first, 0)
    ensures LeafEvents(cfg, replies, first, 1) == [RunLeaf(cfg, ReplyAt(replies, first))]
    ensures CondensedEvents(cfg, hard, replies, first, 1) == [RunCondensed(cfg, hard, ReplyAt(replies, first))]
  {
  }

  lemma LeafTurnScript(p: Progress, cfg: Config, replies: seq<Reply>, threshold: int, force: bool)
    requires p.counters.stop.Going?
    ensures var q := LeafTurn(p, cfg, replies, threshold, force);
      Scripted(p, q, LeafEvents(cfg, replies, p.counters.call, Between(p, q)))
  {
    var reply := ReplyAt(replies, p.counters.call);
    var pass := LeafPass(p.store, cfg, reply);
    PassScript(p, pass.store, pass.outcome, RunLeaf(cfg, reply), threshold, force, false);
    EventsOfOne(cfg, false, replies, p.counters.call);
  }

  lemma CondensedTurnScript(p: Progress, cfg: Config, replies: seq<Reply>, threshold: int, force: bool, hard: bool)
    requires p.counters.stop.Going?
    ensures var q := CondensedTurn(p, cfg, replies, threshold, force, hard);
      Scripted(p, q, CondensedEvents(cfg, hard, replies, p.counters.call, Between(p, q)))
  {
    var reply := ReplyAt(replies, p.counters.call);
    var pass := CondensedPass(p.store, cfg, hard, reply);
    PassScript(p, pass.store, pass.outcome, RunCondensed(cfg, hard, reply), threshold, force, true);
    EventsOfOne(cfg, hard, replies, p.counters.call);
  }

  /** The passes of the leaf phase use one reply after another, and only a refusal uses one more. */
  lemma {:induction false} LeafScript(p: Progress, cfg: Config, replies: seq<Reply>, threshold: int, force: bool)
    requires p.counters.stop.Going?
    ensures var q := LeafSweep(p, cfg, replies, threshold, force);
      Scripted(p, q, LeafEvents(cfg, replies, p.counters.call, Between(p, q)))
    decreases |RawMessages(p.store.context)|
  {
    var q := LeafTurn(p, cfg, replies, threshold, force);
    LeafTurnFewer(p, cfg, replies, threshold, force);
    LeafTurnScript(p, cfg, replies, threshold, force);
    if q.counters.stop.Going? {
      LeafScript(q, cfg, replies, threshold, force);
      LeafScriptJoin(p, q, LeafSweep(q, cfg, replies, threshold, force), cfg, replies);
    }
  }

  lemma LeafScriptJoin(p: Progress, q: Progress, r: Progress, cfg: Config, replies: seq<Reply>)
    requires Scripted(p, q, LeafEvents(cfg, replies, p.counters.call, Between(p, q))) && q.counters.stop.Going?
    requires Scripted(q, r, LeafEvents(cfg, replies, q.counters.call, Between(q, r)))
    ensures Scripted(p, r, LeafEvents(cfg, replies, p.counters.call, Between(p, r)))
  {
    var m, n := Between(p, q), Between(q, r);
    ScriptedJoin(p, q, r, LeafEvents(cfg, replies, p.counters.call, m), LeafEvents(cfg, replies, q.counters.call, n));
    EventsJoin(cfg, false, replies, p.counters.call, m, n);
  }

  /** And so do the passes of the condensed phase, from the reply it starts at. */
  lemma {:induction false} CondensedScript(p: Progress, cfg: Config, replies: seq<Reply>, threshold: int, force: bool, hard: bool)
    requires Inv(p.store) && p.counters.stop.Going?
    ensures var q := CondensedSweep(p, cfg, replies, threshold, force, hard);
      Scripted(p, q, CondensedEvents(cfg, hard, replies, p.counters.call, Between(p, q)))
    decreases SummaryMass(p.store)
  {
    if force || p.counters.previous > threshold {
      var q := CondensedTurn(p, cfg, replies, threshold, force, hard);
      CondensedTurnLowers(p, cfg, replies, threshold, force, hard);
      CondensedTurnScript(p, cfg, replies, threshold, force, hard);
      if q.counters.stop.Going? {
        CondensedScript(q, cfg, replies, threshold, force, hard);
        CondensedScriptJoin(p, q, CondensedSweep(q, cfg, replies, threshold, force, hard), cfg, hard, replies);
      }
    } else {
      assert p.events + [] == p.events;
    }
  }

  lemma CondensedScriptJoin(p: Progress, q: Progress, r: Progress, cfg: Config, hard: bool, replies: seq<Reply>)
    requires Scripted(p, q, CondensedEvents(cfg, hard, replies, p.counters.call, Between(p, q))) && q.counters.stop.Going?
    requires Scripted(q, r, CondensedEvents(cfg, hard, replies, q.counters.call, Between(q, r)))
    ensures Scripted(p, r, CondensedEvents(cfg, hard, replies, p.counters.call, Between(p, r)))
  {
    var m, n := Between(p, q), Between(q, r);
    ScriptedJoin(p, q, r, CondensedEvents(cfg, hard, replies, p.counters.call, m), CondensedEvents(cfg, hard, replies, q.counters.call, n));
    EventsJoin(cfg, hard, replies, p.counters.call, m, n);
  }

  /* ---- Rounds of forced sweeps ---- */

  datatype RoundsResult = RoundsResult(success: bool, rounds: int, finalTokens: int, authFailure: bool)

  /** The verdict, with the count that each sweep made ended at. */
  datatype Rounds = Rounds(result: RoundsResult, floors: seq<int>)

  /** A caller's positive target, else the budget. */
  function Goal(budget: int, targetTokens: Option<int>): int {
    if targetTokens.Some? && targetTokens.value > 0 then targetTokens.value else budget
  }

  /** The stored count, or the live one when that is larger. */
  function StartTokens(s: Store, currentTokens: Option<int>): int {
    Max(ContextTokens(s, s.context), if currentTokens.Some? && currentTokens.value > 0 then currentTokens.value else 0)
  }

  function Script(replies: seq<seq<Reply>>, round: nat): seq<Reply> {
    if round < |replies| then replies[round] else []
  }

  /** The forced sweep of a round, with that round's replies. */
  ghost function Forced(t: Store, cfg: Config, budget: int, replies: seq<seq<Reply>>, round: nat): Progress {
    if Inv(t) then Sweep(t, cfg, budget, Script(replies, round), true, false) else Begin(t)
  }

  /** The store after the first `n` sweeps of a trail. */
  ghost function StoreAfter(trail: seq<Progress>, s: Store, n: nat): Store
    requires n <= |trail|
  {
    if n == 0 then s else trail[n - 1].store
  }

  /** `n` forced sweeps, each from where the one before it ended. */
  ghost function Trail(s: Store, cfg: Config, budget: int, replies: seq<seq<Reply>>, n: nat): (trail: seq<Progress>)
    ensures |trail| == n
  {
    if n == 0 then []
    else
      var before := Trail(s, cfg, budget, replies, n - 1);
      before + [Forced(StoreAfter(before, s, n - 1), cfg, budget, replies, n - 1)]
  }

  ghost predicate SweptAt(trail: seq<Progress>, s: Store, cfg: Config, budget: int, replies: seq<seq<Reply>>, i: nat) {
    i < |trail| && trail[i] == Forced(StoreAfter(trail, s, i), cfg, budget, replies, i)
  }

  ghost predicate AllSwept(trail: seq<Progress>, s: Store, cfg: Config, budget: int, replies: seq<seq<Reply>>) {
    forall i: nat {:trigger SweptAt(trail, s, cfg, budget, replies, i)} :: i < |trail| ==> SweptAt(trail, s, cfg, budget, replies, i)
  }

  /** One more sweep leaves the stores before it as they are. */
  lemma StoresStay(before: seq<Progress>, q: Progress, s: Store)
    ensures forall i: nat :: i <= |before| ==> StoreAfter(before + [q], s, i) == StoreAfter(before, s, i)
  {
  }

  lemma SweptSnoc(before: seq<Progress>, n: nat, s: Store, cfg: Config, budget: int, replies: seq<seq<Reply>>)
    requires |before| == n
    ensures AllSwept(before, s, cfg, budget, replies) ==>
      AllSwept(before + [Forced(StoreAfter(before, s, n), cfg, budget, replies, n)], s, cfg, budget, replies)
  {
    var q := Forced(StoreAfter(before, s, n), cfg, budget, replies, n);
    var after := before + [q];
    StoresStay(before, q, s);
    forall i: nat | i < |after| && AllSwept(before, s, cfg, budget, replies)
      ensures SweptAt(after, s, cfg, budget, replies, i)
    {
      assert StoreAfter(after, s, i) == StoreAfter(before, s, i);
      assert if i < n then after[i] == before[i] && SweptAt(before, s, cfg, budget, replies, i) else i == n && after[i] == q;
    }
  }

  lemma {:induction false} TrailSwept(s: Store, cfg: Config, budget: int, replies: seq<seq<Reply>>, n: nat)
    ensures AllSwept(Trail(s, cfg, budget, replies, n), s, cfg, budget, replies)
  {
    if n > 0 {
      TrailSwept(s, cfg, budget, replies, n - 1);
      SweptSnoc(Trail(s, cfg, budget, replies, n - 1), n - 1, s, cfg, budget, replies);
    }
  }

  /** The sweep of a round is the last one: it met the goal, failed on authentication, or made no progress. */
  predicate Final(c: Counters, goal: int, last: int) {
    c.auth || c.running <= goal || c.records == [] || c.running >= last
  }

  function FinalResult(c: Counters, goal: int, round: nat): RoundsResult {
    RoundsResult(!c.auth && c.running <= goal, round + 1, c.running, c.auth)
  }

  /** The rounds from `round` on, given what each sweep would end with. */
  function Decide(trail: seq<Progress>, maxRounds: int, goal: int, round: nat, last: int): Rounds
    decreases |trail| - round
  {
    if round >= |trail| then Rounds(RoundsResult(last <= goal, maxRounds, last, false), [])
    else
      var c := trail[round].counters;
      if Final(c, goal, last) then Rounds(FinalResult(c, goal, round), [c.running])
      else Sooner(c.running, Decide(trail, maxRounds, goal, round + 1, c.running))
  }

  /** The same rounds after one that ended at `floor`. */
  function Sooner(floor: int, r: Rounds): Rounds {
    r.(floors := [floor] + r.floors)
  }

  function UntilUnder(trail: seq<Progress>, maxRounds: int, goal: int, start: int): Rounds {
    if start < goal then Rounds(RoundsResult(true, 0, start, false), [])
    else Decide(trail, maxRounds, goal, 0, start)
  }

  /** Every floor but the last is below the one before it and above the goal. */
  ghost predicate Pressing(floors: seq<int>, start: int, goal: int) {
    floors == [] || |floors| == 1 || (goal < floors[0] < start && Pressing(floors[1..], floors[0], goal))
  }

  function LastFloor(floors: seq<int>, start: int): int {
    if floors == [] then start else floors[|floors| - 1]
  }

  /** What the rounds from `round` on say, given the count they start from. */
  ghost predicate Verdict(r: Rounds, maxRounds: int, goal: int, round: nat, last: int) {
    && Pressing(r.floors, last, goal) && r.result.finalTokens == LastFloor(r.floors, last)
    && round + |r.floors| <= Max(round, maxRounds)
    && (r.result.success <==> r.result.finalTokens <= goal && !r.result.authFailure)
    && (r.result.rounds == round + |r.floors| || (r.floors == [] && r.result.rounds == maxRounds <= round))
  }

  lemma VerdictCons(r: Rounds, maxRounds: int, goal: int, round: nat, last: int, floor: int)
    requires Verdict(r, maxRounds, goal, round + 1, floor) && goal < floor < last && round < maxRounds
    ensures Verdict(Sooner(floor, r), maxRounds, goal, round, last)
  {
    assert ([floor] + r.floors)[1..] == r.floors;
  }

  /** Success is exactly ending at or under the goal without an authentication failure; the floors fall; the rounds are bounded. */
  lemma {:induction false} RoundsVerdict(trail: seq<Progress>, maxRounds: int, goal: int, round: nat, last: int)
    requires |trail| == Max(0, maxRounds)
    ensures Verdict(Decide(trail, maxRounds, goal, round, last), maxRounds, goal, round, last)
    decreases |trail| - round
  {
    if round < |trail| && !Final(trail[round].counters, goal, last) {
      var floor := trail[round].counters.running;
      RoundsVerdict(trail, maxRounds, goal, round + 1, floor);
      VerdictCons(Decide(trail, maxRounds, goal, round + 1, floor), maxRounds, goal, round, last, floor);
    }
  }

  /** What the count of a round is compared with. */
  function Before(trail: seq<Progress>, i: nat, start: int): int
    requires i <= |trail|
  {
    if i == 0 then start else trail[i - 1].counters.running
  }

  /**
   Each floor is the count that a sweep ended with; only the last sweep made is final, and
   unless the rounds ran out it is; the failure reported is that sweep's own.
   */
  lemma {:induction false} FloorsAreSweeps(trail: seq<Progress>, maxRounds: int, goal: int, round: nat, start: int, k: nat)
    requires round + k < |trail| && k < |Decide(trail, maxRounds, goal, round, Before(trail, round, start)).floors|
    ensures var r, c := Decide(trail, maxRounds, goal, round, Before(trail, round, start)), trail[round + k].counters;
      && r.floors[k] == c.running
      && (if Final(c, goal, Before(trail, round + k, start)) then k == |r.floors| - 1 && r.result.authFailure == c.auth
          else k < |r.floors| - 1 || (round + k + 1 == |trail| && !r.result.authFailure))
    decreases k
  {
    var c := trail[round].counters;
    if !Final(c, goal, Before(trail, round, start)) && k > 0 {
      FloorsAreSweeps(trail, maxRounds, goal, round + 1, start, k - 1);
    }
  }

  lemma KeptTrans(s: Store, t: Store, u: Store, cfg: Config)
    requires Kept(t, s, cfg) && Kept(u, t, cfg)
    ensures Kept(u, s, cfg)
  {
  }

  lemma ForcedKeeps(t: Store, cfg: Config, budget: int, replies: seq<seq<Reply>>, round: nat)
    requires Inv(t)
    ensures Kept(Forced(t, cfg, budget, replies, round).store, t, cfg)
  {
    SweepKeeps(t, cfg, budget, Script(replies, round), true, false);
  }

  lemma KeptOnce(trail: seq<Progress>, s: Store, cfg: Config, budget: int, replies: seq<seq<Reply>>, n: nat)
    requires AllSwept(trail, s, cfg, budget, replies) && n < |trail| && Kept(StoreAfter(trail, s, n), s, cfg)
    ensures Kept(StoreAfter(trail, s, n + 1), s, cfg)
  {
    assert SweptAt(trail, s, cfg, budget, replies, n);
    ForcedKeeps(StoreAfter(trail, s, n), cfg, budget, replies, n);
    KeptTrans(s, StoreAfter(trail, s, n), StoreAfter(trail, s, n + 1), cfg);
  }

  /** Whatever the rounds do, they keep what each sweep keeps. */
  lemma {:induction false} RoundsKeep(trail: seq<Progress>, s: Store, cfg: Config, budget: int, replies: seq<seq<Reply>>, n: nat)
    requires Inv(s) && AllSwept(trail, s, cfg, budget, replies) && n <= |trail|
    ensures Kept(StoreAfter(trail, s, n), s, cfg)
  {
    if n > 0 {
      RoundsKeep(trail, s, cfg, budget, replies, n - 1);
      KeptOnce(trail, s, cfg, budget, replies, n - 1);
    }
  }

  /** Every message's stored count is the one that passes count. */
  ghost predicate AllCounted(s: Store) {
    forall m <- s.messages :: CountedExactly(s, m)
  }

  lemma CountedSweep(s: Store, cfg: Config, budget: int, replies: seq<Reply>, force: bool, hard: bool)
    requires Inv(s) && AllCounted(s)
    ensures var q := Sweep(s, cfg, budget, replies, force, hard);
      q.counters.running == ContextTokens(q.store, q.store.context)
  {
    var q := Sweep(s, cfg, budget, replies, force, hard);
    SweepTracks(s, cfg, budget, replies, force, hard);
    FoldedExist(s, q.events, cfg);
    SweepCountExact(s, cfg, budget, replies, force, hard);
  }

  /** Then the count that each round ends at is the store's own total. */
  lemma RoundsCount(trail: seq<Progress>, s: Store, cfg: Config, budget: int, replies: seq<seq<Reply>>, round: nat)
    requires Inv(s) && AllCounted(s) && AllSwept(trail, s, cfg, budget, replies) && round < |trail|
    ensures var q := trail[round]; q.counters.running == ContextTokens(q.store, q.store.context)
  {
    RoundsKeep(trail, s, cfg, budget, replies, round);
    assert SweptAt(trail, s, cfg, budget, replies, round);
    ForcedCounts(StoreAfter(trail, s, round), cfg, budget, replies, round);
  }

  lemma ForcedCounts(t: Store, cfg: Config, budget: int, replies: seq<seq<Reply>>, round: nat)
    requires Inv(t) && AllCounted(t)
    ensures var q := Forced(t, cfg, budget, replies, round); q.counters.running == ContextTokens(q.store, q.store.context)
  {
    CountedSweep(t, cfg, budget, Script(replies, round), true, false);
  }

  /** With a round to run, running out of rounds is never a success: a success is a sweep that ended at or under the goal. */
  lemma SuccessIsASweep(trail: seq<Progress>, maxRounds: int, goal: int, start: int)
    requires |trail| == maxRounds >= 1 && start >= goal
    ensures var r := UntilUnder(trail, maxRounds, goal, start);
      && r.floors != [] && r.result.rounds == |r.floors| <= maxRounds
      && (r.result.success <==> r.floors[|r.floors| - 1] <= goal && !r.result.authFailure)
      && (forall i :: 0 <= i < |r.floors| - 1 ==> r.floors[i] > goal)
  {
    RoundsVerdict(trail, maxRounds, goal, 0, start);
    PressingAbove(UntilUnder(trail, maxRounds, goal, start).floors, start, goal);
  }

  lemma {:induction false} PressingAbove(floors: seq<int>, start: int, goal: int)
    requires Pressing(floors, start, goal)
    ensures forall i :: 0 <= i < |floors| - 1 ==> floors[i] > goal
    ensures forall i :: 0 < i < |floors| - 1 ==> floors[i] < floors[i - 1]
  {
    if |floors| > 1 {
      PressingAbove(floors[1..], floors[0], goal);
      forall i | 0 < i < |floors| - 1 ensures floors[i] > goal && floors[i] < floors[i - 1] {
        assert floors[i] == floors[1..][i - 1];
        assert i > 1 ==> floors[i - 1] == floors[1..][i - 2];
      }
    }
  }
}
