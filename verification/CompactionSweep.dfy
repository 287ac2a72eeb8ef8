/**
 What one full sweep computes: leaf passes until they stop, then condensed passes until
 they stop, for any summarizer.  The sweep is a function of the store and of what the
 summarizer answers; its properties are proved about that function.
 */
module CompactionSweep {
  import opened Sequences
  import opened SummaryDag
  import opened CompactionSteps
  import opened Lossless
  import opened CompactionRuns
  import opened CompactionTail
  import opened CompactionProgress
  import opened CompactionMeasure

  datatype PassRecord = PassRecord(before: int, after: int, condensed: bool)

  /** Why a phase ended. */
  datatype Stop = Going | Refused | Under | Stalled

  /** The locals of the sweep: `previous` is the floor that the next pass must beat. */
  datatype Counters = Counters(
    running: int, previous: int, call: nat, records: seq<PassRecord>, created: Option<SummaryId>, stop: Stop, auth: bool)

  /** The store some passes into a sweep, with the passes that led there. */
  datatype Progress = Progress(store: Store, events: seq<Event>, counters: Counters)

  /** What the summarizer answers to the k-th pass.  Sweeps end, so a finite script stands for any summarizer. */
  function ReplyAt(replies: seq<Reply>, k: nat): Reply {
    if k < |replies| then replies[k] else Skip
  }

  /** What the sweep does with the outcome of one pass. */
  function Advance(c: Counters, outcome: Outcome, threshold: int, force: bool, condensed: bool): Counters {
    match outcome
    case NoSummary(auth) => c.(call := c.call + 1, stop := Refused, auth := c.auth || auth)
    case Made(id, removed, added) =>
      var after := c.running - removed + added;
      var next := c.(running := after, call := c.call + 1, created := Some(id),
                     records := c.records + [PassRecord(c.running, after, condensed)]);
      if !force && after <= threshold then next.(previous := after, stop := Under)
      else if after >= c.running || after >= c.previous then next.(stop := Stalled)
      else next.(previous := after)
  }

  function LeafTurn(p: Progress, cfg: Config, replies: seq<Reply>, threshold: int, force: bool): Progress {
    var reply := ReplyAt(replies, p.counters.call);
    var pass := LeafPass(p.store, cfg, reply);
    Progress(pass.store, if pass.outcome.Made? then p.events + [RunLeaf(cfg, reply)] else p.events,
             Advance(p.counters, pass.outcome, threshold, force, false))
  }

  function CondensedTurn(p: Progress, cfg: Config, replies: seq<Reply>, threshold: int, force: bool, hard: bool): Progress {
    var reply := ReplyAt(replies, p.counters.call);
    var pass := CondensedPass(p.store, cfg, hard, reply);
    Progress(pass.store, if pass.outcome.Made? then p.events + [RunCondensed(cfg, hard, reply)] else p.events,
             Advance(p.counters, pass.outcome, threshold, force, true))
  }

  lemma LeafTurnFewer(p: Progress, cfg: Config, replies: seq<Reply>, threshold: int, force: bool)
    ensures var q := LeafTurn(p, cfg, replies, threshold, force);
      q.counters.stop.Refused? || |RawMessages(q.store.context)| < |RawMessages(p.store.context)|
  {
    var reply := ReplyAt(replies, p.counters.call);
    if LeafPass(p.store, cfg, reply).outcome.Made? {
      LeafLeavesFewer(p.store, cfg, reply);
    }
  }

  /** The first phase. */
  ghost function LeafSweep(p: Progress, cfg: Config, replies: seq<Reply>, threshold: int, force: bool): Progress
    decreases if p.counters.stop.Going? then 1 + |RawMessages(p.store.context)| else 0
  {
    if !p.counters.stop.Going? then p
    else
      LeafTurnFewer(p, cfg, replies, threshold, force);
      LeafSweep(LeafTurn(p, cfg, replies, threshold, force), cfg, replies, threshold, force)
  }

  lemma MassBounds(s: Store, cfg: Config, hard: bool, reply: Reply)
    requires Inv(s)
    ensures var p := CondensedPass(s, cfg, hard, reply);
      && Inv(p.store) && 0 <= SummaryMass(s) && 0 <= SummaryMass(p.store)
      && (p.outcome.Made? ==> SummaryMass(p.store) == SummaryMass(s) - p.outcome.removed + p.outcome.added)
  {
    CondensedKeepsInv(s, cfg, hard, reply);
    MassNonNegative(s);
    MassNonNegative(CondensedPass(s, cfg, hard, reply).store);
    if CondensedPass(s, cfg, hard, reply).outcome.Made? {
      MassDelta(s, cfg, hard, reply);
    }
  }

  /** A phase that goes on has just lowered the count. */
  lemma AdvanceLowers(c: Counters, outcome: Outcome, threshold: int, force: bool, condensed: bool)
    requires Advance(c, outcome, threshold, force, condensed).stop.Going?
    ensures outcome.Made? && outcome.added < outcome.removed
  {
  }

  /** A condensed pass after which the phase goes on has lowered the tokens of the summaries. */
  lemma CondensedTurnLowers(p: Progress, cfg: Config, replies: seq<Reply>, threshold: int, force: bool, hard: bool)
    requires Inv(p.store) && p.counters.stop.Going?
    ensures var q := CondensedTurn(p, cfg, replies, threshold, force, hard);
      && Inv(q.store) && 0 <= SummaryMass(p.store)
      && (q.counters.stop.Going? ==> 0 <= SummaryMass(q.store) < SummaryMass(p.store))
  {
    var reply := ReplyAt(replies, p.counters.call);
    var pass := CondensedPass(p.store, cfg, hard, reply);
    MassBounds(p.store, cfg, hard, reply);
    if Advance(p.counters, pass.outcome, threshold, force, true).stop.Going? {
      AdvanceLowers(p.counters, pass.outcome, threshold, force, true);
    }
  }

  /** The second phase, which runs only when forced or above the threshold. */
  ghost function CondensedSweep(p: Progress, cfg: Config, replies: seq<Reply>, threshold: int, force: bool, hard: bool): Progress
    requires Inv(p.store)
    decreases if p.counters.stop.Going? then 1 + SummaryMass(p.store) else 0
  {
    if !p.counters.stop.Going? || (!force && p.counters.previous <= threshold) then p
    else
      CondensedTurnLowers(p, cfg, replies, threshold, force, hard);
      CondensedSweep(CondensedTurn(p, cfg, replies, threshold, force, hard), cfg, replies, threshold, force, hard)
  }

  /* ---- The count is tracked, the store is a run of passes ---- */

  /** Each record starts where the one before it ended. */
  ghost predicate Chained(records: seq<PassRecord>, start: int, end: int) {
    if records == [] then start == end
    else
      var last := records[|records| - 1];
      last.after == end && Chained(records[..|records| - 1], start, last.before)
  }

  lemma ChainedSnoc(records: seq<PassRecord>, start: int, r: PassRecord)
    requires Chained(records, start, r.before)
    ensures Chained(records + [r], start, r.after)
  {
    assert (records + [r])[..|records|] == records;
  }

  /** The store is what the passes made of `s0`, and the count is its total short of the drift. */
  ghost predicate Tracks(p: Progress, cfg: Config, s0: Store, start: int) {
    && Passes(p.events, cfg) && |p.events| == |p.counters.records| && p.store == Run(s0, p.events)
    && p.counters.running == ContextTokens(p.store, p.store.context) - DriftOver(s0, p.events)
    && Chained(p.counters.records, start, p.counters.running)
  }

  /** One more pass whose delta, with its drift, is what the store's total moved by. */
  lemma TracksPass(p: Progress, e: Event, t: Store, c: Counters, condensed: bool, cfg: Config, s0: Store, start: int)
    requires Tracks(p, cfg, s0, start) && !e.Append? && e.cfg == cfg && t == Step(p.store, e)
    requires c.records == p.counters.records + [PassRecord(p.counters.running, c.running, condensed)]
    requires ContextTokens(t, t.context) - c.running ==
      ContextTokens(p.store, p.store.context) - p.counters.running + Drift(p.store, FoldedBy(p.store, e))
    ensures Tracks(Progress(t, p.events + [e], c), cfg, s0, start)
  {
    RunSnoc(s0, p.events, e);
    PassesSnoc(p.events, e, cfg);
    DriftSnoc(s0, p.events, e, cfg);
    ChainedSnoc(p.counters.records, start, PassRecord(p.counters.running, c.running, condensed));
  }

  /** The count moves by the reported delta, whatever stops the phase. */
  lemma AdvanceCounts(c: Counters, outcome: Outcome, threshold: int, force: bool, condensed: bool)
    requires outcome.Made?
    ensures var d := Advance(c, outcome, threshold, force, condensed);
      && d.running == c.running - outcome.removed + outcome.added
      && d.records == c.records + [PassRecord(c.running, d.running, condensed)]
  {
  }

  lemma LeafTurnTracks(p: Progress, cfg: Config, replies: seq<Reply>, threshold: int, force: bool, s0: Store, start: int)
    requires Inv(s0) && Tracks(p, cfg, s0, start)
    ensures Tracks(LeafTurn(p, cfg, replies, threshold, force), cfg, s0, start)
  {
    var reply := ReplyAt(replies, p.counters.call);
    RunKeepsInv(s0, p.events);
    if LeafPass(p.store, cfg, reply).outcome.Made? {
      LeafMadeTracks(p, cfg, reply, threshold, force, s0, start);
    } else {
      LeafUnchanged(p.store, cfg, reply);
    }
  }

  lemma LeafMadeTracks(p: Progress, cfg: Config, reply: Reply, threshold: int, force: bool, s0: Store, start: int)
    requires Grounded(p.store) && Bookkept(p.store) && Tracks(p, cfg, s0, start) && LeafPass(p.store, cfg, reply).outcome.Made?
    ensures var pass := LeafPass(p.store, cfg, reply);
      Tracks(Progress(pass.store, p.events + [RunLeaf(cfg, reply)], Advance(p.counters, pass.outcome, threshold, force, false)), cfg, s0, start)
  {
    var pass := LeafPass(p.store, cfg, reply);
    LeafDelta(p.store, cfg, reply);
    AdvanceCounts(p.counters, pass.outcome, threshold, force, false);
    TracksPass(p, RunLeaf(cfg, reply), pass.store, Advance(p.counters, pass.outcome, threshold, force, false), false, cfg, s0, start);
  }

  lemma CondensedTurnTracks(p: Progress, cfg: Config, replies: seq<Reply>, threshold: int, force: bool, hard: bool, s0: Store, start: int)
    requires Inv(s0) && Tracks(p, cfg, s0, start)
    ensures Tracks(CondensedTurn(p, cfg, replies, threshold, force, hard), cfg, s0, start)
  {
    var reply := ReplyAt(replies, p.counters.call);
    RunKeepsInv(s0, p.events);
    if CondensedPass(p.store, cfg, hard, reply).outcome.Made? {
      CondensedMadeTracks(p, cfg, reply, threshold, force, hard, s0, start);
    } else {
      CondensedUnchanged(p.store, cfg, hard, reply);
    }
  }

  lemma CondensedMadeTracks(p: Progress, cfg: Config, reply: Reply, threshold: int, force: bool, hard: bool, s0: Store, start: int)
    requires Grounded(p.store) && Bookkept(p.store) && AllSound(p.store)
    requires Tracks(p, cfg, s0, start) && CondensedPass(p.store, cfg, hard, reply).outcome.Made?
    ensures var pass := CondensedPass(p.store, cfg, hard, reply);
      Tracks(Progress(pass.store, p.events + [RunCondensed(cfg, hard, reply)], Advance(p.counters, pass.outcome, threshold, force, true)), cfg, s0, start)
  {
    var pass := CondensedPass(p.store, cfg, hard, reply);
    CondensedDelta(p.store, cfg, hard, reply);
    AdvanceCounts(p.counters, pass.outcome, threshold, force, true);
    assert FoldedBy(p.store, RunCondensed(cfg, hard, reply)) == [];
    TracksPass(p, RunCondensed(cfg, hard, reply), pass.store, Advance(p.counters, pass.outcome, threshold, force, true), true, cfg, s0, start);
  }

  lemma {:induction false} LeafSweepTracks(p: Progress, cfg: Config, replies: seq<Reply>, threshold: int, force: bool, s0: Store, start: int)
    requires Inv(s0) && Tracks(p, cfg, s0, start)
    ensures Tracks(LeafSweep(p, cfg, replies, threshold, force), cfg, s0, start)
    decreases if p.counters.stop.Going? then 1 + |RawMessages(p.store.context)| else 0
  {
    if p.counters.stop.Going? {
      LeafTurnFewer(p, cfg, replies, threshold, force);
      LeafTurnTracks(p, cfg, replies, threshold, force, s0, start);
      LeafSweepTracks(LeafTurn(p, cfg, replies, threshold, force), cfg, replies, threshold, force, s0, start);
    }
  }

  lemma {:induction false} CondensedSweepTracks(p: Progress, cfg: Config, replies: seq<Reply>, threshold: int, force: bool, hard: bool, s0: Store, start: int)
    requires Inv(s0) && Inv(p.store) && Tracks(p, cfg, s0, start)
    ensures Tracks(CondensedSweep(p, cfg, replies, threshold, force, hard), cfg, s0, start)
    decreases if p.counters.stop.Going? then 1 + SummaryMass(p.store) else 0
  {
    if p.counters.stop.Going? && (force || p.counters.previous > threshold) {
      CondensedTurnLowers(p, cfg, replies, threshold, force, hard);
      CondensedTurnTracks(p, cfg, replies, threshold, force, hard, s0, start);
      CondensedSweepTracks(CondensedTurn(p, cfg, replies, threshold, force, hard), cfg, replies, threshold, force, hard, s0, start);
    }
  }

  /* ---- Progress ---- */

  ghost predicate Fell(records: seq<PassRecord>, i: nat) {
    i < |records| && records[i].after < records[i].before
  }

  ghost predicate OfPhase(records: seq<PassRecord>, i: nat, condensed: bool) {
    i < |records| && records[i].condensed == condensed
  }

  /** From `from` on, the records belong to one phase and each lowered the count, save perhaps the last. */
  ghost predicate PhaseRecords(records: seq<PassRecord>, from: nat, condensed: bool) {
    && from <= |records|
    && (forall i: nat {:trigger OfPhase(records, i, condensed)} :: from <= i < |records| ==> OfPhase(records, i, condensed))
    && (forall i: nat {:trigger Fell(records, i)} :: from <= i < |records| - 1 ==> Fell(records, i))
  }

  lemma PhaseSnoc(records: seq<PassRecord>, from: nat, condensed: bool, r: PassRecord)
    requires PhaseRecords(records, from, condensed) && r.condensed == condensed
    requires from < |records| ==> Fell(records, |records| - 1)
    ensures PhaseRecords(records + [r], from, condensed)
  {
    var more := records + [r];
    forall i: nat | from <= i < |more| ensures OfPhase(more, i, condensed) {
      assert i < |records| ==> OfPhase(records, i, condensed);
    }
    forall i: nat | from <= i < |more| - 1 ensures Fell(more, i) {
      assert Fell(records, i);
    }
  }

  ghost predicate Over(records: seq<PassRecord>, i: nat, threshold: int) {
    i < |records| && records[i].after > threshold
  }

  /** The records from `from` up to `to` left the count above the threshold. */
  ghost predicate StaysOver(records: seq<PassRecord>, from: nat, to: int, threshold: int) {
    forall i: nat {:trigger Over(records, i, threshold)} :: from <= i < to ==> Over(records, i, threshold)
  }

  lemma StaysOverSnoc(records: seq<PassRecord>, from: nat, threshold: int, r: PassRecord)
    requires StaysOver(records, from, |records|, threshold)
    ensures StaysOver(records + [r], from, |records|, threshold)
    ensures r.after > threshold ==> StaysOver(records + [r], from, |records| + 1, threshold)
  {
    forall i: nat | from <= i < |records| ensures Over(records + [r], i, threshold) {
      assert Over(records, i, threshold);
    }
  }

  /**
   The phase that began with `b` so far: every pass lowered the count, which is what the
   next pass must beat, and unless forced left it above the threshold.
   */
  ghost predicate Falling(b: Counters, c: Counters, threshold: int, force: bool, condensed: bool) {
    && b.records <= c.records && PhaseRecords(c.records, |b.records|, condensed)
    && (!force ==> StaysOver(c.records, |b.records|, |c.records|, threshold))
    && (if |c.records| == |b.records| then c.running == b.running && c.previous == b.previous
        else Fell(c.records, |c.records| - 1) && c.previous == c.running == c.records[|c.records| - 1].after)
  }

  /**
   How the phase that began with `b` ended, reason by reason.  Unless forced every pass but
   the last left the count above the threshold, and a pass that did not ended the phase.
   */
  ghost predicate Ended(b: Counters, c: Counters, threshold: int, force: bool, condensed: bool) {
    && b.records <= c.records && PhaseRecords(c.records, |b.records|, condensed)
    && (!force ==> StaysOver(c.records, |b.records|, |c.records| - 1, threshold))
    && (c.stop.Under? <==> !force && |c.records| > |b.records| && c.records[|c.records| - 1].after <= threshold)
    && match c.stop
       case Going => Falling(b, c, threshold, force, condensed) && !force && c.previous <= threshold
       case Refused => Falling(b, c, threshold, force, condensed)
       case Under => c.previous == c.running == c.records[|c.records| - 1].after
       case Stalled =>
         && |c.records| > |b.records| && c.running == c.records[|c.records| - 1].after
         && (!Fell(c.records, |c.records| - 1) || (|c.records| == |b.records| + 1 && c.running >= b.previous))
         && c.previous == if |c.records| == |b.records| + 1 then b.previous else c.records[|c.records| - 1].before
  }

  lemma AdvanceFalls(b: Counters, c: Counters, outcome: Outcome, threshold: int, force: bool, condensed: bool)
    requires Falling(b, c, threshold, force, condensed) && c.stop.Going?
    ensures var d := Advance(c, outcome, threshold, force, condensed);
      if d.stop.Going? then Falling(b, d, threshold, force, condensed) && (force || d.previous > threshold)
      else Ended(b, d, threshold, force, condensed)
  {
    assert !force && |c.records| > |b.records| ==> Over(c.records, |c.records| - 1, threshold);
    if outcome.Made? {
      var r := PassRecord(c.running, c.running - outcome.removed + outcome.added, condensed);
      PhaseSnoc(c.records, |b.records|, condensed, r);
      if !force {
        StaysOverSnoc(c.records, |b.records|, threshold, r);
      }
    }
  }

  lemma {:induction false} LeafSweepEnds(b: Counters, p: Progress, cfg: Config, replies: seq<Reply>, threshold: int, force: bool)
    requires p.counters.stop.Going? && Falling(b, p.counters, threshold, force, false)
    ensures var c := LeafSweep(p, cfg, replies, threshold, force).counters;
      !c.stop.Going? && Ended(b, c, threshold, force, false)
    decreases |RawMessages(p.store.context)|
  {
    var q := LeafTurn(p, cfg, replies, threshold, force);
    LeafTurnFewer(p, cfg, replies, threshold, force);
    AdvanceFalls(b, p.counters, LeafPass(p.store, cfg, ReplyAt(replies, p.counters.call)).outcome, threshold, force, false);
    if q.counters.stop.Going? {
      LeafSweepEnds(b, q, cfg, replies, threshold, force);
    }
  }

  /** Unless forced, a condensed phase that begins with the floor at or under the threshold makes no pass. */
  lemma {:induction false} CondensedSweepEnds(b: Counters, p: Progress, cfg: Config, replies: seq<Reply>, threshold: int, force: bool, hard: bool)
    requires Inv(p.store) && p.counters.stop.Going? && Falling(b, p.counters, threshold, force, true)
    ensures var c := CondensedSweep(p, cfg, replies, threshold, force, hard).counters;
      && Ended(b, c, threshold, force, true)
      && (!force && p.counters.previous <= threshold ==> c == p.counters)
      && (force || p.counters.previous > threshold ==> !c.stop.Going?)
    decreases SummaryMass(p.store)
  {
    if force || p.counters.previous > threshold {
      var q := CondensedTurn(p, cfg, replies, threshold, force, hard);
      CondensedTurnLowers(p, cfg, replies, threshold, force, hard);
      AdvanceFalls(b, p.counters, CondensedPass(p.store, cfg, hard, ReplyAt(replies, p.counters.call)).outcome, threshold, force, true);
      if q.counters.stop.Going? {
        CondensedSweepEnds(b, q, cfg, replies, threshold, force, hard);
      }
    } else {
      var records := p.counters.records;
      assert |records| > |b.records| ==> Over(records, |records| - 1, threshold);
    }
  }
}
