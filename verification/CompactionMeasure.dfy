/** Measures that passes lower, and what runs of passes keep. */
module CompactionMeasure {
  import opened Sequences
  import opened SummaryDag
  import opened CompactionSteps
  import opened Lossless
  import opened CompactionTail
  import opened CompactionProgress

  lemma RunSnoc(s: Store, es: seq<Event>, e: Event)
    ensures Run(s, es + [e]) == Step(Run(s, es), e)
    ensures Folded(s, es + [e]) == Folded(s, es) + FoldedBy(Run(s, es), e)
  {
    assert (es + [e])[..|es|] == es;
  }

  lemma PassesSnoc(es: seq<Event>, e: Event, cfg: Config)
    requires Passes(es, cfg) && !e.Append? && e.cfg == cfg
    ensures Passes(es + [e], cfg)
  {
    assert (es + [e])[..|es|] == es;
  }

  lemma DriftSnoc(s: Store, es: seq<Event>, e: Event, cfg: Config)
    requires Passes(es, cfg)
    ensures DriftOver(s, es + [e]) == DriftOver(s, es) + Drift(Run(s, es), FoldedBy(Run(s, es), e))
  {
    RunSnoc(s, es, e);
    PassesKeepMessages(s, es, cfg);
    DriftAppend(s, Folded(s, es), FoldedBy(Run(s, es), e));
    DriftFrame(s, Run(s, es), FoldedBy(Run(s, es), e));
  }

  lemma {:induction false} PassesKeepTail(s: Store, es: seq<Event>, cfg: Config)
    requires Passes(es, cfg)
    ensures FreshTail(Run(s, es), cfg) == FreshTail(s, cfg)
  {
    if es != [] {
      var init, e := es[..|es| - 1], es[|es| - 1];
      PassesKeepTail(s, init, cfg);
      match e
      case RunLeaf(_, reply) => LeafKeepsTail(Run(s, init), cfg, reply);
      case RunCondensed(_, hard, reply) => CondensedKeepsTail(Run(s, init), cfg, hard, reply);
    }
  }

  function RawStored(s: Store, ms: seq<MessageId>): int {
    if ms == [] then 0 else RawStored(s, ms[..|ms| - 1]) + ItemTokens(s, RawItem(ms[|ms| - 1]))
  }

  lemma RawStoredSnoc(s: Store, ms: seq<MessageId>, m: MessageId)
    ensures RawStored(s, ms + [m]) == RawStored(s, ms) + ItemTokens(s, RawItem(m))
  {
    assert (ms + [m])[..|ms|] == ms;
  }

  /** Summaries only ever add to the stored counts of the raw messages. */
  lemma {:induction false} RawStoredBelow(s: Store, items: seq<Item>)
    requires forall id <- s.summaries :: s.summaries[id].tokens >= 0
    ensures RawStored(s, RawMessages(items)) <= ContextTokens(s, items)
  {
    if items != [] {
      var init, last := items[..|items| - 1], items[|items| - 1];
      RawStoredBelow(s, init);
      if last.RawItem? {
        RawStoredSnoc(s, RawMessages(init), last.message);
      } else {
        assert RawMessages(items) == RawMessages(init);
      }
    }
  }

  lemma {:induction false} RawStoredFrame(s: Store, t: Store, ms: seq<MessageId>)
    requires t.messages == s.messages
    ensures RawStored(t, ms) == RawStored(s, ms)
  {
    if ms != [] {
      RawStoredFrame(s, t, ms[..|ms| - 1]);
    }
  }

  lemma CondensedKeepsRaw(s: Store, cfg: Config, hard: bool, reply: Reply)
    ensures var t := CondensedPass(s, cfg, hard, reply).store;
      RawMessages(t.context) == RawMessages(s.context) && t.messages == s.messages
  {
    if Candidate(s, cfg, hard).Some? && Usable(reply) {
      var c := CondensedChunk(s, cfg, Candidate(s, cfg, hard).value);
      var pre, mid, post := s.context[..c.start], s.context[c.start..c.start + c.length], s.context[c.start + c.length..];
      CondensedMakes(s, cfg, hard, reply);
      CondensedChunkItems(s, cfg, Candidate(s, cfg, hard).value);
      NoRaw(mid);
      NoRaw([SummaryItem(s.nextSummary)]);
      CutContext(s, c, s.nextSummary);
      RawConcat(pre, mid, post);
      RawConcat(pre, [SummaryItem(s.nextSummary)], post);
    } else {
      CondensedSkips(s, cfg, hard, reply);
    }
  }

  /** What the summary rows add to the raw messages: the measure that condensed passes lower. */
  ghost function SummaryMass(s: Store): int {
    ContextTokens(s, s.context) - RawStored(s, RawMessages(s.context))
  }

  lemma MassNonNegative(s: Store)
    requires Inv(s)
    ensures SummaryMass(s) >= 0
  {
    forall id <- s.summaries ensures s.summaries[id].tokens >= 0 {
      assert RowSound(s, id);
    }
    RawStoredBelow(s, s.context);
  }

  lemma MassDelta(s: Store, cfg: Config, hard: bool, reply: Reply)
    requires Inv(s) && CondensedPass(s, cfg, hard, reply).outcome.Made?
    ensures var p := CondensedPass(s, cfg, hard, reply);
      SummaryMass(p.store) == SummaryMass(s) - p.outcome.removed + p.outcome.added
  {
    CondensedDelta(s, cfg, hard, reply);
    CondensedKeepsRaw(s, cfg, hard, reply);
    RawStoredFrame(s, CondensedPass(s, cfg, hard, reply).store, RawMessages(s.context));
  }

  /** A leaf pass leaves fewer raw messages, from any store. */
  lemma LeafLeavesFewer(s: Store, cfg: Config, reply: Reply)
    requires LeafPass(s, cfg, reply).outcome.Made?
    ensures |RawMessages(LeafPass(s, cfg, reply).store.context)| < |RawMessages(s.context)|
  {
    var c := LeafChunk(s, cfg);
    LeafMakes(s, cfg, reply);
    LeafChunkItems(s, cfg);
    CutContext(s, c, s.nextSummary);
    FewerRaw(s.context[..c.start], s.context[c.start..c.start + c.length], s.context[c.start + c.length..], s.nextSummary);
  }
}
