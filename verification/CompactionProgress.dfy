/** What one successful pass does to the store's token total and to the number of raw messages. */
module CompactionProgress {
  import opened Sequences
  import opened TokenEstimate
  import opened ChunkSelection
  import opened SummaryDag
  import opened CompactionSteps
  import opened Lossless
  import opened CompactionTail

  function LeafMessages(s: Store, cfg: Config): seq<MessageId> {
    var c := LeafChunk(s, cfg);
    ChunkMessages(s, s.context[c.start..c.start + c.length])
  }

  lemma FreshItem(s: Store)
    requires Grounded(s) && Bookkept(s)
    ensures Absent(s.context, s.nextSummary)
  {
    forall k | SummaryAt(s.context, k) ensures s.context[k].summary != s.nextSummary {
      assert ItemResolves(s, s.context[k]);
    }
  }

  lemma AddedPositive(reply: Reply)
    requires Usable(reply)
    ensures Estimate(reply.text) >= 1
  {
    EstimatePositive(reply.text);
  }

  lemma LeafDeltaParts(s: Store, t: Store, pre: seq<Item>, mid: seq<Item>, post: seq<Item>, id: SummaryId)
    requires s.context == pre + mid + post && t.context == pre + [SummaryItem(id)] + post
    requires id in t.summaries && t.summaries == s.summaries[id := t.summaries[id]]
    requires t.messages == s.messages && Absent(pre + mid + post, id)
    requires mid != [] && Raws(mid)
    ensures ContextTokens(t, t.context) == ContextTokens(s, s.context)
      - RemovedTokens(s, ChunkMessages(s, mid)) + t.summaries[id].tokens + Drift(s, ChunkMessages(s, mid))
    ensures |RawMessages(t.context)| < |RawMessages(s.context)|
  {
    SpliceTokens(s, t, pre, mid, post, id);
    RemovedIsStoredPlusDrift(s, mid);
    FewerRaw(pre, mid, post, id);
  }

  /** What writing the leaf does, given only where the chunk lies. */
  lemma MakeLeafDelta(s: Store, c: Chunk, text: Text)
    requires Grounded(s) && Bookkept(s) && 0 < c.length && c.start + c.length <= |s.context|
    requires Raws(s.context[c.start..c.start + c.length])
    ensures var p, ms := MakeLeaf(s, c, text), ChunkMessages(s, s.context[c.start..c.start + c.length]);
      && ContextTokens(p.store, p.store.context) ==
        ContextTokens(s, s.context) - p.outcome.removed + p.outcome.added + Drift(s, ms)
      && |RawMessages(p.store.context)| < |RawMessages(s.context)|
      && p.outcome.added == Estimate(text)
  {
    var pre, mid, post := s.context[..c.start], s.context[c.start..c.start + c.length], s.context[c.start + c.length..];
    FreshItem(s);
    CutContext(s, c, s.nextSummary);
    LeafDeltaParts(s, AddLeaf(s, c, text), pre, mid, post, s.nextSummary);
  }

  /** A leaf pass moves the total by its reported delta plus the drift of what it folded. */
  lemma LeafDelta(s: Store, cfg: Config, reply: Reply)
    requires Grounded(s) && Bookkept(s) && LeafPass(s, cfg, reply).outcome.Made?
    ensures var p := LeafPass(s, cfg, reply);
      && ContextTokens(p.store, p.store.context) ==
        ContextTokens(s, s.context) - p.outcome.removed + p.outcome.added + Drift(s, LeafMessages(s, cfg))
      && |RawMessages(p.store.context)| < |RawMessages(s.context)|
      && p.outcome.added >= 1
  {
    LeafMakes(s, cfg, reply);
    LeafChunkDelta(s, cfg, reply.text);
    AddedPositive(reply);
  }

  lemma LeafChunkDelta(s: Store, cfg: Config, text: Text)
    requires Grounded(s) && Bookkept(s) && LeafChunk(s, cfg).length > 0
    ensures var p := MakeLeaf(s, LeafChunk(s, cfg), text);
      && ContextTokens(p.store, p.store.context) ==
        ContextTokens(s, s.context) - p.outcome.removed + p.outcome.added + Drift(s, LeafMessages(s, cfg))
      && |RawMessages(p.store.context)| < |RawMessages(s.context)|
      && p.outcome.added == Estimate(text)
  {
    LeafChunkItems(s, cfg);
    MakeLeafDelta(s, LeafChunk(s, cfg), text);
  }

  lemma FewerRaw(pre: seq<Item>, mid: seq<Item>, post: seq<Item>, id: SummaryId)
    requires mid != [] && Raws(mid)
    ensures |RawMessages(pre + [SummaryItem(id)] + post)| < |RawMessages(pre + mid + post)|
  {
    AllRawMessages(mid);
    NoRaw([SummaryItem(id)]);
    RawConcat(pre, mid, post);
    RawConcat(pre, [SummaryItem(id)], post);
  }

  lemma MakeCondensedDelta(s: Store, c: Chunk, depth: nat, text: Text)
    requires Grounded(s) && Bookkept(s) && AllSound(s) && c.start + c.length <= |s.context|
    requires AllSummaries(s.context[c.start..c.start + c.length])
    ensures var p := MakeCondensed(s, c, depth, text);
      && ContextTokens(p.store, p.store.context) == ContextTokens(s, s.context) - p.outcome.removed + p.outcome.added
      && p.outcome.added == Estimate(text)
  {
    var pre, mid, post := s.context[..c.start], s.context[c.start..c.start + c.length], s.context[c.start + c.length..];
    FreshItem(s);
    CutContext(s, c, s.nextSummary);
    SpliceTokens(s, AddCondensed(s, c, depth, text), pre, mid, post, s.nextSummary);
    forall id <- s.summaries ensures s.summaries[id].tokens >= 0 {
      assert RowSound(s, id);
    }
    RemovedIsStored(s, mid);
  }

  /** A condensed pass moves the total by exactly its reported delta. */
  lemma CondensedDelta(s: Store, cfg: Config, hard: bool, reply: Reply)
    requires Grounded(s) && Bookkept(s) && AllSound(s) && CondensedPass(s, cfg, hard, reply).outcome.Made?
    ensures var p := CondensedPass(s, cfg, hard, reply);
      && ContextTokens(p.store, p.store.context) == ContextTokens(s, s.context) - p.outcome.removed + p.outcome.added
      && p.outcome.added >= 1
  {
    CondensedMakes(s, cfg, hard, reply);
    var depth := Candidate(s, cfg, hard).value;
    CondensedChunkItems(s, cfg, depth);
    MakeCondensedDelta(s, CondensedChunk(s, cfg, depth), depth, reply.text);
    AddedPositive(reply);
  }

  /* ---- Drift ---- */

  /** The message's stored count is the one that passes count. */
  predicate CountedExactly(s: Store, m: MessageId)
    requires m in s.messages
  {
    s.messages[m].stored > 0 || (s.messages[m].stored == 0 && s.messages[m].content == [])
  }

  ghost predicate AllExact(s: Store, ms: seq<MessageId>) {
    forall m <- ms :: m in s.messages && CountedExactly(s, m)
  }

  lemma {:induction false} DriftZeroIff(s: Store, ms: seq<MessageId>)
    requires forall m <- ms :: m in s.messages
    ensures Drift(s, ms) == 0 <==> AllExact(s, ms)
  {
    if ms != [] {
      var init, last := ms[..|ms| - 1], ms[|ms| - 1];
      DriftZeroIff(s, init);
      DriftFree(s, last);
      Snoc(ms);
    }
  }

  lemma {:induction false} DriftAppend(s: Store, xs: seq<MessageId>, ys: seq<MessageId>)
    ensures Drift(s, xs + ys) == Drift(s, xs) + Drift(s, ys)
  {
    if ys == [] {
      assert xs + ys == xs;
    } else {
      assert (xs + ys)[..|xs + ys| - 1] == xs + ys[..|ys| - 1];
      DriftAppend(s, xs, ys[..|ys| - 1]);
    }
  }

  lemma {:induction false} DriftFrame(s: Store, t: Store, ms: seq<MessageId>)
    requires t.messages == s.messages
    ensures Drift(t, ms) == Drift(s, ms)
  {
    if ms != [] {
      DriftFrame(s, t, ms[..|ms| - 1]);
    }
  }

  /** What the reported delta of a leaf pass leaves out is nothing exactly when every folded message is counted exactly. */
  lemma LeafCountExact(s: Store, cfg: Config, reply: Reply)
    requires Grounded(s) && Bookkept(s) && LeafPass(s, cfg, reply).outcome.Made?
    ensures var p := LeafPass(s, cfg, reply);
      ContextTokens(p.store, p.store.context) == ContextTokens(s, s.context) - p.outcome.removed + p.outcome.added
      <==> AllExact(s, LeafMessages(s, cfg))
  {
    LeafDelta(s, cfg, reply);
    LeafMessagesExist(s, cfg);
    DriftZeroIff(s, LeafMessages(s, cfg));
  }

  lemma LeafMessagesExist(s: Store, cfg: Config)
    ensures forall m <- LeafMessages(s, cfg) :: m in s.messages
  {
    var c := LeafChunk(s, cfg);
    ChunkMessagesExist(s, s.context[c.start..c.start + c.length]);
  }

  /** What was said once, stored with a zero count. */
  const UNCOUNTED := AppendMessage(EMPTY, 0, [0x41])

  lemma UncountedChunk(cfg: Config)
    requires cfg.freshTailCount == 0
    ensures LeafChunk(UNCOUNTED, cfg) == Chunk(0, 1)
  {
    var s := UNCOUNTED;
    assert [0x41][..0] == [] && s.context == [RawItem(0)];
    assert LeafWeights(s, cfg) == [LeafWeight(s, RawItem(0))];
    SelectMeaning(LeafWeights(s, cfg), cfg.ChunkTokens());
  }

  lemma OneEstimate()
    ensures Estimate([0x41]) == 1
  {
    assert [0x41][..0] == [];
  }

  lemma UncountedRow()
    ensures ChunkMessages(UNCOUNTED, [RawItem(0)]) == [0] && RemovedTokens(UNCOUNTED, [0]) == 1
    ensures ContextTokens(UNCOUNTED, UNCOUNTED.context) == 0
  {
    OneEstimate();
    assert [RawItem(0)][..0] == [] && [0][..0] == [];
    assert UNCOUNTED.context == [RawItem(0)];
  }

  lemma UncountedFold()
    ensures var p := MakeLeaf(UNCOUNTED, Chunk(0, 1), [0x41]);
      p.outcome == Made(0, 1, 1) && ContextTokens(p.store, p.store.context) == 1
  {
    OneEstimate();
    UncountedRow();
    WholeContext(UNCOUNTED);
    FoldedAll(UNCOUNTED, [0x41]);
  }

  lemma WholeContext(s: Store)
    requires |s.context| == 1
    ensures s.context[0..1] == s.context && Splice(s.context, Chunk(0, 1), s.nextSummary) == [SummaryItem(s.nextSummary)]
  {
  }

  lemma FoldedAll(s: Store, text: Text)
    requires |s.context| == 1 && s.nextSummary == 0
    ensures var t := MakeLeaf(s, Chunk(0, 1), text).store; ContextTokens(t, t.context) == Estimate(text)
  {
    WholeContext(s);
    FoldedOne(MakeLeaf(s, Chunk(0, 1), text).store);
  }

  /** A context of one summary counts that summary's tokens. */
  lemma FoldedOne(t: Store)
    requires t.context == [SummaryItem(0)] && 0 in t.summaries
    ensures ContextTokens(t, t.context) == t.summaries[0].tokens
  {
    assert t.context[..0] == [];
  }

  lemma LetterUsable()
    ensures Usable(Content([0x41]))
  {
    assert !IsSpace([0x41][0]);
  }

  /** A pass that folds such a message reports no change while the store's total rises by one. */
  lemma UncountedMessageDrifts(cfg: Config)
    requires cfg.freshTailCount == 0
    ensures var p := LeafPass(UNCOUNTED, cfg, Content([0x41]));
      p.outcome == Made(0, 1, 1)
      && ContextTokens(p.store, p.store.context) == ContextTokens(UNCOUNTED, UNCOUNTED.context) + 1
  {
    UncountedChunk(cfg);
    UncountedFold();
    UncountedRow();
    LetterUsable();
    LeafMakes(UNCOUNTED, cfg, Content([0x41]));
  }

  /* ---- Runs of passes ---- */

  /** The messages that one event folds. */
  function FoldedBy(s: Store, e: Event): seq<MessageId> {
    if e.RunLeaf? && LeafPass(s, e.cfg, e.reply).outcome.Made? then LeafMessages(s, e.cfg) else []
  }

  /** The messages that a list of events folds. */
  function Folded(s: Store, es: seq<Event>): seq<MessageId> {
    if es == [] then [] else Folded(s, es[..|es| - 1]) + FoldedBy(Run(s, es[..|es| - 1]), es[|es| - 1])
  }

  lemma FoldedByExist(s: Store, e: Event)
    ensures forall m <- FoldedBy(s, e) :: m in s.messages
  {
    if e.RunLeaf? {
      var c := LeafChunk(s, e.cfg);
      ChunkMessagesExist(s, s.context[c.start..c.start + c.length]);
    }
  }

  /** The drift that a list of passes accumulates. */
  function DriftOver(s: Store, es: seq<Event>): nat {
    Drift(s, Folded(s, es))
  }

  /** Every event is a pass under these settings. */
  ghost predicate Passes(es: seq<Event>, cfg: Config) {
    if es == [] then true
    else
      var last := es[|es| - 1];
      !last.Append? && last.cfg == cfg && Passes(es[..|es| - 1], cfg)
  }

  lemma PassKeepsMessages(s: Store, e: Event)
    requires !e.Append?
    ensures Step(s, e).messages == s.messages && Step(s, e).log == s.log
  {
  }

  lemma {:induction false} PassesKeepMessages(s: Store, es: seq<Event>, cfg: Config)
    requires Passes(es, cfg)
    ensures Run(s, es).messages == s.messages && Run(s, es).log == s.log
  {
    if es != [] {
      PassesKeepMessages(s, es[..|es| - 1], cfg);
      PassKeepsMessages(Run(s, es[..|es| - 1]), es[|es| - 1]);
    }
  }

  lemma {:induction false} FoldedExist(s: Store, es: seq<Event>, cfg: Config)
    requires Passes(es, cfg)
    ensures forall m <- Folded(s, es) :: m in s.messages
  {
    if es != [] {
      FoldedExist(s, es[..|es| - 1], cfg);
      PassesKeepMessages(s, es[..|es| - 1], cfg);
      FoldedByExist(Run(s, es[..|es| - 1]), es[|es| - 1]);
    }
  }

  /** Passes never drift exactly when every message they fold is counted exactly. */
  lemma DriftOverZeroIff(s: Store, es: seq<Event>, cfg: Config)
    requires Passes(es, cfg)
    ensures DriftOver(s, es) == 0 <==> AllExact(s, Folded(s, es))
  {
    FoldedExist(s, es, cfg);
    DriftZeroIff(s, Folded(s, es));
  }
}
