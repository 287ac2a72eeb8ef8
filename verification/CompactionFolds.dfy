/** What each kind of pass folds, read off the tables before and after it. */
module CompactionFolds {
  import opened Sequences
  import opened TokenEstimate
  import opened ChunkSelection
  import opened SummaryDag
  import opened CompactionSteps
  import opened Lossless
  import opened CompactionRuns
  import opened CompactionTail

  /* ---- Leaf passes ---- */

  ghost predicate WeighsAt(s: Store, ws: Weights, items: seq<Item>, i: nat) {
    i < |ws| && i < |items| && ws[i] == LeafWeight(s, items[i])
  }

  ghost predicate Weighs(s: Store, ws: Weights, items: seq<Item>) {
    |ws| == |items| && forall i: nat {:trigger WeighsAt(s, ws, items, i)} :: i < |ws| ==> WeighsAt(s, ws, items, i)
  }

  /** The weights of items add up to the tokens of their raw messages. */
  lemma {:induction false} WeightSum(s: Store, ws: Weights, items: seq<Item>)
    requires Weighs(s, ws, items)
    ensures Sum(Values(ws)) == RemovedTokens(s, RawMessages(items))
  {
    if items != [] {
      var last := |items| - 1;
      var ws', items' := ws[..last], items[..last];
      forall i: nat | i < last ensures WeighsAt(s, ws', items', i) {
        assert WeighsAt(s, ws, items, i);
      }
      WeightSum(s, ws', items');
      SumStep(Values(ws), last);
      assert Values(ws)[..last] == Values(ws') && Values(ws)[..last + 1] == Values(ws);
      assert WeighsAt(s, ws, items, last) && items == items' + [items[last]];
      RawsSnoc(s, items', items[last]);
    }
  }

  lemma LeafTotal(s: Store, cfg: Config, start: nat, k: nat)
    requires start + k <= TailStart(s, cfg)
    ensures ChunkTotal(LeafWeights(s, cfg), Chunk(start, k)) == RemovedTokens(s, RawMessages(s.context[start..start + k]))
  {
    var ws, items := LeafWeights(s, cfg)[start..start + k], s.context[start..start + k];
    forall i: nat | i < k ensures WeighsAt(s, ws, items, i) {
      assert LeafWeights(s, cfg)[start + i] == LeafWeight(s, s.context[start + i]);
    }
    WeightSum(s, ws, items);
    ValuesOfRange(LeafWeights(s, cfg), start, start + k);
  }

  lemma ValuesOfRange(ws: Weights, i: nat, j: nat)
    requires i <= j <= |ws|
    ensures Values(ws)[i..j] == Values(ws[i..j])
  {
  }

  lemma RawsSnoc(s: Store, items: seq<Item>, it: Item)
    ensures RemovedTokens(s, RawMessages(items + [it])) ==
      RemovedTokens(s, RawMessages(items)) + if it.RawItem? then TokensOf(s, it.message) else 0
  {
    assert (items + [it])[..|items|] == items;
    if it.RawItem? {
      RemovedSnoc(s, RawMessages(items), it.message);
    } else {
      assert RawMessages(items) + [] == RawMessages(items);
    }
  }

  /** A run of raw items after summaries only holds the first raw messages. */
  lemma FirstRaws(items: seq<Item>, start: nat, k: nat)
    requires start + k <= |items| && AllSummaries(items[..start]) && Raws(items[start..start + k])
    ensures |RawMessages(items)| >= k && RawMessages(items[start..start + k]) == RawMessages(items)[..k]
    ensures RawMessages(items[start + k..]) == RawMessages(items)[k..]
  {
    var pre, mid, post := items[..start], items[start..start + k], items[start + k..];
    assert items == pre + mid + post;
    RawConcat(pre, mid, post);
    NoRaw(pre);
    AllRawMessages(mid);
    assert [] + RawMessages(mid) == RawMessages(mid);
  }

  /** The messages that no pass may touch are the newest; all others are free. */
  function Free(s: Store, cfg: Config): nat {
    |RawMessages(s.context)| - TailLength(s, cfg)
  }

  lemma LeafStops(s: Store, cfg: Config)
    requires Grounded(s) && Shaped(s, s.context)
    ensures var c := LeafChunk(s, cfg);
      && (c.length == 0 <==> Free(s, cfg) == 0) && c.length <= Free(s, cfg)
      && (0 < c.length < Free(s, cfg) ==> c.start + c.length < TailStart(s, cfg) && s.context[c.start + c.length].RawItem?)
  {
    var c, limit := LeafChunk(s, cfg), TailStart(s, cfg);
    SelectMeaning(LeafWeights(s, cfg), cfg.ChunkTokens());
    LeafChunkItems(s, cfg);
    TailSplits(s, cfg);
    if c.length == 0 {
      NoRaw(s.context[..c.start]);
    } else {
      FirstRaws(s.context, c.start, c.length);
      ChunkOutsideTail(s, cfg, c);
      assert RawAt(s.context[c.start..c.start + c.length], 0);
      if c.start + c.length == limit {
        AllFree(s, cfg, c);
      } else {
        assert InOrder(s, s.context, c.start, c.start + c.length);
      }
    }
  }

  lemma AllFree(s: Store, cfg: Config, c: Chunk)
    requires c.start + c.length == TailStart(s, cfg)
    requires AllSummaries(s.context[..c.start]) && Raws(s.context[c.start..c.start + c.length])
    ensures c.length == Free(s, cfg)
  {
    var pre, mid := s.context[..c.start], s.context[c.start..c.start + c.length];
    TailSplits(s, cfg);
    assert s.context[..TailStart(s, cfg)] == pre + mid;
    RawAppend(pre, mid);
    NoRaw(pre);
    AllRawMessages(mid);
  }

  /** The `n` oldest of `raw`, taken while they stay short of the cap; one is taken whatever its size. */
  ghost predicate OldestWithin(s: Store, raw: seq<MessageId>, free: nat, cap: nat, n: int) {
    && 0 < n <= free <= |raw|
    && (n > 1 ==> RemovedTokens(s, raw[..n]) <= cap)
    && (forall k: nat {:trigger ShortOf(s, raw, k, cap)} :: 0 < k < n ==> ShortOf(s, raw, k, cap))
    && (n < free && RemovedTokens(s, raw[..n]) < cap ==> RemovedTokens(s, raw[..n + 1]) > cap)
  }

  /** The `k` oldest do not reach the cap. */
  ghost predicate ShortOf(s: Store, raw: seq<MessageId>, k: nat, cap: nat) {
    k <= |raw| && RemovedTokens(s, raw[..k]) < cap
  }

  lemma LeafTakes(s: Store, cfg: Config)
    requires Grounded(s) && Shaped(s, s.context) && LeafChunk(s, cfg).length > 0
    ensures OldestWithin(s, RawMessages(s.context), Free(s, cfg), cfg.ChunkTokens(), LeafChunk(s, cfg).length)
  {
    var ws, c, cap, raw := LeafWeights(s, cfg), LeafChunk(s, cfg), cfg.ChunkTokens(), RawMessages(s.context);
    SelectMeaning(ws, cap);
    LeafChunkItems(s, cfg);
    LeafStops(s, cfg);
    TotalAt(s, cfg, c, c.length);
    forall k: nat | 0 < k < c.length ensures ShortOf(s, raw, k, cap) {
      assert Short(ws, c.start, k, cap);
      TotalAt(s, cfg, c, k);
    }
    if c.length < Free(s, cfg) {
      RawsMore(s.context, c.start, c.length);
      RunTotal(s, cfg, c.start, c.length + 1);
      assert ws[c.start + c.length] == LeafWeight(s, s.context[c.start + c.length]);
    }
  }

  lemma TotalAt(s: Store, cfg: Config, c: Chunk, k: nat)
    requires k <= c.length && c.start + c.length <= TailStart(s, cfg)
    requires AllSummaries(s.context[..c.start]) && Raws(s.context[c.start..c.start + c.length])
    ensures k <= |RawMessages(s.context)|
    ensures RemovedTokens(s, RawMessages(s.context)[..k]) == ChunkTotal(LeafWeights(s, cfg), Chunk(c.start, k))
  {
    RawsFewer(s.context, c.start, k, c.length);
    RunTotal(s, cfg, c.start, k);
  }

  lemma RawsMore(items: seq<Item>, start: nat, k: nat)
    requires start + k < |items| && Raws(items[start..start + k]) && items[start + k].RawItem?
    ensures Raws(items[start..start + (k + 1)])
  {
    var less, more := items[start..start + k], items[start..start + (k + 1)];
    forall i | 0 <= i < k + 1 ensures RawAt(more, i) {
      assert i < k ==> RawAt(less, i);
    }
  }

  lemma RawsFewer(items: seq<Item>, start: nat, k: nat, n: nat)
    requires k <= n && start + n <= |items| && Raws(items[start..start + n])
    ensures Raws(items[start..start + k])
  {
    var less, more := items[start..start + k], items[start..start + n];
    forall i | 0 <= i < k ensures RawAt(less, i) {
      assert RawAt(more, i);
    }
  }

  lemma RunTotal(s: Store, cfg: Config, start: nat, k: nat)
    requires start + k <= TailStart(s, cfg) && AllSummaries(s.context[..start])
    requires Raws(s.context[start..start + k])
    ensures k <= |RawMessages(s.context)|
    ensures RemovedTokens(s, RawMessages(s.context)[..k]) == ChunkTotal(LeafWeights(s, cfg), Chunk(start, k))
  {
    FirstRaws(s.context, start, k);
    LeafTotal(s, cfg, start, k);
  }

  lemma {:induction false} MessagesOfRaws(s: Store, items: seq<Item>)
    requires Raws(items) && Resolves(s, items)
    ensures ChunkMessages(s, items) == RawMessages(items)
  {
    if items != [] {
      var last := |items| - 1;
      RawsInit(items);
      assert ItemResolves(s, items[last]);
      forall k | 0 <= k < last ensures ItemResolves(s, items[..last][k]) {
        assert ItemResolves(s, items[k]);
      }
      MessagesOfRaws(s, items[..last]);
    }
  }

  /** From `s` to `t`, the oldest messages that the cap admits were folded into a leaf with the text. */
  ghost predicate LeafFolded(s: Store, t: Store, cfg: Config, text: Text) {
    var raw, id := RawMessages(s.context), s.nextSummary;
    var n := |raw| - |RawMessages(t.context)|;
    && OldestWithin(s, raw, |raw| - TailLength(s, cfg), cfg.ChunkTokens(), n)
    && RawMessages(t.context) == raw[n..] && t.leafLinks == s.leafLinks[id := raw[..n]]
    && id in t.summaries && t.summaries[id].kind == Leaf && t.summaries[id].content == text
  }

  /**
   A leaf pass makes a summary exactly when a message lies outside the tail and the reply
   is a text; it then folds the oldest messages, as many as the cap admits, in order.
   */
  lemma LeafFolds(s: Store, cfg: Config, reply: Reply)
    requires Grounded(s) && Shaped(s, s.context)
    ensures var p := LeafPass(s, cfg, reply);
      && (p.outcome.Made? <==> TailLength(s, cfg) < |RawMessages(s.context)| && reply.Content? && !IsBlank(reply.text))
      && (p.outcome.Made? ==> LeafFolded(s, p.store, cfg, reply.text))
  {
    LeafStops(s, cfg);
    if LeafChunk(s, cfg).length > 0 && Usable(reply) {
      LeafMakes(s, cfg, reply);
      LeafFoldsChunk(s, cfg, reply.text);
    } else {
      LeafSkips(s, cfg, reply);
    }
  }

  lemma LeafFoldsChunk(s: Store, cfg: Config, text: Text)
    requires Grounded(s) && Shaped(s, s.context) && LeafChunk(s, cfg).length > 0
    ensures LeafFolded(s, AddLeaf(s, LeafChunk(s, cfg), text), cfg, text)
  {
    LeafTakes(s, cfg);
    LeafChunkItems(s, cfg);
    LeafLeaves(s, LeafChunk(s, cfg), text);
  }

  lemma LeafLeaves(s: Store, c: Chunk, text: Text)
    requires Grounded(s) && 0 < c.length && c.start + c.length <= |s.context|
    requires AllSummaries(s.context[..c.start]) && Raws(s.context[c.start..c.start + c.length])
    ensures var raw, t := RawMessages(s.context), AddLeaf(s, c, text);
      && |raw| >= c.length && RawMessages(t.context) == raw[c.length..]
      && t.leafLinks == s.leafLinks[s.nextSummary := raw[..c.length]]
  {
    var mid := s.context[c.start..c.start + c.length];
    FirstRaws(s.context, c.start, c.length);
    MiddleResolves(s, c);
    MessagesOfRaws(s, mid);
    RawConcat(s.context[..c.start], [SummaryItem(s.nextSummary)], s.context[c.start + c.length..]);
    NoRaw(s.context[..c.start]);
    NoRaw([SummaryItem(s.nextSummary)]);
    assert [] + [] + RawMessages(s.context)[c.length..] == RawMessages(s.context)[c.length..];
  }

  /* ---- Condensed passes ---- */

  ghost predicate DepthWeighsAt(s: Store, ws: Weights, items: seq<Item>, depth: nat, i: nat) {
    i < |ws| && i < |items| && ws[i] == CondensedWeight(s, depth, items[i])
  }

  ghost predicate DepthWeighs(s: Store, ws: Weights, items: seq<Item>, depth: nat) {
    |ws| == |items| && forall i: nat {:trigger DepthWeighsAt(s, ws, items, depth, i)} :: i < |ws| ==> DepthWeighsAt(s, ws, items, depth, i)
  }

  /** The weights of summaries of one depth add up to their stored tokens. */
  lemma {:induction false} DepthWeightSum(s: Store, ws: Weights, items: seq<Item>, depth: nat)
    requires Dag(s) && AllSound(s) && AllAtDepth(s, items, depth) && DepthWeighs(s, ws, items, depth)
    ensures Sum(Values(ws)) == SummaryTokens(s, ChunkSummaries(s, items))
  {
    if items != [] {
      var last := |items| - 1;
      assert DepthIs(s, items[last], depth);
      var ws', items', id := ws[..last], items[..last], items[last].summary;
      forall i: nat | i < last ensures DepthWeighsAt(s, ws', items', depth, i) {
        assert DepthWeighsAt(s, ws, items, depth, i);
      }
      AllButLast(s, items, depth);
      DepthWeightSum(s, ws', items', depth);
      assert RowSound(s, id);
      SumStep(Values(ws), last);
      assert Values(ws)[..last] == Values(ws') && Values(ws)[..last + 1] == Values(ws);
      assert DepthWeighsAt(s, ws, items, depth, last);
      SummaryTokensAppend(s, ChunkSummaries(s, items'), [id]);
      assert [id][1..] == [];
    }
  }

  /** The summaries that the oldest chunk at a depth holds. */
  function ChunkIds(s: Store, cfg: Config, depth: nat): seq<SummaryId> {
    var c := CondensedChunk(s, cfg, depth);
    ChunkSummaries(s, s.context[c.start..c.start + c.length])
  }

  lemma ChunkSums(s: Store, cfg: Config, depth: nat)
    requires Dag(s) && AllSound(s)
    ensures |ChunkIds(s, cfg, depth)| == CondensedChunk(s, cfg, depth).length
    ensures ChunkWeight(s, cfg, depth) == SummaryTokens(s, ChunkIds(s, cfg, depth))
  {
    var c := CondensedChunk(s, cfg, depth);
    CondensedChunkItems(s, cfg, depth);
    SummaryChunk(s, s.context[c.start..c.start + c.length], depth);
    DepthTotal(s, cfg, depth, c.start, c.length);
  }

  lemma DepthTotal(s: Store, cfg: Config, depth: nat, start: nat, k: nat)
    requires Dag(s) && AllSound(s) && start + k <= TailStart(s, cfg)
    requires AllAtDepth(s, s.context[start..start + k], depth)
    ensures ChunkTotal(CondensedWeights(s, cfg, depth), Chunk(start, k)) ==
      SummaryTokens(s, ChunkSummaries(s, s.context[start..start + k]))
  {
    DepthWeighsRange(s, cfg, depth, start, k);
    DepthWeightSum(s, CondensedWeights(s, cfg, depth)[start..start + k], s.context[start..start + k], depth);
    ValuesOfRange(CondensedWeights(s, cfg, depth), start, start + k);
  }

  lemma DepthWeighsRange(s: Store, cfg: Config, depth: nat, start: nat, k: nat)
    requires start + k <= TailStart(s, cfg)
    ensures DepthWeighs(s, CondensedWeights(s, cfg, depth)[start..start + k], s.context[start..start + k], depth)
  {
    var all := CondensedWeights(s, cfg, depth);
    var ws, items := all[start..start + k], s.context[start..start + k];
    forall i: nat | i < k ensures DepthWeighsAt(s, ws, items, depth, i) {
      assert all[start + i] == CondensedWeight(s, depth, s.context[start + i]);
    }
  }

  /** The least number of summaries: two when forced hard, else eight leaves or four deeper ones, unless configured. */
  ghost predicate Enough(cfg: Config, hard: bool, depth: nat, n: nat) {
    && (hard ==> n >= if cfg.condensedMinFanoutHard > 0 then cfg.condensedMinFanoutHard else 2)
    && (!hard && depth == 0 ==> n >= if cfg.leafMinFanout > 0 then cfg.leafMinFanout else 8)
    && (!hard && depth > 0 ==> n >= if cfg.condensedMinFanout > 0 then cfg.condensedMinFanout else 4)
  }

  /** There are enough of them and they hold enough tokens to be condensed. */
  ghost predicate Worthwhile(s: Store, cfg: Config, hard: bool, depth: nat, ids: seq<SummaryId>) {
    && Enough(cfg, hard, depth, |ids|)
    && SummaryTokens(s, ids) >= cfg.condensedTargetTokens
    && SummaryTokens(s, ids) >= (if cfg.leafChunkTokens.Some? && cfg.leafChunkTokens.value > 0 then cfg.leafChunkTokens.value else 20_000) / 10
  }

  lemma EligibleIff(s: Store, cfg: Config, hard: bool, depth: nat)
    requires Dag(s) && AllSound(s)
    ensures Eligible(s, cfg, hard, depth) <==> Worthwhile(s, cfg, hard, depth, ChunkIds(s, cfg, depth))
  {
    ChunkSums(s, cfg, depth);
  }

  ghost predicate StandsAt(s: Store, start: nat, ids: seq<SummaryId>, depth: nat, i: nat) {
    && i < |ids| && start + i < |s.context|
    && s.context[start + i] == SummaryItem(ids[i]) && DepthIs(s, s.context[start + i], depth)
  }

  /** `ids` stand in a row at `start`, outside the tail, at one depth, and whatever is older is deeper. */
  ghost predicate OldestAtDepth(s: Store, cfg: Config, start: nat, ids: seq<SummaryId>, depth: nat)
    requires Grounded(s)
  {
    && start + |ids| <= TailStart(s, cfg) && DeepBefore(s, start, depth + 1)
    && forall i: nat {:trigger StandsAt(s, start, ids, depth, i)} :: i < |ids| ==> StandsAt(s, start, ids, depth, i)
  }

  lemma ChunkIsOldest(s: Store, cfg: Config, depth: nat)
    requires Grounded(s) && Shaped(s, s.context) && CondensedChunk(s, cfg, depth).length > 0
    ensures OldestAtDepth(s, cfg, CondensedChunk(s, cfg, depth).start, ChunkIds(s, cfg, depth), depth)
  {
    var c := CondensedChunk(s, cfg, depth);
    CondensedChunkItems(s, cfg, depth);
    DeeperBefore(s, cfg, depth);
    RunStands(s, c.start, s.context[c.start..c.start + c.length], depth);
  }

  lemma RunStands(s: Store, start: nat, items: seq<Item>, depth: nat)
    requires start + |items| <= |s.context| && items == s.context[start..start + |items|] && AllAtDepth(s, items, depth)
    ensures var ids := ChunkSummaries(s, items);
      && |ids| == |items|
      && forall i: nat {:trigger StandsAt(s, start, ids, depth, i)} :: i < |ids| ==> StandsAt(s, start, ids, depth, i)
  {
    var ids := ChunkSummaries(s, items);
    SummaryChunk(s, items, depth);
    forall i: nat | i < |ids| ensures StandsAt(s, start, ids, depth, i) {
      assert items[i] == s.context[start + i] && DepthIs(s, items[i], depth);
    }
  }

  /** From `s` to `t`, the oldest worthwhile run at the depth below the new row's was folded into it. */
  ghost predicate CondensedFolded(s: Store, t: Store, cfg: Config, hard: bool, text: Text)
    requires Grounded(s)
  {
    var id := s.nextSummary;
    && id in t.summaries && t.summaries[id].kind == Condensed && t.summaries[id].content == text && id in t.childLinks
    && t.summaries[id].depth > 0
    && var ids, depth := t.childLinks[id], t.summaries[id].depth - 1;
    && Worthwhile(s, cfg, hard, depth, ids) && (|ids| > 1 ==> SummaryTokens(s, ids) <= cfg.ChunkTokens())
    && exists start: nat :: ReplacedAt(s, t, cfg, start, ids, depth)
  }

  /** The new summary stands where `ids` stood. */
  ghost predicate ReplacedAt(s: Store, t: Store, cfg: Config, start: nat, ids: seq<SummaryId>, depth: nat)
    requires Grounded(s)
  {
    && OldestAtDepth(s, cfg, start, ids, depth)
    && t.context == s.context[..start] + [SummaryItem(s.nextSummary)] + s.context[start + |ids|..]
  }

  /**
   A condensed pass makes a summary exactly when at some depth the oldest chunk is worthwhile
   and the reply is a text; it then folds such a chunk, at the shallowest such depth.
   */
  lemma CondensedFolds(s: Store, cfg: Config, hard: bool, reply: Reply)
    requires Grounded(s) && Shaped(s, s.context) && AllSound(s)
    ensures var p := CondensedPass(s, cfg, hard, reply);
      && (p.outcome.Made? <==>
            reply.Content? && !IsBlank(reply.text)
            && exists d: nat {:trigger ChunkIds(s, cfg, d)} :: Worthwhile(s, cfg, hard, d, ChunkIds(s, cfg, d)))
      && (p.outcome.Made? ==>
            && CondensedFolded(s, p.store, cfg, hard, reply.text)
            && forall d: nat {:trigger ChunkIds(s, cfg, d)} ::
              d + 1 < p.store.summaries[s.nextSummary].depth ==> !Worthwhile(s, cfg, hard, d, ChunkIds(s, cfg, d)))
  {
    forall d: nat ensures Worthwhile(s, cfg, hard, d, ChunkIds(s, cfg, d)) ==>
        Candidate(s, cfg, hard).Some? && Candidate(s, cfg, hard).value <= d {
      EligibleIff(s, cfg, hard, d);
      if Eligible(s, cfg, hard, d) {
        CandidateMeaning(s, cfg, hard, d);
      }
    }
    if Candidate(s, cfg, hard).Some? {
      var d := Candidate(s, cfg, hard).value;
      EligibleIff(s, cfg, hard, d);
      if Usable(reply) {
        CondensedMakes(s, cfg, hard, reply);
        ChunkWithin(s, cfg, d);
        CondensedFoldsChunk(s, cfg, hard, d, reply.text);
      } else {
        CondensedSkips(s, cfg, hard, reply);
      }
    } else {
      CondensedSkips(s, cfg, hard, reply);
    }
  }

  lemma CondensedFoldsChunk(s: Store, cfg: Config, hard: bool, depth: nat, text: Text)
    requires Grounded(s) && Shaped(s, s.context) && CondensedChunk(s, cfg, depth).length > 0
    ensures var ids, t := ChunkIds(s, cfg, depth), AddCondensed(s, CondensedChunk(s, cfg, depth), depth, text);
      && (Worthwhile(s, cfg, hard, depth, ids) && (|ids| > 1 ==> SummaryTokens(s, ids) <= cfg.ChunkTokens()) ==>
            CondensedFolded(s, t, cfg, hard, text))
      && s.nextSummary in t.summaries && t.summaries[s.nextSummary].depth == depth + 1
  {
    var c, ids := CondensedChunk(s, cfg, depth), ChunkIds(s, cfg, depth);
    ChunkIdsCount(s, cfg, depth);
    ChunkIsOldest(s, cfg, depth);
    FoldedBy(s, cfg, hard, depth, c, CondensedRow(depth, text, ChildTotals(s, ids)), ids);
    AddsRow(s, c, depth, text, ids);
  }

  lemma AddsRow(s: Store, c: Chunk, depth: nat, text: Text, ids: seq<SummaryId>)
    requires c.start + c.length <= |s.context| && ids == ChunkSummaries(s, s.context[c.start..c.start + c.length])
    ensures AddCondensed(s, c, depth, text) == WriteCondensed(s, c, CondensedRow(depth, text, ChildTotals(s, ids)), ids)
  {
  }

  lemma FoldedBy(s: Store, cfg: Config, hard: bool, depth: nat, c: Chunk, row: Summary, ids: seq<SummaryId>)
    requires Grounded(s) && |ids| == c.length > 0 && c.start + c.length <= |s.context|
    requires row.kind == Condensed && row.depth == depth + 1
    ensures var t := WriteCondensed(s, c, row, ids);
      && (OldestAtDepth(s, cfg, c.start, ids, depth) && Worthwhile(s, cfg, hard, depth, ids)
          && (|ids| > 1 ==> SummaryTokens(s, ids) <= cfg.ChunkTokens())
          ==> CondensedFolded(s, t, cfg, hard, row.content))
      && s.nextSummary in t.summaries && t.summaries[s.nextSummary] == row
  {
    var t := WriteCondensed(s, c, row, ids);
    RowWritten(s, c, row, ids);
    assert OldestAtDepth(s, cfg, c.start, ids, depth) ==> ReplacedAt(s, t, cfg, c.start, ids, depth);
    FoldedAs(s, t, cfg, hard, depth, row, c.start, ids);
  }

  lemma FoldedAs(s: Store, t: Store, cfg: Config, hard: bool, depth: nat, row: Summary, start: nat, ids: seq<SummaryId>)
    requires Grounded(s) && Written(s, t, s.nextSummary, row, ids) && row.kind == Condensed && row.depth == depth + 1
    ensures ReplacedAt(s, t, cfg, start, ids, depth) && Worthwhile(s, cfg, hard, depth, ids)
            && (|ids| > 1 ==> SummaryTokens(s, ids) <= cfg.ChunkTokens())
            ==> CondensedFolded(s, t, cfg, hard, row.content)
  {
  }

  lemma ChunkIdsCount(s: Store, cfg: Config, depth: nat)
    ensures |ChunkIds(s, cfg, depth)| == CondensedChunk(s, cfg, depth).length
  {
    var c := CondensedChunk(s, cfg, depth);
    CondensedChunkItems(s, cfg, depth);
    SummaryChunk(s, s.context[c.start..c.start + c.length], depth);
  }

  lemma ChunkWithin(s: Store, cfg: Config, depth: nat)
    requires Dag(s) && AllSound(s)
    ensures var ids := ChunkIds(s, cfg, depth); |ids| > 1 ==> SummaryTokens(s, ids) <= cfg.ChunkTokens()
  {
    ChunkSums(s, cfg, depth);
    SelectMeaning(CondensedWeights(s, cfg, depth), cfg.ChunkTokens());
  }
}
