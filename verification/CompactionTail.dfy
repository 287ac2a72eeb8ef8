/** The protected tail is the same before and after every pass, and token deltas drift by a known amount. */
module CompactionTail {
  import opened Sequences
  import opened TokenEstimate
  import opened ChunkSelection
  import opened SummaryDag
  import opened CompactionSteps

  /* ---- Raw messages of a context ---- */

  lemma {:induction false} RawAppend(xs: seq<Item>, ys: seq<Item>)
    ensures RawMessages(xs + ys) == RawMessages(xs) + RawMessages(ys)
  {
    if ys == [] {
      assert xs + ys == xs;
    } else {
      assert (xs + ys)[..|xs + ys| - 1] == xs + ys[..|ys| - 1];
      RawAppend(xs, ys[..|ys| - 1]);
    }
  }

  lemma {:induction false} NoRaw(items: seq<Item>)
    requires AllSummaries(items)
    ensures RawMessages(items) == []
  {
    if items != [] {
      SummariesInit(items);
      NoRaw(items[..|items| - 1]);
    }
  }

  lemma {:induction false} AllRawMessages(items: seq<Item>)
    requires Raws(items)
    ensures |RawMessages(items)| == |items|
  {
    if items != [] {
      RawsInit(items);
      AllRawMessages(items[..|items| - 1]);
    }
  }

  lemma RawsInit(items: seq<Item>)
    requires Raws(items) && items != []
    ensures items[|items| - 1].RawItem? && Raws(items[..|items| - 1])
  {
    var init := items[..|items| - 1];
    assert RawAt(items, |items| - 1);
    forall k | 0 <= k < |init| ensures RawAt(init, k) {
      assert RawAt(items, k);
    }
  }

  lemma SummariesInit(items: seq<Item>)
    requires AllSummaries(items) && items != []
    ensures items[|items| - 1].SummaryItem? && AllSummaries(items[..|items| - 1])
  {
    var init := items[..|items| - 1];
    assert SummaryAt(items, |items| - 1);
    forall k | 0 <= k < |init| ensures SummaryAt(init, k) {
      assert SummaryAt(items, k);
    }
  }

  /** The k-th raw message has exactly k raw messages before it. */
  lemma {:induction false} RawBefore(items: seq<Item>, k: nat)
    requires k < |RawMessages(items)|
    ensures |RawMessages(items[..NthRaw(items, k)])| == k
  {
    var init := items[..|items| - 1];
    if k < |RawMessages(init)| {
      RawBefore(init, k);
      assert init[..NthRaw(init, k)] == items[..NthRaw(items, k)];
    }
  }

  /** Everything from the tail start on holds exactly the protected messages. */
  lemma TailSplits(s: Store, cfg: Config)
    ensures |RawMessages(s.context[..TailStart(s, cfg)])| == |RawMessages(s.context)| - TailLength(s, cfg)
  {
    var p := TailLength(s, cfg);
    if p > 0 {
      RawBefore(s.context, |RawMessages(s.context)| - p);
    } else {
      assert s.context[..|s.context|] == s.context;
    }
  }

  /* ---- Tail stability ---- */

  lemma SameTail(s: Store, t: Store, cfg: Config, drop: nat)
    requires forall m <- RawMessages(s.context) :: TokensOf(t, m) == TokensOf(s, m)
    requires drop + TailLength(s, cfg) <= |RawMessages(s.context)|
    requires RawMessages(t.context) == RawMessages(s.context)[drop..]
    ensures FreshTail(t, cfg) == FreshTail(s, cfg)
  {
    var ms := RawMessages(s.context);
    WeighLater(s, t, ms, drop);
    ProtectedLater(Weigh(s, ms), Weigh(t, ms[drop..]), drop, cfg.freshTailCount, cfg.TailCap());
    LastOf(ms, drop, TailLength(s, cfg));
  }

  lemma WeighLater(s: Store, t: Store, ms: seq<MessageId>, drop: nat)
    requires drop <= |ms| && forall m <- ms :: TokensOf(t, m) == TokensOf(s, m)
    ensures Weigh(t, ms[drop..]) == Weigh(s, ms)[drop..]
  {
  }

  lemma ProtectedLater(ws: seq<nat>, later: seq<nat>, drop: nat, count: int, cap: Option<nat>)
    requires drop + Protected(ws, count, cap) <= |ws| && later == ws[drop..]
    ensures Protected(later, count, cap) == Protected(ws, count, cap)
  {
    ProtectedStable(ws, drop, count, cap, 0, 0);
  }

  lemma LastOf<T>(xs: seq<T>, drop: nat, n: nat)
    requires drop + n <= |xs|
    ensures xs[drop..][|xs[drop..]| - n..] == xs[|xs| - n..]
  {
  }

  lemma RawConcat(a: seq<Item>, b: seq<Item>, c: seq<Item>)
    ensures RawMessages(a + b + c) == RawMessages(a) + RawMessages(b) + RawMessages(c)
  {
    RawAppend(a, b);
    RawAppend(a + b, c);
  }

  /** Replacing a run by a summary drops the run's raw messages, and only those. */
  lemma CollapsedTail(s: Store, t: Store, cfg: Config, pre: seq<Item>, mid: seq<Item>, post: seq<Item>, id: SummaryId)
    requires s.context == pre + mid + post && t.context == pre + [SummaryItem(id)] + post
    requires t.messages == s.messages
    requires RawMessages(mid) == [] || RawMessages(pre) == []
    requires |RawMessages(mid)| + TailLength(s, cfg) <= |RawMessages(s.context)|
    ensures FreshTail(t, cfg) == FreshTail(s, cfg)
  {
    RawConcat(pre, mid, post);
    RawConcat(pre, [SummaryItem(id)], post);
    NoRaw([SummaryItem(id)]);
    DropMiddle(RawMessages(pre), RawMessages(mid), RawMessages(post));
    SameTail(s, t, cfg, |RawMessages(mid)|);
  }

  lemma DropMiddle<T>(a: seq<T>, b: seq<T>, c: seq<T>)
    requires a == [] || b == []
    ensures a + [] + c == (a + b + c)[|b|..]
  {
  }

  lemma CutContext(s: Store, c: Chunk, id: SummaryId)
    requires c.start + c.length <= |s.context|
    ensures var pre, mid, post := s.context[..c.start], s.context[c.start..c.start + c.length], s.context[c.start + c.length..];
      s.context == pre + mid + post && Splice(s.context, c, id) == pre + [SummaryItem(id)] + post
  {
  }

  /** What lies before the tail start is not protected. */
  lemma RunOutsideTail(s: Store, cfg: Config, pre: seq<Item>, mid: seq<Item>, more: seq<Item>)
    requires s.context[..TailStart(s, cfg)] == pre + mid + more
    ensures |RawMessages(mid)| + TailLength(s, cfg) <= |RawMessages(s.context)|
  {
    TailSplits(s, cfg);
    RawConcat(pre, mid, more);
  }

  lemma ChunkOutsideTail(s: Store, cfg: Config, c: Chunk)
    requires c.start + c.length <= TailStart(s, cfg)
    ensures |RawMessages(s.context[c.start..c.start + c.length])| + TailLength(s, cfg) <= |RawMessages(s.context)|
  {
    var end := c.start + c.length;
    Cut(s.context, c.start, end, TailStart(s, cfg));
    RunOutsideTail(s, cfg, s.context[..c.start], s.context[c.start..end], s.context[end..TailStart(s, cfg)]);
  }

  lemma Cut<T>(xs: seq<T>, i: nat, j: nat, k: nat)
    requires i <= j <= k <= |xs|
    ensures xs[..k] == xs[..i] + xs[i..j] + xs[j..k]
  {
  }

  /** A leaf chunk is raw, and only summaries lie before it. */
  lemma LeafChunkItems(s: Store, cfg: Config)
    ensures var c := LeafChunk(s, cfg);
      AllSummaries(s.context[..c.start]) && Raws(s.context[c.start..c.start + c.length])
  {
    var ws, c := LeafWeights(s, cfg), LeafChunk(s, cfg);
    var pre, mid := s.context[..c.start], s.context[c.start..c.start + c.length];
    SelectEligible(ws, cfg.ChunkTokens());
    forall k | 0 <= k < |pre| ensures SummaryAt(pre, k) {
      assert ws[k] == LeafWeight(s, s.context[k]) && ws[k].None?;
    }
    forall k | 0 <= k < |mid| ensures RawAt(mid, k) {
      assert ws[c.start + k] == LeafWeight(s, s.context[c.start + k]) && ws[c.start + k].Some?;
    }
  }

  lemma CondensedChunkItems(s: Store, cfg: Config, depth: nat)
    ensures var c := CondensedChunk(s, cfg, depth);
      var mid := s.context[c.start..c.start + c.length];
      AllAtDepth(s, mid, depth) && AllSummaries(mid)
  {
    var ws, c := CondensedWeights(s, cfg, depth), CondensedChunk(s, cfg, depth);
    var mid := s.context[c.start..c.start + c.length];
    SelectEligible(ws, cfg.ChunkTokens());
    forall k | 0 <= k < |mid| ensures DepthIs(s, mid[k], depth) && SummaryAt(mid, k) {
      assert ws[c.start + k] == CondensedWeight(s, depth, s.context[c.start + k]) && ws[c.start + k].Some?;
    }
  }

  /**
   A leaf pass with any settings and any reply, from any store, protects the same
   messages before and after: its chunk is a prefix of the unprotected messages.
   */
  lemma LeafKeepsTail(s: Store, cfg: Config, reply: Reply)
    ensures FreshTail(LeafPass(s, cfg, reply).store, cfg) == FreshTail(s, cfg)
  {
    var c := LeafChunk(s, cfg);
    if c.length > 0 && Usable(reply) {
      var pre, mid, post := s.context[..c.start], s.context[c.start..c.start + c.length], s.context[c.start + c.length..];
      LeafChunkItems(s, cfg);
      NoRaw(pre);
      ChunkOutsideTail(s, cfg, c);
      CutContext(s, c, s.nextSummary);
      CollapsedTail(s, AddLeaf(s, c, reply.text), cfg, pre, mid, post, s.nextSummary);
    }
  }

  lemma CondensedKeepsTail(s: Store, cfg: Config, hard: bool, reply: Reply)
    ensures FreshTail(CondensedPass(s, cfg, hard, reply).store, cfg) == FreshTail(s, cfg)
  {
    var candidate := Candidate(s, cfg, hard);
    if candidate.Some? && Usable(reply) {
      var c := CondensedChunk(s, cfg, candidate.value);
      var pre, mid, post := s.context[..c.start], s.context[c.start..c.start + c.length], s.context[c.start + c.length..];
      CondensedChunkItems(s, cfg, candidate.value);
      NoRaw(mid);
      ChunkOutsideTail(s, cfg, c);
      CutContext(s, c, s.nextSummary);
      CollapsedTail(s, AddCondensed(s, c, candidate.value, reply.text), cfg, pre, mid, post, s.nextSummary);
    }
  }

  /* ---- Token totals ---- */

  function ItemTokens(s: Store, it: Item): int {
    match it
    case RawItem(m) => if m in s.messages then s.messages[m].stored else 0
    case SummaryItem(id) => if id in s.summaries then s.summaries[id].tokens else 0
  }

  /** What the store reports for the whole context. */
  function ContextTokens(s: Store, items: seq<Item>): int {
    if items == [] then 0 else ContextTokens(s, items[..|items| - 1]) + ItemTokens(s, items[|items| - 1])
  }

  lemma {:induction false} ContextTokensAppend(s: Store, xs: seq<Item>, ys: seq<Item>)
    ensures ContextTokens(s, xs + ys) == ContextTokens(s, xs) + ContextTokens(s, ys)
  {
    if ys == [] {
      assert xs + ys == xs;
    } else {
      assert (xs + ys)[..|xs + ys| - 1] == xs + ys[..|ys| - 1];
      ContextTokensAppend(s, xs, ys[..|ys| - 1]);
    }
  }

  /** No item is the summary `id`. */
  ghost predicate Absent(items: seq<Item>, id: SummaryId) {
    forall k {:trigger SummaryAt(items, k)} :: SummaryAt(items, k) ==> items[k].summary != id
  }

  lemma {:induction false} TokensWithout(s: Store, t: Store, items: seq<Item>, id: SummaryId)
    requires Absent(items, id) && t.messages == s.messages
    requires id in t.summaries && t.summaries == s.summaries[id := t.summaries[id]]
    ensures ContextTokens(t, items) == ContextTokens(s, items)
  {
    if items != [] {
      var last, init := items[|items| - 1], items[..|items| - 1];
      assert last.SummaryItem? ==> SummaryAt(items, |items| - 1);
      forall k | SummaryAt(init, k) ensures init[k].summary != id {
        assert SummaryAt(items, k);
      }
      TokensWithout(s, t, init, id);
    }
  }

  lemma AbsentParts(pre: seq<Item>, mid: seq<Item>, post: seq<Item>, id: SummaryId)
    requires Absent(pre + mid + post, id)
    ensures Absent(pre, id) && Absent(post, id)
  {
    var all := pre + mid + post;
    forall k | SummaryAt(pre, k) ensures pre[k].summary != id {
      assert SummaryAt(all, k);
    }
    forall k | SummaryAt(post, k) ensures post[k].summary != id {
      assert SummaryAt(all, |pre + mid| + k);
    }
  }

  /** How far the counted tokens of messages exceed their stored counts. */
  function Drift(s: Store, ms: seq<MessageId>): nat {
    if ms == [] then 0
    else Drift(s, ms[..|ms| - 1]) + MessageDrift(s, ms[|ms| - 1])
  }

  function MessageDrift(s: Store, m: MessageId): nat {
    if m in s.messages then s.messages[m].Tokens() - s.messages[m].stored else 0
  }

  /** A message drifts exactly when its stored count is not positive, save for an empty one stored as zero. */
  lemma DriftFree(s: Store, m: MessageId)
    requires m in s.messages
    ensures MessageDrift(s, m) == 0 <==>
      s.messages[m].stored > 0 || (s.messages[m].stored == 0 && s.messages[m].content == [])
  {
    EstimatePositive(s.messages[m].content);
  }

  lemma {:induction false} RemovedIsStoredPlusDrift(s: Store, items: seq<Item>)
    requires Raws(items)
    ensures var ms := ChunkMessages(s, items);
      RemovedTokens(s, ms) == ContextTokens(s, items) + Drift(s, ms)
  {
    if items != [] {
      RawsInit(items);
      var rest, m := items[..|items| - 1], items[|items| - 1].message;
      RemovedIsStoredPlusDrift(s, rest);
      if m in s.messages {
        RemovedSnoc(s, ChunkMessages(s, rest), m);
      } else {
        assert ChunkMessages(s, items) == ChunkMessages(s, rest);
      }
    }
  }

  lemma RemovedSnoc(s: Store, ms: seq<MessageId>, m: MessageId)
    ensures RemovedTokens(s, ms + [m]) == RemovedTokens(s, ms) + TokensOf(s, m)
    ensures Drift(s, ms + [m]) == Drift(s, ms) + MessageDrift(s, m)
  {
    assert (ms + [m])[..|ms|] == ms;
  }

  lemma {:induction false} RemovedIsStored(s: Store, items: seq<Item>)
    requires AllSummaries(items)
    requires forall id <- s.summaries :: s.summaries[id].tokens >= 0
    ensures ChildTotals(s, ChunkSummaries(s, items)).removed == ContextTokens(s, items)
  {
    if items != [] {
      SummariesInit(items);
      var rest, id := items[..|items| - 1], items[|items| - 1].summary;
      RemovedIsStored(s, rest);
      if id in s.summaries {
        TotalsSnoc(s, ChunkSummaries(s, rest), id);
      } else {
        assert ChunkSummaries(s, items) == ChunkSummaries(s, rest);
      }
    }
  }

  lemma TotalsSnoc(s: Store, ids: seq<SummaryId>, id: SummaryId)
    requires id in s.summaries && forall x <- ids :: x in s.summaries
    ensures ChildTotals(s, ids + [id]).removed == ChildTotals(s, ids).removed + Max(0, s.summaries[id].tokens)
  {
    assert (ids + [id])[..|ids|] == ids;
  }

  lemma SpliceTokens(s: Store, t: Store, pre: seq<Item>, mid: seq<Item>, post: seq<Item>, id: SummaryId)
    requires s.context == pre + mid + post && t.context == pre + [SummaryItem(id)] + post
    requires id in t.summaries && t.summaries == s.summaries[id := t.summaries[id]]
    requires t.messages == s.messages && Absent(pre + mid + post, id)
    ensures ContextTokens(t, t.context) ==
      ContextTokens(s, s.context) - ContextTokens(s, mid) + t.summaries[id].tokens
  {
    AbsentParts(pre, mid, post, id);
    TokensWithout(s, t, pre, id);
    TokensWithout(s, t, post, id);
    ContextTokensAppend(t, pre, [SummaryItem(id)]);
    ContextTokensAppend(t, pre + [SummaryItem(id)], post);
    ContextTokensAppend(s, pre, mid);
    ContextTokensAppend(s, pre + mid, post);
    assert ContextTokens(t, [SummaryItem(id)]) == t.summaries[id].tokens;
  }
}
