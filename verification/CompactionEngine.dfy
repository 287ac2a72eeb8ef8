/**
 The compaction engine as the program runs it: tables held in fields, loops that
 pick chunks, and the sweep drivers.  Every method is proved against the step
 functions, so the theorems about runs apply to it.
 */
module CompactionEngine {
  import opened Sequences
  import opened TokenEstimate
  import opened ChunkSelection
  import opened SummaryDag
  import opened ContextTable
  import opened CompactionSteps

  lemma RangeIsSplice(rows: seq<Row>, c: Chunk, id: SummaryId)
    requires Contiguous(rows) && 0 < c.length && c.start + c.length <= |rows|
    ensures Ordered(rows)
    ensures Items(Before(rows, c.start)) + [SummaryItem(id)] + Items(After(rows, c.start + c.length - 1)) ==
      Splice(Items(rows), c, id)
  {
    SliceOfContiguous(rows, c.start, c.start + c.length - 1);
  }

  class Engine {
    const config: Config
    var rows: seq<Row>
    var messages: map<MessageId, Message>
    var log: seq<MessageId>
    var summaries: map<SummaryId, Summary>
    var leafLinks: map<SummaryId, seq<MessageId>>
    var childLinks: map<SummaryId, seq<SummaryId>>
    var nextMessage: nat
    var nextSummary: nat

    /** The tables as one value. */
    function View(): (s: Store)
      reads this
      ensures |s.context| == |rows|
    {
      Store(Items(rows), messages, log, summaries, leafLinks, childLinks, nextMessage, nextSummary)
    }

    ghost predicate Valid()
      reads this
    {
      Contiguous(rows) && |rows| <= EMPTY_FRESH_TAIL_ORDINAL
    }

    constructor (config: Config)
      ensures this.config == config && Valid() && View() == EMPTY
    {
      this.config := config;
      rows, messages, log, summaries, leafLinks, childLinks := [], map[], [], map[], map[], map[];
      nextMessage, nextSummary := 0, 0;
    }

    method Append(stored: int, content: Text)
      requires Valid() && |rows| < EMPTY_FRESH_TAIL_ORDINAL
      modifies this
      ensures Valid() && View() == AppendMessage(old(View()), stored, content)
    {
      var id := nextMessage;
      messages := messages[id := Message(|log|, stored, content)];
      log := log + [id];
      rows := rows + [Row(|rows|, RawItem(id))];
      nextMessage := id + 1;
    }

    /* ---- Selection ---- */

    /** `limit` separates exactly the rows that compaction may touch from the fresh tail. */
    ghost predicate MarksTail(limit: int)
      reads this
    {
      forall k :: 0 <= k < |rows| ==> (rows[k].ordinal < limit <==> k < TailStart(View(), config))
    }

    method ResolveFreshTailOrdinal() returns (ordinal: int)
      requires Valid()
      ensures TailLength(View(), config) == 0 ==> ordinal == EMPTY_FRESH_TAIL_ORDINAL
      ensures TailLength(View(), config) > 0 ==> ordinal == TailStart(View(), config)
      ensures MarksTail(ordinal)
    {
      ordinal := EMPTY_FRESH_TAIL_ORDINAL;
      var count, cap := config.freshTailCount, config.TailCap();
      var raw := RawMessages(View().context);
      ghost var s, ws := View(), Weigh(View(), raw);
      if count <= 0 || raw == [] {
        return;
      }
      var protectedCount, protectedTokens := 0, 0;
      assert ws[..|ws|] == ws;
      ghost var length := TailLength(s, config);
      while protectedCount < |raw|
        invariant 0 <= protectedCount <= |raw|
        invariant protectedCount == 0 ==> ordinal == EMPTY_FRESH_TAIL_ORDINAL
        invariant protectedCount > 0 ==> ordinal == NthRaw(s.context, |raw| - protectedCount)
        invariant length == protectedCount + StillProtected(ws, count, cap, protectedCount, protectedTokens)
      {
        ProtectedStep(ws, protectedCount, count, cap, protectedTokens);
        if protectedCount >= count {
          break;
        }
        var next := |raw| - 1 - protectedCount;
        var tokens := TokensOf(View(), raw[next]);
        if protectedCount > 0 && cap.Some? && protectedTokens + tokens > cap.value {
          break;
        }
        ordinal := rows[NthRaw(View().context, next)].ordinal;
        protectedCount, protectedTokens := protectedCount + 1, protectedTokens + tokens;
      }
    }

    method SelectOldestLeafChunk() returns (c: Chunk)
      requires Valid()
      ensures LeafChunk(View(), config).length == c.length
      ensures c.length > 0 ==> c == LeafChunk(View(), config)
    {
      var limit := ResolveFreshTailOrdinal();
      c := TakeLeaves(View(), rows, limit, config.ChunkTokens(), LeafWeights(View(), config));
    }

    method SelectOldestChunkAtDepth(depth: nat, limit: int) returns (c: Chunk, tokens: nat)
      requires Valid() && MarksTail(limit)
      ensures CondensedChunk(View(), config, depth).length == c.length
      ensures c.length > 0 ==> c == CondensedChunk(View(), config, depth) && tokens == ChunkWeight(View(), config, depth)
    {
      c, tokens := TakeSummaries(View(), rows, depth, limit, config.ChunkTokens(), CondensedWeights(View(), config, depth));
    }

    /** The distinct depths below the fresh tail, in ascending order. */
    method DistinctDepths(limit: int) returns (depths: seq<nat>)
      requires Valid() && MarksTail(limit)
      ensures Ascending(depths)
      ensures forall d: nat {:trigger d in depths} {:trigger Occurs(View(), config, d)} :: d in depths <==> Occurs(View(), config, d)
    {
      depths := [];
      var bound := DepthBound(View(), View().context);
      for d := 0 to bound
        invariant AscendingBelow(depths, d) && Covers(View(), config, depths, d)
      {
        var present := HasDepth(d, limit);
        AscendSnoc(depths, d);
        if present {
          CoversListed(View(), config, depths, d);
          depths := depths + [d];
        } else {
          CoversUnlisted(View(), config, depths, d);
        }
      }
      CoversAll(View(), config, depths);
    }

    method HasDepth(depth: nat, limit: int) returns (present: bool)
      requires Valid() && MarksTail(limit)
      ensures present <==> Occurs(View(), config, depth)
    {
      present := exists i :: 0 <= i < |rows| && rows[i].ordinal < limit && CondensedWeight(View(), depth, View().context[i]).Some?;
    }

    method SelectShallowestCandidate(hard: bool) returns (candidate: Option<nat>, c: Chunk)
      requires Valid()
      ensures candidate == Candidate(View(), config, hard)
      ensures candidate.Some? ==> c == CondensedChunk(View(), config, candidate.value)
    {
      var limit := ResolveFreshTailOrdinal();
      var floor := config.MinCondensedTokens();
      var depths := DistinctDepths(limit);
      candidate, c := None, Chunk(0, 0);
      var i := 0;
      while i < |depths|
        invariant 0 <= i <= |depths|
        invariant forall j :: 0 <= j < i ==> !Eligible(View(), config, hard, depths[j])
      {
        var fanout := config.Fanout(depths[i], hard);
        var chunk, tokens := SelectOldestChunkAtDepth(depths[i], limit);
        if chunk.length >= fanout && tokens >= floor {
          ShallowestOf(View(), config, hard, depths, i);
          return Some(depths[i]), chunk;
        }
        i := i + 1;
      }
      NoneOf(View(), config, hard, depths);
    }

    /* ---- Store writes ---- */

    method ReplaceContextRange(c: Chunk, id: SummaryId)
      requires Valid() && 0 < c.length && c.start + c.length <= |rows|
      modifies this`rows
      ensures Valid() && Items(rows) == Splice(old(Items(rows)), c, id)
    {
      RangeIsSplice(rows, c, id);
      rows := ReplaceRange(rows, c.start, c.start + c.length - 1, id);
    }

    /** Insert the leaf row, link it to its messages, then swap the range. */
    method PersistLeaf(c: Chunk, row: Summary, ids: seq<MessageId>)
      requires Valid() && 0 < c.length && c.start + c.length <= |rows|
      modifies this
      ensures Valid()
      ensures View() == WriteLeaf(old(View()), c, row, ids)
    {
      var id := nextSummary;
      summaries := summaries[id := row];
      if ids != [] {
        leafLinks := leafLinks[id := ids];
      }
      ReplaceContextRange(c, id);
      nextSummary := id + 1;
    }

    /** Insert the condensed row, link it to its children, then swap the range. */
    method PersistCondensed(c: Chunk, row: Summary, ids: seq<SummaryId>)
      requires Valid() && 0 < c.length && c.start + c.length <= |rows|
      modifies this
      ensures Valid()
      ensures View() == WriteCondensed(old(View()), c, row, ids)
    {
      var id := nextSummary;
      summaries := summaries[id := row];
      if ids != [] {
        childLinks := childLinks[id := ids];
      }
      ReplaceContextRange(c, id);
      nextSummary := id + 1;
    }

    method FoldChunk(c: Chunk, text: Text) returns (outcome: Outcome)
      requires Valid() && 0 < c.length && c.start + c.length <= |rows|
      modifies this
      ensures Valid() && Pass(View(), outcome) == MakeLeaf(old(View()), c, text)
    {
      var id := nextSummary;
      var ids, removed := FetchMessages(View(), Items(rows)[c.start..c.start + c.length]);
      var added := EstimateTokens(text);
      PersistLeaf(c, Summary(Leaf, 0, text, added, 0, 0, removed), ids);
      outcome := Made(id, removed, added);
    }

    method CondenseChunk(c: Chunk, depth: nat, text: Text) returns (outcome: Outcome)
      requires Valid() && 0 < c.length && c.start + c.length <= |rows|
      modifies this
      ensures Valid() && Pass(View(), outcome) == MakeCondensed(old(View()), c, depth, text)
    {
      var id := nextSummary;
      var ids, sums := FetchSummaries(View(), Items(rows)[c.start..c.start + c.length]);
      var added := EstimateTokens(text);
      PersistCondensed(c, Summary(Condensed, depth + 1, text, added,
                                  sums.count, sums.descendantTokens, sums.sourceTokens), ids);
      outcome := Made(id, sums.removed, added);
    }

    method RunLeafPass(reply: Reply) returns (outcome: Outcome)
      requires Valid()
      modifies this
      ensures Valid() && Pass(View(), outcome) == LeafPass(old(View()), config, reply)
      ensures outcome.NoSummary? ==> View() == old(View())
    {
      var c := SelectOldestLeafChunk();
      if c.length == 0 || !Usable(reply) {
        LeafSkips(View(), config, reply);
        return NoSummary(c.length > 0 && reply.AuthFailure?);
      }
      LeafMakes(View(), config, reply);
      outcome := FoldChunk(c, reply.text);
    }

    method RunCondensedPass(hard: bool, reply: Reply) returns (outcome: Outcome)
      requires Valid()
      modifies this
      ensures Valid() && Pass(View(), outcome) == CondensedPass(old(View()), config, hard, reply)
      ensures outcome.NoSummary? ==> View() == old(View())
    {
      var candidate, c := SelectShallowestCandidate(hard);
      if candidate.None? || !Usable(reply) {
        CondensedSkips(View(), config, hard, reply);
        return NoSummary(candidate.Some? && reply.AuthFailure?);
      }
      CondensedMakes(View(), config, hard, reply);
      outcome := CondenseChunk(c, candidate.value, reply.text);
    }
  }

  lemma ShallowestOf(s: Store, cfg: Config, hard: bool, depths: seq<nat>, i: nat)
    requires i < |depths| && Ascending(depths) && Eligible(s, cfg, hard, depths[i])
    requires forall d: nat {:trigger d in depths} {:trigger Occurs(s, cfg, d)} :: d in depths <==> Occurs(s, cfg, d)
    requires forall j :: 0 <= j < i ==> !Eligible(s, cfg, hard, depths[j])
    ensures Candidate(s, cfg, hard) == Some(depths[i])
  {
    CandidateMeaning(s, cfg, hard, depths[i]);
    EligibleOccurs(s, cfg, hard, Candidate(s, cfg, hard).value);
  }

  lemma NoneOf(s: Store, cfg: Config, hard: bool, depths: seq<nat>)
    requires forall d: nat {:trigger d in depths} {:trigger Occurs(s, cfg, d)} :: d in depths <==> Occurs(s, cfg, d)
    requires forall j :: 0 <= j < |depths| ==> !Eligible(s, cfg, hard, depths[j])
    ensures Candidate(s, cfg, hard) == None
  {
    if Candidate(s, cfg, hard).Some? {
      EligibleOccurs(s, cfg, hard, Candidate(s, cfg, hard).value);
    }
  }

  lemma EligibleOccurs(s: Store, cfg: Config, hard: bool, d: nat)
    requires Eligible(s, cfg, hard, d)
    ensures Occurs(s, cfg, d)
  {
    var c := CondensedChunk(s, cfg, d);
    assert CondensedWeights(s, cfg, d)[c.start].Some?;
    assert CondensedWeight(s, d, s.context[c.start]).Some?;
  }

  /** The rows behind a chunk of raw items, and their tokens. */
  method FetchMessages(s: Store, items: seq<Item>) returns (ids: seq<MessageId>, removed: nat)
    ensures ids == ChunkMessages(s, items) && removed == RemovedTokens(s, ids)
  {
    ids, removed := [], 0;
    for i := 0 to |items|
      invariant ids == ChunkMessages(s, items[..i]) && removed == RemovedTokens(s, ids)
    {
      assert items[..i + 1][..i] == items[..i];
      if items[i].RawItem? && items[i].message in s.messages {
        assert (ids + [items[i].message])[..|ids|] == ids;
        ids, removed := ids + [items[i].message], removed + TokensOf(s, items[i].message);
      }
    }
    assert items[..|items|] == items;
  }

  /** The rows behind a chunk of summaries, and the counters they add up to. */
  method FetchSummaries(s: Store, items: seq<Item>) returns (ids: seq<SummaryId>, sums: Totals)
    ensures ids == ChunkSummaries(s, items) && sums == ChildTotals(s, ids)
  {
    ids, sums := [], Totals(0, 0, 0, 0);
    for i := 0 to |items|
      invariant ids == ChunkSummaries(s, items[..i]) && sums == ChildTotals(s, ids)
    {
      assert items[..i + 1][..i] == items[..i];
      if items[i].SummaryItem? && items[i].summary in s.summaries {
        var row := s.summaries[items[i].summary];
        assert (ids + [items[i].summary])[..|ids|] == ids;
        ids := ids + [items[i].summary];
        sums := Totals(sums.count + Max(0, row.descendantCount) + 1,
                       sums.descendantTokens + Max(0, row.descendantTokens) + Max(0, row.tokens),
                       sums.sourceTokens + Max(0, row.sourceTokens),
                       sums.removed + Max(0, row.tokens));
      }
    }
    assert items[..|items|] == items;
  }

  ghost predicate Ascending(xs: seq<nat>) {
    forall i, j :: 0 <= i < j < |xs| ==> xs[i] < xs[j]
  }

  ghost predicate AscendingBelow(depths: seq<nat>, d: nat) {
    Ascending(depths) && forall i :: 0 <= i < |depths| ==> depths[i] < d
  }

  lemma AscendSnoc(depths: seq<nat>, d: nat)
    requires AscendingBelow(depths, d)
    ensures AscendingBelow(depths + [d], d + 1) && AscendingBelow(depths, d + 1)
  {
  }

  /** Some summary of the depth stands before the fresh tail. */
  ghost predicate Occurs(s: Store, cfg: Config, depth: nat) {
    exists i :: 0 <= i < TailStart(s, cfg) && CondensedWeight(s, depth, s.context[i]).Some?
  }

  /** The list holds just the depths under the bound that occur. */
  ghost predicate Covers(s: Store, cfg: Config, depths: seq<nat>, bound: nat) {
    forall d: nat {:trigger d in depths} {:trigger Occurs(s, cfg, d)} :: d in depths <==> d < bound && Occurs(s, cfg, d)
  }

  lemma CoversListed(s: Store, cfg: Config, depths: seq<nat>, d: nat)
    requires Covers(s, cfg, depths, d) && Occurs(s, cfg, d)
    ensures Covers(s, cfg, depths + [d], d + 1)
  {
    forall e: nat ensures e in depths + [d] <==> e < d + 1 && Occurs(s, cfg, e) {
      assert e in depths <==> e < d && Occurs(s, cfg, e);
    }
  }

  lemma CoversUnlisted(s: Store, cfg: Config, depths: seq<nat>, d: nat)
    requires Covers(s, cfg, depths, d) && !Occurs(s, cfg, d)
    ensures Covers(s, cfg, depths, d + 1)
  {
    forall e: nat ensures e in depths <==> e < d + 1 && Occurs(s, cfg, e) {
      assert e in depths <==> e < d && Occurs(s, cfg, e);
    }
  }

  lemma CoversAll(s: Store, cfg: Config, depths: seq<nat>)
    requires Covers(s, cfg, depths, DepthBound(s, s.context))
    ensures forall d: nat {:trigger d in depths} {:trigger Occurs(s, cfg, d)} :: d in depths <==> Occurs(s, cfg, d)
  {
    forall d: nat ensures d in depths <==> Occurs(s, cfg, d) {
      assert d in depths <==> d < DepthBound(s, s.context) && Occurs(s, cfg, d);
      if Occurs(s, cfg, d) {
        OccursBelow(s, cfg, d);
      }
    }
  }

  lemma OccursBelow(s: Store, cfg: Config, d: nat)
    requires Occurs(s, cfg, d)
    ensures d < DepthBound(s, s.context)
  {
    var i :| 0 <= i < TailStart(s, cfg) && CondensedWeight(s, d, s.context[i]).Some?;
    BelowDepthBound(s, s.context, i);
  }

  /** The chunk walk over raw messages. */
  method TakeLeaves(s: Store, rows: seq<Row>, limit: int, cap: nat, ghost ws: Weights) returns (c: Chunk)
    requires |ws| <= |rows| == |s.context|
    requires forall k :: 0 <= k < |rows| ==> (rows[k].ordinal < limit <==> k < |ws|)
    requires forall k :: 0 <= k < |ws| ==> ws[k] == LeafWeight(s, s.context[k])
    ensures c.length == Select(ws, cap).length
    ensures c.length > 0 ==> c == Select(ws, cap)
  {
    var started, start, taken, i := false, 0, 0, 0;
    var total: nat := 0;
    while i < |rows| && rows[i].ordinal < limit
      invariant 0 <= i <= |ws|
      invariant !started ==> taken == total == 0 && Skipping(ws, i)
      invariant started ==> i == start + taken && 0 < taken && Walking(ws, cap, start, taken, total)
    {
      var item := s.context[i];
      if item.SummaryItem? {
        if started {
          break;
        }
        i := i + 1;
        continue;
      }
      if !started {
        WalkStart(ws, cap, i);
        started, start := true, i;
      }
      var tokens := TokensOf(s, item.message);
      if taken > 0 && total + tokens > cap {
        break;
      }
      WalkTake(ws, cap, start, taken, total);
      taken, total, i := taken + 1, total + tokens, i + 1;
      if total >= cap {
        return Chunk(start, taken);
      }
    }
    if started {
      WalkEnd(ws, cap, start, taken, total);
    } else {
      WalkNothing(ws, cap);
    }
    c := Chunk(start, taken);
  }

  /** The chunk walk over summaries of one depth. */
  method TakeSummaries(s: Store, rows: seq<Row>, depth: nat, limit: int, cap: nat, ghost ws: Weights)
      returns (c: Chunk, tokens: nat)
    requires |ws| <= |rows| == |s.context|
    requires forall k :: 0 <= k < |rows| ==> (rows[k].ordinal < limit <==> k < |ws|)
    requires forall k :: 0 <= k < |ws| ==> ws[k] == CondensedWeight(s, depth, s.context[k])
    ensures c.length == Select(ws, cap).length
    ensures c.length > 0 ==> c == Select(ws, cap) && tokens == ChunkTotal(ws, c)
  {
    var start, taken, i := 0, 0, 0;
    tokens := 0;
    while i < |rows| && rows[i].ordinal < limit
      invariant 0 <= i <= |ws|
      invariant taken == 0 ==> tokens == 0 && Skipping(ws, i)
      invariant taken > 0 ==> i == start + taken && Walking(ws, cap, start, taken, tokens)
    {
      var weight := CondensedWeight(s, depth, s.context[i]);
      if weight.None? {
        if taken > 0 {
          break;
        }
        i := i + 1;
        continue;
      }
      if taken > 0 && tokens + weight.value > cap {
        break;
      }
      if taken == 0 {
        WalkStart(ws, cap, i);
        start := i;
      }
      WalkTake(ws, cap, start, taken, tokens);
      taken, tokens, i := taken + 1, tokens + weight.value, i + 1;
      if tokens >= cap {
        return Chunk(start, taken), tokens;
      }
    }
    if taken > 0 {
      WalkEnd(ws, cap, start, taken, tokens);
    } else {
      WalkNothing(ws, cap);
    }
    c := Chunk(start, taken);
  }
}
