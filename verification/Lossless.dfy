/**
 What every run of the compaction state machine keeps: the expanded context is the
 whole chronicle, every summary stands in it exactly once, counters are exact, and
 summaries of falling depth precede the raw messages.
 */
module Lossless {
  import opened Sequences
  import opened TokenEstimate
  import opened ChunkSelection
  import opened SummaryDag
  import opened CompactionSteps

  /* ---- The invariant ---- */

  ghost predicate Logged(s: Store, m: MessageId)
    requires m in s.messages
  {
    var q := s.messages[m].seqNo;
    q < |s.log| && s.log[q] == m
  }

  ghost predicate SeqNumbered(s: Store, i: nat)
    requires i < |s.log|
  {
    s.log[i] in s.messages && s.messages[s.log[i]].seqNo == i
  }

  /** New ids are fresh, and the log lists every message once, by sequence number. */
  ghost predicate Bookkept(s: Store) {
    && (forall id <- s.summaries :: id < s.nextSummary)
    && (forall m <- s.messages :: m < s.nextMessage)
    && (forall m <- s.messages {:trigger Logged(s, m)} :: Logged(s, m))
    && (forall i :: 0 <= i < |s.log| ==> SeqNumbered(s, i))
  }

  ghost predicate RowSound(s: Store, id: SummaryId)
    requires Dag(s) && id in s.summaries
  {
    CountersExact(s, id) && s.summaries[id].tokens == Estimate(s.summaries[id].content) >= 1
  }

  ghost predicate AllSound(s: Store)
    requires Dag(s)
  {
    forall id <- s.summaries {:trigger RowSound(s, id)} :: RowSound(s, id)
  }

  ghost function DepthAt(s: Store, items: seq<Item>, i: nat): nat
    requires Resolves(s, items) && i < |items|
  {
    assert ItemResolves(s, items[i]);
    if items[i].SummaryItem? then s.summaries[items[i].summary].depth else 0
  }

  /** A raw message is followed by raw messages only; a summary by summaries no deeper or raw messages. */
  ghost predicate InOrder(s: Store, items: seq<Item>, i: nat, j: nat)
    requires Resolves(s, items) && i < j < |items|
  {
    items[j].SummaryItem? ==> items[i].SummaryItem? && DepthAt(s, items, j) <= DepthAt(s, items, i)
  }

  /** Summaries first, with depths that never rise, then raw messages. */
  ghost predicate Shaped(s: Store, items: seq<Item>)
    requires Resolves(s, items)
  {
    forall i, j {:trigger InOrder(s, items, i, j)} :: 0 <= i < j < |items| ==> InOrder(s, items, i, j)
  }

  ghost predicate Grounded(s: Store) {
    Dag(s) && Resolves(s, s.context)
  }

  /** Drilling down every item of the context gives back the chronicle. */
  ghost predicate IsLossless(s: Store)
    requires Grounded(s)
  {
    Messages(Roots(s, s.context)) == s.log
  }

  /** The summary is met once when the context is drilled down if it is stored, else never. */
  ghost predicate MetOnce(s: Store, id: SummaryId)
    requires Grounded(s)
  {
    multiset(Summaries(Roots(s, s.context)))[id] == if id in s.summaries then 1 else 0
  }

  /** Every stored summary is met exactly once when the context is drilled down. */
  ghost predicate IsComplete(s: Store)
    requires Grounded(s)
  {
    forall id {:trigger MetOnce(s, id)} :: MetOnce(s, id)
  }

  ghost predicate Inv(s: Store) {
    && Grounded(s)
    && Bookkept(s)
    && IsLossless(s)
    && IsComplete(s)
    && AllSound(s)
    && Shaped(s, s.context)
  }

  /* ---- Replacing a run of items by one summary ---- */

  /** The forest of a concatenation, as messages and as summaries. */
  lemma RootsConcat(s: Store, a: seq<Item>, b: seq<Item>, c: seq<Item>)
    requires Dag(s) && Resolves(s, a) && Resolves(s, b) && Resolves(s, c)
    ensures Resolves(s, a + b + c)
    ensures Messages(Roots(s, a + b + c)) == Messages(Roots(s, a)) + Messages(Roots(s, b)) + Messages(Roots(s, c))
    ensures Summaries(Roots(s, a + b + c)) == Summaries(Roots(s, a)) + Summaries(Roots(s, b)) + Summaries(Roots(s, c))
  {
    RootsAppend(s, a, b);
    RootsAppend(s, a + b, c);
    ForestAppend(Roots(s, a), Roots(s, b));
    ForestAppend(Roots(s, a) + Roots(s, b), Roots(s, c));
  }

  lemma RootsAppend(s: Store, xs: seq<Item>, ys: seq<Item>)
    requires Dag(s) && Resolves(s, xs) && Resolves(s, ys)
    ensures Resolves(s, xs + ys) && Roots(s, xs + ys) == Roots(s, xs) + Roots(s, ys)
  {
  }

  lemma SingleRoot(s: Store, id: SummaryId)
    requires Dag(s) && id in s.summaries
    ensures Resolves(s, [SummaryItem(id)]) && Roots(s, [SummaryItem(id)]) == [Tree(s, id)]
    ensures Messages(Roots(s, [SummaryItem(id)])) == TreeMessages(Tree(s, id))
    ensures Summaries(Roots(s, [SummaryItem(id)])) == TreeSummaries(Tree(s, id))
  {
    assert Roots(s, [SummaryItem(id)]) == [Tree(s, id)];
    assert [Tree(s, id)][1..] == [];
  }

  lemma InsertedOnce(a: seq<SummaryId>, b: seq<SummaryId>, c: seq<SummaryId>, id: SummaryId)
    ensures multiset(a + ([id] + b) + c) == multiset(a + b + c) + multiset{id}
  {
  }

  /** Replacing `mid` by a summary whose tree holds just what `mid` held. */
  lemma ReplaceRun(s: Store, t: Store, pre: seq<Item>, mid: seq<Item>, post: seq<Item>, id: SummaryId)
    requires Dag(s) && Dag(t) && Extends(s, t) && id in t.summaries
    requires Resolves(s, pre) && Resolves(s, mid) && Resolves(s, post)
    requires TreeMessages(Tree(t, id)) == Messages(Roots(s, mid))
    requires TreeSummaries(Tree(t, id)) == [id] + Summaries(Roots(s, mid))
    ensures Resolves(s, pre + mid + post) && Resolves(t, pre + [SummaryItem(id)] + post)
    ensures Messages(Roots(t, pre + [SummaryItem(id)] + post)) == Messages(Roots(s, pre + mid + post))
    ensures multiset(Summaries(Roots(t, pre + [SummaryItem(id)] + post))) ==
      multiset(Summaries(Roots(s, pre + mid + post))) + multiset{id}
  {
    RootsConcat(s, pre, mid, post);
    RootsFrame(s, t, pre);
    RootsFrame(s, t, post);
    SingleRoot(t, id);
    RootsConcat(t, pre, [SummaryItem(id)], post);
    InsertedOnce(Summaries(Roots(s, pre)), Summaries(Roots(s, mid)), Summaries(Roots(s, post)), id);
  }

  /** The new summary stands for exactly the items `mid`. */
  ghost predicate StandsFor(s: Store, t: Store, mid: seq<Item>, id: SummaryId)
    requires Dag(s) && Dag(t) && Resolves(s, mid)
  {
    && id in t.summaries && id !in s.summaries
    && t.summaries == s.summaries[id := t.summaries[id]]
    && Extends(s, t)
    && TreeMessages(Tree(t, id)) == Messages(Roots(s, mid))
    && TreeSummaries(Tree(t, id)) == [id] + Summaries(Roots(s, mid))
  }

  /** The expanded context is unchanged, and the new summary is met once. */
  lemma Collapse(s: Store, t: Store, pre: seq<Item>, mid: seq<Item>, post: seq<Item>, id: SummaryId)
    requires Dag(s) && Dag(t) && Resolves(s, pre) && Resolves(s, mid) && Resolves(s, post)
    requires StandsFor(s, t, mid, id)
    requires s.context == pre + mid + post && t.context == pre + [SummaryItem(id)] + post && t.log == s.log
    ensures Grounded(s) && Grounded(t)
    ensures IsLossless(s) ==> IsLossless(t)
    ensures IsComplete(s) ==> IsComplete(t)
  {
    ReplaceRun(s, t, pre, mid, post, id);
    if IsComplete(s) {
      forall x ensures MetOnce(t, x) {
        assert MetOnce(s, x);
      }
    }
  }

  lemma CutAround(s: Store, c: Chunk, id: SummaryId)
    requires c.start + c.length <= |s.context| && Resolves(s, s.context)
    ensures var pre, mid, post := s.context[..c.start], s.context[c.start..c.start + c.length], s.context[c.start + c.length..];
      && s.context == pre + mid + post && Splice(s.context, c, id) == pre + [SummaryItem(id)] + post
      && Resolves(s, pre) && Resolves(s, mid) && Resolves(s, post)
  {
  }

  lemma BookkeptFrame(s: Store, t: Store)
    requires Bookkept(s) && t.summaries.Keys == s.summaries.Keys + {s.nextSummary} && t.nextSummary == s.nextSummary + 1
    requires t.messages == s.messages && t.log == s.log && t.nextMessage == s.nextMessage
    ensures Bookkept(t)
  {
    forall m <- t.messages ensures Logged(t, m) {
      assert Logged(s, m);
    }
    forall i | 0 <= i < |t.log| ensures SeqNumbered(t, i) {
      assert SeqNumbered(s, i);
    }
  }

  /** A row's counters survive any step that only adds rows. */
  lemma RowFrame(s: Store, t: Store, id: SummaryId)
    requires Dag(s) && Dag(t) && Extends(s, t) && id in s.summaries && RowSound(s, id)
    ensures RowSound(t, id)
  {
    TreeFrame(s, t, id);
    TreeClosed(s, id);
    TokensFrame(s, t, TreeSummaries(Tree(s, id)), TreeMessages(Tree(s, id)));
  }

  lemma LinkFrame(s: Store, t: Store, id: SummaryId)
    requires Extends(s, t) && id in s.summaries && WellLinked(s, id)
    ensures WellLinked(t, id)
  {
  }

  /** Adding one well-linked row keeps the lineage well-linked. */
  lemma InsertKeepsDag(s: Store, t: Store, id: SummaryId)
    requires Dag(s) && Extends(s, t) && t.summaries.Keys == s.summaries.Keys + {id}
    requires id in t.summaries && WellLinked(t, id)
    ensures Dag(t)
  {
    forall x <- t.summaries ensures WellLinked(t, x) {
      if x != id {
        LinkFrame(s, t, x);
      }
    }
  }

  /* ---- The leaf pass ---- */

  lemma {:induction false} RawChunk(s: Store, items: seq<Item>)
    requires Raws(items) && Resolves(s, items)
    ensures ChunkMessages(s, items) == seq(|items|, i requires 0 <= i < |items| => assert RawAt(items, i); items[i].message)
  {
    if items != [] {
      var last := |items| - 1;
      assert RawAt(items, last) && ItemResolves(s, items[last]);
      forall k | 0 <= k < last ensures RawAt(items[..last], k) && ItemResolves(s, items[..last][k]) {
        assert RawAt(items, k) && ItemResolves(s, items[k]);
      }
      RawChunk(s, items[..last]);
    }
  }

  lemma {:induction false} ChunkMessagesExist(s: Store, items: seq<Item>)
    ensures forall m <- ChunkMessages(s, items) :: m in s.messages
  {
    if items != [] {
      ChunkMessagesExist(s, items[..|items| - 1]);
    }
  }

  lemma RawRoots(s: Store, items: seq<Item>)
    requires Dag(s) && Raws(items) && Resolves(s, items)
    ensures Messages(Roots(s, items)) == ChunkMessages(s, items)
    ensures |ChunkMessages(s, items)| == |items|
    ensures Summaries(Roots(s, items)) == []
  {
    RawChunk(s, items);
    var ms := ChunkMessages(s, items);
    RawForest(ms);
    forall i | 0 <= i < |items| ensures items[i] == RawItem(ms[i]) {
      assert RawAt(items, i);
    }
    assert Roots(s, items) == seq(|ms|, i requires 0 <= i < |ms| => MessageNode(ms[i]));
  }

  lemma {:induction false} RemovedIsMessageTokens(s: Store, ms: seq<MessageId>)
    requires forall m <- ms :: m in s.messages
    ensures RemovedTokens(s, ms) == MessageTokens(s, ms)
  {
    if ms != [] {
      var last := ms[|ms| - 1];
      RemovedIsMessageTokens(s, ms[..|ms| - 1]);
      MessageTokensAppend(s, ms[..|ms| - 1], [last]);
      assert ms == ms[..|ms| - 1] + [last];
    }
  }

  lemma LeafInserted(s: Store, t: Store, id: SummaryId, row: Summary, ms: seq<MessageId>)
    requires Dag(s) && id !in s.summaries
    requires row.kind == Leaf && row.depth == 0 && ms != [] && forall m <- ms :: m in s.messages
    requires t.summaries == s.summaries[id := row] && t.leafLinks == s.leafLinks[id := ms]
    requires t.childLinks == s.childLinks && t.messages == s.messages
    ensures Extends(s, t) && Dag(t) && Tree(t, id) == LeafNode(id, ms)
  {
    assert WellLinked(t, id);
    InsertKeepsDag(s, t, id);
  }

  lemma LeafRowSound(s: Store, t: Store, id: SummaryId, ms: seq<MessageId>, text: Text)
    requires Dag(t) && Extends(s, t)
    requires (forall m <- ms :: m in s.messages) && text != []
    requires id in t.summaries && t.summaries[id] == LeafRow(s, text, ms)
    requires Tree(t, id) == LeafNode(id, ms)
    ensures RowSound(t, id)
  {
    RemovedIsMessageTokens(s, ms);
    TokensFrame(s, t, [], ms);
    EstimatePositive(text);
    assert [id][1..] == [];
  }

  /* ---- The condensed pass ---- */

  lemma DepthsResolve(s: Store, items: seq<Item>, depth: nat)
    requires AllAtDepth(s, items, depth)
    ensures Resolves(s, items)
  {
    forall i | 0 <= i < |items| ensures ItemResolves(s, items[i]) {
      assert DepthIs(s, items[i], depth);
    }
  }

  lemma {:induction false} SummaryChunk(s: Store, items: seq<Item>, depth: nat)
    requires AllAtDepth(s, items, depth)
    ensures |ChunkSummaries(s, items)| == |items|
    ensures forall i :: 0 <= i < |items| ==> items[i] == SummaryItem(ChunkSummaries(s, items)[i])
  {
    if items != [] {
      var last := |items| - 1;
      assert DepthIs(s, items[last], depth);
      AllButLast(s, items, depth);
      SummaryChunk(s, items[..last], depth);
    }
  }

  lemma AllButLast(s: Store, items: seq<Item>, depth: nat)
    requires AllAtDepth(s, items, depth) && items != []
    ensures AllAtDepth(s, items[..|items| - 1], depth)
  {
    var init := items[..|items| - 1];
    forall k | 0 <= k < |init| ensures DepthIs(s, init[k], depth) {
      assert DepthIs(s, items[k], depth);
    }
  }

  lemma CondensedInserted(s: Store, t: Store, id: SummaryId, row: Summary, items: seq<Item>, ids: seq<SummaryId>)
    requires Dag(s) && id !in s.summaries
    requires row.kind == Condensed && row.depth > 0 && AllAtDepth(s, items, row.depth - 1) && items != []
    requires |ids| == |items| && forall i :: 0 <= i < |items| ==> items[i] == SummaryItem(ids[i])
    requires t.summaries == s.summaries[id := row] && t.childLinks == s.childLinks[id := ids]
    requires t.leafLinks == s.leafLinks && t.messages == s.messages
    ensures Extends(s, t) && Dag(t) && Resolves(s, items) && Tree(t, id) == CondensedNode(id, Roots(s, items))
  {
    forall i | 0 <= i < |ids|
      ensures ids[i] in t.summaries && t.summaries[id].depth == t.summaries[ids[i]].depth + 1
    {
      assert DepthIs(s, items[i], row.depth - 1);
    }
    assert WellLinked(t, id);
    InsertKeepsDag(s, t, id);
    DepthsResolve(s, items, row.depth - 1);
    RootsFrame(s, t, items);
    assert Tree(t, id).children == Roots(t, items);
  }

  /** Adding up the children's stored counters counts the whole forest below them. */
  lemma {:induction false} TotalsExact(s: Store, items: seq<Item>, depth: nat)
    requires Dag(s) && AllAtDepth(s, items, depth)
    requires AllSound(s)
    ensures Resolves(s, items)
    ensures var sums := ChildTotals(s, ChunkSummaries(s, items));
      && sums.count == |Summaries(Roots(s, items))|
      && sums.descendantTokens == SummaryTokens(s, Summaries(Roots(s, items)))
      && sums.sourceTokens == MessageTokens(s, Messages(Roots(s, items)))
  {
    DepthsResolve(s, items, depth);
    if items != [] {
      var rest, last := items[..|items| - 1], items[|items| - 1];
      assert DepthIs(s, last, depth);
      AllButLast(s, items, depth);
      TotalsExact(s, rest, depth);
      TotalsStep(s, ChunkSummaries(s, rest), rest, last.summary);
      Snoc(items);
    }
  }

  lemma TotalsStep(s: Store, ids: seq<SummaryId>, rest: seq<Item>, id: SummaryId)
    requires Dag(s) && Resolves(s, rest) && id in s.summaries && forall x <- ids :: x in s.summaries
    requires AllSound(s)
    ensures Resolves(s, rest + [SummaryItem(id)])
    ensures var before, after := ChildTotals(s, ids), ChildTotals(s, ids + [id]);
      var ns, ns' := Roots(s, rest), Roots(s, rest + [SummaryItem(id)]);
      && after.count - before.count == |Summaries(ns')| - |Summaries(ns)|
      && after.descendantTokens - before.descendantTokens == SummaryTokens(s, Summaries(ns')) - SummaryTokens(s, Summaries(ns))
      && after.sourceTokens - before.sourceTokens == MessageTokens(s, Messages(ns')) - MessageTokens(s, Messages(ns))
  {
    var node, ns := Tree(s, id), Roots(s, rest);
    assert (ids + [id])[..|ids|] == ids;
    SingleRoot(s, id);
    RootsAppend(s, rest, [SummaryItem(id)]);
    ForestAppend(ns, [node]);
    SummaryTokensAppend(s, Summaries(ns), TreeSummaries(node));
    MessageTokensAppend(s, Messages(ns), TreeMessages(node));
    RowNonNegative(s, id);
  }

  lemma RowNonNegative(s: Store, id: SummaryId)
    requires Dag(s) && id in s.summaries
    requires AllSound(s)
    ensures var row := s.summaries[id];
      && row.descendantCount >= 0 && row.descendantTokens >= 0 && row.sourceTokens >= 0 && row.tokens >= 1
      && CountersExact(s, id)
  {
    assert RowSound(s, id);
    var ids := TreeSummaries(Tree(s, id));
    assert ids[0] == id;
    NonNegativeTokens(s, ids[1..], TreeMessages(Tree(s, id)));
  }

  lemma {:induction false} NonNegativeTokens(s: Store, ids: seq<SummaryId>, ms: seq<MessageId>)
    requires Dag(s) && AllSound(s)
    ensures SummaryTokens(s, ids) >= 0 && MessageTokens(s, ms) >= 0
    decreases |ids| + |ms|
  {
    if ids != [] {
      assert ids[0] in s.summaries ==> RowSound(s, ids[0]);
      NonNegativeTokens(s, ids[1..], ms);
    } else if ms != [] {
      NonNegativeTokens(s, ids, ms[1..]);
    }
  }

  lemma CondensedRowSound(s: Store, t: Store, id: SummaryId, items: seq<Item>, depth: nat, text: Text)
    requires Dag(s) && Dag(t) && Extends(s, t) && AllAtDepth(s, items, depth) && Resolves(s, items)
    requires AllSound(s) && text != []
    requires id in t.summaries && t.summaries[id] == CondensedRow(depth, text, ChildTotals(s, ChunkSummaries(s, items)))
    requires Tree(t, id) == CondensedNode(id, Roots(s, items))
    ensures RowSound(t, id)
  {
    TotalsExact(s, items, depth);
    EstimatePositive(text);
    RootsClosed(s, items);
    var ids, ms := Summaries(Roots(s, items)), Messages(Roots(s, items));
    TokensFrame(s, t, ids, ms);
    assert ([id] + ids)[1..] == ids;
  }

  /* ---- Both passes keep everything but the shape ---- */

  ghost predicate Core(s: Store) {
    Grounded(s) && Bookkept(s) && IsLossless(s) && IsComplete(s) && AllSound(s)
  }

  /** The new row is sound and stands for `items`. */
  ghost predicate GoodRow(s: Store, t: Store, items: seq<Item>, id: SummaryId) {
    Dag(s) && Dag(t) && Resolves(s, items) && StandsFor(s, t, items, id) && RowSound(t, id)
  }

  /** `t` is `s` with one good row that replaced its chunk. */
  ghost predicate OneRowMore(s: Store, t: Store, c: Chunk, id: SummaryId) {
    && c.start + c.length <= |s.context| && id == s.nextSummary
    && GoodRow(s, t, s.context[c.start..c.start + c.length], id)
    && t.context == Splice(s.context, c, id) && t.nextSummary == id + 1
    && t.messages == s.messages && t.log == s.log && t.nextMessage == s.nextMessage
  }

  lemma CoreStep(s: Store, t: Store, c: Chunk, id: SummaryId)
    requires Core(s) && OneRowMore(s, t, c, id)
    ensures Core(t)
  {
    CutAround(s, c, id);
    Collapse(s, t, s.context[..c.start], s.context[c.start..c.start + c.length], s.context[c.start + c.length..], id);
    BookkeptFrame(s, t);
    forall x <- t.summaries ensures RowSound(t, x) {
      if x != id {
        assert RowSound(s, x);
        RowFrame(s, t, x);
      }
    }
  }

  lemma NewLeaf(s: Store, t: Store, id: SummaryId, items: seq<Item>, text: Text)
    requires Dag(s) && id !in s.summaries && Raws(items) && Resolves(s, items) && items != [] && text != []
    requires t.summaries == s.summaries[id := LeafRow(s, text, ChunkMessages(s, items))]
    requires t.leafLinks == s.leafLinks[id := ChunkMessages(s, items)]
    requires t.childLinks == s.childLinks && t.messages == s.messages
    ensures GoodRow(s, t, items, id)
  {
    var ms := ChunkMessages(s, items);
    RawRoots(s, items);
    ChunkMessagesExist(s, items);
    LeafInserted(s, t, id, LeafRow(s, text, ms), ms);
    LeafRowSound(s, t, id, ms, text);
  }

  /** `t` holds what `s` holds and one more condensed row, linked to its chunk. */
  ghost predicate Written(s: Store, t: Store, id: SummaryId, row: Summary, ids: seq<SummaryId>) {
    && t.summaries == s.summaries[id := row] && t.childLinks == s.childLinks[id := ids]
    && t.leafLinks == s.leafLinks && t.messages == s.messages
  }

  lemma NewCondensed(s: Store, t: Store, id: SummaryId, items: seq<Item>, depth: nat, text: Text)
    requires Dag(s) && AllSound(s) && id !in s.summaries && AllAtDepth(s, items, depth) && items != [] && text != []
    requires Written(s, t, id, CondensedRow(depth, text, ChildTotals(s, ChunkSummaries(s, items))), ChunkSummaries(s, items))
    ensures GoodRow(s, t, items, id)
  {
    var ids := ChunkSummaries(s, items);
    SummaryChunk(s, items, depth);
    CondensedInserted(s, t, id, CondensedRow(depth, text, ChildTotals(s, ids)), items, ids);
    CondensedRowSound(s, t, id, items, depth, text);
    CondensedStands(s, t, id, items);
  }

  lemma CondensedStands(s: Store, t: Store, id: SummaryId, items: seq<Item>)
    requires Dag(s) && Dag(t) && Extends(s, t) && Resolves(s, items) && id in t.summaries && id !in s.summaries
    requires t.summaries == s.summaries[id := t.summaries[id]]
    requires Tree(t, id) == CondensedNode(id, Roots(s, items))
    ensures StandsFor(s, t, items, id)
  {
  }

  lemma LeafAddsRow(s: Store, c: Chunk, text: Text)
    requires Dag(s) && s.nextSummary !in s.summaries && 0 < c.length && c.start + c.length <= |s.context| && text != []
    requires Raws(s.context[c.start..c.start + c.length]) && Resolves(s, s.context[c.start..c.start + c.length])
    ensures OneRowMore(s, AddLeaf(s, c, text), c, s.nextSummary)
  {
    var items := s.context[c.start..c.start + c.length];
    RawRoots(s, items);
    NewLeaf(s, AddLeaf(s, c, text), s.nextSummary, items, text);
  }

  lemma CondensedAddsRow(s: Store, c: Chunk, depth: nat, text: Text)
    requires Dag(s) && AllSound(s) && s.nextSummary !in s.summaries
    requires 0 < c.length && c.start + c.length <= |s.context| && text != []
    requires AllAtDepth(s, s.context[c.start..c.start + c.length], depth)
    ensures OneRowMore(s, AddCondensed(s, c, depth, text), c, s.nextSummary)
  {
    var items := s.context[c.start..c.start + c.length];
    var ids := ChunkSummaries(s, items);
    SummaryChunk(s, items, depth);
    RowWritten(s, c, CondensedRow(depth, text, ChildTotals(s, ids)), ids);
    NewCondensed(s, AddCondensed(s, c, depth, text), s.nextSummary, items, depth, text);
  }

  lemma RowWritten(s: Store, c: Chunk, row: Summary, ids: seq<SummaryId>)
    requires c.start + c.length <= |s.context| && ids != []
    ensures var t := WriteCondensed(s, c, row, ids);
      && Written(s, t, s.nextSummary, row, ids)
      && t.context == Splice(s.context, c, s.nextSummary) && t.nextSummary == s.nextSummary + 1
      && t.messages == s.messages && t.log == s.log && t.nextMessage == s.nextMessage
  {
  }
}
