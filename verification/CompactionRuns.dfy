/** The theorems about every run: the invariant, losslessness, and the stable fresh tail. */
module CompactionRuns {
  import opened Sequences
  import opened TokenEstimate
  import opened ChunkSelection
  import opened SummaryDag
  import opened CompactionSteps
  import opened Lossless
  import opened CompactionTail

  /* ---- Shape ---- */

  lemma SpliceAt(items: seq<Item>, c: Chunk, id: SummaryId, k: nat)
    requires 0 < c.length && c.start + c.length <= |items| && k < |Splice(items, c, id)|
    ensures Splice(items, c, id)[k] ==
      if k < c.start then items[k] else if k == c.start then SummaryItem(id) else items[k + c.length - 1]
  {
  }

  /** Every item before `start` is a summary at least `depth` deep. */
  ghost predicate DeepBefore(s: Store, start: nat, depth: nat)
    requires Grounded(s) && start <= |s.context|
  {
    forall k {:trigger SummaryAt(s.context, k)} :: 0 <= k < start ==>
      SummaryAt(s.context, k) && DepthAt(s, s.context, k) >= depth
  }

  /** A new summary fits between deeper-or-equal ones before and shallower-or-equal ones or raw messages after. */
  lemma ShapeStep(s: Store, t: Store, c: Chunk, id: SummaryId)
    requires Grounded(s) && Grounded(t) && Shaped(s, s.context) && Extends(s, t) && id in t.summaries
    requires 0 < c.length && c.start + c.length <= |s.context| && t.context == Splice(s.context, c, id)
    requires DeepBefore(s, c.start, t.summaries[id].depth)
    requires DepthAt(s, s.context, c.start) <= t.summaries[id].depth
    ensures Shaped(t, t.context)
  {
    forall i, j | 0 <= i < j < |t.context|
      ensures InOrder(t, t.context, i, j)
    {
      SpliceAt(s.context, c, id, i);
      SpliceAt(s.context, c, id, j);
      var i', j' := if i <= c.start then i else i + c.length - 1, if j <= c.start then j else j + c.length - 1;
      assert ItemResolves(s, s.context[i']) && ItemResolves(s, s.context[j']);
      assert ItemResolves(t, t.context[i]) && ItemResolves(t, t.context[j]);
      assert i' < c.start ==> SummaryAt(s.context, i');
      if i' < j' {
        assert InOrder(s, s.context, i', j');
      }
      if c.start < j' {
        assert InOrder(s, s.context, c.start, j');
      }
    }
  }

  lemma MiddleResolves(s: Store, c: Chunk)
    requires Resolves(s, s.context) && c.start + c.length <= |s.context|
    ensures Resolves(s, s.context[c.start..c.start + c.length])
  {
    var mid := s.context[c.start..c.start + c.length];
    forall k | 0 <= k < |mid| ensures ItemResolves(s, mid[k]) {
      assert ItemResolves(s, s.context[c.start + k]);
    }
  }

  lemma BeforeRaw(s: Store, c: Chunk)
    requires Grounded(s) && 0 < c.length && c.start + c.length <= |s.context|
    requires Raws(s.context[c.start..c.start + c.length]) && AllSummaries(s.context[..c.start])
    ensures DeepBefore(s, c.start, 0) && DepthAt(s, s.context, c.start) == 0
  {
    var pre, mid := s.context[..c.start], s.context[c.start..c.start + c.length];
    assert RawAt(mid, 0) && mid[0] == s.context[c.start];
    forall k | 0 <= k < c.start ensures SummaryAt(s.context, k) {
      assert SummaryAt(pre, k);
    }
  }

  lemma FoldKeepsInv(s: Store, c: Chunk, text: Text)
    requires Inv(s) && 0 < c.length && c.start + c.length <= |s.context| && text != []
    requires Raws(s.context[c.start..c.start + c.length]) && AllSummaries(s.context[..c.start])
    ensures Inv(AddLeaf(s, c, text))
  {
    MiddleResolves(s, c);
    BeforeRaw(s, c);
    LeafAddsRow(s, c, text);
    CoreStep(s, AddLeaf(s, c, text), c, s.nextSummary);
    ShapeStep(s, AddLeaf(s, c, text), c, s.nextSummary);
  }

  lemma LeafKeepsInv(s: Store, cfg: Config, reply: Reply)
    requires Inv(s)
    ensures Inv(LeafPass(s, cfg, reply).store)
  {
    if LeafChunk(s, cfg).length > 0 && Usable(reply) {
      LeafMakes(s, cfg, reply);
      LeafChunkItems(s, cfg);
      FoldKeepsInv(s, LeafChunk(s, cfg), reply.text);
    } else {
      LeafSkips(s, cfg, reply);
    }
  }

  /** The chunk is a prefix of its depth's run, so what lies before it is strictly deeper. */
  lemma DeeperBefore(s: Store, cfg: Config, depth: nat)
    requires Grounded(s) && Shaped(s, s.context) && CondensedChunk(s, cfg, depth).length > 0
    ensures var c := CondensedChunk(s, cfg, depth);
      DepthAt(s, s.context, c.start) == depth && DeepBefore(s, c.start, depth + 1)
  {
    var ws, c := CondensedWeights(s, cfg, depth), CondensedChunk(s, cfg, depth);
    SelectEligible(ws, cfg.ChunkTokens());
    assert ws[c.start] == CondensedWeight(s, depth, s.context[c.start]) && ws[c.start].Some?;
    forall k | 0 <= k < c.start
      ensures SummaryAt(s.context, k) && DepthAt(s, s.context, k) >= depth + 1
    {
      assert ws[k] == CondensedWeight(s, depth, s.context[k]) && ws[k].None?;
      assert ItemResolves(s, s.context[k]) && ItemResolves(s, s.context[c.start]);
      assert InOrder(s, s.context, k, c.start);
    }
  }

  lemma CondenseKeepsInv(s: Store, c: Chunk, depth: nat, text: Text)
    requires Inv(s) && 0 < c.length && c.start + c.length <= |s.context| && text != []
    requires AllAtDepth(s, s.context[c.start..c.start + c.length], depth) && DepthAt(s, s.context, c.start) == depth
    requires DeepBefore(s, c.start, depth + 1)
    ensures Inv(AddCondensed(s, c, depth, text))
  {
    CondensedAddsRow(s, c, depth, text);
    CoreStep(s, AddCondensed(s, c, depth, text), c, s.nextSummary);
    ShapeStep(s, AddCondensed(s, c, depth, text), c, s.nextSummary);
  }

  lemma CondensedAtKeepsInv(s: Store, cfg: Config, depth: nat, text: Text)
    requires Inv(s) && CondensedChunk(s, cfg, depth).length > 0 && text != []
    ensures Inv(AddCondensed(s, CondensedChunk(s, cfg, depth), depth, text))
  {
    CondensedChunkItems(s, cfg, depth);
    DeeperBefore(s, cfg, depth);
    CondenseKeepsInv(s, CondensedChunk(s, cfg, depth), depth, text);
  }

  lemma CondensedKeepsInv(s: Store, cfg: Config, hard: bool, reply: Reply)
    requires Inv(s)
    ensures Inv(CondensedPass(s, cfg, hard, reply).store)
  {
    if Candidate(s, cfg, hard).Some? && Usable(reply) {
      var depth := Candidate(s, cfg, hard).value;
      CondensedMakes(s, cfg, hard, reply);
      CondensedAtKeepsInv(s, cfg, depth, reply.text);
    } else {
      CondensedSkips(s, cfg, hard, reply);
    }
  }

  /* ---- Appending ---- */

  lemma AppendExtends(s: Store, stored: int, content: Text)
    requires Dag(s) && Bookkept(s)
    ensures Extends(s, AppendMessage(s, stored, content)) && Dag(AppendMessage(s, stored, content))
  {
    var t := AppendMessage(s, stored, content);
    assert Extends(s, t);
    forall id <- t.summaries ensures WellLinked(t, id) {
      LinkFrame(s, t, id);
    }
  }

  lemma AppendBookkept(s: Store, stored: int, content: Text)
    requires Bookkept(s)
    ensures Bookkept(AppendMessage(s, stored, content))
  {
    var t := AppendMessage(s, stored, content);
    forall m <- t.messages ensures Logged(t, m) {
      if m in s.messages {
        assert Logged(s, m);
      }
    }
    forall i | 0 <= i < |t.log| ensures SeqNumbered(t, i) {
      if i < |s.log| {
        assert SeqNumbered(s, i);
      }
    }
  }

  lemma AppendKeepsInv(s: Store, stored: int, content: Text)
    requires Inv(s)
    ensures Inv(AppendMessage(s, stored, content))
  {
    var t, id := AppendMessage(s, stored, content), s.nextMessage;
    AppendExtends(s, stored, content);
    AppendBookkept(s, stored, content);
    AppendExpands(s, t, id);
    AppendSound(s, t);
    AppendShaped(s, t, id);
  }

  /** The row of a new message touches no summary. */
  lemma AppendSound(s: Store, t: Store)
    requires Grounded(s) && Grounded(t) && IsComplete(s) && AllSound(s) && Extends(s, t) && t.summaries == s.summaries
    requires Summaries(Roots(t, t.context)) == Summaries(Roots(s, s.context))
    ensures IsComplete(t) && AllSound(t)
  {
    forall x ensures MetOnce(t, x) {
      assert MetOnce(s, x);
    }
    forall x <- t.summaries ensures RowSound(t, x) {
      assert RowSound(s, x);
      RowFrame(s, t, x);
    }
  }

  lemma AppendExpands(s: Store, t: Store, id: MessageId)
    requires Grounded(s) && Dag(t) && Extends(s, t) && id in t.messages && t.context == s.context + [RawItem(id)]
    ensures Grounded(t)
    ensures Messages(Roots(t, t.context)) == Messages(Roots(s, s.context)) + [id]
    ensures Summaries(Roots(t, t.context)) == Summaries(Roots(s, s.context))
  {
    RootsFrame(s, t, s.context);
    assert Roots(t, [RawItem(id)]) == [MessageNode(id)];
    assert [MessageNode(id)][1..] == [];
    RootsAppend(t, s.context, [RawItem(id)]);
    ForestAppend(Roots(t, s.context), [MessageNode(id)]);
  }

  lemma AppendShaped(s: Store, t: Store, id: MessageId)
    requires Grounded(s) && Grounded(t) && Shaped(s, s.context) && Extends(s, t)
    requires t.context == s.context + [RawItem(id)]
    ensures Shaped(t, t.context)
  {
    forall i, j | 0 <= i < j < |t.context|
      ensures InOrder(t, t.context, i, j)
    {
      if j < |s.context| {
        assert ItemResolves(s, s.context[i]) && ItemResolves(s, s.context[j]);
        assert InOrder(s, s.context, i, j);
      }
    }
  }

  /* ---- Every run ---- */

  lemma StepKeepsInv(s: Store, e: Event)
    requires Inv(s)
    ensures Inv(Step(s, e))
  {
    match e
    case Append(stored, content) => AppendKeepsInv(s, stored, content);
    case RunLeaf(cfg, reply) => LeafKeepsInv(s, cfg, reply);
    case RunCondensed(cfg, hard, reply) => CondensedKeepsInv(s, cfg, hard, reply);
  }

  lemma EmptyInv()
    ensures Inv(EMPTY)
  {
  }

  lemma {:induction false} RunKeepsInv(s: Store, es: seq<Event>)
    requires Inv(s)
    ensures Inv(Run(s, es))
  {
    if es != [] {
      RunKeepsInv(s, es[..|es| - 1]);
      StepKeepsInv(Run(s, es[..|es| - 1]), es[|es| - 1]);
    }
  }

  /** What was said, in order, whatever happened in between. */
  function Said(es: seq<Event>): seq<(int, Text)> {
    if es == [] then []
    else
      var last := es[|es| - 1];
      Said(es[..|es| - 1]) + if last.Append? then [(last.stored, last.content)] else []
  }

  /** The rows behind a list of message ids. */
  ghost function Rows(s: Store, ms: seq<MessageId>): seq<(int, Text)>
    requires forall i :: 0 <= i < |ms| ==> ms[i] in s.messages
  {
    seq(|ms|, i requires 0 <= i < |ms| => (s.messages[ms[i]].stored, s.messages[ms[i]].content))
  }

  lemma LogResolves(s: Store)
    requires Bookkept(s)
    ensures forall i :: 0 <= i < |s.log| ==> s.log[i] in s.messages
    ensures Distinct(s.log)
  {
    forall i | 0 <= i < |s.log| ensures s.log[i] in s.messages {
      assert SeqNumbered(s, i);
    }
    forall i, j | 0 <= i < j < |s.log| ensures s.log[i] != s.log[j] {
      assert SeqNumbered(s, i) && SeqNumbered(s, j);
    }
  }

  /** A step writes one message row or none, and never rewrites one. */
  lemma SaidStep(s: Store, e: Event)
    requires Bookkept(s)
    ensures forall i :: 0 <= i < |s.log| ==> s.log[i] in s.messages
    ensures var t := Step(s, e);
      && (forall i :: 0 <= i < |t.log| ==> t.log[i] in t.messages)
      && Rows(t, t.log) == Rows(s, s.log) + if e.Append? then [(e.stored, e.content)] else []
  {
    LogResolves(s);
    if e.Append? {
      assert s.nextMessage !in s.messages;
    }
  }

  lemma {:induction false} LogIsSaid(es: seq<Event>)
    ensures var t := Run(EMPTY, es);
      Bookkept(t) && (forall i :: 0 <= i < |t.log| ==> t.log[i] in t.messages) && Rows(t, t.log) == Said(es)
  {
    EmptyInv();
    RunKeepsInv(EMPTY, es);
    LogResolves(Run(EMPTY, es));
    if es != [] {
      LogIsSaid(es[..|es| - 1]);
      SaidStep(Run(EMPTY, es[..|es| - 1]), es[|es| - 1]);
    }
  }

  /** What drilling the whole context down gives, when everything it meets exists. */
  ghost function Recovered(s: Store): Option<seq<(int, Text)>> {
    if !Grounded(s) then None
    else
      var ms := Messages(Roots(s, s.context));
      if forall i :: 0 <= i < |ms| ==> ms[i] in s.messages then Some(Rows(s, ms)) else None
  }

  /**
   Losslessness.  After any interleaving of arrivals and passes, with any
   summarizer and any settings, drilling the context down to its messages gives
   every message that was ever said, in order.
   */
  lemma Losslessness(es: seq<Event>)
    ensures Recovered(Run(EMPTY, es)) == Some(Said(es))
  {
    EmptyInv();
    RunKeepsInv(EMPTY, es);
    LogIsSaid(es);
  }

  ghost function Drilled(s: Store): Option<seq<MessageId>> {
    if Grounded(s) then Some(Messages(Roots(s, s.context))) else None
  }

  /** And no message is met twice. */
  lemma DrilledOnce(es: seq<Event>)
    ensures Drilled(Run(EMPTY, es)).Some? && Distinct(Drilled(Run(EMPTY, es)).value)
  {
    EmptyInv();
    RunKeepsInv(EMPTY, es);
    LogResolves(Run(EMPTY, es));
  }

  ghost predicate WellShaped(s: Store) {
    Grounded(s) && Shaped(s, s.context)
  }

  /** In every reachable state summaries of falling depth precede the raw messages. */
  lemma ReachableShape(es: seq<Event>)
    ensures WellShaped(Run(EMPTY, es))
  {
    EmptyInv();
    RunKeepsInv(EMPTY, es);
  }

  /** The row's counters are exact, and drilling the context down meets it once. */
  ghost predicate Accounted(s: Store, id: SummaryId) {
    Grounded(s) && id in s.summaries && CountersExact(s, id) && multiset(Summaries(Roots(s, s.context)))[id] == 1
  }

  /** In every reachable state every summary is accounted for. */
  lemma ReachableCounters(es: seq<Event>, id: SummaryId)
    requires id in Run(EMPTY, es).summaries
    ensures Accounted(Run(EMPTY, es), id)
  {
    EmptyInv();
    RunKeepsInv(EMPTY, es);
    assert RowSound(Run(EMPTY, es), id) && MetOnce(Run(EMPTY, es), id);
  }
}
