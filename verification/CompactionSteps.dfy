/**
 One step of the compaction state machine: a message arrives, a leaf pass turns
 the oldest raw messages into a leaf summary, or a condensed pass turns summaries
 of one depth into a summary one deeper.  The summarizer is an arbitrary oracle.
 */
module CompactionSteps {
  import opened Sequences
  import opened TokenEstimate
  import opened ChunkSelection
  import opened SummaryDag

  datatype Config = Config(
    freshTailCount: int,
    freshTailMaxTokens: Option<int>,
    leafChunkTokens: Option<int>,
    leafMinFanout: int,
    condensedMinFanout: int,
    condensedMinFanoutHard: int,
    condensedTargetTokens: int,
    contextThreshold: real,
    maxRounds: int)
  {
    function ChunkTokens(): nat {
      if leafChunkTokens.Some? && leafChunkTokens.value > 0 then leafChunkTokens.value else 20_000
    }

    function TailCap(): Option<nat> {
      if freshTailMaxTokens.Some? && freshTailMaxTokens.value >= 0 then Some(freshTailMaxTokens.value) else None
    }

    function Fanout(depth: nat, hard: bool): nat {
      if hard then if condensedMinFanoutHard > 0 then condensedMinFanoutHard else 2
      else if depth == 0 then if leafMinFanout > 0 then leafMinFanout else 8
      else if condensedMinFanout > 0 then condensedMinFanout else 4
    }

    /** A tenth of the chunk size, or the condensed target when that is larger. */
    function MinCondensedTokens(): int {
      Max(condensedTargetTokens, ChunkTokens() / 10)
    }
  }

  /** What the summarizer does when it is called. */
  datatype Reply = Content(text: Text) | Skip | AuthFailure

  predicate IsSpace(cp: CodePoint) {
    || 0x09 <= cp <= 0x0D || 0x1C <= cp <= 0x20 || cp == 0x85 || cp == 0xA0 || cp == 0x1680
    || 0x2000 <= cp <= 0x200A || cp == 0x2028 || cp == 0x2029 || cp == 0x202F || cp == 0x205F || cp == 0x3000
  }

  predicate IsBlank(text: Text) {
    forall i :: 0 <= i < |text| ==> IsSpace(text[i])
  }

  predicate IsBlankText(text: string) {
    forall c <- text :: IsSpace(c as int)
  }

  predicate Usable(reply: Reply) {
    reply.Content? && !IsBlank(reply.text)
  }

  datatype Outcome = NoSummary(auth: bool) | Made(id: SummaryId, removed: int, added: int)

  datatype Pass = Pass(store: Store, outcome: Outcome)

  /* ---- Kinds of runs of items ---- */

  ghost predicate RawAt(items: seq<Item>, k: int) {
    0 <= k < |items| && items[k].RawItem?
  }

  ghost predicate SummaryAt(items: seq<Item>, k: int) {
    0 <= k < |items| && items[k].SummaryItem?
  }

  ghost predicate Raws(items: seq<Item>) {
    forall k {:trigger RawAt(items, k)} :: 0 <= k < |items| ==> RawAt(items, k)
  }

  ghost predicate AllSummaries(items: seq<Item>) {
    forall k {:trigger SummaryAt(items, k)} :: 0 <= k < |items| ==> SummaryAt(items, k)
  }

  ghost predicate DepthIs(s: Store, it: Item, depth: nat) {
    it.SummaryItem? && it.summary in s.summaries && s.summaries[it.summary].depth == depth
  }

  ghost predicate AllAtDepth(s: Store, items: seq<Item>, depth: nat) {
    forall k {:trigger DepthIs(s, items[k], depth)} :: 0 <= k < |items| ==> DepthIs(s, items[k], depth)
  }

  /* ---- Fresh tail ---- */

  /** A missing message row counts zero tokens. */
  function TokensOf(s: Store, m: MessageId): nat {
    if m in s.messages then s.messages[m].Tokens() else 0
  }

  function RawMessages(items: seq<Item>): seq<MessageId> {
    if items == [] then []
    else
      var last := |items| - 1;
      RawMessages(items[..last]) + if items[last].RawItem? then [items[last].message] else []
  }

  /** The position of the k-th raw message. */
  function NthRaw(items: seq<Item>, k: nat): (pos: nat)
    requires k < |RawMessages(items)|
    ensures pos < |items|
  {
    var last := |items| - 1;
    if k < |RawMessages(items[..last])| then NthRaw(items[..last], k) else last
  }

  function Weigh(s: Store, ms: seq<MessageId>): (ws: seq<nat>)
    ensures |ws| == |ms|
  {
    seq(|ms|, i requires 0 <= i < |ms| => TokensOf(s, ms[i]))
  }

  function TailLength(s: Store, cfg: Config): (p: nat)
    ensures p <= |RawMessages(s.context)|
  {
    Protected(Weigh(s, RawMessages(s.context)), cfg.freshTailCount, cfg.TailCap())
  }

  /** The first position that compaction must not touch; the whole context when nothing is protected. */
  function TailStart(s: Store, cfg: Config): (limit: nat)
    ensures limit <= |s.context|
  {
    var p := TailLength(s, cfg);
    if p == 0 then |s.context| else NthRaw(s.context, |RawMessages(s.context)| - p)
  }

  /** The protected messages, oldest first. */
  function FreshTail(s: Store, cfg: Config): seq<MessageId> {
    var ms := RawMessages(s.context);
    ms[|ms| - TailLength(s, cfg)..]
  }

  /* ---- Leaf pass ---- */

  function LeafWeight(s: Store, it: Item): Option<nat> {
    if it.RawItem? then Some(TokensOf(s, it.message)) else None
  }

  function LeafWeights(s: Store, cfg: Config): (ws: Weights)
    ensures |ws| == TailStart(s, cfg)
  {
    seq(TailStart(s, cfg), i requires 0 <= i < TailStart(s, cfg) => LeafWeight(s, s.context[i]))
  }

  function LeafChunk(s: Store, cfg: Config): (c: Chunk)
    ensures c.start + c.length <= TailStart(s, cfg)
  {
    Select(LeafWeights(s, cfg), cfg.ChunkTokens())
  }

  /** The messages of a run of raw items that still have a row. */
  function ChunkMessages(s: Store, items: seq<Item>): seq<MessageId> {
    if items == [] then []
    else
      var last := items[|items| - 1];
      ChunkMessages(s, items[..|items| - 1]) +
      if last.RawItem? && last.message in s.messages then [last.message] else []
  }

  function RemovedTokens(s: Store, ms: seq<MessageId>): nat {
    if ms == [] then 0 else RemovedTokens(s, ms[..|ms| - 1]) + TokensOf(s, ms[|ms| - 1])
  }

  function Splice(items: seq<Item>, c: Chunk, id: SummaryId): seq<Item>
    requires c.start + c.length <= |items|
  {
    items[..c.start] + [SummaryItem(id)] + items[c.start + c.length..]
  }

  function LeafRow(s: Store, text: Text, ms: seq<MessageId>): Summary {
    Summary(Leaf, 0, text, Estimate(text), 0, 0, RemovedTokens(s, ms))
  }

  /** Insert the row, link it to its messages, swap the range. */
  function WriteLeaf(s: Store, c: Chunk, row: Summary, ms: seq<MessageId>): Store
    requires c.start + c.length <= |s.context|
  {
    var id := s.nextSummary;
    s.(summaries := s.summaries[id := row],
       leafLinks := if ms == [] then s.leafLinks else s.leafLinks[id := ms],
       context := Splice(s.context, c, id),
       nextSummary := id + 1)
  }

  function AddLeaf(s: Store, c: Chunk, text: Text): Store
    requires c.start + c.length <= |s.context|
  {
    var ms := ChunkMessages(s, s.context[c.start..c.start + c.length]);
    WriteLeaf(s, c, LeafRow(s, text, ms), ms)
  }

  function MakeLeaf(s: Store, c: Chunk, text: Text): Pass
    requires c.start + c.length <= |s.context|
  {
    var ms := ChunkMessages(s, s.context[c.start..c.start + c.length]);
    Pass(AddLeaf(s, c, text), Made(s.nextSummary, RemovedTokens(s, ms), Estimate(text)))
  }

  function LeafPass(s: Store, cfg: Config, reply: Reply): Pass {
    var c := LeafChunk(s, cfg);
    if c.length == 0 then Pass(s, NoSummary(false))
    else if !Usable(reply) then Pass(s, NoSummary(reply.AuthFailure?))
    else MakeLeaf(s, c, reply.text)
  }

  lemma LeafSkips(s: Store, cfg: Config, reply: Reply)
    requires LeafChunk(s, cfg).length == 0 || !Usable(reply)
    ensures LeafPass(s, cfg, reply) == Pass(s, NoSummary(LeafChunk(s, cfg).length > 0 && reply.AuthFailure?))
  {
  }

  lemma LeafMakes(s: Store, cfg: Config, reply: Reply)
    requires LeafChunk(s, cfg).length > 0 && Usable(reply)
    ensures LeafPass(s, cfg, reply) == MakeLeaf(s, LeafChunk(s, cfg), reply.text)
  {
  }

  lemma LeafUnchanged(s: Store, cfg: Config, reply: Reply)
    requires LeafPass(s, cfg, reply).outcome.NoSummary?
    ensures LeafPass(s, cfg, reply).store == s
  {
    if LeafChunk(s, cfg).length > 0 && Usable(reply) {
      LeafMakes(s, cfg, reply);
    } else {
      LeafSkips(s, cfg, reply);
    }
  }

  /* ---- Condensed pass ---- */

  function ResolvedTokens(row: Summary): nat {
    if row.tokens > 0 then row.tokens else Estimate(row.content)
  }

  function CondensedWeight(s: Store, depth: nat, it: Item): Option<nat> {
    if it.SummaryItem? && it.summary in s.summaries && s.summaries[it.summary].depth == depth
    then Some(ResolvedTokens(s.summaries[it.summary])) else None
  }

  function CondensedWeights(s: Store, cfg: Config, depth: nat): (ws: Weights)
    ensures |ws| == TailStart(s, cfg)
  {
    seq(TailStart(s, cfg), i requires 0 <= i < TailStart(s, cfg) => CondensedWeight(s, depth, s.context[i]))
  }

  function CondensedChunk(s: Store, cfg: Config, depth: nat): (c: Chunk)
    ensures c.start + c.length <= TailStart(s, cfg)
  {
    Select(CondensedWeights(s, cfg, depth), cfg.ChunkTokens())
  }

  function ChunkWeight(s: Store, cfg: Config, depth: nat): int {
    var c := CondensedChunk(s, cfg, depth);
    Sum(Values(CondensedWeights(s, cfg, depth))[c.start..c.start + c.length])
  }

  /** The oldest chunk at a depth has enough members and enough tokens. */
  predicate Eligible(s: Store, cfg: Config, hard: bool, depth: nat) {
    && CondensedChunk(s, cfg, depth).length >= cfg.Fanout(depth, hard)
    && ChunkWeight(s, cfg, depth) >= cfg.MinCondensedTokens()
  }

  /** One more than the deepest summary among the items. */
  function DepthBound(s: Store, items: seq<Item>): nat {
    if items == [] then 0
    else
      var last := items[|items| - 1];
      var bound := DepthBound(s, items[..|items| - 1]);
      if last.SummaryItem? && last.summary in s.summaries && s.summaries[last.summary].depth >= bound
      then s.summaries[last.summary].depth + 1 else bound
  }

  lemma {:induction false} BelowDepthBound(s: Store, items: seq<Item>, i: nat)
    requires i < |items| && items[i].SummaryItem? && items[i].summary in s.summaries
    ensures s.summaries[items[i].summary].depth < DepthBound(s, items)
  {
    if i < |items| - 1 {
      BelowDepthBound(s, items[..|items| - 1], i);
    }
  }

  function ShallowestFrom(s: Store, cfg: Config, hard: bool, d: nat, bound: nat): (r: Option<nat>)
    ensures r.Some? ==> d <= r.value < bound && Eligible(s, cfg, hard, r.value)
    ensures forall e: nat :: d <= e < bound && (r.None? || e < r.value) ==> !Eligible(s, cfg, hard, e)
    decreases bound - d
  {
    if d >= bound then None
    else if Eligible(s, cfg, hard, d) then Some(d)
    else ShallowestFrom(s, cfg, hard, d + 1, bound)
  }

  /** The depth a condensed pass works on, if any depth qualifies. */
  function Candidate(s: Store, cfg: Config, hard: bool): (r: Option<nat>) {
    ShallowestFrom(s, cfg, hard, 0, DepthBound(s, s.context))
  }

  /** The candidate is the shallowest eligible depth of all. */
  lemma CandidateMeaning(s: Store, cfg: Config, hard: bool, d: nat)
    requires Eligible(s, cfg, hard, d)
    ensures Candidate(s, cfg, hard).Some? && Candidate(s, cfg, hard).value <= d
  {
    var c := CondensedChunk(s, cfg, d);
    assert CondensedWeights(s, cfg, d)[c.start].Some?;
    assert CondensedWeight(s, d, s.context[c.start]).Some?;
    BelowDepthBound(s, s.context, c.start);
  }

  function ChunkSummaries(s: Store, items: seq<Item>): (ids: seq<SummaryId>)
    ensures forall id <- ids :: id in s.summaries
  {
    if items == [] then []
    else
      var last := items[|items| - 1];
      ChunkSummaries(s, items[..|items| - 1]) +
      if last.SummaryItem? && last.summary in s.summaries then [last.summary] else []
  }

  /** The counters a condensed row accumulates from its children's rows. */
  datatype Totals = Totals(count: int, descendantTokens: int, sourceTokens: int, removed: int)

  function ChildTotals(s: Store, ids: seq<SummaryId>): Totals
    requires forall id <- ids :: id in s.summaries
  {
    if ids == [] then Totals(0, 0, 0, 0)
    else
      var before := ChildTotals(s, ids[..|ids| - 1]);
      var row := s.summaries[ids[|ids| - 1]];
      Totals(before.count + Max(0, row.descendantCount) + 1,
             before.descendantTokens + Max(0, row.descendantTokens) + Max(0, row.tokens),
             before.sourceTokens + Max(0, row.sourceTokens),
             before.removed + Max(0, row.tokens))
  }

  function CondensedRow(depth: nat, text: Text, sums: Totals): Summary {
    Summary(Condensed, depth + 1, text, Estimate(text), sums.count, sums.descendantTokens, sums.sourceTokens)
  }

  /** Insert the row, link it to its children, swap the range. */
  function WriteCondensed(s: Store, c: Chunk, row: Summary, ids: seq<SummaryId>): Store
    requires c.start + c.length <= |s.context|
  {
    var id := s.nextSummary;
    s.(summaries := s.summaries[id := row],
       childLinks := if ids == [] then s.childLinks else s.childLinks[id := ids],
       context := Splice(s.context, c, id),
       nextSummary := id + 1)
  }

  function AddCondensed(s: Store, c: Chunk, depth: nat, text: Text): Store
    requires c.start + c.length <= |s.context|
  {
    var ids := ChunkSummaries(s, s.context[c.start..c.start + c.length]);
    WriteCondensed(s, c, CondensedRow(depth, text, ChildTotals(s, ids)), ids)
  }

  function MakeCondensed(s: Store, c: Chunk, depth: nat, text: Text): Pass
    requires c.start + c.length <= |s.context|
  {
    var ids := ChunkSummaries(s, s.context[c.start..c.start + c.length]);
    Pass(AddCondensed(s, c, depth, text), Made(s.nextSummary, ChildTotals(s, ids).removed, Estimate(text)))
  }

  function CondensedPass(s: Store, cfg: Config, hard: bool, reply: Reply): Pass {
    var candidate := Candidate(s, cfg, hard);
    if candidate.None? then Pass(s, NoSummary(false))
    else if !Usable(reply) then Pass(s, NoSummary(reply.AuthFailure?))
    else MakeCondensed(s, CondensedChunk(s, cfg, candidate.value), candidate.value, reply.text)
  }

  lemma CondensedSkips(s: Store, cfg: Config, hard: bool, reply: Reply)
    requires Candidate(s, cfg, hard).None? || !Usable(reply)
    ensures CondensedPass(s, cfg, hard, reply) == Pass(s, NoSummary(Candidate(s, cfg, hard).Some? && reply.AuthFailure?))
  {
  }

  lemma CondensedMakes(s: Store, cfg: Config, hard: bool, reply: Reply)
    requires Candidate(s, cfg, hard).Some? && Usable(reply)
    ensures var depth := Candidate(s, cfg, hard).value;
      CondensedPass(s, cfg, hard, reply) == MakeCondensed(s, CondensedChunk(s, cfg, depth), depth, reply.text)
  {
  }

  lemma CondensedUnchanged(s: Store, cfg: Config, hard: bool, reply: Reply)
    requires CondensedPass(s, cfg, hard, reply).outcome.NoSummary?
    ensures CondensedPass(s, cfg, hard, reply).store == s
  {
    if Candidate(s, cfg, hard).Some? && Usable(reply) {
      CondensedMakes(s, cfg, hard, reply);
    } else {
      CondensedSkips(s, cfg, hard, reply);
    }
  }

  /* ---- Runs ---- */

  function AppendMessage(s: Store, stored: int, content: Text): Store {
    var id := s.nextMessage;
    s.(messages := s.messages[id := Message(|s.log|, stored, content)],
       log := s.log + [id],
       context := s.context + [RawItem(id)],
       nextMessage := id + 1)
  }

  datatype Event =
    | Append(stored: int, content: Text)
    | RunLeaf(cfg: Config, reply: Reply)
    | RunCondensed(cfg: Config, hard: bool, reply: Reply)

  function Step(s: Store, e: Event): Store {
    match e
    case Append(stored, content) => AppendMessage(s, stored, content)
    case RunLeaf(cfg, reply) => LeafPass(s, cfg, reply).store
    case RunCondensed(cfg, hard, reply) => CondensedPass(s, cfg, hard, reply).store
  }

  function Run(s: Store, es: seq<Event>): Store {
    if es == [] then s else Step(Run(s, es[..|es| - 1]), es[|es| - 1])
  }
}
