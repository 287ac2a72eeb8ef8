/**
 Pairing of tool calls with tool results in an assembled transcript.  `Rebuild` is
 the list the repair builds; `Paired` says what a paired transcript is.
 */
module TranscriptRepair {
  import opened Sequences

  type Id = string

  datatype Block =
    | Reasoning(text: string)
    | ToolCall(id: Option<Id>, name: Option<string>, openAi: bool)
    | Text(text: string)
    | Redacted(data: string)
    | Extra(data: string)

  datatype Content = NoContent | PlainText(text: string) | Blocks(blocks: seq<Block>)

  datatype Body = Recorded(text: string) | Missing(toolName: string)

  datatype Message =
    | Opaque(text: string)
    | Assistant(content: Content, halted: bool)
    | ToolResult(id: Option<Id>, body: Body)
    | Other(text: string)

  datatype Call = Call(id: Id, name: Option<string>)

  /* ---- Reasoning blocks ---- */

  function Reasonings(blocks: seq<Block>): seq<Block> {
    if blocks == [] then []
    else if blocks[0].Reasoning? then [blocks[0]] + Reasonings(blocks[1..])
    else Reasonings(blocks[1..])
  }

  function ToolCalls(blocks: seq<Block>): seq<Block> {
    if blocks == [] then []
    else if blocks[0].ToolCall? then [blocks[0]] + ToolCalls(blocks[1..])
    else ToolCalls(blocks[1..])
  }

  function OpenAiCalls(blocks: seq<Block>): nat {
    if blocks == [] then 0
    else OpenAiCalls(blocks[..|blocks| - 1]) + var last := blocks[|blocks| - 1]; if last.ToolCall? && last.openAi then 1 else 0
  }

  predicate ReasoningAfterCall(blocks: seq<Block>) {
    exists j :: 0 <= j < |blocks| && blocks[j].Reasoning? && exists i :: 0 <= i < j && blocks[i].ToolCall?
  }

  predicate OnlyReasoningAndCalls(blocks: seq<Block>) {
    forall b <- blocks :: b.Reasoning? || b.ToolCall?
  }

  /** A single function call with reasoning after a call, and nothing else in the turn. */
  predicate NeedsHoist(m: Message) {
    && m.Assistant? && m.content.Blocks?
    && OnlyReasoningAndCalls(m.content.blocks)
    && ReasoningAfterCall(m.content.blocks)
    && OpenAiCalls(m.content.blocks) == 1
  }

  function Normalize(m: Message): Message {
    if NeedsHoist(m) then m.(content := Blocks(Reasonings(m.content.blocks) + ToolCalls(m.content.blocks))) else m
  }

  function CallsIn(blocks: seq<Block>): seq<Call> {
    if blocks == [] then []
    else
      var b := blocks[0];
      if b.ToolCall? && b.id.Some? then [Call(b.id.value, b.name)] + CallsIn(blocks[1..]) else CallsIn(blocks[1..])
  }

  function Calls(m: Message): seq<Call> {
    if m.Assistant? && m.content.Blocks? then CallsIn(m.content.blocks) else []
  }

  /** An assistant turn whose calls must be answered. */
  predicate Live(m: Message) {
    m.Assistant? && !m.halted && Calls(m) != []
  }

  function Ids(calls: seq<Call>): set<Id> {
    if calls == [] then {} else {calls[0].id} + Ids(calls[1..])
  }

  /* ---- The rebuilt transcript ---- */

  /** How many messages stand before the next assistant turn. */
  function SpanLength(ms: seq<Message>): (n: nat)
    ensures n <= |ms|
  {
    if ms == [] || ms[0].Assistant? then 0 else 1 + SpanLength(ms[1..])
  }

  function NonResults(ms: seq<Message>): seq<Message> {
    if ms == [] then []
    else
      var last := ms[|ms| - 1];
      if last.ToolResult? then NonResults(ms[..|ms| - 1]) else NonResults(ms[..|ms| - 1]) + [last]
  }

  predicate Matches(m: Message, ids: set<Id>) {
    m.ToolResult? && m.id.Some? && m.id.value in ids
  }

  /** The first result in the span for each id that is called here and was not answered before. */
  function Collect(span: seq<Message>, ids: set<Id>, seen: set<Id>): map<Id, Message> {
    if span == [] then map[]
    else
      var found, m := Collect(span[..|span| - 1], ids, seen), span[|span| - 1];
      if Matches(m, ids) && m.id.value !in seen && m.id.value !in found then found[m.id.value := m] else found
  }

  function Synthetic(call: Call): Message {
    ToolResult(Some(call.id), Missing(if call.name.Some? then call.name.value else "unknown"))
  }

  /** One result per call id that has none yet, in call order. */
  function Answers(calls: seq<Call>, found: map<Id, Message>, seen: set<Id>): seq<Message> {
    if calls == [] then []
    else
      var id := calls[0].id;
      if id in seen then Answers(calls[1..], found, seen)
      else [if id in found then found[id] else Synthetic(calls[0])] + Answers(calls[1..], found, seen + {id})
  }

  function Rebuild(ms: seq<Message>, seen: set<Id>): seq<Message>
    decreases |ms|
  {
    if ms == [] then []
    else if ms[0].ToolResult? then Rebuild(ms[1..], seen)
    else
      var m := Normalize(ms[0]);
      if !Live(m) then [m] + Rebuild(ms[1..], seen)
      else
        var n, calls := SpanLength(ms[1..]), Calls(m);
        var span := ms[1..n + 1];
        [m] + Answers(calls, Collect(span, Ids(calls), seen), seen) + NonResults(span)
        + Rebuild(ms[n + 1..], seen + Ids(calls))
  }

  /* ---- What a paired transcript is ---- */

  /** The call ids that are not answered yet, each once, in call order. */
  function FreshIds(calls: seq<Call>, seen: set<Id>): seq<Id> {
    if calls == [] then []
    else if calls[0].id in seen then FreshIds(calls[1..], seen)
    else [calls[0].id] + FreshIds(calls[1..], seen + {calls[0].id})
  }

  function LeadingResults(ms: seq<Message>): (n: nat)
    ensures n <= |ms|
  {
    if ms == [] || !ms[0].ToolResult? then 0 else 1 + LeadingResults(ms[1..])
  }

  function ResultIds(ms: seq<Message>): (ids: seq<Option<Id>>)
    ensures |ids| == |ms|
  {
    seq(|ms|, i requires 0 <= i < |ms| => if ms[i].ToolResult? then ms[i].id else None)
  }

  function Somes(ids: seq<Id>): (options: seq<Option<Id>>)
    ensures |options| == |ids|
  {
    seq(|ids|, i requires 0 <= i < |ids| => Some(ids[i]))
  }

  /**
   Results stand nowhere but directly after a live assistant turn, and there is
   exactly one for each call id not answered before, in call order.
   */
  ghost predicate Paired(ms: seq<Message>, seen: set<Id>)
    decreases |ms|
  {
    ms == [] ||
    (!ms[0].ToolResult? && !NeedsHoist(ms[0]) &&
     if !Live(ms[0]) then Paired(ms[1..], seen)
     else
       var n, calls := LeadingResults(ms[1..]), Calls(ms[0]);
       && ResultIds(ms[1..n + 1]) == Somes(FreshIds(calls, seen))
       && Paired(ms[n + 1..], seen + Ids(calls)))
  }

  /* ---- Hoisting ---- */

  lemma {:induction false} CallsAppend(a: seq<Block>, b: seq<Block>)
    ensures CallsIn(a + b) == CallsIn(a) + CallsIn(b)
  {
    if a == [] {
      assert a + b == b;
    } else {
      assert (a + b)[0] == a[0] && (a + b)[1..] == a[1..] + b;
      CallsAppend(a[1..], b);
    }
  }

  lemma {:induction false} FilterKinds(blocks: seq<Block>)
    ensures forall b <- Reasonings(blocks) :: b.Reasoning?
    ensures forall b <- ToolCalls(blocks) :: b.ToolCall?
  {
    if blocks != [] {
      FilterKinds(blocks[1..]);
    }
  }

  lemma CallsCons(b: Block, bs: seq<Block>)
    ensures CallsIn([b] + bs) == if b.ToolCall? && b.id.Some? then [Call(b.id.value, b.name)] + CallsIn(bs) else CallsIn(bs)
  {
    assert ([b] + bs)[1..] == bs;
  }

  lemma {:induction false} FilterCalls(blocks: seq<Block>)
    ensures CallsIn(Reasonings(blocks)) == []
    ensures CallsIn(ToolCalls(blocks)) == CallsIn(blocks)
  {
    if blocks != [] {
      FilterCalls(blocks[1..]);
      CallsCons(blocks[0], Reasonings(blocks[1..]));
      CallsCons(blocks[0], ToolCalls(blocks[1..]));
    }
  }

  lemma MultisetCons<T>(x: T, xs: seq<T>)
    ensures multiset([x] + xs) == multiset{x} + multiset(xs)
  {
  }

  lemma {:induction false} FilterKeeps(blocks: seq<Block>)
    requires OnlyReasoningAndCalls(blocks)
    ensures multiset(Reasonings(blocks)) + multiset(ToolCalls(blocks)) == multiset(blocks)
  {
    if blocks != [] {
      var b, rest := blocks[0], blocks[1..];
      FilterKeeps(rest);
      HeadTail(blocks);
      MultisetCons(b, rest);
      assert b.Reasoning? || b.ToolCall?;
      if b.Reasoning? {
        MultisetCons(b, Reasonings(rest));
      } else {
        MultisetCons(b, ToolCalls(rest));
      }
    }
  }

  lemma SortedKinds(rs: seq<Block>, cs: seq<Block>)
    requires (forall b <- rs :: b.Reasoning?) && (forall b <- cs :: b.ToolCall?)
    ensures !ReasoningAfterCall(rs + cs)
  {
    forall j | |rs| <= j < |rs + cs| ensures (rs + cs)[j].ToolCall? {
      assert (rs + cs)[j] == cs[j - |rs|] && cs[j - |rs|] in cs;
    }
    forall i | 0 <= i < |rs| ensures !(rs + cs)[i].ToolCall? {
      assert (rs + cs)[i] in rs;
    }
  }

  lemma HoistSettles(m: Message)
    requires NeedsHoist(m)
    ensures !NeedsHoist(Normalize(m))
    ensures Calls(Normalize(m)) == Calls(m)
    ensures multiset(Normalize(m).content.blocks) == multiset(m.content.blocks)
  {
    var rs, cs := Reasonings(m.content.blocks), ToolCalls(m.content.blocks);
    FilterKinds(m.content.blocks);
    SortedKinds(rs, cs);
    FilterCalls(m.content.blocks);
    CallsAppend(rs, cs);
    FilterKeeps(m.content.blocks);
  }

  /** Hoisting reorders the blocks of one turn, keeps its calls, and settles at once. */
  lemma NormalizeMeaning(m: Message)
    ensures var r := Normalize(m);
      && !NeedsHoist(r) && Normalize(r) == r && Calls(r) == Calls(m) && Live(r) == Live(m)
      && (m.Assistant? <==> r.Assistant?) && (!m.Assistant? ==> r == m)
      && (m.Assistant? && m.content.Blocks? ==> r.content.Blocks? && multiset(r.content.blocks) == multiset(m.content.blocks))
  {
    if NeedsHoist(m) {
      HoistSettles(m);
    }
  }
}
