/** What the repair promises, said of blocks, ids and positions. */
module TranscriptPromises {
  import opened Sequences
  import opened TranscriptRepair
  import opened TranscriptPairing
  import opened TranscriptGuarantees

  /* ---- Calls ---- */

  /** Some block of the turn calls the id by the name. */
  ghost predicate HasCall(m: Message, id: Id, name: Option<string>) {
    m.Assistant? && m.content.Blocks? &&
    exists b <- m.content.blocks :: b.ToolCall? && b.id == Some(id) && b.name == name
  }

  lemma {:induction false} CallsInMeaning(blocks: seq<Block>, c: Call)
    ensures c in CallsIn(blocks) <==> exists b <- blocks :: b.ToolCall? && b.id == Some(c.id) && b.name == c.name
  {
    if blocks != [] {
      CallsInMeaning(blocks[1..], c);
      HeadTail(blocks);
    }
  }

  lemma CallsMeaning(m: Message, c: Call)
    ensures c in Calls(m) <==> HasCall(m, c.id, c.name)
  {
    if m.Assistant? && m.content.Blocks? {
      CallsInMeaning(m.content.blocks, c);
    }
  }

  /** Calling an id is having a block that calls it. */
  lemma IdsAreCalled(m: Message, id: Id)
    ensures id in Ids(Calls(m)) <==> exists name :: HasCall(m, id, name)
  {
    IdsMeaning(Calls(m));
    if id in Ids(Calls(m)) {
      var c :| c in Calls(m) && c.id == id;
      CallsMeaning(m, c);
    }
    forall name | HasCall(m, id, name) ensures id in Ids(Calls(m)) {
      CallsMeaning(m, Call(id, name));
    }
  }

  /* ---- Errored and aborted turns ---- */

  /** No result stands between an errored or aborted turn and the next assistant turn. */
  lemma NoResultAfterHalted(ms: seq<Message>, p: nat, q: nat)
    requires var out := Rebuild(ms, {}); p < q < |out| && out[p].Assistant? && out[p].halted && out[q].ToolResult?
    ensures var out := Rebuild(ms, {}); exists r :: p < r < q && out[r].Assistant?
  {
    RebuildIsPaired(ms, {});
    PairedAfterHalted(Rebuild(ms, {}), p, q);
  }

  lemma PairedAfterHalted(out: seq<Message>, p: nat, q: nat)
    requires Paired(out, {}) && p < q < |out| && out[p].Assistant? && out[p].halted && out[q].ToolResult?
    ensures exists r :: p < r < q && out[r].Assistant?
  {
    ResultStands(out, {}, q);
    var a: nat :| Attached(out, a, q);
    assert p > a ==> ResultAt(out, p);
  }

  /** Every turn of the rebuilt list is a turn of the input, up to the hoist. */
  lemma TurnWasThere(ms: seq<Message>, m: Message) returns (before: Message)
    requires m in Rebuild(ms, {}) && m.Assistant?
    ensures before in ms && m == Normalize(before)
  {
    var out := Rebuild(ms, {});
    NonResultsKept(ms, {});
    NonResultsHold(out, m);
    NonResultsMeaning(ms);
    var k :| 0 <= k < |NonResults(out)| && NonResults(out)[k] == m;
    before := NonResults(ms)[k];
    assert Hoisted(NonResults(ms))[k] == Normalize(before);
  }

  /** An id that no turn calls, but for errored and aborted ones, has no result anywhere. */
  lemma OnlyHaltedCalls(ms: seq<Message>, id: Id)
    requires forall m <- ms :: m.Assistant? && !m.halted ==> !exists name :: HasCall(m, id, name)
    ensures forall m <- Rebuild(ms, {}) :: m.ToolResult? ==> m.id != Some(id)
  {
    var out := Rebuild(ms, {});
    RebuildIsPaired(ms, {});
    forall m <- out | m.ToolResult? && m.id == Some(id) ensures false {
      var q :| 0 <= q < |out| && out[q] == m;
      ResultStands(out, {}, q);
      var a: nat :| Attached(out, a, q);
      var before := TurnWasThere(ms, out[a]);
      NormalizeMeaning(before);
      IdsAreCalled(before, id);
    }
  }

  /** A turn that was neither errored nor aborted has a result, in its block or before, for every id it calls. */
  lemma CallsAreAnswered(ms: seq<Message>, a: nat, id: Id, name: Option<string>)
    requires var out := Rebuild(ms, {}); a < |out| && HasCall(out[a], id, name) && !out[a].halted
    ensures Answered(Rebuild(ms, {}), a, id)
  {
    var out := Rebuild(ms, {});
    RebuildIsPaired(ms, {});
    CallsMeaning(out[a], Call(id, name));
    IdsAreCalled(out[a], id);
    CallAnswered(out, {}, a, id);
  }

  /* ---- Synthetic results ---- */

  /** The result was in the input, or it says of a call of a turn neither errored nor aborted that it is missing. */
  ghost predicate Sourced(ms: seq<Message>, m: Message) {
    m in ms ||
    exists turn <- ms :: turn.Assistant? && !turn.halted && IsMissingFor(turn, m)
  }

  /** The result stands for a missing one of the turn's and carries the tool's name, or "unknown". */
  ghost predicate IsMissingFor(turn: Message, m: Message) {
    && m.ToolResult? && m.id.Some? && m.body.Missing?
    && (HasCall(turn, m.id.value, Some(m.body.toolName)) || (HasCall(turn, m.id.value, None) && m.body.toolName == "unknown"))
  }

  lemma {:induction false} AnswersSourced(calls: seq<Call>, found: map<Id, Message>, seen: set<Id>, m: Message)
    requires m in Answers(calls, found, seen)
    ensures m in found.Values || exists c <- calls :: m == Synthetic(c)
  {
    if calls[0].id in seen {
      AnswersSourced(calls[1..], found, seen, m);
    } else if m != Answers(calls, found, seen)[0] {
      AnswersSourced(calls[1..], found, seen + {calls[0].id}, m);
    }
  }

  lemma SyntheticSourced(turn: Message, c: Call)
    requires c in Calls(turn)
    ensures IsMissingFor(turn, Synthetic(c))
  {
    CallsMeaning(turn, c);
  }

  /** Where every result of the rebuilt list comes from. */
  lemma {:induction false} ResultsSourced(ms: seq<Message>, seen: set<Id>, m: Message)
    requires m in Rebuild(ms, seen) && m.ToolResult?
    ensures Sourced(ms, m)
    decreases |ms|
  {
    NormalizeMeaning(ms[0]);
    if ms[0].ToolResult? || !Live(Normalize(ms[0])) {
      ResultsSourced(ms[1..], seen, m);
      SourcedLater(ms, 1, m);
    } else {
      var r, n := Normalize(ms[0]), SpanLength(ms[1..]);
      var ids, span := Ids(Calls(r)), ms[1..n + 1];
      var found := Collect(span, ids, seen);
      if m in Answers(Calls(r), found, seen) {
        AnswerSourced(ms, span, seen, m);
      } else if m in NonResults(span) {
        NonResultsMeaning(span);
      } else {
        ResultsSourced(ms[n + 1..], seen + ids, m);
        SourcedLater(ms, n + 1, m);
      }
    }
  }

  lemma SourcedLater(ms: seq<Message>, drop: nat, m: Message)
    requires drop <= |ms| && Sourced(ms[drop..], m)
    ensures Sourced(ms, m)
  {
  }

  lemma AnswerSourced(ms: seq<Message>, span: seq<Message>, seen: set<Id>, m: Message)
    requires ms != [] && Live(Normalize(ms[0])) && (forall x <- span :: x in ms)
    requires var calls := Calls(Normalize(ms[0])); m in Answers(calls, Collect(span, Ids(calls), seen), seen)
    ensures Sourced(ms, m)
  {
    var calls := Calls(Normalize(ms[0]));
    var found := Collect(span, Ids(calls), seen);
    NormalizeMeaning(ms[0]);
    AnswersSourced(calls, found, seen, m);
    if m in found.Values {
      var id :| id in found && found[id] == m;
      CollectMeaning(span, Ids(calls), seen, id);
    } else {
      var c :| c in calls && m == Synthetic(c);
      SyntheticSourced(ms[0], c);
      assert ms[0] in ms;
    }
  }

  /* ---- Hoisting ---- */

  /** Exactly one block is an OpenAI function call. */
  ghost predicate OneOpenAiCall(blocks: seq<Block>) {
    exists k :: OnlyOpenAi(blocks, k)
  }

  ghost predicate OnlyOpenAi(blocks: seq<Block>, k: int) {
    OpenAiAt(blocks, k) && forall j {:trigger OpenAiAt(blocks, j)} :: OpenAiAt(blocks, j) ==> j == k
  }

  ghost predicate OpenAiAt(blocks: seq<Block>, k: int) {
    0 <= k < |blocks| && blocks[k].ToolCall? && blocks[k].openAi
  }

  lemma {:induction false} OpenAiCount(blocks: seq<Block>)
    ensures OpenAiCalls(blocks) == 0 <==> forall k {:trigger OpenAiAt(blocks, k)} :: !OpenAiAt(blocks, k)
    ensures OpenAiCalls(blocks) == 1 <==> OneOpenAiCall(blocks)
  {
    if blocks != [] {
      var last := |blocks| - 1;
      var init := blocks[..last];
      OpenAiCount(init);
      forall k ensures OpenAiAt(blocks, k) <==> OpenAiAt(init, k) || (k == last && OpenAiAt(blocks, last)) {
      }
      if k :| OnlyOpenAi(blocks, k) {
        assert k < last ==> OnlyOpenAi(init, k) && !OpenAiAt(blocks, last);
      }
      if k :| OnlyOpenAi(init, k) && !OpenAiAt(blocks, last) {
        assert OnlyOpenAi(blocks, k);
      }
      if OpenAiAt(blocks, last) && OpenAiCalls(init) == 0 {
        assert OnlyOpenAi(blocks, last);
      }
    }
  }

  lemma {:induction false} FilterFilters(blocks: seq<Block>)
    ensures Reasonings(Reasonings(blocks)) == Reasonings(blocks) && ToolCalls(ToolCalls(blocks)) == ToolCalls(blocks)
    ensures Reasonings(ToolCalls(blocks)) == [] == ToolCalls(Reasonings(blocks))
  {
    if blocks != [] {
      FilterFilters(blocks[1..]);
    }
  }

  lemma {:induction false} FilterAppend(a: seq<Block>, b: seq<Block>)
    ensures Reasonings(a + b) == Reasonings(a) + Reasonings(b) && ToolCalls(a + b) == ToolCalls(a) + ToolCalls(b)
  {
    if a == [] {
      assert a + b == b;
    } else {
      assert (a + b)[0] == a[0] && (a + b)[1..] == a[1..] + b;
      FilterAppend(a[1..], b);
    }
  }

  /**
   A turn is reordered exactly when it holds only reasoning and calls, just one of them an
   OpenAI call, and some reasoning after a call; then no reasoning follows a call any more,
   and the reasoning and the calls each keep their order.
   */
  lemma HoistMeaning(m: Message)
    ensures Normalize(m) != m ==> NeedsHoist(m)
    ensures NeedsHoist(m) <==>
      && m.Assistant? && m.content.Blocks?
      && (forall b <- m.content.blocks :: b.Reasoning? || b.ToolCall?) && OneOpenAiCall(m.content.blocks)
      && exists i, j :: 0 <= i < j < |m.content.blocks| && m.content.blocks[i].ToolCall? && m.content.blocks[j].Reasoning?
    ensures NeedsHoist(m) ==>
      var r := Normalize(m);
      && r.Assistant? && r.content.Blocks? && r.halted == m.halted && !ReasoningAfterCall(r.content.blocks)
      && Reasonings(r.content.blocks) == Reasonings(m.content.blocks) && ToolCalls(r.content.blocks) == ToolCalls(m.content.blocks)
  {
    if m.Assistant? && m.content.Blocks? {
      var blocks := m.content.blocks;
      OpenAiCount(blocks);
      if NeedsHoist(m) {
        FilterKinds(blocks);
        SortedKinds(Reasonings(blocks), ToolCalls(blocks));
        FilterFilters(blocks);
        FilterAppend(Reasonings(blocks), ToolCalls(blocks));
      }
    }
  }
}
