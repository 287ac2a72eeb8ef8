/**
 The repair as the program runs it: one pass with an output list, a set of answered
 ids and a `changed` flag.  The flag is exact for every repair but two: a second
 result for one id, and results out of call order, inside one block.
 */
module TranscriptSanitizer {
  import opened Sequences
  import opened TranscriptRepair
  import opened TranscriptPairing

  /* ---- When nothing is flagged ---- */

  /** Every result in the span is for an unanswered call of this turn. */
  predicate Clean(span: seq<Message>, ids: set<Id>, seen: set<Id>) {
    span == [] ||
    (var last := span[|span| - 1];
     (last.ToolResult? ==> Matches(last, ids) && last.id.value !in seen) && Clean(span[..|span| - 1], ids, seen))
  }

  /** Every call id is new and has a result. */
  predicate Answerable(calls: seq<Call>, found: map<Id, Message>, seen: set<Id>) {
    calls == [] ||
    (calls[0].id in found && calls[0].id !in seen && Answerable(calls[1..], found, seen + {calls[0].id}))
  }

  ghost predicate AnsweredIn(span: seq<Message>, id: Id) {
    exists k: nat :: k < |span| && span[k].ToolResult? && span[k].id == Some(id)
  }

  ghost predicate SameCall(calls: seq<Call>, i: int, j: int) {
    0 <= i < j < |calls| && calls[i].id == calls[j].id
  }

  ghost predicate DistinctCalls(calls: seq<Call>) {
    forall i, j {:trigger SameCall(calls, i, j)} :: !SameCall(calls, i, j)
  }

  ghost predicate NewCall(c: Call, span: seq<Message>, seen: set<Id>) {
    c.id !in seen && AnsweredIn(span, c.id)
  }

  /** The turn's calls are new and distinct, and the span holds results for exactly them. */
  ghost predicate QuietTurn(calls: seq<Call>, span: seq<Message>, seen: set<Id>) {
    && DistinctCalls(calls)
    && (forall c <- calls {:trigger NewCall(c, span, seen)} :: NewCall(c, span, seen))
    && (forall m <- span {:trigger Matches(m, Ids(calls))} :: Matches(m, Ids(calls)))
  }

  /** No turn gives the repair a reason to flag a change. */
  ghost predicate Quiet(ms: seq<Message>, seen: set<Id>)
    decreases |ms|
  {
    ms == [] ||
    (!ms[0].ToolResult? && !NeedsHoist(ms[0]) &&
     if !Live(ms[0]) then Quiet(ms[1..], seen)
     else
       var n, calls := SpanLength(ms[1..]), Calls(ms[0]);
       QuietTurn(calls, ms[1..n + 1], seen) && Quiet(ms[n + 1..], seen + Ids(calls)))
  }

  lemma {:induction false} CleanMeaning(span: seq<Message>, ids: set<Id>, seen: set<Id>)
    ensures Clean(span, ids, seen) <==> forall m <- span :: m.ToolResult? ==> Matches(m, ids) && m.id.value !in seen
  {
    if span != [] {
      CleanMeaning(span[..|span| - 1], ids, seen);
      Snoc(span);
    }
  }

  lemma {:induction false} AnswerableMeaning(calls: seq<Call>, found: map<Id, Message>, seen: set<Id>)
    ensures Answerable(calls, found, seen) <==>
      DistinctCalls(calls) && forall c <- calls :: c.id in found && c.id !in seen
  {
    if calls != [] {
      var id, rest := calls[0].id, calls[1..];
      AnswerableMeaning(rest, found, seen + {id});
      if DistinctCalls(calls) {
        forall c <- rest ensures c.id != id {
          var k :| 0 <= k < |rest| && rest[k] == c;
          assert calls[k + 1] == c && !SameCall(calls, 0, k + 1);
        }
        forall i, j ensures !SameCall(rest, i, j) {
          assert !SameCall(calls, i + 1, j + 1);
        }
      }
      if DistinctCalls(rest) && forall c <- rest :: c.id != id {
        forall i, j ensures !SameCall(calls, i, j) {
          if 0 <= i < j < |calls| {
            assert calls[j] == rest[j - 1] && rest[j - 1] in rest;
            assert i > 0 ==> calls[i] == rest[i - 1] && !SameCall(rest, i - 1, j - 1);
          }
        }
      }
      HeadTail(calls);
    }
  }

  lemma {:induction false} NonResultsEmpty(span: seq<Message>)
    ensures NonResults(span) == [] <==> Results(span)
  {
    if span != [] {
      NonResultsEmpty(span[..|span| - 1]);
      Snoc(span);
    }
  }

  lemma FoundIffAnswered(span: seq<Message>, ids: set<Id>, seen: set<Id>, id: Id)
    requires id in ids && id !in seen
    ensures id in Collect(span, ids, seen) <==> AnsweredIn(span, id)
  {
    CollectMeaning(span, ids, seen, id);
  }

  /** What the scan of one turn looks for, and what it means. */
  lemma TurnFlag(calls: seq<Call>, span: seq<Message>, seen: set<Id>)
    requires calls != [] && NoAssistants(span)
    ensures var found := Collect(span, Ids(calls), seen);
      QuietTurn(calls, span, seen) <==>
      Clean(span, Ids(calls), seen) && (found == map[] || NonResults(span) == []) && Answerable(calls, found, seen)
  {
    var ids := Ids(calls);
    var found := Collect(span, ids, seen);
    IdsMeaning(calls);
    CleanMeaning(span, ids, seen);
    NonResultsEmpty(span);
    AnswerableMeaning(calls, found, seen);
    forall id | id in ids && id !in seen ensures id in found <==> AnsweredIn(span, id) {
      FoundIffAnswered(span, ids, seen, id);
    }
    if Answerable(calls, found, seen) {
      assert calls[0] in calls && calls[0].id in found;
    }
    if QuietTurn(calls, span, seen) {
      forall m <- span ensures m.ToolResult? && Matches(m, ids) && m.id.value !in seen {
        assert Matches(m, ids);
        var c :| c in calls && c.id == m.id.value;
        assert NewCall(c, span, seen);
      }
      forall c <- calls ensures c.id in found && c.id !in seen {
        assert NewCall(c, span, seen);
      }
    } else if Clean(span, ids, seen) && (found == map[] || NonResults(span) == []) && Answerable(calls, found, seen) {
      forall c <- calls ensures NewCall(c, span, seen) {
      }
    }
  }

  /* ---- The pass ---- */

  /** The scan that looks for reasoning after the one function call of a turn. */
  method NormalizeTurn(m: Message) returns (r: Message, changed: bool)
    requires m.Assistant?
    ensures r == Normalize(m) && (changed <==> NeedsHoist(m))
  {
    r, changed := m, false;
    if !m.content.Blocks? {
      return;
    }
    var blocks := m.content.blocks;
    var sawCall, reasoningAfterCall, functionCalls := false, false, 0;
    for k := 0 to |blocks|
      invariant sawCall <==> exists i :: 0 <= i < k && blocks[i].ToolCall?
      invariant reasoningAfterCall <==> ReasoningAfterCall(blocks[..k])
      invariant functionCalls == OpenAiCalls(blocks[..k])
      invariant forall i :: 0 <= i < k ==> blocks[i].Reasoning? || blocks[i].ToolCall?
    {
      ReasoningStep(blocks, k);
      assert blocks[..k + 1][..k] == blocks[..k];
      match blocks[k]
      case Reasoning(_) => reasoningAfterCall := reasoningAfterCall || sawCall;
      case ToolCall(_, _, openAi) =>
        sawCall := true;
        functionCalls := functionCalls + if openAi then 1 else 0;
      case _ =>
        assert blocks[k] in blocks;
        return;
    }
    assert blocks[..|blocks|] == blocks;
    if reasoningAfterCall && functionCalls == 1 {
      r, changed := m.(content := Blocks(Reasonings(blocks) + ToolCalls(blocks))), true;
    }
  }

  lemma ReasoningStep(blocks: seq<Block>, k: nat)
    requires k < |blocks|
    ensures ReasoningAfterCall(blocks[..k + 1]) <==>
      ReasoningAfterCall(blocks[..k]) || (blocks[k].Reasoning? && exists i :: 0 <= i < k && blocks[i].ToolCall?)
  {
    var shorter, longer := blocks[..k], blocks[..k + 1];
    assert forall i :: 0 <= i < k ==> shorter[i] == longer[i] == blocks[i];
    assert longer[k] == blocks[k];
  }

  /** The span after one turn: its results by id, the other messages, and whether a result was dropped. */
  method ScanSpan(ms: seq<Message>, start: nat, ids: set<Id>, seen: set<Id>)
      returns (end: nat, found: map<Id, Message>, remainder: seq<Message>, clean: bool)
    requires start <= |ms|
    ensures end == start + SpanLength(ms[start..]) <= |ms|
    ensures found == Collect(ms[start..end], ids, seen) && remainder == NonResults(ms[start..end])
    ensures clean == Clean(ms[start..end], ids, seen)
  {
    end, found, remainder, clean := start, map[], [], true;
    assert ms[start..start] == [];
    while end < |ms| && !ms[end].Assistant?
      invariant start <= end <= |ms| && NoAssistants(ms[start..end])
      invariant found == Collect(ms[start..end], ids, seen) && remainder == NonResults(ms[start..end])
      invariant clean == Clean(ms[start..end], ids, seen)
    {
      var next := ms[end];
      assert ms[start..end + 1] == ms[start..end] + [next];
      SpanStep(ms[start..end], next, ids, seen);
      if next.ToolResult? {
        if Matches(next, ids) {
          if next.id.value in seen {
            clean := false;
          } else if next.id.value !in found {
            found := found[next.id.value := next];
          }
        } else {
          clean := false;
        }
      } else {
        remainder := remainder + [next];
      }
      end := end + 1;
    }
    assert ms[start..][..end - start] == ms[start..end];
    SpanIs(ms[start..], end - start);
  }

  lemma SpanStep(span: seq<Message>, m: Message, ids: set<Id>, seen: set<Id>)
    ensures NonResults(span + [m]) == if m.ToolResult? then NonResults(span) else NonResults(span) + [m]
    ensures Clean(span + [m], ids, seen) <==>
      Clean(span, ids, seen) && (m.ToolResult? ==> Matches(m, ids) && m.id.value !in seen)
    ensures var found := Collect(span, ids, seen);
      Collect(span + [m], ids, seen) ==
      if Matches(m, ids) && m.id.value !in seen && m.id.value !in found then found[m.id.value := m] else found
  {
    assert (span + [m])[..|span|] == span;
  }

  /** One result for every call that has none yet. */
  method PushAnswers(out: seq<Message>, calls: seq<Call>, found: map<Id, Message>, seen: set<Id>)
      returns (out': seq<Message>, seen': set<Id>, clean: bool)
    requires Keyed(found)
    ensures out' == out + Answers(calls, found, seen) && seen' == seen + Ids(calls)
    ensures clean == Answerable(calls, found, seen)
  {
    out', seen', clean := out, seen, true;
    assert calls[0..] == calls;
    for k := 0 to |calls|
      invariant out' + Answers(calls[k..], found, seen') == out + Answers(calls, found, seen)
      invariant seen' + Ids(calls[k..]) == seen + Ids(calls)
      invariant clean && Answerable(calls[k..], found, seen') <==> Answerable(calls, found, seen)
    {
      var call := calls[k];
      SuffixCons(calls, k);
      PushStep(out', call, calls[k + 1..], found, seen');
      if call.id !in found || call.id in seen' {
        clean := false;
      }
      if call.id !in seen' {
        out' := out' + [Answer(call, found)];
      }
      seen' := seen' + {call.id};
    }
    assert calls[|calls|..] == [] && Ids([]) == {};
  }

  /** The recorded result, or a synthetic one. */
  function Answer(call: Call, found: map<Id, Message>): Message {
    if call.id in found then found[call.id] else Synthetic(call)
  }

  lemma PushStep(out: seq<Message>, call: Call, rest: seq<Call>, found: map<Id, Message>, seen: set<Id>)
    ensures (if call.id in seen then out else out + [Answer(call, found)]) + Answers(rest, found, seen + {call.id})
      == out + Answers([call] + rest, found, seen)
    ensures Ids([call] + rest) == {call.id} + Ids(rest)
    ensures Answerable([call] + rest, found, seen) <==>
      call.id in found && call.id !in seen && Answerable(rest, found, seen + {call.id})
  {
    assert ([call] + rest)[1..] == rest;
    if call.id in seen {
      assert seen + {call.id} == seen;
    } else {
      Associative(out, [Answer(call, found)], Answers(rest, found, seen + {call.id}));
    }
  }

  /** A live turn with everything up to the next assistant turn. */
  method RepairTurn(ms: seq<Message>, i: nat, out: seq<Message>, seen: set<Id>)
      returns (out': seq<Message>, seen': set<Id>, end: nat, clean: bool)
    requires i < |ms| && Live(Normalize(ms[i]))
    ensures i < end <= |ms|
    ensures out' + Rebuild(ms[end..], seen') == out + Rebuild(ms[i..], seen)
    ensures clean && !NeedsHoist(ms[i]) && Quiet(ms[end..], seen') <==> Quiet(ms[i..], seen)
  {
    var normalized, found, remainder, complete := Normalize(ms[i]), map[], [], true;
    var calls := Calls(normalized);
    end, found, remainder, clean := ScanSpan(ms, i + 1, Ids(calls), seen);
    SpanCut(ms, i, end);
    RebuildStep(ms[i], ms[i + 1..end], ms[end..], seen);
    QuietStep(ms[i], ms[i + 1..end], ms[end..], seen);
    CollectKeyed(ms[i + 1..end], Ids(calls), seen);
    if found != map[] && remainder != [] {
      clean := false;
    }
    out', seen', complete := PushAnswers(out + [normalized], calls, found, seen);
    clean := clean && complete;
    out' := out' + remainder;
    Flatten(out, normalized, Answers(calls, found, seen), remainder, Rebuild(ms[end..], seen'));
  }

  lemma SuffixCons<T>(xs: seq<T>, k: nat)
    requires k < |xs|
    ensures xs[k..] == [xs[k]] + xs[k + 1..]
  {
  }

  /** Only assistant turns are normalized. */
  method NormalizeMessage(m: Message) returns (r: Message, changed: bool)
    ensures r == Normalize(m) && (changed <==> NeedsHoist(m))
  {
    if m.Assistant? {
      r, changed := NormalizeTurn(m);
    } else {
      r, changed := m, false;
    }
  }

  /** One pass over the transcript. */
  method Repair(ms: seq<Message>) returns (out: seq<Message>, changed: bool)
    ensures out == Rebuild(ms, {}) && (changed <==> !Quiet(ms, {}))
  {
    var seen: set<Id> := {};
    var i := 0;
    out, changed := [], false;
    assert ms[0..] == ms;
    while i < |ms|
      invariant 0 <= i <= |ms|
      invariant out + Rebuild(ms[i..], seen) == Rebuild(ms, {})
      invariant changed || !Quiet(ms[i..], seen) <==> !Quiet(ms, {})
    {
      var m := ms[i];
      SuffixCons(ms, i);
      if m.ToolResult? {
        QuietOrphan(m, ms[i + 1..], seen);
        changed, i := true, i + 1;
        continue;
      }
      var normalized, hoisted := NormalizeMessage(m);
      changed := changed || hoisted;
      if !Live(normalized) {
        QuietBystander(m, ms[i + 1..], seen);
        Associative(out, [normalized], Rebuild(ms[i + 1..], seen));
        out, i := out + [normalized], i + 1;
        continue;
      }
      var clean;
      out, seen, i, clean := RepairTurn(ms, i, out, seen);
      changed := changed || !clean;
    }
    assert ms[|ms|..] == [];
  }

  lemma QuietOrphan(m: Message, rest: seq<Message>, seen: set<Id>)
    requires m.ToolResult?
    ensures !Quiet([m] + rest, seen) && Rebuild([m] + rest, seen) == Rebuild(rest, seen)
  {
    assert ([m] + rest)[1..] == rest;
  }

  lemma Flatten(had: seq<Message>, m: Message, a: seq<Message>, b: seq<Message>, c: seq<Message>)
    ensures had + ([m] + a + b + c) == had + [m] + a + b + c
  {
  }

  lemma SpanCut(ms: seq<Message>, i: nat, end: nat)
    requires i < |ms| && end == i + 1 + SpanLength(ms[i + 1..]) <= |ms|
    ensures ms[i..] == [ms[i]] + ms[i + 1..end] + ms[end..]
    ensures NoAssistants(ms[i + 1..end]) && (ms[end..] == [] || ms[end..][0].Assistant?)
  {
    SpanMeaning(ms[i + 1..]);
    assert ms[i + 1..end] == ms[i + 1..][..end - i - 1];
    assert end < |ms| ==> ms[end] == ms[i + 1..][end - i - 1];
  }

  lemma QuietBystander(m: Message, rest: seq<Message>, seen: set<Id>)
    requires !m.ToolResult? && !Live(Normalize(m))
    ensures Quiet([m] + rest, seen) <==> !NeedsHoist(m) && Quiet(rest, seen)
    ensures Rebuild([m] + rest, seen) == [Normalize(m)] + Rebuild(rest, seen)
  {
    NormalizeMeaning(m);
    assert ([m] + rest)[1..] == rest;
  }

  lemma QuietStep(m: Message, span: seq<Message>, rest: seq<Message>, seen: set<Id>)
    requires Live(Normalize(m)) && NoAssistants(span) && (rest == [] || rest[0].Assistant?)
    ensures var calls := Calls(Normalize(m));
      var found := Collect(span, Ids(calls), seen);
      Quiet([m] + span + rest, seen) <==>
      && !NeedsHoist(m) && Clean(span, Ids(calls), seen) && (found == map[] || NonResults(span) == [])
      && Answerable(calls, found, seen) && Quiet(rest, seen + Ids(calls))
  {
    var ms := [m] + span + rest;
    NormalizeMeaning(m);
    assert ms[1..] == span + rest && ms[1..][..|span|] == span;
    SpanIs(ms[1..], |span|);
    assert ms[1..|span| + 1] == span && ms[|span| + 1..] == rest;
    TurnFlag(Calls(m), span, seen);
  }
}
