/** Position by position: where results stand in a paired transcript, and what rebuilding keeps. */
module TranscriptGuarantees {
  import opened Sequences
  import opened TranscriptRepair
  import opened TranscriptPairing

  /* ---- Where results stand ---- */

  /** `p` is in the block of results directly after the live turn at `a`, which calls its id. */
  ghost predicate Attached(ms: seq<Message>, a: nat, p: nat) {
    && a < p < |ms| && Live(ms[a])
    && (forall k: nat {:trigger ResultAt(ms, k)} :: a < k <= p ==> ResultAt(ms, k))
    && ms[p].ToolResult? && ms[p].id.Some? && ms[p].id.value in Ids(Calls(ms[a]))
  }

  /** The result at `p` stands in the block of some live turn that calls its id. */
  ghost predicate Stands(ms: seq<Message>, p: nat) {
    exists a: nat :: Attached(ms, a, p)
  }

  lemma StandsLater(ms: seq<Message>, drop: nat, k: nat, p: nat)
    requires drop <= |ms| && p == k + drop && Stands(ms[drop..], k)
    ensures Stands(ms, p)
  {
    var later := ms[drop..];
    var a: nat :| Attached(later, a, k);
    forall i: nat | a + drop < i <= p ensures ResultAt(ms, i) {
      assert ResultAt(later, i - drop);
    }
    assert Attached(ms, a + drop, p);
  }

  /** The results right after the first message. */
  lemma BlockStart(ms: seq<Message>)
    requires ms != []
    ensures forall k: nat {:trigger ResultAt(ms, k)} :: 0 < k <= LeadingResults(ms[1..]) ==> ResultAt(ms, k)
    ensures !ResultAt(ms, LeadingResults(ms[1..]) + 1)
  {
    LeadingMeaning(ms[1..]);
    assert !ResultAt(ms[1..], LeadingResults(ms[1..]));
    forall k: nat | 0 < k <= LeadingResults(ms[1..]) ensures ResultAt(ms, k) {
      assert ResultAt(ms[1..], k - 1);
    }
  }

  /** The k-th result after a live turn answers the k-th unanswered call. */
  lemma BlockResult(ms: seq<Message>, seen: set<Id>, k: nat)
    requires ms != [] && Live(ms[0]) && Paired(ms, seen) && k < LeadingResults(ms[1..])
    ensures var open := FreshIds(Calls(ms[0]), seen);
      && |open| == LeadingResults(ms[1..]) && ms[k + 1].ToolResult? && ms[k + 1].id == Some(open[k])
      && open[k] in Ids(Calls(ms[0])) && open[k] !in seen
  {
    var l, ids := LeadingResults(ms[1..]), FreshIds(Calls(ms[0]), seen);
    LeadingMeaning(ms[1..]);
    assert ms[k + 1] == ms[1..][k] && ResultAt(ms[1..], k);
    assert ResultIds(ms[1..l + 1])[k] == Somes(ids)[k] && ms[1..l + 1][k] == ms[k + 1];
    FreshMeaning(Calls(ms[0]), seen);
    assert ids[k] in ids;
  }

  /** Every result stands in the block of a live turn that calls it. */
  lemma {:induction false} ResultStands(ms: seq<Message>, seen: set<Id>, p: nat)
    requires Paired(ms, seen) && p < |ms| && ms[p].ToolResult?
    ensures Stands(ms, p)
    decreases |ms|
  {
    if InFirstBlock(ms, p) {
      StandsInBlock(ms, seen, p);
    } else {
      var drop, later := PastFirstBlock(ms, seen, p);
      ResultStands(ms[drop..], later, p - drop);
      StandsLater(ms, drop, p - drop, p);
    }
  }

  /** A result answers nothing that was answered before. */
  lemma {:induction false} ResultFresh(ms: seq<Message>, seen: set<Id>, p: nat)
    requires Paired(ms, seen) && p < |ms| && ms[p].ToolResult?
    ensures ms[p].id.Some? && ms[p].id.value !in seen
    decreases |ms|
  {
    if InFirstBlock(ms, p) {
      StandsInBlock(ms, seen, p);
    } else {
      var drop, later := PastFirstBlock(ms, seen, p);
      ResultFresh(ms[drop..], later, p - drop);
    }
  }

  /** What follows a message and its block is paired. */
  lemma PairedRest(ms: seq<Message>, seen: set<Id>) returns (drop: nat, later: set<Id>)
    requires Paired(ms, seen) && ms != []
    ensures 0 < drop <= |ms| && seen <= later && Paired(ms[drop..], later) && !ms[0].ToolResult?
    ensures drop == if Live(ms[0]) then LeadingResults(ms[1..]) + 1 else 1
    ensures forall id <- later :: id in seen || (Live(ms[0]) && id in Ids(Calls(ms[0])))
  {
    if Live(ms[0]) {
      drop, later := LeadingResults(ms[1..]) + 1, seen + Ids(Calls(ms[0]));
    } else {
      drop, later := 1, seen;
    }
  }

  /** `p` is in the block right after the first message. */
  ghost predicate InFirstBlock(ms: seq<Message>, p: nat) {
    ms != [] && Live(ms[0]) && 0 < p <= LeadingResults(ms[1..])
  }

  lemma PastFirstBlock(ms: seq<Message>, seen: set<Id>, p: nat) returns (drop: nat, later: set<Id>)
    requires Paired(ms, seen) && p < |ms| && ms[p].ToolResult? && !InFirstBlock(ms, p)
    ensures 0 < drop <= p && seen <= later && Paired(ms[drop..], later)
  {
    drop, later := PairedRest(ms, seen);
  }

  lemma StandsInBlock(ms: seq<Message>, seen: set<Id>, p: nat)
    requires Paired(ms, seen) && ms != [] && Live(ms[0]) && 0 < p <= LeadingResults(ms[1..])
    ensures ms[p].ToolResult? && ms[p].id.Some? && ms[p].id.value !in seen && Stands(ms, p)
  {
    BlockResult(ms, seen, p - 1);
    BlockStart(ms);
    assert Attached(ms, 0, p);
  }

  lemma BlockAgainstLater(ms: seq<Message>, seen: set<Id>, p: nat, q: nat)
    requires Paired(ms, seen) && ms != [] && Live(ms[0]) && 0 < p < q < |ms| && ms[q].ToolResult?
    requires p <= LeadingResults(ms[1..])
    ensures ms[p].ToolResult? && ms[p].id != ms[q].id
  {
    var l := LeadingResults(ms[1..]);
    BlockResult(ms, seen, p - 1);
    if q > l {
      ResultFresh(ms[l + 1..], seen + Ids(Calls(ms[0])), q - l - 1);
    } else {
      BlockResult(ms, seen, q - 1);
      FreshMeaning(Calls(ms[0]), seen);
    }
  }

  ghost predicate TwoResults(ms: seq<Message>, p: int, q: int) {
    0 <= p < q < |ms| && ms[p].ToolResult? && ms[q].ToolResult?
  }

  /** The results at `p` and `q` answer the same id. */
  ghost predicate SameId(ms: seq<Message>, p: int, q: int) {
    TwoResults(ms, p, q) && ms[p].id == ms[q].id
  }

  lemma TwoLater(ms: seq<Message>, drop: nat, p: nat, q: nat)
    requires TwoResults(ms, p, q) && drop <= p
    ensures TwoResults(ms[drop..], p - drop, q - drop)
    ensures SameId(ms, p, q) ==> SameId(ms[drop..], p - drop, q - drop)
  {
  }

  /** No two results of a paired transcript answer the same call id. */
  lemma {:induction false} ResultsUnique(ms: seq<Message>, seen: set<Id>, p: nat, q: nat)
    requires Paired(ms, seen) && TwoResults(ms, p, q)
    ensures !SameId(ms, p, q)
    decreases |ms|
  {
    if InFirstBlock(ms, p) {
      BlockAgainstLater(ms, seen, p, q);
    } else {
      var drop, later := PastFirstBlock(ms, seen, p);
      TwoLater(ms, drop, p, q);
      ResultsUnique(ms[drop..], later, p - drop, q - drop);
    }
  }

  /** `id` is answered before the turn at `a` or in the block directly after it. */
  ghost predicate AnsweredBy(ms: seq<Message>, a: nat, q: nat, id: Id) {
    && q < |ms| && ms[q].ToolResult? && ms[q].id == Some(id)
    && (forall k: nat {:trigger ResultAt(ms, k)} :: a < k <= q ==> ResultAt(ms, k))
  }

  ghost predicate Answered(ms: seq<Message>, a: nat, id: Id) {
    exists q: nat :: AnsweredBy(ms, a, q, id)
  }

  lemma FreshPosition(calls: seq<Call>, seen: set<Id>, id: Id) returns (k: nat)
    requires id in Ids(calls) && id !in seen
    ensures k < |FreshIds(calls, seen)| && FreshIds(calls, seen)[k] == id
  {
    FreshMeaning(calls, seen);
    k :| k < |FreshIds(calls, seen)| && FreshIds(calls, seen)[k] == id;
  }

  lemma PastBlock(ms: seq<Message>, a: nat)
    requires 0 < a < |ms| && !ms[a].ToolResult?
    ensures a > LeadingResults(ms[1..])
  {
    BlockStart(ms);
    assert !ResultAt(ms, a);
  }

  /** Every call of a live turn is answered, in that turn's block or before. */
  lemma {:induction false} CallAnswered(ms: seq<Message>, seen: set<Id>, a: nat, id: Id)
    requires Paired(ms, seen) && a < |ms| && Live(ms[a]) && id in Ids(Calls(ms[a])) && id !in seen
    ensures Answered(ms, a, id)
    decreases |ms|
  {
    if Live(ms[0]) && id in Ids(Calls(ms[0])) {
      AnsweredInBlock(ms, seen, a, id);
    } else {
      var drop, later := PairedRest(ms, seen);
      if Live(ms[0]) {
        PastBlock(ms, a);
      }
      CallAnswered(ms[drop..], later, a - drop, id);
      AnsweredLater(ms, drop, a - drop, a, id);
    }
  }

  lemma AnsweredInBlock(ms: seq<Message>, seen: set<Id>, a: nat, id: Id)
    requires Paired(ms, seen) && ms != [] && Live(ms[0]) && id in Ids(Calls(ms[0])) && id !in seen
    ensures Answered(ms, a, id)
  {
    var l := LeadingResults(ms[1..]);
    var k := FreshPosition(Calls(ms[0]), seen, id);
    assert |ResultIds(ms[1..l + 1])| == |Somes(FreshIds(Calls(ms[0]), seen))|;
    BlockResult(ms, seen, k);
    BlockStart(ms);
    assert AnsweredBy(ms, a, k + 1, id);
  }

  lemma AnsweredLater(ms: seq<Message>, drop: nat, k: nat, a: nat, id: Id)
    requires drop <= |ms| && a == k + drop && Answered(ms[drop..], k, id)
    ensures Answered(ms, a, id)
  {
    var later := ms[drop..];
    var q: nat :| AnsweredBy(later, k, q, id);
    forall i: nat | a < i <= q + drop ensures ResultAt(ms, i) {
      assert ResultAt(later, i - drop);
    }
    assert AnsweredBy(ms, a, q + drop, id);
  }

  /* ---- What rebuilding keeps ---- */

  function Hoisted(ms: seq<Message>): (r: seq<Message>)
    ensures |r| == |ms|
  {
    seq(|ms|, i requires 0 <= i < |ms| => Normalize(ms[i]))
  }

  lemma HoistedAppend(a: seq<Message>, b: seq<Message>)
    ensures Hoisted(a + b) == Hoisted(a) + Hoisted(b)
  {
  }

  lemma HoistedBystanders(ms: seq<Message>)
    requires Bystanders(ms)
    ensures Hoisted(ms) == ms
  {
    forall i | 0 <= i < |ms| ensures Normalize(ms[i]) == ms[i] {
      assert Bystander(ms[i]);
    }
  }

  lemma NonResultsCons(m: Message, ms: seq<Message>)
    ensures NonResults([m] + ms) == if m.ToolResult? then NonResults(ms) else [m] + NonResults(ms)
  {
    NonResultsAppend([m], ms);
    assert [m][..0] == [];
  }

  lemma NonResultsTurn(m: Message, a: seq<Message>, b: seq<Message>, c: seq<Message>)
    requires !m.ToolResult?
    ensures NonResults([m] + a + b + c) == [m] + NonResults(a) + NonResults(b) + NonResults(c)
  {
    NonResultsAppend([m] + a + b, c);
    NonResultsAppend([m] + a, b);
    NonResultsCons(m, a);
  }

  /** Everything that is not a tool result stays, in order, up to the hoist. */
  lemma {:induction false} NonResultsKept(ms: seq<Message>, seen: set<Id>)
    ensures NonResults(Rebuild(ms, seen)) == Hoisted(NonResults(ms))
    decreases |ms|
  {
    if ms != [] {
      var m := Normalize(ms[0]);
      NormalizeMeaning(ms[0]);
      HeadTail(ms);
      NonResultsCons(ms[0], ms[1..]);
      if ms[0].ToolResult? {
        NonResultsKept(ms[1..], seen);
      } else if !Live(m) {
        NonResultsKept(ms[1..], seen);
        NonResultsCons(m, Rebuild(ms[1..], seen));
        HoistedAppend([ms[0]], NonResults(ms[1..]));
        assert Hoisted([ms[0]]) == [m];
      } else {
        var n := SpanLength(ms[1..]);
        SpanMeaning(ms[1..]);
        assert ms[1..n + 1] == ms[1..][..n];
        NonResultsKept(ms[n + 1..], seen + Ids(Calls(m)));
        assert ms == [ms[0]] + ms[1..n + 1] + ms[n + 1..];
        TurnKept(ms[0], ms[1..n + 1], ms[n + 1..], seen);
      }
    }
  }

  lemma TurnNonResults(calls: seq<Call>, span: seq<Message>, seen: set<Id>)
    requires NoAssistants(span)
    ensures Bystanders(NonResults(span))
    ensures NonResults(Answers(calls, Collect(span, Ids(calls), seen), seen)) == []
    ensures NonResults(NonResults(span)) == NonResults(span)
  {
    CollectKeyed(span, Ids(calls), seen);
    AnswersMeaning(calls, Collect(span, Ids(calls), seen), seen);
    NonResultsMeaning(span);
    NonResultsOf(Answers(calls, Collect(span, Ids(calls), seen), seen), NonResults(span));
  }

  lemma TurnKept(m: Message, span: seq<Message>, rest: seq<Message>, seen: set<Id>)
    requires Live(Normalize(m)) && m.Assistant? && NoAssistants(span) && (rest == [] || rest[0].Assistant?)
    requires NonResults(Rebuild(rest, seen + Ids(Calls(Normalize(m))))) == Hoisted(NonResults(rest))
    ensures NonResults(Rebuild([m] + span + rest, seen)) == Hoisted(NonResults([m] + span + rest))
  {
    var r := Normalize(m);
    var ids := Ids(Calls(r));
    RebuildStep(m, span, rest, seen);
    TurnNonResults(Calls(r), span, seen);
    NonResultsTurn(r, Answers(Calls(r), Collect(span, ids, seen), seen), NonResults(span), Rebuild(rest, seen + ids));
    NonResultsTurn(m, span, rest, []);
    assert [m] + span + rest + [] == [m] + span + rest;
    HoistedTurn(m, NonResults(span), NonResults(rest));
  }

  lemma HoistedTurn(m: Message, a: seq<Message>, b: seq<Message>)
    requires Bystanders(a)
    ensures Hoisted([m] + a + b + []) == [Normalize(m)] + [] + a + Hoisted(b)
  {
    HoistedBystanders(a);
  }

  /** A result is synthetic or was in the input. */
  lemma {:induction false} AnswersSource(calls: seq<Call>, found: map<Id, Message>, seen: set<Id>, m: Message)
    requires m in Answers(calls, found, seen)
    ensures m in found.Values || (m.ToolResult? && m.body.Missing?)
  {
    if calls[0].id in seen {
      AnswersSource(calls[1..], found, seen, m);
    } else if m != Answers(calls, found, seen)[0] {
      AnswersSource(calls[1..], found, seen + {calls[0].id}, m);
    }
  }

  /** No recorded result is invented. */
  lemma {:induction false} RecordedWasThere(ms: seq<Message>, seen: set<Id>, m: Message)
    requires m in Rebuild(ms, seen) && m.ToolResult? && m.body.Recorded?
    ensures m in ms
    decreases |ms|
  {
    NormalizeMeaning(ms[0]);
    if ms[0].ToolResult? || !Live(Normalize(ms[0])) {
      RecordedWasThere(ms[1..], seen, m);
    } else {
      var r, n := Normalize(ms[0]), SpanLength(ms[1..]);
      var ids, span := Ids(Calls(r)), ms[1..n + 1];
      var found := Collect(span, ids, seen);
      if m in Answers(Calls(r), found, seen) {
        AnswersSource(Calls(r), found, seen, m);
        var id :| id in found && found[id] == m;
        CollectMeaning(span, ids, seen, id);
        assert m in span;
      } else if m in NonResults(span) {
        NonResultsMeaning(span);
      } else {
        RecordedWasThere(ms[n + 1..], seen + ids, m);
      }
    }
  }

  lemma {:induction false} AnswersHold(calls: seq<Call>, found: map<Id, Message>, seen: set<Id>, id: Id)
    requires id in Ids(calls) && id !in seen && id in found
    ensures found[id] in Answers(calls, found, seen)
  {
    if calls[0].id != id {
      assert id in Ids(calls[1..]);
      AnswersHold(calls[1..], found, if calls[0].id in seen then seen else seen + {calls[0].id}, id);
    }
  }

  /** The first result for an id in the span of a live turn, when no earlier live turn calls that id. */
  ghost predicate FirstAnswer(ms: seq<Message>, a: nat, j: nat) {
    && a < j < |ms| && ms[a].Assistant? && Live(Normalize(ms[a])) && Matches(ms[j], Ids(Calls(ms[a])))
    && (forall k: nat {:trigger TurnAt(ms, k)} :: a < k <= j ==> !TurnAt(ms, k))
    && (forall k: nat {:trigger ResultFor(ms, k, ms[j].id)} :: a < k < j ==> !ResultFor(ms, k, ms[j].id))
    && (forall k: nat {:trigger CalledAt(ms, k, ms[j])} :: k < a ==> !CalledAt(ms, k, ms[j]))
  }

  ghost predicate TurnAt(ms: seq<Message>, k: nat) {
    k < |ms| && ms[k].Assistant?
  }

  ghost predicate ResultFor(ms: seq<Message>, k: nat, id: Option<Id>) {
    k < |ms| && ms[k].ToolResult? && ms[k].id == id
  }

  ghost predicate CalledAt(ms: seq<Message>, k: nat, m: Message) {
    k < |ms| && Live(Normalize(ms[k])) && Matches(m, Ids(Calls(ms[k])))
  }

  /** Such a result is kept. */
  lemma {:induction false} FirstAnswerKept(ms: seq<Message>, seen: set<Id>, a: nat, j: nat)
    requires FirstAnswer(ms, a, j) && ms[j].id.value !in seen
    ensures ms[j] in Rebuild(ms, seen)
    decreases |ms|
  {
    var r := Normalize(ms[0]);
    NormalizeMeaning(ms[0]);
    if ms[0].ToolResult? || !Live(r) {
      FirstAnswerLater(ms, 1, a, j);
      FirstAnswerKept(ms[1..], seen, a - 1, j - 1);
    } else if a == 0 {
      FirstAnswerHere(ms, seen, j);
    } else {
      var drop := SpanLength(ms[1..]) + 1;
      PastSpan(ms, a);
      FirstAnswerLater(ms, drop, a, j);
      NotAnsweredYet(ms, seen, a, j);
      FirstAnswerKept(ms[drop..], seen + Ids(Calls(r)), a - drop, j - drop);
      RestKept(ms, seen, ms[drop..], seen + Ids(Calls(r)), ms[j]);
    }
  }

  lemma NotAnsweredYet(ms: seq<Message>, seen: set<Id>, a: nat, j: nat)
    requires FirstAnswer(ms, a, j) && 0 < a && Live(Normalize(ms[0])) && ms[j].id.value !in seen
    ensures ms[j].id.value !in seen + Ids(Calls(Normalize(ms[0])))
  {
    assert !CalledAt(ms, 0, ms[j]);
    NormalizeMeaning(ms[0]);
  }

  /** What is kept after the span of a live turn is kept. */
  lemma RestKept(ms: seq<Message>, seen: set<Id>, rest: seq<Message>, later: set<Id>, m: Message)
    requires ms != [] && !ms[0].ToolResult? && Live(Normalize(ms[0]))
    requires rest == ms[SpanLength(ms[1..]) + 1..] && later == seen + Ids(Calls(Normalize(ms[0])))
    requires m in Rebuild(rest, later)
    ensures m in Rebuild(ms, seen)
  {
    var front := EndsWithRest(ms, seen);
    InBack(front, Rebuild(rest, later), m);
  }

  lemma EndsWithRest(ms: seq<Message>, seen: set<Id>) returns (front: seq<Message>)
    requires ms != [] && !ms[0].ToolResult? && Live(Normalize(ms[0]))
    ensures Rebuild(ms, seen) == front + Rebuild(ms[SpanLength(ms[1..]) + 1..], seen + Ids(Calls(Normalize(ms[0]))))
  {
    var r, span := Normalize(ms[0]), ms[1..SpanLength(ms[1..]) + 1];
    front := [r] + Answers(Calls(r), Collect(span, Ids(Calls(r)), seen), seen) + NonResults(span);
  }

  lemma InBack<T>(front: seq<T>, back: seq<T>, x: T)
    requires x in back
    ensures x in front + back
  {
    var i :| 0 <= i < |back| && back[i] == x;
    assert (front + back)[|front| + i] == x;
  }

  lemma PastSpan(ms: seq<Message>, a: nat)
    requires 0 < a < |ms| && ms[a].Assistant?
    ensures a > SpanLength(ms[1..])
  {
    SpanMeaning(ms[1..]);
    var n := SpanLength(ms[1..]);
    forall k | 0 < k <= n ensures !ms[k].Assistant? {
      assert ms[k] == ms[1..][..n][k - 1];
    }
  }

  lemma FirstInSpan(ms: seq<Message>, j: nat)
    requires FirstAnswer(ms, 0, j)
    ensures var span := ms[1..SpanLength(ms[1..]) + 1]; FirstFor(span, j - 1, ms[j].id.value) && span[j - 1] == ms[j]
  {
    var n, id := SpanLength(ms[1..]), ms[j].id.value;
    var span := ms[1..n + 1];
    SpanMeaning(ms[1..]);
    if n < |ms[1..]| {
      assert ms[1..][n] == ms[n + 1] && TurnAt(ms, n + 1);
    }
    assert ms[j].id == Some(id) && j - 1 < |span| && span[j - 1] == ms[j];
    forall i | 0 <= i < j - 1 ensures !(span[i].ToolResult? && span[i].id == Some(id)) {
      assert span[i] == ms[i + 1] && !ResultFor(ms, i + 1, ms[j].id);
    }
    assert FirstFor(span, j - 1, id);
  }

  lemma FirstAnswerHere(ms: seq<Message>, seen: set<Id>, j: nat)
    requires FirstAnswer(ms, 0, j) && ms[j].id.value !in seen
    ensures ms[j] in Rebuild(ms, seen)
  {
    NormalizeMeaning(ms[0]);
    FirstInSpan(ms, j);
    AnswerKept(ms, seen, ms[1..SpanLength(ms[1..]) + 1], j - 1);
  }

  /** The first result in a live turn's span for a call not answered yet is kept. */
  lemma AnswerKept(ms: seq<Message>, seen: set<Id>, span: seq<Message>, k: nat)
    requires ms != [] && !ms[0].ToolResult? && Live(Normalize(ms[0])) && span == ms[1..SpanLength(ms[1..]) + 1]
    requires k < |span| && Matches(span[k], Ids(Calls(Normalize(ms[0])))) && span[k].id.value !in seen
    requires FirstFor(span, k, span[k].id.value)
    ensures span[k] in Rebuild(ms, seen)
  {
    var calls, id := Calls(Normalize(ms[0])), span[k].id.value;
    var found := Collect(span, Ids(calls), seen);
    CollectsFirst(span, Ids(calls), seen, k, id);
    AnswersHold(calls, found, seen, id);
    InTurn(ms, seen, span, span[k]);
  }

  lemma InTurn(ms: seq<Message>, seen: set<Id>, span: seq<Message>, m: Message)
    requires ms != [] && !ms[0].ToolResult? && Live(Normalize(ms[0])) && span == ms[1..SpanLength(ms[1..]) + 1]
    requires var calls := Calls(Normalize(ms[0])); m in Answers(calls, Collect(span, Ids(calls), seen), seen)
    ensures m in Rebuild(ms, seen)
  {
    var calls := Calls(Normalize(ms[0]));
    var back := Rebuild(ms[SpanLength(ms[1..]) + 1..], seen + Ids(calls));
    InMiddle([Normalize(ms[0])], Answers(calls, Collect(span, Ids(calls), seen), seen), NonResults(span), back, m);
  }

  lemma InMiddle<T>(a: seq<T>, b: seq<T>, c: seq<T>, d: seq<T>, x: T)
    requires x in b
    ensures x in a + b + c + d
  {
    var i :| 0 <= i < |b| && b[i] == x;
    assert (a + b + c + d)[|a| + i] == x;
  }

  lemma FirstAnswerLater(ms: seq<Message>, drop: nat, a: nat, j: nat)
    requires FirstAnswer(ms, a, j) && drop <= a
    ensures FirstAnswer(ms[drop..], a - drop, j - drop) && ms[drop..][j - drop] == ms[j]
  {
    var later := ms[drop..];
    assert later[a - drop] == ms[a] && later[j - drop] == ms[j];
    forall k: nat | a - drop < k <= j - drop ensures !TurnAt(later, k) {
      assert later[k] == ms[k + drop] && !TurnAt(ms, k + drop);
    }
    forall k: nat | a - drop < k < j - drop ensures !ResultFor(later, k, ms[j].id) {
      assert later[k] == ms[k + drop] && !ResultFor(ms, k + drop, ms[j].id);
    }
    forall k: nat | k < a - drop ensures !CalledAt(later, k, ms[j]) {
      assert later[k] == ms[k + drop] && !CalledAt(ms, k + drop, ms[j]);
    }
  }
}
