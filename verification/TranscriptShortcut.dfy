/** What the caller gets when nothing is flagged and the input is handed back unchanged. */
module TranscriptShortcut {
  import opened Sequences
  import opened TranscriptRepair
  import opened TranscriptPairing
  import opened TranscriptGuarantees
  import opened TranscriptSanitizer

  method Sanitize(ms: seq<Message>) returns (r: seq<Message>)
    ensures r == if Quiet(ms, {}) then ms else Rebuild(ms, {})
  {
    var out, changed := Repair(ms);
    r := if changed then out else ms;
  }

  /** A position where either list has something other than a result: both agree on it, and on what came before up to order. */
  ghost predicate AlignedAt(xs: seq<Message>, ys: seq<Message>, i: nat)
    requires |xs| == |ys|
  {
    i < |xs| && !(xs[i].ToolResult? && ys[i].ToolResult?) ==> xs[i] == ys[i] && multiset(xs[..i]) == multiset(ys[..i])
  }

  /** The lists differ only by the order of results inside runs of results. */
  ghost predicate BlockPermuted(xs: seq<Message>, ys: seq<Message>) {
    && |xs| == |ys| && multiset(xs) == multiset(ys)
    && forall i: nat {:trigger AlignedAt(xs, ys, i)} :: AlignedAt(xs, ys, i)
  }

  ghost predicate UniqueResults(ms: seq<Message>) {
    forall p, q {:trigger SameId(ms, p, q)} :: !SameId(ms, p, q)
  }

  lemma UniqueSlice(ms: seq<Message>, i: nat, j: nat)
    requires UniqueResults(ms) && i <= j <= |ms|
    ensures UniqueResults(ms[i..j])
  {
    forall p, q ensures !SameId(ms[i..j], p, q) {
      assert !SameId(ms, p + i, q + i);
    }
  }

  /* ---- Permutations ---- */

  lemma {:induction false} DistinctCount<T>(xs: seq<T>, x: T)
    requires forall i, j :: 0 <= i < j < |xs| ==> xs[i] != xs[j]
    ensures multiset(xs)[x] == if x in xs then 1 else 0
  {
    if xs != [] {
      var init, last := xs[..|xs| - 1], xs[|xs| - 1];
      DistinctCount(init, x);
      Snoc(xs);
      assert last !in init;
    }
  }

  lemma DistinctSame<T>(xs: seq<T>, ys: seq<T>)
    requires forall i, j :: 0 <= i < j < |xs| ==> xs[i] != xs[j]
    requires forall i, j :: 0 <= i < j < |ys| ==> ys[i] != ys[j]
    requires forall x :: x in xs <==> x in ys
    ensures multiset(xs) == multiset(ys)
  {
    forall x ensures multiset(xs)[x] == multiset(ys)[x] {
      DistinctCount(xs, x);
      DistinctCount(ys, x);
    }
  }

  lemma SamePrefix(m: Message, b: seq<Message>, b': seq<Message>, r: seq<Message>, r': seq<Message>, k: nat)
    requires |b| == |b'| && multiset(b) == multiset(b') && k <= |r| == |r'| && multiset(r[..k]) == multiset(r'[..k])
    ensures multiset(([m] + b + r)[..|b| + 1 + k]) == multiset(([m] + b' + r')[..|b| + 1 + k])
  {
    assert ([m] + b + r)[..|b| + 1 + k] == [m] + b + r[..k];
    assert ([m] + b' + r')[..|b| + 1 + k] == [m] + b' + r'[..k];
  }

  lemma TurnPermuted(m: Message, b: seq<Message>, b': seq<Message>, r: seq<Message>, r': seq<Message>)
    requires Results(b) && Results(b') && multiset(b) == multiset(b') && BlockPermuted(r, r')
    ensures BlockPermuted([m] + b + r, [m] + b' + r')
  {
    var xs, ys := [m] + b + r, [m] + b' + r';
    assert |b| == |multiset(b)| == |b'|;
    assert r[..|r|] == r && r'[..|r|] == r' && xs[..|xs|] == xs && ys[..|xs|] == ys;
    SamePrefix(m, b, b', r, r', |r|);
    forall i: nat ensures AlignedAt(xs, ys, i) {
      if i == 0 {
        assert xs[..0] == ys[..0];
      } else if i <= |b| {
        assert xs[i] == b[i - 1] && ys[i] == b'[i - 1] && b[i - 1] in b && b'[i - 1] in b';
      } else if i < |xs| {
        var k := i - |b| - 1;
        assert AlignedAt(r, r', k) && xs[i] == r[k] && ys[i] == r'[k];
        if !(xs[i].ToolResult? && ys[i].ToolResult?) {
          SamePrefix(m, b, b', r, r', k);
        }
      }
    }
  }

  /* ---- One quiet turn ---- */

  lemma {:induction false} AnswersFound(calls: seq<Call>, found: map<Id, Message>, seen: set<Id>, m: Message)
    requires Answerable(calls, found, seen) && m in Answers(calls, found, seen)
    ensures m in found.Values
  {
    if m != Answers(calls, found, seen)[0] {
      AnswersFound(calls[1..], found, seen + {calls[0].id}, m);
    }
  }

  lemma AnswersDistinct(calls: seq<Call>, found: map<Id, Message>, seen: set<Id>)
    requires Keyed(found)
    ensures var a := Answers(calls, found, seen); forall i, j :: 0 <= i < j < |a| ==> a[i] != a[j]
  {
    var a, ids := Answers(calls, found, seen), FreshIds(calls, seen);
    AnswersMeaning(calls, found, seen);
    FreshMeaning(calls, seen);
    forall i, j | 0 <= i < j < |a| ensures a[i] != a[j] {
      assert ResultIds(a)[i] == Somes(ids)[i] && ResultIds(a)[j] == Somes(ids)[j];
    }
  }

  lemma SpanInAnswers(calls: seq<Call>, span: seq<Message>, seen: set<Id>, k: nat)
    requires QuietTurn(calls, span, seen) && UniqueResults(span) && k < |span|
    ensures span[k] in Answers(calls, Collect(span, Ids(calls), seen), seen)
  {
    IdsMeaning(calls);
    assert Matches(span[k], Ids(calls));
    var id := span[k].id.value;
    var c :| c in calls && c.id == id;
    assert NewCall(c, span, seen);
    forall j | 0 <= j < k ensures !(span[j].ToolResult? && span[j].id == Some(id)) {
      assert !SameId(span, j, k);
    }
    assert FirstFor(span, k, id);
    CollectsFirst(span, Ids(calls), seen, k, id);
    AnswersHold(calls, Collect(span, Ids(calls), seen), seen, id);
  }

  /** Without repeats the answers are the span's results in another order. */
  lemma QuietAnswers(calls: seq<Call>, span: seq<Message>, seen: set<Id>)
    requires calls != [] && NoAssistants(span) && QuietTurn(calls, span, seen) && UniqueResults(span)
    ensures multiset(Answers(calls, Collect(span, Ids(calls), seen), seen)) == multiset(span)
    ensures Results(span) && Results(Answers(calls, Collect(span, Ids(calls), seen), seen)) && NonResults(span) == []
  {
    var ids := Ids(calls);
    var found := Collect(span, ids, seen);
    var a := Answers(calls, found, seen);
    TurnFlag(calls, span, seen);
    CollectKeyed(span, ids, seen);
    AnswersMeaning(calls, found, seen);
    AnswersDistinct(calls, found, seen);
    NonResultsEmpty(span);
    forall m <- span ensures m.ToolResult? {
      assert Matches(m, ids);
    }
    forall i, j | 0 <= i < j < |span| ensures span[i] != span[j] {
      assert !SameId(span, i, j);
    }
    forall m | m in a ensures m in span {
      AnswersFound(calls, found, seen, m);
      var id :| id in found && found[id] == m;
      CollectMeaning(span, ids, seen, id);
    }
    forall m | m in span ensures m in a {
      var k :| 0 <= k < |span| && span[k] == m;
      SpanInAnswers(calls, span, seen, k);
    }
    DistinctSame(a, span);
  }

  /** An unflagged transcript without repeated results differs from the rebuilt one only inside blocks. */
  lemma {:induction false} QuietPermuted(ms: seq<Message>, seen: set<Id>)
    requires Quiet(ms, seen) && UniqueResults(ms)
    ensures BlockPermuted(ms, Rebuild(ms, seen))
    decreases |ms|
  {
    if ms == [] {
      assert forall i: nat :: AlignedAt([], [], i);
    } else if !Live(ms[0]) {
      UniqueSuffix(ms, 1);
      QuietPermuted(ms[1..], seen);
      QuietOtherPermuted(ms[0], ms[1..], seen);
      HeadTail(ms);
    } else {
      var n := SpanLength(ms[1..]);
      SpanCut(ms, 0, n + 1);
      assert ms[0..] == ms;
      UniqueSlice(ms, 1, n + 1);
      UniqueSuffix(ms, n + 1);
      QuietPermuted(ms[n + 1..], seen + Ids(Calls(ms[0])));
      QuietTurnPermuted(ms[0], ms[1..n + 1], ms[n + 1..], seen);
    }
  }

  lemma UniqueSuffix(ms: seq<Message>, i: nat)
    requires UniqueResults(ms) && i <= |ms|
    ensures UniqueResults(ms[i..])
  {
    UniqueSlice(ms, i, |ms|);
    assert ms[i..|ms|] == ms[i..];
  }

  lemma QuietOtherPermuted(m: Message, rest: seq<Message>, seen: set<Id>)
    requires !m.ToolResult? && !NeedsHoist(m) && !Live(m) && BlockPermuted(rest, Rebuild(rest, seen))
    ensures BlockPermuted([m] + rest, Rebuild([m] + rest, seen))
  {
    QuietBystander(m, rest, seen);
    TurnPermuted(m, [], [], rest, Rebuild(rest, seen));
    assert [m] + [] == [m];
  }

  lemma QuietTurnPermuted(m: Message, span: seq<Message>, rest: seq<Message>, seen: set<Id>)
    requires Live(m) && !NeedsHoist(m) && NoAssistants(span) && (rest == [] || rest[0].Assistant?)
    requires QuietTurn(Calls(m), span, seen) && UniqueResults(span)
    requires BlockPermuted(rest, Rebuild(rest, seen + Ids(Calls(m))))
    ensures BlockPermuted([m] + span + rest, Rebuild([m] + span + rest, seen))
  {
    var answers := Answers(Calls(m), Collect(span, Ids(Calls(m)), seen), seen);
    RebuildStep(m, span, rest, seen);
    QuietAnswers(Calls(m), span, seen);
    TurnPermuted(m, span, answers, rest, Rebuild(rest, seen + Ids(Calls(m))));
    assert [m] + answers + [] == [m] + answers;
  }

  lemma RebuiltUnique(ms: seq<Message>, seen: set<Id>)
    ensures UniqueResults(Rebuild(ms, seen))
  {
    var out := Rebuild(ms, seen);
    RebuildIsPaired(ms, seen);
    forall p, q ensures !SameId(out, p, q) {
      if SameId(out, p, q) {
        ResultsUnique(out, seen, p, q);
      }
    }
  }

  lemma {:induction false} TwoPositions<T>(xs: seq<T>, x: T) returns (p: nat, q: nat)
    requires multiset(xs)[x] >= 2
    ensures p < q < |xs| && xs[p] == x && xs[q] == x
  {
    var init, last := xs[..|xs| - 1], xs[|xs| - 1];
    Snoc(xs);
    if multiset(init)[x] >= 2 {
      p, q := TwoPositions(init, x);
    } else {
      assert x in multiset(init);
      p :| p < |init| && init[p] == x;
      q := |init|;
    }
  }

  lemma TwiceCounted<T>(xs: seq<T>, p: nat, q: nat)
    requires p < q < |xs| && xs[p] == xs[q]
    ensures multiset(xs)[xs[p]] >= 2
  {
    assert xs == xs[..q] + xs[q..];
    assert xs[p] == xs[..q][p] && xs[p] == xs[q..][0];
    assert xs[p] in multiset(xs[..q]) && xs[p] in multiset(xs[q..]);
  }

  lemma SameIdTransfers(xs: seq<Message>, ys: seq<Message>, p: nat, q: nat) returns (i: nat, j: nat)
    requires multiset(xs) == multiset(ys) && SameId(xs, p, q)
    ensures SameId(ys, i, j)
  {
    if xs[p] == xs[q] {
      TwiceCounted(xs, p, q);
      i, j := TwoPositions(ys, xs[p]);
    } else {
      assert xs[p] in multiset(ys) && xs[q] in multiset(ys);
      i :| i < |ys| && ys[i] == xs[p];
      j :| j < |ys| && ys[j] == xs[q];
      if j < i {
        i, j := j, i;
      }
    }
  }

  lemma UniqueTransfers(xs: seq<Message>, ys: seq<Message>)
    requires multiset(xs) == multiset(ys) && UniqueResults(ys)
    ensures UniqueResults(xs)
  {
    forall p, q ensures !SameId(xs, p, q) {
      if SameId(xs, p, q) {
        var i, j := SameIdTransfers(xs, ys, p, q);
      }
    }
  }

  /**
   The list handed back always equals the rebuilt one up to the order of results
   inside blocks, except when nothing is flagged and two results share an id.
   */
  lemma HandedBackIff(ms: seq<Message>)
    ensures BlockPermuted(if Quiet(ms, {}) then ms else Rebuild(ms, {}), Rebuild(ms, {})) <==>
      !Quiet(ms, {}) || UniqueResults(ms)
  {
    if !Quiet(ms, {}) {
      assert forall i: nat :: AlignedAt(Rebuild(ms, {}), Rebuild(ms, {}), i);
    } else if UniqueResults(ms) {
      QuietPermuted(ms, {});
    } else {
      RebuiltUnique(ms, {});
      if multiset(ms) == multiset(Rebuild(ms, {})) {
        UniqueTransfers(ms, Rebuild(ms, {}));
      }
    }
  }

  /* ---- The order of results inside a block ---- */

  function CallIds(calls: seq<Call>): (ids: seq<Id>)
    ensures |ids| == |calls|
  {
    seq(|calls|, i requires 0 <= i < |calls| => calls[i].id)
  }

  /** After every live turn, up to the next turn, stand just the results of its calls, in call order. */
  ghost predicate InCallOrder(ms: seq<Message>)
    decreases |ms|
  {
    ms == [] ||
    (if !Live(ms[0]) then InCallOrder(ms[1..])
     else
       var n := SpanLength(ms[1..]);
       ResultIds(ms[1..n + 1]) == Somes(CallIds(Calls(ms[0]))) && InCallOrder(ms[n + 1..]))
  }

  lemma {:induction false} FreshAll(calls: seq<Call>, seen: set<Id>)
    requires DistinctCalls(calls) && forall c <- calls :: c.id !in seen
    ensures FreshIds(calls, seen) == CallIds(calls)
  {
    if calls != [] {
      var rest := calls[1..];
      forall c <- rest ensures c.id !in seen + {calls[0].id} {
        var k :| 0 <= k < |rest| && rest[k] == c;
        assert calls[k + 1] == c && calls[k + 1] in calls && !SameCall(calls, 0, k + 1);
      }
      forall i, j ensures !SameCall(rest, i, j) {
        assert !SameCall(calls, i + 1, j + 1);
      }
      FreshAll(rest, seen + {calls[0].id});
      assert CallIds(calls) == [calls[0].id] + CallIds(rest);
    }
  }

  /** An unflagged transcript is paired exactly when its results stand in call order. */
  lemma {:induction false} QuietPairedIff(ms: seq<Message>, seen: set<Id>)
    requires Quiet(ms, seen)
    ensures Paired(ms, seen) <==> InCallOrder(ms)
    decreases |ms|
  {
    if ms != [] {
      if !Live(ms[0]) {
        QuietPairedIff(ms[1..], seen);
      } else {
        var n := SpanLength(ms[1..]);
        QuietPairedIff(ms[n + 1..], seen + Ids(Calls(ms[0])));
        QuietBlock(ms, seen, n);
        QuietTurnPairedIff(ms, seen, n);
      }
    }
  }

  lemma QuietTurnPairedIff(ms: seq<Message>, seen: set<Id>, n: nat)
    requires ms != [] && Live(ms[0]) && !NeedsHoist(ms[0]) && LeadingResults(ms[1..]) == n
    requires FreshIds(Calls(ms[0]), seen) == CallIds(Calls(ms[0]))
    ensures Paired(ms, seen) <==>
      ResultIds(ms[1..n + 1]) == Somes(CallIds(Calls(ms[0]))) && Paired(ms[n + 1..], seen + Ids(Calls(ms[0])))
  {
    LivePairedIff(ms, seen, ms[1..n + 1], ms[n + 1..]);
  }

  lemma LivePairedIff(ms: seq<Message>, seen: set<Id>, block: seq<Message>, rest: seq<Message>)
    requires ms != [] && Live(ms[0]) && !NeedsHoist(ms[0])
    requires block == ms[1..LeadingResults(ms[1..]) + 1] && rest == ms[LeadingResults(ms[1..]) + 1..]
    ensures Paired(ms, seen) <==>
      ResultIds(block) == Somes(FreshIds(Calls(ms[0]), seen)) && Paired(rest, seen + Ids(Calls(ms[0])))
  {
  }

  /** The span of a quiet turn is its block of results, and all its calls are new. */
  lemma QuietBlock(ms: seq<Message>, seen: set<Id>, n: nat)
    requires ms != [] && Live(ms[0]) && n == SpanLength(ms[1..]) && Quiet(ms, seen)
    ensures LeadingResults(ms[1..]) == n && FreshIds(Calls(ms[0]), seen) == CallIds(Calls(ms[0]))
  {
    SliceAfterFirst(ms, n);
    QuietLeads(Calls(ms[0]), ms[1..], ms[1..n + 1], seen);
    QuietCallsFresh(Calls(ms[0]), ms[1..n + 1], seen);
  }

  lemma SliceAfterFirst<T>(xs: seq<T>, n: nat)
    requires n < |xs|
    ensures xs[1..n + 1] == xs[1..][..n]
  {
  }

  lemma QuietCallsFresh(calls: seq<Call>, span: seq<Message>, seen: set<Id>)
    ensures QuietTurn(calls, span, seen) ==> FreshIds(calls, seen) == CallIds(calls)
  {
    if QuietTurn(calls, span, seen) {
      forall c <- calls ensures c.id !in seen {
        assert NewCall(c, span, seen);
      }
      FreshAll(calls, seen);
    }
  }

  lemma QuietLeads(calls: seq<Call>, later: seq<Message>, span: seq<Message>, seen: set<Id>)
    requires span == later[..SpanLength(later)]
    ensures QuietTurn(calls, span, seen) ==> LeadingResults(later) == |span|
  {
    if QuietTurn(calls, span, seen) {
      forall m <- span ensures m.ToolResult? {
        assert Matches(m, Ids(calls));
      }
      SpanMeaning(later);
      assert later == span + later[|span|..];
      LeadingAre(span, later[|span|..]);
    }
  }

  /** What is handed back is paired exactly when the repair flagged a change or the results stood in call order already. */
  lemma HandedBackPairedIff(ms: seq<Message>)
    ensures Paired(if Quiet(ms, {}) then ms else Rebuild(ms, {}), {}) <==> !Quiet(ms, {}) || InCallOrder(ms)
  {
    if Quiet(ms, {}) {
      QuietPairedIff(ms, {});
    } else {
      RebuildIsPaired(ms, {});
    }
  }

  /** One quiet turn, alone in its transcript. */
  lemma LoneTurn(turn: Message, span: seq<Message>)
    requires Live(turn) && !NeedsHoist(turn) && NoAssistants(span) && QuietTurn(Calls(turn), span, {})
    ensures Quiet([turn] + span, {})
    ensures Paired([turn] + span, {}) <==> ResultIds(span) == Somes(CallIds(Calls(turn)))
  {
    var ms := [turn] + span;
    QuietStepOnly(turn, span);
    assert [turn] + span + [] == ms;
    QuietPairedIff(ms, {});
    assert ms[1..] == span && span[..|span|] == span;
    SpanIs(span, |span|);
    assert ms[1..|span| + 1] == span && ms[|span| + 1..] == [];
  }

  const SWAPPED_CALLS := Assistant(Blocks([ToolCall(Some("a"), None, false), ToolCall(Some("b"), None, false)]), false)
  const SWAPPED_RESULTS := [ToolResult(Some("b"), Recorded("second")), ToolResult(Some("a"), Recorded("first"))]

  lemma SwappedTurn()
    ensures Calls(SWAPPED_CALLS) == [Call("a", None), Call("b", None)]
    ensures QuietTurn(Calls(SWAPPED_CALLS), SWAPPED_RESULTS, {})
  {
    var x, y := ToolCall(Some("a"), None, false), ToolCall(Some("b"), None, false);
    CallsCons(x, [y]);
    CallsCons(y, []);
    assert [x] + [y] == [x, y] && [y] + [] == [y];
    var calls := Calls(SWAPPED_CALLS);
    assert "a"[0] != "b"[0];
    assert calls[0] in calls && calls[1] in calls;
    assert SWAPPED_RESULTS[1].id == Some("a") && SWAPPED_RESULTS[0].id == Some("b");
    assert AnsweredIn(SWAPPED_RESULTS, "a") && AnsweredIn(SWAPPED_RESULTS, "b");
  }

  /** Results that stand in the wrong order go unflagged, with no id repeated. */
  lemma OrderUnflagged()
    ensures var ms := [SWAPPED_CALLS] + SWAPPED_RESULTS;
      Quiet(ms, {}) && UniqueResults(ms) && !Paired(ms, {})
  {
    SwappedTurn();
    LoneTurn(SWAPPED_CALLS, SWAPPED_RESULTS);
    assert "a"[0] != "b"[0];
    assert ResultIds(SWAPPED_RESULTS)[0] == Some("b") && Somes(CallIds(Calls(SWAPPED_CALLS)))[0] == Some("a");
  }

  /** A second result for one id inside one span goes unflagged and stays in the transcript. */
  lemma RepeatUnflagged()
    ensures var ms := [Assistant(Blocks([ToolCall(Some("a"), None, false)]), false),
                       ToolResult(Some("a"), Recorded("first")), ToolResult(Some("a"), Recorded("second"))];
      Quiet(ms, {}) && Rebuild(ms, {}) == ms[..2] && !Paired(ms, {})
  {
    var turn := Assistant(Blocks([ToolCall(Some("a"), None, false)]), false);
    var one, two := ToolResult(Some("a"), Recorded("first")), ToolResult(Some("a"), Recorded("second"));
    var ms, span := [turn, one, two], [one, two];
    assert [ToolCall(Some("a"), None, false)][1..] == [];
    assert Calls(turn) == [Call("a", None)] && Normalize(turn) == turn;
    assert ms == [turn] + span + [] && Ids(Calls(turn)) == {"a"};
    RebuildStep(turn, span, [], {});
    assert FirstFor(span, 0, "a");
    CollectsFirst(span, {"a"}, {}, 0, "a");
    NonResultsOf(span, []);
    assert AnsweredIn(span, "a") by {
      assert span[0].id == Some("a");
    }
    QuietStepOnly(turn, span);
    FixedIffPaired(ms, {});
  }

  lemma QuietStepOnly(m: Message, span: seq<Message>)
    requires Live(m) && !NeedsHoist(m) && NoAssistants(span) && QuietTurn(Calls(m), span, {})
    ensures Quiet([m] + span + [], {})
  {
    QuietStep(m, span, [], {});
    TurnFlag(Calls(m), span, {});
  }
}
