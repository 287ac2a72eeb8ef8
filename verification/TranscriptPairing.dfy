/** What the rebuilt transcript guarantees, and that rebuilding it again changes nothing. */
module TranscriptPairing {
  import opened Sequences
  import opened TranscriptRepair

  /* ---- One turn ---- */

  /** Every entry is a result for its own key. */
  ghost predicate Keyed(found: map<Id, Message>) {
    forall id <- found :: found[id].ToolResult? && found[id].id == Some(id)
  }

  ghost predicate Results(ms: seq<Message>) {
    forall m <- ms :: m.ToolResult?
  }

  lemma {:induction false} AnswersMeaning(calls: seq<Call>, found: map<Id, Message>, seen: set<Id>)
    requires Keyed(found)
    ensures Results(Answers(calls, found, seen))
    ensures ResultIds(Answers(calls, found, seen)) == Somes(FreshIds(calls, seen))
  {
    if calls != [] {
      var id := calls[0].id;
      if id in seen {
        AnswersMeaning(calls[1..], found, seen);
      } else {
        AnswersMeaning(calls[1..], found, seen + {id});
        var rest, more := Answers(calls[1..], found, seen + {id}), FreshIds(calls[1..], seen + {id});
        var head := if id in found then found[id] else Synthetic(calls[0]);
        forall k | 0 <= k < |rest| + 1 ensures ResultIds([head] + rest)[k] == Somes([id] + more)[k] {
          assert k > 0 ==> ResultIds(rest)[k - 1] == Somes(more)[k - 1];
        }
      }
    }
  }

  /** The collected result for an id is the first one in the span. */
  ghost predicate FirstFor(span: seq<Message>, k: nat, id: Id) {
    && k < |span| && span[k].ToolResult? && span[k].id == Some(id)
    && forall j :: 0 <= j < k ==> !(span[j].ToolResult? && span[j].id == Some(id))
  }

  lemma {:induction false} CollectMeaning(span: seq<Message>, ids: set<Id>, seen: set<Id>, id: Id)
    ensures var found := Collect(span, ids, seen);
      && (id in found ==> id in ids && id !in seen && exists k: nat :: FirstFor(span, k, id) && found[id] == span[k])
      && (id in ids && id !in seen && id !in found ==>
            forall j :: 0 <= j < |span| ==> !(span[j].ToolResult? && span[j].id == Some(id)))
  {
    if span != [] {
      var last := |span| - 1;
      var init := span[..last];
      CollectMeaning(init, ids, seen, id);
      var before, found := Collect(init, ids, seen), Collect(span, ids, seen);
      if id in before {
        var k: nat :| FirstFor(init, k, id) && before[id] == init[k];
        assert FirstFor(span, k, id);
      } else if id in found {
        assert FirstFor(span, last, id);
      }
    }
  }

  lemma CollectKeyed(span: seq<Message>, ids: set<Id>, seen: set<Id>)
    ensures Keyed(Collect(span, ids, seen))
  {
    forall id <- Collect(span, ids, seen)
      ensures Collect(span, ids, seen)[id].ToolResult? && Collect(span, ids, seen)[id].id == Some(id)
    {
      CollectMeaning(span, ids, seen, id);
    }
  }

  lemma CollectsFirst(span: seq<Message>, ids: set<Id>, seen: set<Id>, k: nat, id: Id)
    requires FirstFor(span, k, id) && id in ids && id !in seen
    ensures id in Collect(span, ids, seen) && Collect(span, ids, seen)[id] == span[k]
  {
    CollectMeaning(span, ids, seen, id);
    if id in Collect(span, ids, seen) {
      var j: nat :| FirstFor(span, j, id) && Collect(span, ids, seen)[id] == span[j];
      assert j == k;
    }
  }

  /* ---- Messages that are neither results nor assistant turns ---- */

  predicate Bystander(m: Message) {
    m.Opaque? || m.Other?
  }

  ghost predicate Bystanders(ms: seq<Message>) {
    forall m <- ms :: Bystander(m)
  }

  ghost predicate NoAssistants(ms: seq<Message>) {
    forall m <- ms :: !m.Assistant?
  }

  lemma {:induction false} NonResultsMeaning(ms: seq<Message>)
    ensures forall m <- NonResults(ms) :: !m.ToolResult? && m in ms
    ensures NoAssistants(ms) ==> Bystanders(NonResults(ms))
  {
    if ms != [] {
      NonResultsMeaning(ms[..|ms| - 1]);
    }
  }

  lemma {:induction false} NonResultsHold(ms: seq<Message>, m: Message)
    requires m in ms && !m.ToolResult?
    ensures m in NonResults(ms)
  {
    Snoc(ms);
    if m != ms[|ms| - 1] {
      NonResultsHold(ms[..|ms| - 1], m);
    }
  }

  lemma {:induction false} SpanMeaning(ms: seq<Message>)
    ensures NoAssistants(ms[..SpanLength(ms)])
    ensures SpanLength(ms) < |ms| ==> ms[SpanLength(ms)].Assistant?
  {
    if ms != [] && !ms[0].Assistant? {
      SpanMeaning(ms[1..]);
      assert ms[..SpanLength(ms)] == [ms[0]] + ms[1..][..SpanLength(ms[1..])];
    }
  }

  lemma {:induction false} SpanIs(ms: seq<Message>, n: nat)
    requires n <= |ms| && NoAssistants(ms[..n]) && (n < |ms| ==> ms[n].Assistant?)
    ensures SpanLength(ms) == n
  {
    if n > 0 {
      assert ms[..n] == [ms[0]] + ms[1..][..n - 1];
      SpanIs(ms[1..], n - 1);
    }
  }

  lemma {:induction false} PairedPastBystanders(xs: seq<Message>, ys: seq<Message>, seen: set<Id>)
    requires Bystanders(xs)
    ensures Paired(xs + ys, seen) <==> Paired(ys, seen)
  {
    if xs == [] {
      assert xs + ys == ys;
    } else {
      assert Bystander(xs[0]);
      assert (xs + ys)[0] == xs[0] && (xs + ys)[1..] == xs[1..] + ys;
      PairedPastBystanders(xs[1..], ys, seen);
    }
  }

  /* ---- The rebuilt transcript is paired ---- */

  lemma {:induction false} RebuildHead(ms: seq<Message>, seen: set<Id>)
    ensures Rebuild(ms, seen) != [] ==> !Rebuild(ms, seen)[0].ToolResult?
    decreases |ms|
  {
    if ms != [] {
      NormalizeMeaning(ms[0]);
      if ms[0].ToolResult? {
        RebuildHead(ms[1..], seen);
      }
    }
  }

  ghost predicate ResultAt(ms: seq<Message>, k: nat) {
    k < |ms| && ms[k].ToolResult?
  }

  lemma {:induction false} LeadingMeaning(ms: seq<Message>)
    ensures forall k: nat {:trigger ResultAt(ms, k)} :: k < LeadingResults(ms) ==> ResultAt(ms, k)
    ensures !ResultAt(ms, LeadingResults(ms))
  {
    if ms != [] && ms[0].ToolResult? {
      LeadingMeaning(ms[1..]);
      forall k: nat | k < LeadingResults(ms) ensures ResultAt(ms, k) {
        assert k > 0 ==> ResultAt(ms[1..], k - 1);
      }
      assert !ResultAt(ms[1..], LeadingResults(ms[1..]));
    }
  }

  lemma {:induction false} LeadingAre(rs: seq<Message>, rest: seq<Message>)
    requires Results(rs) && (rest == [] || !rest[0].ToolResult?)
    ensures LeadingResults(rs + rest) == |rs|
  {
    if rs == [] {
      assert rs + rest == rest;
    } else {
      assert (rs + rest)[1..] == rs[1..] + rest;
      LeadingAre(rs[1..], rest);
    }
  }

  /** Slices of a turn followed by three runs. */
  lemma Parts<T>(m: T, a: seq<T>, b: seq<T>, c: seq<T>)
    ensures var s := [m] + a + b + c;
      && s[0] == m && s[1..] == a + (b + c) && s[1..] == (a + b) + c
      && s[1..|a| + 1] == a && s[|a| + 1..] == b + c
      && s[1..|a| + |b| + 1] == a + b && s[|a| + |b| + 1..] == c
  {
  }

  /** A turn with its results, then bystanders, then a paired transcript. */
  lemma PairedTurn(m: Message, answers: seq<Message>, others: seq<Message>, rest: seq<Message>, seen: set<Id>)
    requires Live(m) && !NeedsHoist(m) && Results(answers) && Bystanders(others)
    requires ResultIds(answers) == Somes(FreshIds(Calls(m), seen))
    requires (rest == [] || !rest[0].ToolResult?) && Paired(rest, seen + Ids(Calls(m)))
    ensures Paired([m] + answers + others + rest, seen)
  {
    Parts(m, answers, others, rest);
    assert others != [] ==> Bystander((others + rest)[0]);
    LeadingAre(answers, others + rest);
    PairedPastBystanders(others, rest, seen + Ids(Calls(m)));
  }

  /** How a live turn and its span are rebuilt. */
  lemma RebuildStep(m: Message, span: seq<Message>, rest: seq<Message>, seen: set<Id>)
    requires Live(Normalize(m)) && NoAssistants(span) && (rest == [] || rest[0].Assistant?)
    ensures var r := Normalize(m); var ids := Ids(Calls(r));
      Rebuild([m] + span + rest, seen) ==
      [r] + Answers(Calls(r), Collect(span, ids, seen), seen) + NonResults(span) + Rebuild(rest, seen + ids)
  {
    var ms := [m] + span + rest;
    assert ms[1..] == span + rest && ms[1..][..|span|] == span;
    SpanIs(ms[1..], |span|);
    assert ms[1..|span| + 1] == span && ms[|span| + 1..] == rest;
  }

  /** Whatever goes in, what is rebuilt is paired. */
  lemma {:induction false} RebuildIsPaired(ms: seq<Message>, seen: set<Id>)
    ensures Paired(Rebuild(ms, seen), seen)
    decreases |ms|
  {
    if ms != [] {
      var m := Normalize(ms[0]);
      NormalizeMeaning(ms[0]);
      if ms[0].ToolResult? {
        RebuildIsPaired(ms[1..], seen);
      } else if !Live(m) {
        RebuildIsPaired(ms[1..], seen);
        assert ([m] + Rebuild(ms[1..], seen))[1..] == Rebuild(ms[1..], seen);
      } else {
        var n, ids := SpanLength(ms[1..]), Ids(Calls(m));
        var span, rest := ms[1..n + 1], ms[n + 1..];
        SpanMeaning(ms[1..]);
        assert span == ms[1..][..n];
        NonResultsMeaning(span);
        CollectKeyed(span, ids, seen);
        AnswersMeaning(Calls(m), Collect(span, ids, seen), seen);
        RebuildIsPaired(rest, seen + ids);
        RebuildHead(rest, seen + ids);
        PairedTurn(m, Answers(Calls(m), Collect(span, ids, seen), seen), NonResults(span), Rebuild(rest, seen + ids), seen);
      }
    }
  }

  /* ---- A paired transcript is left alone ---- */

  lemma {:induction false} IdsMeaning(calls: seq<Call>)
    ensures Ids(calls) == set c <- calls :: c.id
  {
    if calls != [] {
      IdsMeaning(calls[1..]);
      assert forall c :: c in calls <==> c == calls[0] || c in calls[1..];
    }
  }

  lemma {:induction false} FreshMeaning(calls: seq<Call>, seen: set<Id>)
    ensures Distinct(FreshIds(calls, seen))
    ensures forall id :: id in FreshIds(calls, seen) <==> id in Ids(calls) && id !in seen
  {
    if calls != [] {
      var id := calls[0].id;
      FreshMeaning(calls[1..], if id in seen then seen else seen + {id});
    }
  }

  lemma {:induction false} AnswersExact(calls: seq<Call>, found: map<Id, Message>, seen: set<Id>, block: seq<Message>)
    requires Results(block) && ResultIds(block) == Somes(FreshIds(calls, seen))
    requires forall k :: 0 <= k < |block| ==> block[k].id.Some? && block[k].id.value in found && found[block[k].id.value] == block[k]
    ensures Answers(calls, found, seen) == block
  {
    if calls == [] {
      assert FreshIds(calls, seen) == [];
    } else {
      var id := calls[0].id;
      if id in seen {
        AnswersExact(calls[1..], found, seen, block);
      } else {
        var more := FreshIds(calls[1..], seen + {id});
        assert Somes([id] + more)[0] == Some(id);
        forall k | 0 <= k < |more| ensures ResultIds(block[1..])[k] == Somes(more)[k] {
          assert ResultIds(block)[k + 1] == Somes([id] + more)[k + 1];
        }
        AnswersExact(calls[1..], found, seen + {id}, block[1..]);
        assert ResultIds(block)[0] == Some(id);
      }
    }
  }

  /** Results of a paired block are collected one by one. */
  lemma CollectsBlock(block: seq<Message>, others: seq<Message>, calls: seq<Call>, seen: set<Id>, k: nat)
    requires Results(block) && ResultIds(block) == Somes(FreshIds(calls, seen)) && k < |block|
    ensures block[k].id.Some? && block[k].id.value in Collect(block + others, Ids(calls), seen)
    ensures Collect(block + others, Ids(calls), seen)[block[k].id.value] == block[k]
  {
    var ids := FreshIds(calls, seen);
    FreshMeaning(calls, seen);
    assert ResultIds(block)[k] == Somes(ids)[k] && ids[k] in ids;
    forall j | 0 <= j < k ensures block[j].id != Some(ids[k]) {
      assert ResultIds(block)[j] == Somes(ids)[j] && ids[j] != ids[k];
    }
    assert FirstFor(block + others, k, ids[k]);
    CollectsFirst(block + others, Ids(calls), seen, k, ids[k]);
  }

  lemma {:induction false} NonResultsAppend(a: seq<Message>, b: seq<Message>)
    ensures NonResults(a + b) == NonResults(a) + NonResults(b)
  {
    if b == [] {
      assert a + b == a;
    } else {
      assert (a + b)[..|a + b| - 1] == a + b[..|b| - 1];
      NonResultsAppend(a, b[..|b| - 1]);
    }
  }

  lemma {:induction false} NonResultsOf(rs: seq<Message>, others: seq<Message>)
    requires Results(rs) && Bystanders(others)
    ensures NonResults(rs) == [] && NonResults(others) == others
    decreases |rs| + |others|
  {
    if rs != [] {
      NonResultsOf(rs[..|rs| - 1], others);
    } else if others != [] {
      NonResultsOf(rs, others[..|others| - 1]);
      Snoc(others);
      assert Bystander(others[|others| - 1]);
    }
  }

  /** After a paired turn and its results only bystanders precede the next turn. */
  lemma {:induction false} PairedSpan(ms: seq<Message>, seen: set<Id>)
    requires Paired(ms, seen)
    ensures Bystanders(ms[..SpanLength(ms)]) && Paired(ms[SpanLength(ms)..], seen)
  {
    if ms != [] && !ms[0].Assistant? {
      PairedSpan(ms[1..], seen);
      var n := SpanLength(ms[1..]);
      assert ms[..n + 1] == [ms[0]] + ms[1..][..n] && ms[n + 1..] == ms[1..][n..];
    } else {
      assert ms[..0] == [] && ms[0..] == ms;
    }
  }

  lemma BlockIsAnswer(calls: seq<Call>, block: seq<Message>, others: seq<Message>, seen: set<Id>)
    requires Results(block) && Bystanders(others) && ResultIds(block) == Somes(FreshIds(calls, seen))
    ensures Answers(calls, Collect(block + others, Ids(calls), seen), seen) == block
    ensures NonResults(block + others) == others
  {
    forall k | 0 <= k < |block|
      ensures block[k].id.Some? && block[k].id.value in Collect(block + others, Ids(calls), seen)
      ensures Collect(block + others, Ids(calls), seen)[block[k].id.value] == block[k]
    {
      CollectsBlock(block, others, calls, seen, k);
    }
    AnswersExact(calls, Collect(block + others, Ids(calls), seen), seen, block);
    NonResultsAppend(block, others);
    NonResultsOf(block, others);
  }

  lemma RebuildTurn(m: Message, block: seq<Message>, others: seq<Message>, rest: seq<Message>, seen: set<Id>)
    requires Live(m) && !NeedsHoist(m) && Results(block) && Bystanders(others)
    requires rest == [] || rest[0].Assistant?
    requires ResultIds(block) == Somes(FreshIds(Calls(m), seen))
    requires Rebuild(rest, seen + Ids(Calls(m))) == rest
    ensures Rebuild([m] + block + others + rest, seen) == [m] + block + others + rest
  {
    Associative([m], block, others);
    RebuildStep(m, block + others, rest, seen);
    BlockIsAnswer(Calls(m), block, others, seen);
  }

  lemma Cut4<T>(ms: seq<T>, l: nat, k: nat)
    requires l + 1 + k <= |ms|
    ensures ms == [ms[0]] + ms[1..l + 1] + ms[l + 1..][..k] + ms[l + 1..][k..]
  {
  }

  lemma BlockResults(ms: seq<Message>)
    ensures Results(ms[..LeadingResults(ms)])
  {
    LeadingMeaning(ms);
    forall m <- ms[..LeadingResults(ms)] ensures m.ToolResult? {
      var k: nat :| k < LeadingResults(ms) && ms[k] == m;
      assert ResultAt(ms, k);
    }
  }

  lemma {:induction false} PairedIsFixed(ms: seq<Message>, seen: set<Id>)
    requires Paired(ms, seen)
    ensures Rebuild(ms, seen) == ms
    decreases |ms|
  {
    if ms != [] {
      var m := ms[0];
      if !Live(m) {
        PairedIsFixed(ms[1..], seen);
      } else {
        var l, ids := LeadingResults(ms[1..]), Ids(Calls(m));
        var block, tail := ms[1..l + 1], ms[l + 1..];
        var k := SpanLength(tail);
        BlockResults(ms[1..]);
        assert block == ms[1..][..l];
        PairedSpan(tail, seen + ids);
        SpanMeaning(tail);
        PairedIsFixed(tail[k..], seen + ids);
        RebuildTurn(m, block, tail[..k], tail[k..], seen);
        Cut4(ms, l, k);
      }
    }
  }

  /** Rebuilding leaves a transcript as it is exactly when it is paired. */
  lemma FixedIffPaired(ms: seq<Message>, seen: set<Id>)
    ensures Rebuild(ms, seen) == ms <==> Paired(ms, seen)
  {
    if Paired(ms, seen) {
      PairedIsFixed(ms, seen);
    } else {
      RebuildIsPaired(ms, seen);
    }
  }

  lemma RebuildIdempotent(ms: seq<Message>, seen: set<Id>)
    ensures Rebuild(Rebuild(ms, seen), seen) == Rebuild(ms, seen)
  {
    RebuildIsPaired(ms, seen);
    PairedIsFixed(Rebuild(ms, seen), seen);
  }
}
