/** When exactly the repair flags a change, by positions in the transcript. */
module TranscriptFlag {
  import opened Sequences
  import opened TranscriptRepair
  import opened TranscriptPairing
  import opened TranscriptGuarantees
  import opened TranscriptSanitizer

  /* ---- Spans by position ---- */

  /** An assistant turn that is neither errored nor aborted and calls some tool. */
  ghost predicate CallsAt(ms: seq<Message>, a: nat) {
    a < |ms| && ms[a].Assistant? && !ms[a].halted && Calls(ms[a]) != []
  }

  /** `j` comes after the turn at `a` and before the next one. */
  ghost predicate InSpan(ms: seq<Message>, a: nat, j: nat) {
    a < j < |ms| && forall k: nat {:trigger TurnAt(ms, k)} :: a < k <= j ==> !TurnAt(ms, k)
  }

  /** What stands in the span of a calling turn is a result for one of its calls. */
  ghost predicate OwnResult(ms: seq<Message>, a: nat, j: nat) {
    CallsAt(ms, a) && InSpan(ms, a, j) ==> ms[j].ToolResult? && ms[j].id.Some? && ms[j].id.value in Ids(Calls(ms[a]))
  }

  /** A result stands in the span of some calling turn. */
  ghost predicate Belongs(ms: seq<Message>, j: nat) {
    exists a: nat {:trigger InSpan(ms, a, j)} :: CallsAt(ms, a) && InSpan(ms, a, j)
  }

  /** The call has a result in its turn's span. */
  ghost predicate AnsweredAt(ms: seq<Message>, a: nat, x: nat) {
    CallsAt(ms, a) && x < |Calls(ms[a])| ==>
      exists j: nat {:trigger InSpan(ms, a, j)} :: InSpan(ms, a, j) && ms[j].ToolResult? && ms[j].id == Some(Calls(ms[a])[x].id)
  }

  /** Two calls, of one turn or of two, have the same id. */
  ghost predicate CalledTwice(ms: seq<Message>, a: nat, x: nat, b: nat, y: nat) {
    CallsAt(ms, a) && CallsAt(ms, b) && x < |Calls(ms[a])| && y < |Calls(ms[b])| && (a < b || (a == b && x < y))
    && Calls(ms[a])[x].id == Calls(ms[b])[y].id
  }

  ghost predicate OldCall(ms: seq<Message>, a: nat, x: nat, seen: set<Id>) {
    CallsAt(ms, a) && x < |Calls(ms[a])| && Calls(ms[a])[x].id in seen
  }

  ghost predicate HoistFree(ms: seq<Message>) {
    forall i: nat {:trigger HoistedAt(ms, i)} :: !HoistedAt(ms, i)
  }

  ghost predicate HoistedAt(ms: seq<Message>, i: nat) {
    i < |ms| && NeedsHoist(ms[i])
  }

  ghost predicate ResultsBelong(ms: seq<Message>) {
    forall j: nat {:trigger Belongs(ms, j)} :: j < |ms| && ms[j].ToolResult? ==> Belongs(ms, j)
  }

  ghost predicate SpansOwn(ms: seq<Message>) {
    forall a: nat, j: nat {:trigger OwnResult(ms, a, j)} :: OwnResult(ms, a, j)
  }

  ghost predicate AllAnswered(ms: seq<Message>) {
    forall a: nat, x: nat {:trigger AnsweredAt(ms, a, x)} :: AnsweredAt(ms, a, x)
  }

  ghost predicate NoneTwice(ms: seq<Message>) {
    forall a: nat, x: nat, b: nat, y: nat {:trigger CalledTwice(ms, a, x, b, y)} :: !CalledTwice(ms, a, x, b, y)
  }

  ghost predicate NoneOld(ms: seq<Message>, seen: set<Id>) {
    forall a: nat, x: nat {:trigger OldCall(ms, a, x, seen)} :: !OldCall(ms, a, x, seen)
  }

  /**
   Nothing needs a hoist, every result stands in the span of a turn with calls, such a span
   holds nothing but results for the turn's own calls, each call has one, and no id is
   called twice, nor one of `seen`.
   */
  ghost predicate InPlace(ms: seq<Message>, seen: set<Id>) {
    HoistFree(ms) && ResultsBelong(ms) && SpansOwn(ms) && AllAnswered(ms) && NoneTwice(ms) && NoneOld(ms, seen)
  }

  /* ---- The rest of a transcript, by position ---- */

  lemma CallsLater(ms: seq<Message>, d: nat, a: nat)
    requires d <= |ms|
    ensures CallsAt(ms[d..], a) <==> CallsAt(ms, a + d)
    ensures a < |ms[d..]| ==> ms[d..][a] == ms[a + d]
  {
  }

  lemma SpanLater(ms: seq<Message>, d: nat, a: nat, j: nat)
    requires d <= |ms|
    ensures InSpan(ms[d..], a, j) <==> InSpan(ms, a + d, j + d)
  {
    var rest := ms[d..];
    if InSpan(rest, a, j) {
      forall k: nat | a + d < k <= j + d ensures !TurnAt(ms, k) {
        assert !TurnAt(rest, k - d);
      }
    }
    if InSpan(ms, a + d, j + d) {
      forall k: nat | a < k <= j ensures !TurnAt(rest, k) {
        assert !TurnAt(ms, k + d);
      }
    }
  }

  /** Where the calls of what comes before `d` do not reach, the rest is judged by itself. */
  ghost predicate Cut(ms: seq<Message>, d: nat) {
    d <= |ms| && forall a: nat, j: nat {:trigger InSpan(ms, a, j)} :: a < d <= j && CallsAt(ms, a) ==> !InSpan(ms, a, j)
  }

  lemma BelongsLater(ms: seq<Message>, d: nat, j: nat)
    requires Cut(ms, d) && j < |ms| - d
    ensures Belongs(ms[d..], j) <==> Belongs(ms, j + d)
  {
    if Belongs(ms[d..], j) {
      var a: nat :| CallsAt(ms[d..], a) && InSpan(ms[d..], a, j);
      CallsLater(ms, d, a);
      SpanLater(ms, d, a, j);
    }
    if Belongs(ms, j + d) {
      var a: nat :| CallsAt(ms, a) && InSpan(ms, a, j + d);
      assert a >= d;
      CallsLater(ms, d, a - d);
      SpanLater(ms, d, a - d, j);
    }
  }

  lemma OwnLater(ms: seq<Message>, d: nat, a: nat, j: nat)
    requires d <= |ms|
    ensures OwnResult(ms[d..], a, j) <==> OwnResult(ms, a + d, j + d)
  {
    CallsLater(ms, d, a);
    CallsLater(ms, d, j);
    SpanLater(ms, d, a, j);
  }

  lemma AnsweredLater(ms: seq<Message>, d: nat, a: nat, x: nat)
    requires d <= |ms|
    ensures AnsweredAt(ms[d..], a, x) <==> AnsweredAt(ms, a + d, x)
  {
    var rest := ms[d..];
    CallsLater(ms, d, a);
    if CallsAt(ms, a + d) && x < |Calls(ms[a + d])| {
      if AnsweredAt(rest, a, x) {
        var j: nat :| InSpan(rest, a, j) && rest[j].ToolResult? && rest[j].id == Some(Calls(rest[a])[x].id);
        SpanLater(ms, d, a, j);
        assert ms[j + d] == rest[j];
      }
      if AnsweredAt(ms, a + d, x) {
        var j: nat :| InSpan(ms, a + d, j) && ms[j].ToolResult? && ms[j].id == Some(Calls(ms[a + d])[x].id);
        SpanLater(ms, d, a, j - d);
        assert rest[j - d] == ms[j];
      }
    }
  }

  lemma TwiceLater(ms: seq<Message>, d: nat, a: nat, x: nat, b: nat, y: nat)
    requires d <= |ms|
    ensures CalledTwice(ms[d..], a, x, b, y) <==> CalledTwice(ms, a + d, x, b + d, y)
  {
    CallsLater(ms, d, a);
    CallsLater(ms, d, b);
  }

  lemma OldLater(ms: seq<Message>, d: nat, a: nat, x: nat, seen: set<Id>)
    requires d <= |ms|
    ensures OldCall(ms[d..], a, x, seen) <==> OldCall(ms, a + d, x, seen)
  {
    CallsLater(ms, d, a);
  }

  /* ---- One message, or one turn with its span, and the rest ---- */

  /** Only the first of the `d` messages before the cut may be an assistant turn. */
  ghost predicate Head(ms: seq<Message>, d: nat) {
    && 0 < d && Cut(ms, d)
    && forall k: nat {:trigger TurnAt(ms, k)} :: 0 < k < d ==> !TurnAt(ms, k)
  }

  lemma HeadCalls(ms: seq<Message>, d: nat, a: nat)
    requires Head(ms, d) && CallsAt(ms, a)
    ensures a == 0 || a >= d
  {
    assert TurnAt(ms, a);
  }

  lemma HoistStep(ms: seq<Message>, d: nat)
    requires Head(ms, d)
    ensures HoistFree(ms) <==> !NeedsHoist(ms[0]) && HoistFree(ms[d..])
  {
    var rest := ms[d..];
    assert HoistedAt(ms, 0) <==> NeedsHoist(ms[0]);
    forall i: nat | HoistFree(ms) ensures !HoistedAt(rest, i) {
      assert !HoistedAt(ms, i + d);
    }
    forall i: nat | !NeedsHoist(ms[0]) && HoistFree(rest) ensures !HoistedAt(ms, i) {
      assert 0 < i < d ==> !TurnAt(ms, i);
      assert i >= d ==> !HoistedAt(rest, i - d);
    }
  }

  lemma BelongStep(ms: seq<Message>, d: nat)
    requires Head(ms, d)
    ensures ResultsBelong(ms) <==>
      (forall j: nat {:trigger Belongs(ms, j)} :: j < d && ms[j].ToolResult? ==> Belongs(ms, j)) && ResultsBelong(ms[d..])
  {
    var rest := ms[d..];
    forall j: nat | j < |rest| ensures Belongs(rest, j) <==> Belongs(ms, j + d) {
      BelongsLater(ms, d, j);
    }
    forall j: nat | ResultsBelong(ms) && j < |rest| && rest[j].ToolResult? ensures Belongs(rest, j) {
      assert Belongs(ms, j + d);
    }
    forall j: nat | ResultsBelong(rest) && d <= j < |ms| && ms[j].ToolResult? ensures Belongs(ms, j) {
      assert Belongs(rest, j - d) && rest[j - d] == ms[j];
    }
  }

  lemma OwnStep(ms: seq<Message>, d: nat)
    requires Head(ms, d)
    ensures SpansOwn(ms) <==> (forall j: nat {:trigger OwnResult(ms, 0, j)} :: OwnResult(ms, 0, j)) && SpansOwn(ms[d..])
  {
    var rest := ms[d..];
    forall a: nat, j: nat | SpansOwn(ms) ensures OwnResult(rest, a, j) {
      OwnLater(ms, d, a, j);
      assert OwnResult(ms, a + d, j + d);
    }
    forall a: nat, j: nat | SpansOwn(rest) && a > 0 ensures OwnResult(ms, a, j) {
      if CallsAt(ms, a) && InSpan(ms, a, j) {
        HeadCalls(ms, d, a);
        OwnLater(ms, d, a - d, j - d);
        assert OwnResult(rest, a - d, j - d);
      }
    }
  }

  lemma AnsweredStep(ms: seq<Message>, d: nat)
    requires Head(ms, d)
    ensures AllAnswered(ms) <==> (forall x: nat {:trigger AnsweredAt(ms, 0, x)} :: AnsweredAt(ms, 0, x)) && AllAnswered(ms[d..])
  {
    var rest := ms[d..];
    forall a: nat, x: nat | AllAnswered(ms) ensures AnsweredAt(rest, a, x) {
      AnsweredLater(ms, d, a, x);
      assert AnsweredAt(ms, a + d, x);
    }
    forall a: nat, x: nat | AllAnswered(rest) && a > 0 ensures AnsweredAt(ms, a, x) {
      if CallsAt(ms, a) {
        HeadCalls(ms, d, a);
        AnsweredLater(ms, d, a - d, x);
        assert AnsweredAt(rest, a - d, x);
      }
    }
  }

  lemma TwiceStep(ms: seq<Message>, d: nat)
    requires Head(ms, d)
    ensures NoneTwice(ms) <==>
      (forall x: nat, b: nat, y: nat {:trigger CalledTwice(ms, 0, x, b, y)} :: !CalledTwice(ms, 0, x, b, y)) && NoneTwice(ms[d..])
  {
    var rest := ms[d..];
    forall a: nat, x: nat, b: nat, y: nat | NoneTwice(ms) ensures !CalledTwice(rest, a, x, b, y) {
      TwiceLater(ms, d, a, x, b, y);
      assert !CalledTwice(ms, a + d, x, b + d, y);
    }
    forall a: nat, x: nat, b: nat, y: nat | NoneTwice(rest) && a > 0 ensures !CalledTwice(ms, a, x, b, y) {
      if CallsAt(ms, a) && CallsAt(ms, b) && b > 0 {
        HeadCalls(ms, d, a);
        HeadCalls(ms, d, b);
        TwiceLater(ms, d, a - d, x, b - d, y);
        assert !CalledTwice(rest, a - d, x, b - d, y);
      }
    }
  }

  lemma OldStep(ms: seq<Message>, d: nat, seen: set<Id>)
    requires Head(ms, d)
    ensures NoneOld(ms, seen) <==> (forall x: nat {:trigger OldCall(ms, 0, x, seen)} :: !OldCall(ms, 0, x, seen)) && NoneOld(ms[d..], seen)
  {
    var rest := ms[d..];
    forall a: nat, x: nat | NoneOld(ms, seen) ensures !OldCall(rest, a, x, seen) {
      OldLater(ms, d, a, x, seen);
      assert !OldCall(ms, a + d, x, seen);
    }
    forall a: nat, x: nat | NoneOld(rest, seen) && a > 0 ensures !OldCall(ms, a, x, seen) {
      if CallsAt(ms, a) {
        HeadCalls(ms, d, a);
        OldLater(ms, d, a - d, x, seen);
        assert !OldCall(rest, a - d, x, seen);
      }
    }
  }

  /** A message that is no turn with calls. */
  lemma SkipStep(ms: seq<Message>, seen: set<Id>)
    requires ms != [] && !CallsAt(ms, 0)
    ensures InPlace(ms, seen) <==> !ms[0].ToolResult? && !NeedsHoist(ms[0]) && InPlace(ms[1..], seen)
  {
    assert Head(ms, 1);
    HoistStep(ms, 1);
    BelongStep(ms, 1);
    OwnStep(ms, 1);
    AnsweredStep(ms, 1);
    TwiceStep(ms, 1);
    OldStep(ms, 1, seen);
    assert !Belongs(ms, 0);
  }

  /** The span of the first turn by position. */
  lemma FirstSpan(ms: seq<Message>, n: nat, j: nat)
    requires ms != [] && n == SpanLength(ms[1..])
    ensures InSpan(ms, 0, j) <==> 0 < j <= n
    ensures 0 < j <= n ==> ms[1..n + 1][j - 1] == ms[j] && !ms[j].Assistant?
  {
    SpanMeaning(ms[1..]);
    var rest := ms[1..];
    assert n < |rest| ==> rest[n] == ms[n + 1];
    forall k: nat | 0 < k <= n ensures !TurnAt(ms, k) {
      assert rest[..n][k - 1] == ms[k] && rest[..n][k - 1] in rest[..n];
    }
    if j > n && n + 1 < |ms| {
      assert TurnAt(ms, n + 1);
    }
  }

  lemma TurnHead(ms: seq<Message>, n: nat)
    requires CallsAt(ms, 0) && n == SpanLength(ms[1..])
    ensures n + 1 <= |ms| && Head(ms, n + 1)
  {
    forall k: nat | 0 < k < n + 1 ensures !TurnAt(ms, k) {
      FirstSpan(ms, n, k);
    }
    forall a: nat, j: nat | a < n + 1 <= j && CallsAt(ms, a) ensures !InSpan(ms, a, j) {
      FirstSpan(ms, n, a);
      FirstSpan(ms, n, j);
    }
  }

  /** Everything in the span is a result for one of the ids. */
  ghost predicate AllMatch(span: seq<Message>, ids: set<Id>) {
    forall m <- span {:trigger Matches(m, ids)} :: Matches(m, ids)
  }

  /** What stands in the first span answers the first turn's calls. */
  lemma OwnSpan(ms: seq<Message>, n: nat)
    requires CallsAt(ms, 0) && n == SpanLength(ms[1..])
    ensures (forall j: nat {:trigger OwnResult(ms, 0, j)} :: OwnResult(ms, 0, j)) <==> AllMatch(ms[1..n + 1], Ids(Calls(ms[0])))
  {
    var span, ids := ms[1..n + 1], Ids(Calls(ms[0]));
    forall m | m in span && forall j: nat {:trigger OwnResult(ms, 0, j)} :: OwnResult(ms, 0, j) ensures Matches(m, ids) {
      var k :| 0 <= k < |span| && span[k] == m;
      FirstSpan(ms, n, k + 1);
      assert OwnResult(ms, 0, k + 1);
    }
    forall j: nat | AllMatch(span, ids) ensures OwnResult(ms, 0, j) {
      FirstSpan(ms, n, j);
      if InSpan(ms, 0, j) {
        assert ms[j] in span && Matches(ms[j], ids);
      }
    }
  }

  lemma FirstBelong(ms: seq<Message>, n: nat)
    requires CallsAt(ms, 0) && n == SpanLength(ms[1..])
    ensures forall j: nat {:trigger Belongs(ms, j)} :: j < n + 1 && ms[j].ToolResult? ==> Belongs(ms, j)
  {
    forall j: nat | j < n + 1 && ms[j].ToolResult? ensures Belongs(ms, j) {
      FirstSpan(ms, n, j);
      assert InSpan(ms, 0, j);
    }
  }

  /** The first turn's calls are answered in its span. */
  lemma AnsweredSpan(ms: seq<Message>, n: nat, x: nat)
    requires CallsAt(ms, 0) && n == SpanLength(ms[1..]) && x < |Calls(ms[0])|
    ensures AnsweredAt(ms, 0, x) <==> AnsweredIn(ms[1..n + 1], Calls(ms[0])[x].id)
  {
    var span, id := ms[1..n + 1], Calls(ms[0])[x].id;
    if AnsweredAt(ms, 0, x) {
      var j: nat :| InSpan(ms, 0, j) && ms[j].ToolResult? && ms[j].id == Some(id);
      FirstSpan(ms, n, j);
      assert span[j - 1] == ms[j];
    }
    if AnsweredIn(span, id) {
      var k: nat :| k < |span| && span[k].ToolResult? && span[k].id == Some(id);
      FirstSpan(ms, n, k + 1);
      assert InSpan(ms, 0, k + 1) && ms[k + 1] == span[k];
    }
  }

  /** The first turn's calls are new and answered. */
  lemma NewCalls(ms: seq<Message>, n: nat, seen: set<Id>)
    requires CallsAt(ms, 0) && n == SpanLength(ms[1..])
    ensures (forall x: nat {:trigger AnsweredAt(ms, 0, x)} :: AnsweredAt(ms, 0, x))
            && (forall x: nat {:trigger OldCall(ms, 0, x, seen)} :: !OldCall(ms, 0, x, seen))
            <==> forall c <- Calls(ms[0]) {:trigger NewCall(c, ms[1..n + 1], seen)} :: NewCall(c, ms[1..n + 1], seen)
  {
    var calls, span := Calls(ms[0]), ms[1..n + 1];
    forall x: nat | x < |calls|
      ensures AnsweredAt(ms, 0, x) && !OldCall(ms, 0, x, seen) <==> NewCall(calls[x], span, seen)
    {
      AnsweredSpan(ms, n, x);
    }
    if forall c <- calls {:trigger NewCall(c, span, seen)} :: NewCall(c, span, seen) {
      forall x: nat ensures AnsweredAt(ms, 0, x) && !OldCall(ms, 0, x, seen) {
        if x < |calls| {
          assert NewCall(calls[x], span, seen);
        }
      }
    }
    if (forall x: nat {:trigger AnsweredAt(ms, 0, x)} :: AnsweredAt(ms, 0, x))
       && (forall x: nat {:trigger OldCall(ms, 0, x, seen)} :: !OldCall(ms, 0, x, seen)) {
      forall c <- calls ensures NewCall(c, span, seen) {
        var x: nat :| x < |calls| && calls[x] == c;
        assert AnsweredAt(ms, 0, x) && !OldCall(ms, 0, x, seen);
      }
    }
  }

  /** The first turn's ids are distinct and no later call repeats one. */
  lemma FreshCalls(ms: seq<Message>, d: nat, seen: set<Id>)
    requires CallsAt(ms, 0) && Head(ms, d)
    ensures (forall x: nat, b: nat, y: nat {:trigger CalledTwice(ms, 0, x, b, y)} :: !CalledTwice(ms, 0, x, b, y))
            && NoneOld(ms[d..], seen)
            <==> DistinctCalls(Calls(ms[0])) && NoneOld(ms[d..], seen + Ids(Calls(ms[0])))
  {
    var calls, rest := Calls(ms[0]), ms[d..];
    var all := seen + Ids(calls);
    forall b: nat, y: nat
      ensures OldCall(rest, b, y, all) <==>
        OldCall(rest, b, y, seen) || exists x: nat {:trigger CalledTwice(ms, 0, x, b + d, y)} :: CalledTwice(ms, 0, x, b + d, y)
    {
      LaterCall(ms, d, b, y, seen);
    }
    forall x: nat, y: nat ensures CalledTwice(ms, 0, x, 0, y) <==> SameCall(calls, x, y) {
    }
    if NoneOld(rest, all) && DistinctCalls(calls) {
      forall x: nat, b: nat, y: nat ensures !CalledTwice(ms, 0, x, b, y) {
        if CallsAt(ms, b) && b > 0 {
          HeadCalls(ms, d, b);
          assert !OldCall(rest, b - d, y, all) && b - d + d == b;
        } else {
          assert !SameCall(calls, x, y);
        }
      }
      forall b: nat, y: nat ensures !OldCall(rest, b, y, seen) {
        assert !OldCall(rest, b, y, all);
      }
    }
    if NoneOld(rest, seen) && forall x: nat, b: nat, y: nat {:trigger CalledTwice(ms, 0, x, b, y)} :: !CalledTwice(ms, 0, x, b, y) {
      forall x, y ensures !SameCall(calls, x, y) {
        assert 0 <= x && 0 <= y ==> !CalledTwice(ms, 0, x, 0, y);
      }
      forall b: nat, y: nat ensures !OldCall(rest, b, y, all) {
        assert !OldCall(rest, b, y, seen);
      }
    }
  }

  /** A later call with an old id repeats one of the first turn's or one of `seen`. */
  lemma LaterCall(ms: seq<Message>, d: nat, b: nat, y: nat, seen: set<Id>)
    requires CallsAt(ms, 0) && Head(ms, d)
    ensures OldCall(ms[d..], b, y, seen + Ids(Calls(ms[0]))) <==>
      OldCall(ms[d..], b, y, seen) || exists x: nat {:trigger CalledTwice(ms, 0, x, b + d, y)} :: CalledTwice(ms, 0, x, b + d, y)
  {
    var calls, rest := Calls(ms[0]), ms[d..];
    IdsMeaning(calls);
    CallsLater(ms, d, b);
    if OldCall(rest, b, y, seen + Ids(calls)) && !OldCall(rest, b, y, seen) {
      var c :| c in calls && c.id == Calls(rest[b])[y].id;
      var x: nat :| x < |calls| && calls[x] == c;
      assert CalledTwice(ms, 0, x, b + d, y);
    }
  }

  /** A turn with calls and its span. */
  lemma TurnStep(ms: seq<Message>, seen: set<Id>)
    requires CallsAt(ms, 0)
    ensures var n, calls := SpanLength(ms[1..]), Calls(ms[0]);
      InPlace(ms, seen) <==> !NeedsHoist(ms[0]) && QuietTurn(calls, ms[1..n + 1], seen) && InPlace(ms[n + 1..], seen + Ids(calls))
  {
    var n := SpanLength(ms[1..]);
    var d := n + 1;
    TurnHead(ms, n);
    HoistStep(ms, d);
    BelongStep(ms, d);
    FirstBelong(ms, n);
    OwnStep(ms, d);
    OwnSpan(ms, n);
    AnsweredStep(ms, d);
    TwiceStep(ms, d);
    OldStep(ms, d, seen);
    NewCalls(ms, n, seen);
    FreshCalls(ms, d, seen);
  }

  /** The repair flags no change exactly when everything is in place already. */
  lemma {:induction false} QuietIff(ms: seq<Message>, seen: set<Id>)
    ensures Quiet(ms, seen) <==> InPlace(ms, seen)
    decreases |ms|
  {
    if ms != [] {
      if CallsAt(ms, 0) {
        TurnStep(ms, seen);
        QuietIff(ms[SpanLength(ms[1..]) + 1..], seen + Ids(Calls(ms[0])));
      } else {
        SkipStep(ms, seen);
        QuietIff(ms[1..], seen);
      }
    }
  }

  /** A change is flagged although none is made exactly for a paired transcript with something out of place. */
  lemma NeedlessIff(ms: seq<Message>)
    ensures Rebuild(ms, {}) == ms && !Quiet(ms, {}) <==> Paired(ms, {}) && !InPlace(ms, {})
  {
    FixedIffPaired(ms, {});
    QuietIff(ms, {});
  }

  /** A user message after the result of a turn's one call is enough. */
  lemma FlaggedUnchanged()
    ensures var ms := [Assistant(Blocks([ToolCall(Some("a"), None, false)]), false),
                       ToolResult(Some("a"), Recorded("first")), Other("next")];
      Rebuild(ms, {}) == ms && !Quiet(ms, {})
  {
    var turn, one, next := Assistant(Blocks([ToolCall(Some("a"), None, false)]), false), ToolResult(Some("a"), Recorded("first")), Other("next");
    var ms := [turn, one, next];
    assert [ToolCall(Some("a"), None, false)][1..] == [];
    assert Calls(turn) == [Call("a", None)];
    assert ResultIds([one]) == Somes(FreshIds(Calls(turn), {})) by {
      assert [Call("a", None)][1..] == [];
    }
    PairedTurn(turn, [one], [next], [], {});
    assert [turn] + [one] + [next] + [] == ms;
    assert InSpan(ms, 0, 2) && !OwnResult(ms, 0, 2);
    NeedlessIff(ms);
  }
}
