/** From the ordered context to the items that go into the prompt: fresh tail, then the budget walk. */
module AssemblySelection {
  import opened Sequences
  import opened ChunkSelection
  import opened TranscriptRepair
  import opened BudgetWalk

  datatype Entry = Entry(ordinal: int, tokens: nat, isMessage: bool, message: Message)

  datatype Mode = FullFit | PromptAware | Chronological

  /** Entries as the store returns them, by rising ordinal. */
  ghost predicate InOrder(entries: seq<Entry>) {
    && (forall i, j :: 0 <= i < j < |entries| ==> entries[i].ordinal < entries[j].ordinal)
    && (forall i :: 0 <= i < |entries| ==> entries[i].ordinal < EMPTY_FRESH_TAIL_ORDINAL)
  }

  function Tokens(entries: seq<Entry>): (ts: seq<nat>)
    ensures |ts| == |entries|
  {
    seq(|entries|, i requires 0 <= i < |entries| => entries[i].tokens)
  }

  /* ---- The fresh tail ---- */

  function RawEntries(entries: seq<Entry>): seq<Entry> {
    if entries == [] then []
    else
      var last := entries[|entries| - 1];
      if last.isMessage then RawEntries(entries[..|entries| - 1]) + [last] else RawEntries(entries[..|entries| - 1])
  }

  function Cap(maxTokens: Option<int>): Option<nat> {
    if maxTokens.Some? && maxTokens.value >= 0 then Some(maxTokens.value) else None
  }

  /** How many raw messages are protected; what that means is `IsProtectedTail`. */
  function ProtectedCount(entries: seq<Entry>, count: int, maxTokens: Option<int>): (p: nat)
    ensures p <= |RawEntries(entries)|
  {
    Protected(Tokens(RawEntries(entries)), count, Cap(maxTokens))
  }

  /** The ordinal of the oldest protected message. */
  function Boundary(entries: seq<Entry>, count: int, maxTokens: Option<int>): int {
    var raws, p := RawEntries(entries), ProtectedCount(entries, count, maxTokens);
    if p == 0 then EMPTY_FRESH_TAIL_ORDINAL else raws[|raws| - p].ordinal
  }

  method ResolveFreshTailOrdinal(entries: seq<Entry>, count: int, maxTokens: Option<int>) returns (boundary: int)
    ensures boundary == Boundary(entries, count, maxTokens)
  {
    boundary := EMPTY_FRESH_TAIL_ORDINAL;
    var raws, cap := RawEntries(entries), Cap(maxTokens);
    if count <= 0 || raws == [] {
      return;
    }
    ghost var ws := Tokens(raws);
    var taken: nat, total: nat := 0, 0;
    assert ws[..|ws|] == ws;
    while taken < |raws|
      invariant 0 <= taken <= |raws|
      invariant boundary == if taken == 0 then EMPTY_FRESH_TAIL_ORDINAL else raws[|raws| - taken].ordinal
      invariant ProtectedCount(entries, count, maxTokens) == taken + ProtectedFrom(ws[..|ws| - taken], count, cap, taken, total)
    {
      var next := raws[|raws| - 1 - taken];
      var older := ws[..|ws| - taken];
      assert older[|older| - 1] == next.tokens && older[..|older| - 1] == ws[..|ws| - (taken + 1)];
      if taken >= count || (taken > 0 && cap.Some? && total + next.tokens > cap.value) {
        break;
      }
      boundary, taken, total := next.ordinal, taken + 1, total + next.tokens;
    }
  }

  /* ---- Splitting ---- */

  function Below(entries: seq<Entry>, boundary: int): seq<Entry> {
    if entries == [] then []
    else
      var last := entries[|entries| - 1];
      if last.ordinal < boundary then Below(entries[..|entries| - 1], boundary) + [last]
      else Below(entries[..|entries| - 1], boundary)
  }

  function FromOn(entries: seq<Entry>, boundary: int): seq<Entry> {
    if entries == [] then []
    else
      var last := entries[|entries| - 1];
      if last.ordinal >= boundary then FromOn(entries[..|entries| - 1], boundary) + [last]
      else FromOn(entries[..|entries| - 1], boundary)
  }

  lemma InOrderInit(entries: seq<Entry>)
    requires InOrder(entries) && entries != []
    ensures InOrder(entries[..|entries| - 1])
    ensures forall e <- entries[..|entries| - 1] :: e.ordinal < entries[|entries| - 1].ordinal
  {
  }

  /** The boundary cuts the entries in two, losing none. */
  lemma {:induction false} SplitIsCut(entries: seq<Entry>, boundary: int)
    requires InOrder(entries)
    ensures Below(entries, boundary) + FromOn(entries, boundary) == entries
    ensures forall e <- Below(entries, boundary) :: e.ordinal < boundary
    ensures forall e <- FromOn(entries, boundary) :: e.ordinal >= boundary
  {
    if entries != [] {
      var init, last := entries[..|entries| - 1], entries[|entries| - 1];
      InOrderInit(entries);
      SplitIsCut(init, boundary);
      Snoc(entries);
      if last.ordinal < boundary {
        NothingFromOn(init, boundary);
      } else {
        Associative(Below(init, boundary), FromOn(init, boundary), [last]);
      }
    }
  }

  lemma {:induction false} NothingFromOn(entries: seq<Entry>, boundary: int)
    requires forall e <- entries :: e.ordinal < boundary
    ensures FromOn(entries, boundary) == []
  {
    if entries != [] {
      NothingFromOn(entries[..|entries| - 1], boundary);
    }
  }

  lemma {:induction false} RawBelongs(entries: seq<Entry>)
    requires InOrder(entries)
    ensures InOrder(RawEntries(entries)) && forall e <- RawEntries(entries) :: e in entries && e.isMessage
    ensures forall e <- entries :: e.isMessage ==> e in RawEntries(entries)
  {
    if entries != [] {
      InOrderInit(entries);
      RawBelongs(entries[..|entries| - 1]);
      Snoc(entries);
      RawSnoc(RawEntries(entries[..|entries| - 1]), entries[|entries| - 1]);
    }
  }

  lemma RawSnoc(raws: seq<Entry>, last: Entry)
    requires InOrder(raws) && (forall e <- raws :: e.ordinal < last.ordinal) && last.ordinal < EMPTY_FRESH_TAIL_ORDINAL
    ensures InOrder(raws + [last])
  {
    var more := raws + [last];
    forall i, j | 0 <= i < j < |more| ensures more[i].ordinal < more[j].ordinal {
      assert more[i] == raws[i] && raws[i] in raws;
    }
    forall i | 0 <= i < |more| ensures more[i].ordinal < EMPTY_FRESH_TAIL_ORDINAL {
      assert i < |raws| ==> more[i] == raws[i];
    }
  }

  /** The messages at or past the boundary are exactly the protected ones. */
  lemma TailIsProtected(entries: seq<Entry>, count: int, maxTokens: Option<int>, k: nat)
    requires InOrder(entries) && k < |RawEntries(entries)|
    ensures var raws := RawEntries(entries);
      raws[k].ordinal >= Boundary(entries, count, maxTokens) <==> k >= |raws| - ProtectedCount(entries, count, maxTokens)
  {
    RawBelongs(entries);
    OrdinalSplits(RawEntries(entries), ProtectedCount(entries, count, maxTokens), k);
  }

  lemma OrdinalSplits(raws: seq<Entry>, p: nat, k: nat)
    requires InOrder(raws) && p <= |raws| && k < |raws|
    ensures raws[k].ordinal >= (if p == 0 then EMPTY_FRESH_TAIL_ORDINAL else raws[|raws| - p].ordinal) <==> k >= |raws| - p
  {
  }

  /** The newest message always survives when anything may be protected. */
  lemma NewestSurvives(entries: seq<Entry>, count: int, maxTokens: Option<int>)
    requires InOrder(entries) && count > 0 && RawEntries(entries) != []
    ensures RawEntries(entries)[|RawEntries(entries)| - 1] in FromOn(entries, Boundary(entries, count, maxTokens))
  {
    var raws, boundary := RawEntries(entries), Boundary(entries, count, maxTokens);
    RawBelongs(entries);
    TailIsProtected(entries, count, maxTokens, |raws| - 1);
    SplitIsCut(entries, boundary);
    assert raws[|raws| - 1] in raws;
    assert raws[|raws| - 1] in Below(entries, boundary) + FromOn(entries, boundary);
  }

  /* ---- The budget walk ---- */

  lemma {:induction false} PickedIn<T>(xs: seq<T>, chosen: set<nat>)
    ensures forall x <- Picked(xs, chosen) :: x in xs
  {
    if xs != [] {
      PickedIn(xs[..|xs| - 1], chosen);
    }
  }

  lemma {:induction false} PickedTokens(entries: seq<Entry>, chosen: set<nat>)
    ensures Sum(Tokens(Picked(entries, chosen))) == Load(Tokens(entries), chosen)
  {
    if entries != [] {
      var last := |entries| - 1;
      var before := Picked(entries[..last], chosen);
      PickedTokens(entries[..last], chosen);
      assert Tokens(entries)[..last] == Tokens(entries[..last]);
      if last in chosen {
        assert Tokens(before + [entries[last]]) == Tokens(before) + [entries[last].tokens];
        SumAppend(Tokens(before), [entries[last].tokens]);
      }
    }
  }

  /** Insertion by ordinal, the step of the final sort. */
  function InsertByOrdinal(sorted: seq<Entry>, e: Entry): seq<Entry> {
    if sorted == [] || sorted[|sorted| - 1].ordinal <= e.ordinal then sorted + [e]
    else InsertByOrdinal(sorted[..|sorted| - 1], e) + [sorted[|sorted| - 1]]
  }

  lemma {:induction false} InsertIsPick(entries: seq<Entry>, chosen: set<nat>, i: nat)
    requires InOrder(entries) && i < |entries| && i !in chosen
    ensures InsertByOrdinal(Picked(entries, chosen), entries[i]) == Picked(entries, chosen + {i})
  {
    var last := |entries| - 1;
    var before := Picked(entries[..last], chosen);
    InOrderInit(entries);
    PickedIn(entries[..last], chosen);
    if i == last {
      assert before != [] ==> before[|before| - 1] in before;
      PickedSame(entries[..last], chosen, chosen + {i});
    } else {
      InsertIsPick(entries[..last], chosen, i);
      assert entries[..last][i] == entries[i];
      if last in chosen {
        assert (before + [entries[last]])[..|before|] == before;
      }
    }
  }

  lemma {:induction false} PickedSame<T>(xs: seq<T>, a: set<nat>, b: set<nat>)
    requires forall i: nat :: i < |xs| ==> (i in a <==> i in b)
    ensures Picked(xs, a) == Picked(xs, b)
  {
    if xs != [] {
      PickedSame(xs[..|xs| - 1], a, b);
    }
  }

  method SortByOrdinal(entries: seq<Entry>, kept: seq<nat>) returns (sorted: seq<Entry>)
    requires InOrder(entries) && Distinct(kept) && forall i <- kept :: i < |entries|
    ensures sorted == Picked(entries, Elements(kept))
  {
    sorted := [];
    PickedNothing(entries);
    assert Elements(kept[..0]) == {};
    for k := 0 to |kept|
      invariant sorted == Picked(entries, Elements(kept[..k]))
    {
      assert kept[k] in kept;
      assert kept[..k + 1] == kept[..k] + [kept[k]];
      assert Elements(kept[..k + 1]) == Elements(kept[..k]) + {kept[k]};
      assert kept[k] !in kept[..k];
      InsertIsPick(entries, Elements(kept[..k]), kept[k]);
      sorted := InsertByOrdinal(sorted, entries[kept[k]]);
    }
    assert kept[..|kept|] == kept;
  }

  /** The positions from `k` on. */
  ghost function Suffix(n: nat, k: nat): set<nat> {
    Everything(n) - Everything(k)
  }

  lemma {:induction false} SuffixPicked<T>(xs: seq<T>, n: nat, k: nat)
    requires k <= n && |xs| <= n
    ensures Picked(xs, Suffix(n, k)) == if k <= |xs| then xs[k..] else []
  {
    if xs != [] {
      SuffixPicked(xs[..|xs| - 1], n, k);
      if k < |xs| {
        assert xs[k..] == xs[..|xs| - 1][k..] + [xs[|xs| - 1]];
      }
    }
  }

  /** What each mode keeps of the evictable entries. */
  ghost predicate Keeps(mode: Mode, ts: seq<nat>, score: Option<nat -> real>, remaining: nat, chosen: set<nat>) {
    match mode
    case FullFit => Sum(ts) <= remaining && chosen == Everything(|ts|)
    case PromptAware => Sum(ts) > remaining && score.Some? && IsGreedy(ts, score.value, remaining, chosen)
    case Chronological => Sum(ts) > remaining && score.None? && exists k: nat :: IsLongestSuffix(ts, remaining, k) && chosen == Suffix(|ts|, k)
  }

  /** What the fresh tail leaves of the budget. */
  function Remaining(budget: int, tail: seq<Entry>): nat {
    Max(0, budget - Sum(Tokens(tail)))
  }

  /** `score` is given when the prompt is searchable and prompt-aware eviction is on. */
  method SelectWithinBudget(evictable: seq<Entry>, tail: seq<Entry>, budget: int, score: Option<nat -> real>)
      returns (kept: seq<Entry>, mode: Mode, ghost chosen: set<nat>)
    requires InOrder(evictable)
    ensures kept == Picked(evictable, chosen)
    ensures Keeps(mode, Tokens(evictable), score, Remaining(budget, tail), chosen)
    ensures Sum(Tokens(kept)) <= Remaining(budget, tail)
    ensures Sum(Tokens(evictable)) > Remaining(budget, tail) ==> mode == if score.Some? then PromptAware else Chronological
  {
    var ts := Tokens(evictable);
    var remaining := Remaining(budget, tail);
    if Sum(ts) <= remaining {
      PickedEverything(evictable, Everything(|ts|));
      return evictable, FullFit, Everything(|ts|);
    }
    if score.Some? {
      var positions := WalkRanked(ts, score.value, remaining);
      forall i <- positions ensures i < |evictable| {
        assert i in Elements(positions);
        assert Fits(ts, score.value, remaining, Elements(positions), i);
      }
      kept := SortByOrdinal(evictable, positions);
      PickedTokens(evictable, Elements(positions));
      return kept, PromptAware, Elements(positions);
    }
    var k := WalkChronological(ts, remaining);
    SuffixPicked(evictable, |ts|, k);
    assert Tokens(evictable[k..]) == ts[k..];
    return evictable[k..], Chronological, Suffix(|ts|, k);
  }
}
