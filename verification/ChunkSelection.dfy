/**
 The two list walks of compaction: the greedy chunk taken from the old end of the
 context and the protected tail counted back from its new end.
 */
module ChunkSelection {
  import opened Sequences

  /** A weight per context position; `None` marks a position that cannot join the chunk. */
  type Weights = seq<Option<nat>>

  function Values(ws: Weights): seq<int> {
    seq(|ws|, i requires 0 <= i < |ws| => if ws[i].Some? then ws[i].value else 0)
  }

  function FirstEligible(ws: Weights): (start: nat)
    ensures start <= |ws|
    ensures start < |ws| ==> ws[start].Some?
  {
    if ws == [] || ws[0].Some? then 0 else 1 + FirstEligible(ws[1..])
  }

  /** How many more positions a walk takes that already holds `taken` of weight `total`. */
  function Greedy(ws: Weights, taken: nat, total: nat, cap: nat): (n: nat)
    ensures n <= |ws|
    decreases |ws|
  {
    if ws == [] || ws[0].None? then 0
    else if taken > 0 && total + ws[0].value > cap then 0
    else if total + ws[0].value >= cap then 1
    else 1 + Greedy(ws[1..], taken + 1, total + ws[0].value, cap)
  }

  datatype Chunk = Chunk(start: nat, length: nat)

  function Select(ws: Weights, cap: nat): (c: Chunk)
    ensures c.start + c.length <= |ws|
    ensures c.length == 0 <==> c.start == |ws|
  {
    var start := FirstEligible(ws);
    Chunk(start, Greedy(ws[start..], 0, 0, cap))
  }

  lemma {:induction false} NoneBefore(ws: Weights, k: nat)
    requires k < FirstEligible(ws)
    ensures ws[k].None?
  {
    if k > 0 {
      NoneBefore(ws[1..], k - 1);
    }
  }

  lemma {:induction false} GreedyTakes(ws: Weights, taken: nat, total: nat, cap: nat, k: nat)
    requires k < Greedy(ws, taken, total, cap)
    ensures ws[k].Some?
    decreases k
  {
    if k > 0 {
      GreedyTakes(ws[1..], taken + 1, total + ws[0].value, cap, k - 1);
    }
  }

  /** Nothing before the chunk is eligible, everything in it is. */
  lemma SelectEligible(ws: Weights, cap: nat)
    ensures var c := Select(ws, cap);
      && (forall k :: 0 <= k < c.start ==> ws[k].None?)
      && (forall k :: c.start <= k < c.start + c.length ==> ws[k].Some?)
  {
    var c := Select(ws, cap);
    forall k | 0 <= k < c.start ensures ws[k].None? {
      NoneBefore(ws, k);
    }
    forall k | c.start <= k < c.start + c.length ensures ws[k].Some? {
      GreedyTakes(ws[c.start..], 0, 0, cap, k - c.start);
    }
  }

  ghost function ChunkTotal(ws: Weights, c: Chunk): int
    requires c.start + c.length <= |ws|
  {
    Sum(Values(ws)[c.start..c.start + c.length])
  }

  /** The first `k` positions from `start` on stay below the cap. */
  ghost predicate Short(ws: Weights, start: nat, k: nat, cap: nat) {
    start + k <= |ws| && ChunkTotal(ws, Chunk(start, k)) < cap
  }

  ghost predicate AllShort(ws: Weights, start: nat, n: int, cap: nat) {
    forall k: nat {:trigger Short(ws, start, k, cap)} :: 0 < k < n ==> Short(ws, start, k, cap)
  }

  /** From `start`, a walk over eligible positions ends after `n` of them. */
  ghost predicate WalkEnds(ws: Weights, start: nat, n: nat, cap: nat) {
    && 0 < n && start + n <= |ws|
    && (n > 1 ==> ChunkTotal(ws, Chunk(start, n)) <= cap)
    && AllShort(ws, start, n, cap)
    && (start + n < |ws| && ws[start + n].Some? && Short(ws, start, n, cap) ==> ChunkTotal(ws, Chunk(start, n + 1)) > cap)
  }

  /**
   The chunk by its meaning: it starts at the oldest eligible position, holds at
   least one, stays within the cap unless it is a single oversize position, never
   goes on once the cap is reached, and stops only where it has to.
   */
  ghost predicate IsOldestChunk(ws: Weights, cap: nat, c: Chunk) {
    && c.start + c.length <= |ws|
    && (forall k :: 0 <= k < c.start ==> ws[k].None?)
    && (forall k :: c.start <= k < c.start + c.length ==> ws[k].Some?)
    && (c.length == 0 <==> c.start == |ws|)
    && (c.length > 0 ==> WalkEnds(ws, c.start, c.length, cap))
  }

  /** One step of the greedy walk, at the k-th position from `start`. */
  lemma GreedyStep(ws: Weights, start: nat, k: nat, cap: nat)
    requires start + k < |ws| && 0 <= ChunkTotal(ws, Chunk(start, k))
    ensures var total, here := ChunkTotal(ws, Chunk(start, k)), ws[start + k];
      && ChunkTotal(ws, Chunk(start, k + 1)) == total + (if here.Some? then here.value else 0)
      && Greedy(ws[start + k..], k, total, cap) ==
        if here.None? || (k > 0 && total + here.value > cap) then 0
        else if total + here.value >= cap then 1
        else 1 + Greedy(ws[start + (k + 1)..], k + 1, ChunkTotal(ws, Chunk(start, k + 1)), cap)
  {
    ExtendTotal(ws, start, k);
    assert ws[start + k..][1..] == ws[start + (k + 1)..];
  }

  lemma {:induction false} GreedyMeaning(ws: Weights, start: nat, k: nat, cap: nat)
    requires start + k <= |ws| && 0 <= ChunkTotal(ws, Chunk(start, k))
    requires if k == 0 then start < |ws| && ws[start].Some? else Short(ws, start, k, cap) && AllShort(ws, start, k, cap)
    ensures WalkEnds(ws, start, k + Greedy(ws[start + k..], k, ChunkTotal(ws, Chunk(start, k)), cap), cap)
    decreases |ws| - k
  {
    if start + k < |ws| {
      GreedyStep(ws, start, k, cap);
      if ws[start + k].Some? && ChunkTotal(ws, Chunk(start, k + 1)) < cap {
        GreedyMeaning(ws, start, k + 1, cap);
      }
    }
  }

  lemma ExtendTotal(ws: Weights, start: nat, k: nat)
    requires start + k < |ws|
    ensures ChunkTotal(ws, Chunk(start, k + 1)) == ChunkTotal(ws, Chunk(start, k)) + Values(ws)[start + k]
  {
    var vs := Values(ws);
    assert vs[start..start + k + 1] == vs[start..start + k] + [vs[start + k]];
    SumAppend(vs[start..start + k], [vs[start + k]]);
  }

  /** The walk returns the oldest chunk. */
  lemma SelectMeaning(ws: Weights, cap: nat)
    ensures IsOldestChunk(ws, cap, Select(ws, cap))
  {
    var start := FirstEligible(ws);
    SelectEligible(ws, cap);
    if start < |ws| {
      assert Values(ws)[start..start + 0] == [];
      GreedyMeaning(ws, start, 0, cap);
    }
  }

  /** There is only one oldest chunk. */
  lemma OldestChunkUnique(ws: Weights, cap: nat, c: Chunk, d: Chunk)
    requires IsOldestChunk(ws, cap, c) && IsOldestChunk(ws, cap, d)
    ensures c == d
  {
    assert c.start < |ws| ==> ws[c.start].Some?;
    assert d.start < |ws| ==> ws[d.start].Some?;
    NotLonger(ws, cap, c, d);
    NotLonger(ws, cap, d, c);
  }

  /** Inside a chunk the walk goes on. */
  lemma NextFits(ws: Weights, cap: nat, d: Chunk, k: nat)
    requires IsOldestChunk(ws, cap, d) && 0 < k < d.length
    ensures Short(ws, d.start, k, cap) && ws[d.start + k].Some? && ChunkTotal(ws, Chunk(d.start, k + 1)) <= cap
  {
    assert Short(ws, d.start, k, cap);
    if k + 1 < d.length {
      assert Short(ws, d.start, k + 1, cap);
    } else {
      assert d == Chunk(d.start, k + 1);
    }
  }

  lemma NotLonger(ws: Weights, cap: nat, c: Chunk, d: Chunk)
    requires IsOldestChunk(ws, cap, c) && IsOldestChunk(ws, cap, d) && c.start == d.start
    ensures d.length <= c.length
  {
    if 0 < c.length < d.length {
      NextFits(ws, cap, d, c.length);
    }
  }

  /* ---- The walk as a loop sees it ---- */

  /** Before the chunk has started. */
  ghost predicate Skipping(ws: Weights, i: nat) {
    i <= |ws| && forall k :: 0 <= k < i ==> ws[k].None?
  }

  /** The chunk started at `start` and holds `taken` positions, all of weight below the cap so far. */
  ghost predicate Walking(ws: Weights, cap: nat, start: nat, taken: nat, total: nat) {
    && Skipping(ws, start) && start < |ws| && ws[start].Some? && start + taken <= |ws|
    && (forall k :: start <= k < start + taken ==> ws[k].Some?)
    && total == ChunkTotal(ws, Chunk(start, taken))
    && (forall k :: 0 < k <= taken ==> ChunkTotal(ws, Chunk(start, k)) < cap)
  }

  lemma WalkStart(ws: Weights, cap: nat, i: nat)
    requires Skipping(ws, i) && i < |ws| && ws[i].Some?
    ensures Walking(ws, cap, i, 0, 0)
  {
  }

  lemma Selected(ws: Weights, cap: nat, c: Chunk)
    requires IsOldestChunk(ws, cap, c)
    ensures c == Select(ws, cap)
  {
    SelectMeaning(ws, cap);
    OldestChunkUnique(ws, cap, c, Select(ws, cap));
  }

  lemma WalkNothing(ws: Weights, cap: nat)
    requires Skipping(ws, |ws|)
    ensures Select(ws, cap).length == 0
  {
    Selected(ws, cap, Chunk(|ws|, 0));
  }

  /** The walk ends at a position it cannot take. */
  lemma WalkEnd(ws: Weights, cap: nat, start: nat, taken: nat, total: nat)
    requires Walking(ws, cap, start, taken, total) && 0 < taken
    requires start + taken < |ws| && ws[start + taken].Some? ==> total + ws[start + taken].value > cap
    ensures Select(ws, cap) == Chunk(start, taken)
  {
    if start + taken < |ws| {
      ExtendTotal(ws, start, taken);
    }
    Selected(ws, cap, Chunk(start, taken));
  }

  /** The walk takes a position, and ends there when that reaches the cap. */
  lemma WalkTake(ws: Weights, cap: nat, start: nat, taken: nat, total: nat)
    requires Walking(ws, cap, start, taken, total)
    requires start + taken < |ws| && ws[start + taken].Some?
    requires taken == 0 || total + ws[start + taken].value <= cap
    ensures var more := total + ws[start + taken].value;
      && more == ChunkTotal(ws, Chunk(start, taken + 1))
      && if more >= cap then Select(ws, cap) == Chunk(start, taken + 1) else Walking(ws, cap, start, taken + 1, more)
  {
    ExtendTotal(ws, start, taken);
    if total + ws[start + taken].value >= cap {
      Selected(ws, cap, Chunk(start, taken + 1));
    }
  }

  /* ---- The protected tail ---- */

  /** The sentinel ordinal of an empty tail: the largest 64-bit integer. */
  const EMPTY_FRESH_TAIL_ORDINAL := 0x7FFF_FFFF_FFFF_FFFF

  /** How many of the newest weights are protected, given those already protected. */
  function ProtectedFrom(ws: seq<nat>, count: int, cap: Option<nat>, taken: nat, total: nat): (p: nat)
    ensures p <= |ws|
    ensures taken == 0 && 0 < count && ws != [] ==> 0 < p
    decreases |ws|
  {
    if ws == [] || taken >= count then 0
    else
      var newest := ws[|ws| - 1];
      if taken > 0 && cap.Some? && total + newest > cap.value then 0
      else 1 + ProtectedFrom(ws[..|ws| - 1], count, cap, taken + 1, total + newest)
  }

  /** How many more are protected once the walk has taken `taken`. */
  ghost function StillProtected(ws: seq<nat>, count: int, cap: Option<nat>, taken: nat, total: nat): nat
    requires taken <= |ws|
  {
    ProtectedFrom(ws[..|ws| - taken], count, cap, taken, total)
  }

  /** One step of the walk from the newest weight. */
  lemma ProtectedStep(ws: seq<nat>, taken: nat, count: int, cap: Option<nat>, total: nat)
    requires taken < |ws|
    ensures var newest := ws[|ws| - 1 - taken];
      StillProtected(ws, count, cap, taken, total) ==
      if taken >= count || (taken > 0 && cap.Some? && total + newest > cap.value) then 0
      else 1 + StillProtected(ws, count, cap, taken + 1, total + newest)
  {
    var older := ws[..|ws| - taken];
    assert older[..|older| - 1] == ws[..|ws| - (taken + 1)];
  }

  function Protected(ws: seq<nat>, count: int, cap: Option<nat>): (p: nat)
    ensures p <= |ws|
    ensures 0 < count && ws != [] ==> 0 < p
  {
    ProtectedFrom(ws, count, cap, 0, 0)
  }

  /** The `p` newest weights, added up. */
  ghost function TailTotal(ws: seq<nat>, p: nat): int
    requires p <= |ws|
  {
    Sum(ws[|ws| - p..])
  }

  /**
   The tail by its meaning: at most `count` messages, within the cap unless it is
   the newest message alone, and one message more would break a bound.
   */
  ghost predicate IsProtectedTail(ws: seq<nat>, count: int, cap: Option<nat>, p: nat) {
    && p <= |ws|
    && p <= Max(count, 0)
    && (p > 1 && cap.Some? ==> TailTotal(ws, p) <= cap.value)
    && (p < |ws| && p < count ==> p > 0 && cap.Some? && TailTotal(ws, p + 1) > cap.value)
  }

  /** The weights before the `k` newest, and what one more of the newest adds. */
  lemma TailStep(ws: seq<nat>, k: nat)
    requires k < |ws|
    ensures ws[..|ws| - k][..|ws| - k - 1] == ws[..|ws| - (k + 1)]
    ensures TailTotal(ws, k + 1) == TailTotal(ws, k) + ws[|ws| - k - 1]
  {
    assert ws[|ws| - (k + 1)..] == [ws[|ws| - k - 1]] + ws[|ws| - k..];
    SumAppend([ws[|ws| - k - 1]], ws[|ws| - k..]);
  }

  /** How many are protected beyond the `k` newest. */
  ghost function Beyond(ws: seq<nat>, k: nat, count: int, cap: Option<nat>): nat
    requires k <= |ws| && 0 <= TailTotal(ws, k)
  {
    ProtectedFrom(ws[..|ws| - k], count, cap, k, TailTotal(ws, k))
  }

  lemma BeyondStep(ws: seq<nat>, k: nat, count: int, cap: Option<nat>)
    requires k <= |ws| && 0 <= TailTotal(ws, k)
    ensures k < |ws| ==> 0 <= TailTotal(ws, k + 1)
    ensures Beyond(ws, k, count, cap) ==
      if k == |ws| || k >= count || (k > 0 && cap.Some? && TailTotal(ws, k + 1) > cap.value) then 0
      else 1 + Beyond(ws, k + 1, count, cap)
  {
    if k < |ws| {
      TailStep(ws, k);
    }
  }

  lemma {:induction false} ProtectedFromMeaning(ws: seq<nat>, k: nat, count: int, cap: Option<nat>)
    requires k <= |ws| && k <= Max(count, 0)
    requires k > 1 && cap.Some? ==> TailTotal(ws, k) <= cap.value
    requires 0 <= TailTotal(ws, k)
    ensures IsProtectedTail(ws, count, cap, k + Beyond(ws, k, count, cap))
    decreases |ws| - k
  {
    BeyondStep(ws, k, count, cap);
    if k < |ws| && k < count && !(k > 0 && cap.Some? && TailTotal(ws, k + 1) > cap.value) {
      ProtectedFromMeaning(ws, k + 1, count, cap);
    }
  }

  lemma ProtectedMeaning(ws: seq<nat>, count: int, cap: Option<nat>)
    ensures IsProtectedTail(ws, count, cap, Protected(ws, count, cap))
  {
    assert ws[..|ws| - 0] == ws && TailTotal(ws, 0) == 0;
    ProtectedFromMeaning(ws, 0, count, cap);
  }

  /** Dropping old weights that are not protected changes nothing in the tail. */
  lemma {:induction false} ProtectedStable(ws: seq<nat>, drop: nat, count: int, cap: Option<nat>, taken: nat, total: nat)
    requires drop + ProtectedFrom(ws, count, cap, taken, total) <= |ws|
    ensures ProtectedFrom(ws[drop..], count, cap, taken, total) == ProtectedFrom(ws, count, cap, taken, total)
    decreases |ws|
  {
    if ProtectedFrom(ws, count, cap, taken, total) > 0 {
      var newest := ws[|ws| - 1];
      assert ws[drop..][..|ws[drop..]| - 1] == ws[..|ws| - 1][drop..];
      ProtectedStable(ws[..|ws| - 1], drop, count, cap, taken + 1, total + newest);
    }
  }
}
