/**
 Which old items fit a token budget: the longest fitting suffix, or a greedy pick by
 relevance.  Scores are any real numbers; ties go to the newer item.
 */
module BudgetWalk {
  import opened Sequences

  /* ---- Sets of positions ---- */

  /** Tokens of the chosen positions. */
  function Load(ts: seq<nat>, chosen: set<nat>): nat {
    if ts == [] then 0
    else
      var last := |ts| - 1;
      Load(ts[..last], chosen) + if last in chosen then ts[last] else 0
  }

  /** The chosen elements, in order. */
  function Picked<T>(xs: seq<T>, chosen: set<nat>): seq<T> {
    if xs == [] then []
    else
      var last := |xs| - 1;
      if last in chosen then Picked(xs[..last], chosen) + [xs[last]] else Picked(xs[..last], chosen)
  }

  lemma {:induction false} LoadAdd(ts: seq<nat>, chosen: set<nat>, i: nat)
    requires i !in chosen
    ensures Load(ts, chosen + {i}) == Load(ts, chosen) + if i < |ts| then ts[i] else 0
  {
    if ts != [] {
      LoadAdd(ts[..|ts| - 1], chosen, i);
    }
  }

  lemma {:induction false} LoadGrows(ts: seq<nat>, small: set<nat>, large: set<nat>)
    requires small <= large
    ensures Load(ts, small) <= Load(ts, large)
  {
    if ts != [] {
      LoadGrows(ts[..|ts| - 1], small, large);
    }
  }

  function Everything(n: nat): (all: set<nat>)
    ensures forall i: nat :: i in all <==> i < n
  {
    if n == 0 then {} else Everything(n - 1) + {n - 1}
  }

  lemma {:induction false} LoadEverything(ts: seq<nat>, n: nat)
    requires |ts| <= n
    ensures Load(ts, Everything(n)) == Sum(ts)
  {
    if ts == [] {
    } else {
      var init, last := ts[..|ts| - 1], ts[|ts| - 1];
      LoadEverything(init, n);
      SumStep(ts, |init|);
      assert ts[..|init| + 1] == ts;
    }
  }

  lemma {:induction false} LoadNothing(ts: seq<nat>)
    ensures Load(ts, {}) == 0
  {
    if ts != [] {
      LoadNothing(ts[..|ts| - 1]);
    }
  }

  lemma {:induction false} PickedEverything<T>(xs: seq<T>, chosen: set<nat>)
    requires Everything(|xs|) <= chosen
    ensures Picked(xs, chosen) == xs
  {
    if xs != [] {
      PickedEverything(xs[..|xs| - 1], chosen);
      assert |xs| - 1 in Everything(|xs|);
      assert Everything(|xs| - 1) <= Everything(|xs|);
    }
  }

  lemma {:induction false} PickedNothing<T>(xs: seq<T>)
    ensures Picked(xs, {}) == []
  {
    if xs != [] {
      PickedNothing(xs[..|xs| - 1]);
    }
  }

  /* ---- Chronological: newest first, stop at the first that does not fit ---- */

  /** The suffix from `k` fits and no longer one does. */
  ghost predicate IsLongestSuffix(ts: seq<nat>, budget: nat, k: nat) {
    k <= |ts| && Sum(ts[k..]) <= budget && forall j :: 0 <= j < k ==> Sum(ts[j..]) > budget
  }

  lemma {:induction false} SuffixSums(ts: seq<nat>, j: nat, k: nat)
    requires j <= k <= |ts|
    ensures Sum(ts[k..]) <= Sum(ts[j..])
    decreases k - j
  {
    if j < k {
      SuffixSums(ts, j + 1, k);
      assert ts[j..] == [ts[j]] + ts[j + 1..];
    }
  }

  method WalkChronological(ts: seq<nat>, budget: nat) returns (k: nat)
    ensures IsLongestSuffix(ts, budget, k)
  {
    k := |ts|;
    var total := 0;
    assert ts[k..] == [];
    while k > 0
      invariant 0 <= k <= |ts| && total == Sum(ts[k..]) <= budget
    {
      assert ts[k - 1..] == [ts[k - 1]] + ts[k..];
      if total + ts[k - 1] > budget {
        forall j | 0 <= j < k ensures Sum(ts[j..]) > budget {
          SuffixSums(ts, j, k - 1);
        }
        return;
      }
      total := total + ts[k - 1];
      k := k - 1;
    }
  }

  /* ---- Prompt-aware: best first, skip what does not fit ---- */

  /** Higher score first; among equals the newer. */
  predicate Ahead(score: nat -> real, i: nat, j: nat) {
    score(i) > score(j) || (score(i) == score(j) && i > j)
  }

  function Insert(score: nat -> real, order: seq<nat>, i: nat): (r: seq<nat>)
    ensures forall j :: j in r <==> j in order || j == i
  {
    if order == [] then [i]
    else if Ahead(score, i, order[0]) then [i] + order
    else [order[0]] + Insert(score, order[1..], i)
  }

  /** Positions `0..n`, the best first. */
  function Ranked(score: nat -> real, n: nat): (r: seq<nat>)
    ensures forall j: nat :: j in r <==> j < n
  {
    if n == 0 then [] else Insert(score, Ranked(score, n - 1), n - 1)
  }

  ghost predicate InRankOrder(score: nat -> real, order: seq<nat>) {
    forall a, b :: 0 <= a < b < |order| ==> Ahead(score, order[a], order[b])
  }

  lemma {:induction false} InsertKeepsOrder(score: nat -> real, order: seq<nat>, i: nat)
    requires i !in order && InRankOrder(score, order)
    ensures InRankOrder(score, Insert(score, order, i))
  {
    if order != [] && !Ahead(score, i, order[0]) {
      var rest := Insert(score, order[1..], i);
      assert i !in order[1..] && order[0] in order;
      InsertKeepsOrder(score, order[1..], i);
      forall b | 0 <= b < |rest| ensures Ahead(score, order[0], rest[b]) {
        assert rest[b] in rest;
        if rest[b] != i {
          var a :| 0 <= a < |order[1..]| && order[1..][a] == rest[b];
          assert Ahead(score, order[0], order[a + 1]);
        }
      }
    }
  }

  lemma {:induction false} RankedInOrder(score: nat -> real, n: nat)
    ensures InRankOrder(score, Ranked(score, n))
  {
    if n > 0 {
      RankedInOrder(score, n - 1);
      InsertKeepsOrder(score, Ranked(score, n - 1), n - 1);
    }
  }

  /** Where a position stands in the ranking. */
  lemma RankOf(score: nat -> real, n: nat, i: nat) returns (r: nat)
    requires i < n
    ensures r < |Ranked(score, n)| && Ranked(score, n)[r] == i
  {
    assert i in Ranked(score, n);
    r :| r < |Ranked(score, n)| && Ranked(score, n)[r] == i;
  }

  /** The chosen positions ahead of `i`. */
  ghost function AheadOf(score: nat -> real, chosen: set<nat>, i: nat): set<nat> {
    set j <- chosen | Ahead(score, j, i)
  }

  ghost predicate Fits(ts: seq<nat>, score: nat -> real, budget: nat, chosen: set<nat>, i: nat) {
    i < |ts| && Load(ts, AheadOf(score, chosen, i)) + ts[i] <= budget
  }

  /** A position is chosen exactly when it fits beside the chosen ones ahead of it. */
  ghost predicate IsGreedy(ts: seq<nat>, score: nat -> real, budget: nat, chosen: set<nat>) {
    forall i: nat {:trigger Fits(ts, score, budget, chosen, i)} :: i in chosen <==> Fits(ts, score, budget, chosen, i)
  }

  /** No rejected item could be added to the final choice. */
  lemma RejectedDoNotFit(ts: seq<nat>, score: nat -> real, budget: nat, chosen: set<nat>, i: nat)
    requires IsGreedy(ts, score, budget, chosen) && i < |ts| && i !in chosen
    ensures Load(ts, chosen + {i}) > budget
  {
    assert !Fits(ts, score, budget, chosen, i);
    LoadGrows(ts, AheadOf(score, chosen, i), chosen);
    LoadAdd(ts, chosen, i);
  }

  /** Two greedy choices agree on every position ahead of the r-th in the ranking. */
  lemma {:induction false} GreedyPrefix(ts: seq<nat>, score: nat -> real, budget: nat, a: set<nat>, b: set<nat>, r: nat)
    requires IsGreedy(ts, score, budget, a) && IsGreedy(ts, score, budget, b)
    requires r < |Ranked(score, |ts|)|
    ensures Ranked(score, |ts|)[r] in a <==> Ranked(score, |ts|)[r] in b
  {
    var order := Ranked(score, |ts|);
    var i := order[r];
    RankedInOrder(score, |ts|);
    forall j: nat | Ahead(score, j, i) ensures j in a <==> j in b {
      assert j in a ==> Fits(ts, score, budget, a, j);
      assert j in b ==> Fits(ts, score, budget, b, j);
      if j < |ts| {
        var q := RankOf(score, |ts|, j);
        assert q > r ==> Ahead(score, i, j);
        GreedyPrefix(ts, score, budget, a, b, q);
      }
    }
    assert AheadOf(score, a, i) == AheadOf(score, b, i);
    assert Fits(ts, score, budget, a, i) <==> Fits(ts, score, budget, b, i);
  }

  /** So the greedy choice is unique. */
  lemma GreedyUnique(ts: seq<nat>, score: nat -> real, budget: nat, a: set<nat>, b: set<nat>)
    requires IsGreedy(ts, score, budget, a) && IsGreedy(ts, score, budget, b)
    ensures a == b
  {
    forall i: nat ensures i in a <==> i in b {
      assert i in a ==> Fits(ts, score, budget, a, i);
      assert i in b ==> Fits(ts, score, budget, b, i);
      if i < |ts| {
        var r := RankOf(score, |ts|, i);
        GreedyPrefix(ts, score, budget, a, b, r);
      }
    }
  }

  ghost function Elements(xs: seq<nat>): set<nat> {
    set x <- xs
  }

  /** The r-th in the ranking is chosen exactly when it fits beside the earlier chosen ones. */
  ghost predicate ChosenBy(ts: seq<nat>, budget: nat, order: seq<nat>, chosen: set<nat>, r: nat)
    requires r < |order|
  {
    order[r] < |ts| && (order[r] in chosen <==> Load(ts, chosen * Elements(order[..r])) + ts[order[r]] <= budget)
  }

  method WalkRanked(ts: seq<nat>, score: nat -> real, budget: nat) returns (kept: seq<nat>)
    ensures IsGreedy(ts, score, budget, Elements(kept)) && Load(ts, Elements(kept)) <= budget
    ensures Distinct(kept)
  {
    var order := Ranked(score, |ts|);
    kept := [];
    var total := 0;
    LoadNothing(ts);
    assert Elements(kept) == {};
    RankedInOrder(score, |ts|);
    for r := 0 to |order|
      invariant Distinct(kept) && Elements(kept) <= Elements(order[..r])
      invariant total == Load(ts, Elements(kept)) <= budget
      invariant forall q :: 0 <= q < r ==> ChosenBy(ts, budget, order, Elements(kept), q)
    {
      var i := order[r];
      assert i in order;
      NotEarlier(score, order, r);
      ghost var before := Elements(kept);
      assert Elements(order[..r + 1]) == Elements(order[..r]) + {i};
      if total + ts[i] <= budget {
        LoadAdd(ts, before, i);
        assert Elements(kept + [i]) == before + {i};
        kept, total := kept + [i], total + ts[i];
      }
      ChosenStep(ts, budget, order, before, Elements(kept), r);
    }
    assert order[..|order|] == order;
    GreedyFromRanks(ts, score, budget, Elements(kept));
  }

  lemma NotEarlier(score: nat -> real, order: seq<nat>, r: nat)
    requires InRankOrder(score, order) && r < |order|
    ensures order[r] !in Elements(order[..r])
  {
    forall q | 0 <= q < r ensures order[q] != order[r] {
      assert Ahead(score, order[q], order[r]);
    }
  }

  lemma ChosenStep(ts: seq<nat>, budget: nat, order: seq<nat>, before: set<nat>, after: set<nat>, r: nat)
    requires r < |order| && order[r] < |ts| && order[r] !in Elements(order[..r])
    requires before <= Elements(order[..r])
    requires forall q :: 0 <= q < r ==> ChosenBy(ts, budget, order, before, q)
    requires after == if Load(ts, before) + ts[order[r]] <= budget then before + {order[r]} else before
    ensures forall q :: 0 <= q <= r ==> ChosenBy(ts, budget, order, after, q)
  {
    forall q | 0 <= q <= r ensures ChosenBy(ts, budget, order, after, q) {
      assert Elements(order[..q]) <= Elements(order[..r]) by {
        assert order[..q] == order[..r][..q];
      }
      assert after * Elements(order[..q]) == before * Elements(order[..q]);
      if q == r {
        assert before * Elements(order[..r]) == before;
      } else {
        assert ChosenBy(ts, budget, order, before, q) && order[q] == order[..r][q];
      }
    }
  }

  lemma GreedyFromRanks(ts: seq<nat>, score: nat -> real, budget: nat, chosen: set<nat>)
    requires chosen <= Elements(Ranked(score, |ts|))
    requires forall q :: 0 <= q < |Ranked(score, |ts|)| ==> ChosenBy(ts, budget, Ranked(score, |ts|), chosen, q)
    ensures IsGreedy(ts, score, budget, chosen)
  {
    var order := Ranked(score, |ts|);
    forall i: nat ensures i in chosen <==> Fits(ts, score, budget, chosen, i) {
      if i < |ts| {
        var r := RankOf(score, |ts|, i);
        assert ChosenBy(ts, budget, order, chosen, r);
        AheadIsEarlier(score, |ts|, chosen, r);
      } else {
        assert i !in order;
      }
    }
  }

  lemma AheadIsEarlier(score: nat -> real, n: nat, chosen: set<nat>, r: nat)
    requires r < |Ranked(score, n)| && chosen <= Elements(Ranked(score, n))
    ensures AheadOf(score, chosen, Ranked(score, n)[r]) == chosen * Elements(Ranked(score, n)[..r])
  {
    var order := Ranked(score, n);
    RankedInOrder(score, n);
    forall j <- chosen ensures Ahead(score, j, order[r]) <==> j in Elements(order[..r]) {
      var q :| 0 <= q < |order| && order[q] == j;
      assert q < r ==> Ahead(score, order[q], order[r]) && order[..r][q] == j;
      assert q > r ==> Ahead(score, order[r], order[q]);
      forall p | 0 <= p < r && order[p] == j ensures Ahead(score, j, order[r]) {
        assert Ahead(score, order[p], order[r]);
      }
    }
  }

  /* ---- When everything fits ---- */

  /** A full fit is what both walks would return. */
  lemma FullFitAgrees(ts: seq<nat>, score: nat -> real, budget: nat)
    requires Sum(ts) <= budget
    ensures IsLongestSuffix(ts, budget, 0) && IsGreedy(ts, score, budget, Everything(|ts|))
  {
    assert ts[0..] == ts;
    LoadEverything(ts, |ts|);
    forall i: nat ensures i in Everything(|ts|) <==> Fits(ts, score, budget, Everything(|ts|), i) {
      if i < |ts| {
        var ahead := AheadOf(score, Everything(|ts|), i);
        LoadAdd(ts, ahead, i);
        LoadGrows(ts, ahead + {i}, Everything(|ts|));
      }
    }
  }
}
