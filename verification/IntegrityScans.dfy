/** The integrity checker's scans, proved to report exactly the defects, and what reachable states give it to report. */
module IntegrityScans {
  import opened Sequences
  import opened SummaryDag
  import opened ContextTable
  import opened CompactionSteps
  import opened Lossless
  import opened CompactionRuns
  import opened CompactionTail
  import opened Integrity

  /* ---- Scans over the rows ---- */

  datatype Gap = Gap(expected: nat, actual: int)

  method OrdinalGaps(rows: seq<Row>) returns (gaps: seq<Gap>)
    ensures forall g :: g in gaps <==> g.expected < |rows| && rows[g.expected].ordinal == g.actual != g.expected
    ensures gaps == [] <==> Contiguous(rows)
  {
    gaps := [];
    for i: nat := 0 to |rows|
      invariant forall g :: g in gaps <==> g.expected < i && rows[g.expected].ordinal == g.actual != g.expected
    {
      if rows[i].ordinal != i {
        gaps := gaps + [Gap(i, rows[i].ordinal)];
      }
    }
    forall i | 0 <= i < |rows| && rows[i].ordinal != i ensures gaps != [] {
      assert Gap(i, rows[i].ordinal) in gaps;
    }
    if gaps != [] {
      assert gaps[0] in gaps;
    }
  }

  method DanglingRefs(s: Store, rows: seq<Row>) returns (dangling: seq<Row>)
    ensures forall r :: r in dangling <==> r in rows && !ItemResolves(s, r.item)
    ensures dangling == [] <==> Resolves(s, Items(rows))
  {
    dangling := [];
    for i := 0 to |rows|
      invariant forall r :: r in dangling <==> r in rows[..i] && !ItemResolves(s, r.item)
    {
      if !ItemResolves(s, rows[i].item) {
        dangling := dangling + [rows[i]];
      }
    }
    if dangling == [] {
      forall i | 0 <= i < |rows| ensures ItemResolves(s, Items(rows)[i]) {
        assert rows[i] in rows[..|rows|];
      }
    } else {
      assert dangling[0] in dangling;
      var i :| 0 <= i < |rows| && rows[i] == dangling[0];
      assert !ItemResolves(s, Items(rows)[i]);
    }
  }

  /** The ordinals at which an item is referenced. */
  function OrdinalsOf(rows: seq<Row>, it: Item): seq<int> {
    if rows == [] then []
    else
      var last := rows[|rows| - 1];
      OrdinalsOf(rows[..|rows| - 1], it) + if last.item == it then [last.ordinal] else []
  }

  lemma {:induction false} OrdinalsCount(rows: seq<Row>, it: Item)
    ensures |OrdinalsOf(rows, it)| == multiset(Items(rows))[it]
  {
    if rows != [] {
      var last := |rows| - 1;
      OrdinalsCount(rows[..last], it);
      assert Items(rows) == Items(rows[..last]) + [rows[last].item];
    } else {
      assert Items(rows) == [];
    }
  }

  lemma {:induction false} CountsAreDistinct(items: seq<Item>)
    ensures NoDuplicateRefs(items) <==> forall it :: multiset(items)[it] <= 1
  {
    if items != [] {
      var last := |items| - 1;
      var init := items[..last];
      CountsAreDistinct(init);
      assert items == init + [items[last]];
      if NoDuplicateRefs(items) {
        forall i, j ensures !SameRef(init, i, j) {
          assert !SameRef(items, i, j);
        }
        forall i | 0 <= i < last ensures init[i] != items[last] {
          assert !SameRef(items, i, last);
        }
      } else {
        var i, j :| SameRef(items, i, j);
        if j < last {
          assert SameRef(init, i, j);
          var it :| multiset(init)[it] > 1;
          assert multiset(items)[it] > 1;
        } else {
          assert init[i] in multiset(init);
          assert multiset(items)[items[last]] > 1;
        }
      }
    }
  }

  /** What the scan has seen: every referenced item with its ordinals. */
  ghost predicate Seen(seen: map<Item, seq<int>>, rows: seq<Row>) {
    && (forall it {:trigger OrdinalsOf(rows, it)} :: it in seen <==> OrdinalsOf(rows, it) != [])
    && (forall it <- seen :: seen[it] == OrdinalsOf(rows, it))
  }

  lemma SeenStep(seen: map<Item, seq<int>>, rows: seq<Row>, row: Row)
    requires Seen(seen, rows)
    ensures Seen(seen[row.item := (if row.item in seen then seen[row.item] else []) + [row.ordinal]], rows + [row])
  {
    var more := seen[row.item := (if row.item in seen then seen[row.item] else []) + [row.ordinal]];
    assert (rows + [row])[..|rows|] == rows;
    forall it ensures (it in more <==> OrdinalsOf(rows + [row], it) != []) && (it in more ==> more[it] == OrdinalsOf(rows + [row], it)) {
      assert it in seen <==> OrdinalsOf(rows, it) != [];
    }
  }

  method DuplicateRefs(rows: seq<Row>) returns (duplicates: map<Item, seq<int>>)
    ensures forall it :: it in duplicates <==> multiset(Items(rows))[it] > 1
    ensures forall it <- duplicates :: duplicates[it] == OrdinalsOf(rows, it)
    ensures duplicates == map[] <==> NoDuplicateRefs(Items(rows))
  {
    var seen: map<Item, seq<int>> := map[];
    for i := 0 to |rows|
      invariant Seen(seen, rows[..i])
    {
      SeenStep(seen, rows[..i], rows[i]);
      assert rows[..i] + [rows[i]] == rows[..i + 1];
      var it := rows[i].item;
      seen := seen[it := (if it in seen then seen[it] else []) + [rows[i].ordinal]];
    }
    assert rows[..|rows|] == rows;
    duplicates := map it | it in seen && |seen[it]| > 1 :: seen[it];
    DuplicatesCounted(seen, rows, duplicates);
  }

  lemma DuplicatesCounted(seen: map<Item, seq<int>>, rows: seq<Row>, duplicates: map<Item, seq<int>>)
    requires Seen(seen, rows) && duplicates == map it | it in seen && |seen[it]| > 1 :: seen[it]
    ensures forall it :: it in duplicates <==> multiset(Items(rows))[it] > 1
    ensures duplicates == map[] <==> NoDuplicateRefs(Items(rows))
  {
    forall it ensures it in duplicates <==> multiset(Items(rows))[it] > 1 {
      OrdinalsCount(rows, it);
    }
    CountsAreDistinct(Items(rows));
    if duplicates == map[] {
      forall it ensures multiset(Items(rows))[it] <= 1 {
        assert it !in duplicates;
      }
    }
  }

  /* ---- The two forms of the token sum ---- */

  /** A table as the rows a query meets. */
  type Table = seq<(nat, int)>

  /** `SUM` over the join of references with rows. */
  function Matching(table: Table, id: nat): int {
    if table == [] then 0
    else Matching(table[1..], id) + if table[0].0 == id then table[0].1 else 0
  }

  /** A scalar subquery yields the first matching row; `NULL` adds nothing to a sum. */
  function Lookup(table: Table, id: nat): int {
    if table == [] then 0
    else if table[0].0 == id then table[0].1 else Lookup(table[1..], id)
  }

  function MessageJoin(items: seq<Item>, messages: Table): int {
    if items == [] then 0
    else MessageJoin(items[1..], messages) + if items[0].RawItem? then Matching(messages, items[0].message) else 0
  }

  function SummaryJoin(items: seq<Item>, summaries: Table): int {
    if items == [] then 0
    else SummaryJoin(items[1..], summaries) + if items[0].SummaryItem? then Matching(summaries, items[0].summary) else 0
  }

  function Aggregate(items: seq<Item>, messages: Table, summaries: Table): int {
    if items == [] then 0
    else
      Aggregate(items[1..], messages, summaries) +
      match items[0] case RawItem(m) => Lookup(messages, m) case SummaryItem(id) => Lookup(summaries, id)
  }

  ghost predicate PrimaryKey(table: Table) {
    forall i, j :: 0 <= i < j < |table| ==> table[i].0 != table[j].0
  }

  lemma {:induction false} MatchesOnce(table: Table, id: nat)
    requires PrimaryKey(table)
    ensures Matching(table, id) == Lookup(table, id)
    ensures (forall i :: 0 <= i < |table| ==> table[i].0 != id) ==> Matching(table, id) == 0
  {
    if table != [] {
      MatchesOnce(table[1..], id);
    }
  }

  /** With ids as primary keys the check on token sums cannot fail. */
  lemma {:induction false} TokenSumsAgree(items: seq<Item>, messages: Table, summaries: Table)
    requires PrimaryKey(messages) && PrimaryKey(summaries)
    ensures MessageJoin(items, messages) + SummaryJoin(items, summaries) == Aggregate(items, messages, summaries)
  {
    if items != [] {
      TokenSumsAgree(items[1..], messages, summaries);
      match items[0]
      case RawItem(m) => MatchesOnce(messages, m);
      case SummaryItem(id) => MatchesOnce(summaries, id);
    }
  }

  /** The tables list the store's counts. */
  ghost predicate Lists(s: Store, messages: Table, summaries: Table) {
    && (forall m: MessageId {:trigger Lookup(messages, m)} :: Lookup(messages, m) == if m in s.messages then s.messages[m].stored else 0)
    && (forall id: SummaryId {:trigger Lookup(summaries, id)} :: Lookup(summaries, id) == if id in s.summaries then s.summaries[id].tokens else 0)
  }

  /** Then both sums are the total that the store reports. */
  lemma {:induction false} TokenSumsAreTotals(s: Store, items: seq<Item>, messages: Table, summaries: Table)
    requires PrimaryKey(messages) && PrimaryKey(summaries) && Lists(s, messages, summaries)
    ensures MessageJoin(items, messages) + SummaryJoin(items, summaries) == ContextTokens(s, items)
    ensures Aggregate(items, messages, summaries) == ContextTokens(s, items)
  {
    TokenSumsAgree(items, messages, summaries);
    if items != [] {
      TokenSumsAreTotals(s, items[1..], messages, summaries);
      TokenSumsAgree(items[1..], messages, summaries);
      ContextTokensAppend(s, [items[0]], items[1..]);
      HeadTail(items);
      assert [items[0]][..0] == [];
    }
  }

  /** Without that constraint it can. */
  lemma TokenSumsDiffer()
    ensures var items, messages := [RawItem(7)], [(7, 1), (7, 2)];
      MessageJoin(items, messages) + SummaryJoin(items, []) != Aggregate(items, messages, [])
  {
    var messages: Table := [(7, 1), (7, 2)];
    assert messages[1..] == [(7, 2)];
    assert Matching(messages, 7) == 3 && Lookup(messages, 7) == 1;
    assert [RawItem(7)][1..] == [];
  }

  /* ---- What reachable states pass ---- */

  /** A summary below a node is the node itself or somebody's child. */
  lemma {:induction false} BelowIsChild(s: Store, root: SummaryId, id: SummaryId)
    requires Dag(s) && root in s.summaries && id in TreeSummaries(Tree(s, root))
    ensures id == root || IsChild(s, id)
    decreases s.summaries[root].depth
  {
    assert WellLinked(s, root);
    if s.summaries[root].kind == Condensed && id != root {
      var cs, nodes := s.childLinks[root], Tree(s, root).children;
      var k := WhichTree(nodes, id);
      assert cs[k] in cs && LinksTo(s, root, cs[k]);
      BelowIsChild(s, cs[k], id);
    }
  }

  lemma {:induction false} WhichTree(ns: seq<Node>, id: SummaryId) returns (k: nat)
    requires id in Summaries(ns)
    ensures k < |ns| && id in TreeSummaries(ns[k])
  {
    if id in TreeSummaries(ns[0]) {
      k := 0;
    } else {
      k := WhichTree(ns[1..], id);
      k := k + 1;
    }
  }

  lemma NoOrphanReachable(s: Store)
    requires Inv(s)
    ensures NoOrphans(s)
  {
    forall id <- s.summaries ensures InContext(s.context, id) || IsChild(s, id) {
      assert MetOnce(s, id);
      assert id in multiset(Summaries(Roots(s, s.context)));
      var k := WhichTree(Roots(s, s.context), id);
      assert ItemResolves(s, s.context[k]);
      BelowIsChild(s, s.context[k].summary, id);
      assert SummaryAt(s.context, k);
    }
  }

  /** Expanding the items of a reachable context never repeats anything. */
  lemma NoDuplicateReachable(s: Store)
    requires Inv(s)
    ensures NoDuplicateRefs(s.context)
  {
    LogResolves(s);
    forall i, j ensures !SameRef(s.context, i, j) {
      if SameRef(s.context, i, j) {
        RepeatedItem(s, i, j);
      }
    }
  }

  lemma RepeatedItem(s: Store, i: nat, j: nat)
    requires Grounded(s) && SameRef(s.context, i, j)
    ensures !(IsLossless(s) && IsComplete(s) && Distinct(s.log))
  {
    var items, it := s.context, s.context[i];
    var a, b, c := items[..i], items[i + 1..j], items[j + 1..];
    assert items == (a + [it] + b) + [it] + c;
    ResolvesParts(s, a, it, b, c);
    Twice(s, a, it, b, c);
  }

  lemma Twice(s: Store, a: seq<Item>, it: Item, b: seq<Item>, c: seq<Item>)
    requires Grounded(s) && s.context == (a + [it] + b) + [it] + c
    requires Resolves(s, a) && Resolves(s, [it]) && Resolves(s, b) && Resolves(s, c)
    ensures !(IsLossless(s) && IsComplete(s) && Distinct(s.log))
  {
    FiveParts(s, a, it, b, c);
    if it.RawItem? {
      RawRoot(s, it);
      TwiceInLog(Messages(Roots(s, s.context)), Messages(Roots(s, a)), Messages(Roots(s, b)), Messages(Roots(s, c)), it.message);
    } else {
      SummaryRoot(s, it);
      assert IsComplete(s) ==> MetOnce(s, it.summary);
      TwiceCounted(Summaries(Roots(s, a)), Summaries(Roots(s, [it])), Summaries(Roots(s, b)), Summaries(Roots(s, c)), it.summary);
    }
  }

  lemma FiveParts(s: Store, a: seq<Item>, it: Item, b: seq<Item>, c: seq<Item>)
    requires Dag(s) && Resolves(s, (a + [it] + b) + [it] + c)
    requires Resolves(s, a) && Resolves(s, [it]) && Resolves(s, b) && Resolves(s, c)
    ensures var ns := Roots(s, (a + [it] + b) + [it] + c);
      && Messages(ns) == (Messages(Roots(s, a)) + Messages(Roots(s, [it])) + Messages(Roots(s, b)))
                         + Messages(Roots(s, [it])) + Messages(Roots(s, c))
      && Summaries(ns) == (Summaries(Roots(s, a)) + Summaries(Roots(s, [it])) + Summaries(Roots(s, b)))
                          + Summaries(Roots(s, [it])) + Summaries(Roots(s, c))
  {
    RootsConcat(s, a, [it], b);
    RootsConcat(s, a + [it] + b, [it], c);
  }

  lemma RawRoot(s: Store, it: Item)
    requires Dag(s) && Resolves(s, [it]) && it.RawItem?
    ensures Messages(Roots(s, [it])) == [it.message]
  {
    assert Roots(s, [it]) == [MessageNode(it.message)];
    assert [MessageNode(it.message)][1..] == [];
  }

  lemma SummaryRoot(s: Store, it: Item)
    requires Dag(s) && Resolves(s, [it]) && it.SummaryItem?
    ensures it.summary in Summaries(Roots(s, [it]))
  {
    assert ItemResolves(s, [it][0]);
    SingleRoot(s, it.summary);
  }

  lemma ResolvesParts(s: Store, a: seq<Item>, it: Item, b: seq<Item>, c: seq<Item>)
    requires Resolves(s, (a + [it] + b) + [it] + c)
    ensures Resolves(s, a) && Resolves(s, [it]) && Resolves(s, b) && Resolves(s, c)
  {
    var items := (a + [it] + b) + [it] + c;
    forall x | x in items ensures ItemResolves(s, x) {
      var k :| 0 <= k < |items| && items[k] == x;
      assert ItemResolves(s, items[k]);
    }
  }

  lemma TwiceInLog(log: seq<MessageId>, a: seq<MessageId>, b: seq<MessageId>, c: seq<MessageId>, m: MessageId)
    requires log == (a + [m] + b) + [m] + c
    ensures !Distinct(log)
  {
    assert log[|a|] == m && log[|a| + 1 + |b|] == m;
  }

  lemma TwiceCounted(a: seq<SummaryId>, x: seq<SummaryId>, b: seq<SummaryId>, c: seq<SummaryId>, id: SummaryId)
    requires id in x
    ensures multiset((a + x + b) + x + c)[id] >= 2
  {
    assert id in multiset(x);
  }

  lemma DistinctPrefix(xs: seq<MessageId>)
    requires Distinct(xs) && xs != []
    ensures Distinct(xs[..|xs| - 1]) && xs[|xs| - 1] !in xs[..|xs| - 1]
  {
    forall i, j | 0 <= i < j < |xs| ensures xs[i] != xs[j] {
    }
  }

  ghost function Elements(xs: seq<MessageId>): set<MessageId> {
    set x | x in xs
  }

  lemma {:induction false} DistinctCardinality(xs: seq<MessageId>)
    requires Distinct(xs)
    ensures |Elements(xs)| == |xs|
  {
    if xs != [] {
      var init, last := xs[..|xs| - 1], xs[|xs| - 1];
      DistinctPrefix(xs);
      DistinctCardinality(init);
      Snoc(xs);
      assert Elements(xs) == Elements(init) + {last};
    }
  }

  lemma SeqContiguousReachable(s: Store)
    requires Bookkept(s)
    ensures SeqContiguous(s) && |s.messages| == |s.log|
  {
    LogResolves(s);
    DistinctCardinality(s.log);
    forall m <- s.messages ensures m in s.log {
      assert Logged(s, m);
    }
    assert s.messages.Keys == Elements(s.log);
    forall m <- s.messages ensures s.messages[m].seqNo < |s.log| {
      assert Logged(s, m);
    }
    forall m, n | m in s.messages && n in s.messages && s.messages[m].seqNo == s.messages[n].seqNo ensures m == n {
      assert Logged(s, m) && Logged(s, n);
    }
  }

  lemma LineageReachable(s: Store)
    requires Dag(s)
    ensures SummariesHaveLineage(s)
  {
    forall id <- s.summaries ensures HasLineage(s, id) {
      assert WellLinked(s, id);
    }
  }

  /** After any run every check passes. */
  lemma ReachablePasses(es: seq<Event>)
    ensures AllPass(Run(EMPTY, es))
  {
    var s := Run(EMPTY, es);
    EmptyInv();
    RunKeepsInv(EMPTY, es);
    NoOrphanReachable(s);
    NoDuplicateReachable(s);
    SeqContiguousReachable(s);
    LineageReachable(s);
  }
}
