/**
 Soft prune: a cascade of six updates that suppresses leaf summaries and what only
 they hold, and cuts both out of the context.
 */
module Prune {
  import opened Sequences
  import opened SummaryDag
  import opened ContextTable

  type CacheId = nat

  datatype SummaryRow = SummaryRow(kind: Kind, session: string, created: int, tokens: int)

  datatype Tables = Tables(
    summaries: map<SummaryId, SummaryRow>,
    suppressed: set<SummaryId>,
    flagged: set<SummaryId>,
    links: set<(SummaryId, MessageId)>,
    children: set<(SummaryId, SummaryId)>,
    context: seq<Row>,
    messages: set<MessageId>,
    hidden: set<MessageId>,
    caches: set<CacheId>,
    cacheLeaves: set<(CacheId, SummaryId)>)

  /* ---- Criteria ---- */

  datatype Criteria = Criteria(
    ids: set<SummaryId>, session: Option<string>, since: Option<int>, before: Option<int>, minTokens: Option<int>)
  {
    /** At least one selector; an empty session key does not count. */
    predicate Selective() {
      ids != {} || (session.Some? && session.value != "") || since.Some? || before.Some? || minTokens.Some?
    }

    /** Explicit ids win over every range. */
    predicate Selects(id: SummaryId, row: SummaryRow) {
      if ids != {} then id in ids
      else
        && (session.Some? ==> row.session == session.value)
        && (since.Some? ==> row.created >= since.value)
        && (before.Some? ==> row.created < before.value)
        && (minTokens.Some? ==> row.tokens >= minTokens.value)
    }
  }

  predicate IsTarget(t: Tables, c: Criteria, id: SummaryId) {
    c.Selective() && id in t.summaries && t.summaries[id].kind == Leaf && id !in t.suppressed && c.Selects(id, t.summaries[id])
  }

  function Targets(t: Tables, c: Criteria): set<SummaryId> {
    set id <- t.summaries.Keys | IsTarget(t, c, id)
  }

  /* ---- The six steps ---- */

  predicate LinkedTo(t: Tables, targets: set<SummaryId>, m: MessageId) {
    exists id <- targets :: (id, m) in t.links
  }

  /** An unsuppressed summary links to the message. */
  predicate Held(t: Tables, m: MessageId) {
    exists id <- t.summaries.Keys :: id !in t.suppressed && (id, m) in t.links
  }

  function SuppressSummaries(t: Tables, targets: set<SummaryId>): Tables {
    t.(suppressed := t.suppressed + (targets * t.summaries.Keys))
  }

  predicate HasChild(t: Tables, id: SummaryId, targets: set<SummaryId>) {
    exists child <- targets :: (id, child) in t.children
  }

  /** The condensed summaries directly above a target. */
  function FlaggedRows(t: Tables, targets: set<SummaryId>): set<SummaryId> {
    set id <- t.summaries.Keys | t.summaries[id].kind == Condensed && HasChild(t, id, targets)
  }

  function FlagCondensed(t: Tables, targets: set<SummaryId>): Tables {
    t.(flagged := t.flagged + FlaggedRows(t, targets))
  }

  function WithoutSummaries(rows: seq<Row>, targets: set<SummaryId>): seq<Row> {
    if rows == [] then []
    else
      var last := rows[|rows| - 1];
      if last.item.SummaryItem? && last.item.summary in targets then WithoutSummaries(rows[..|rows| - 1], targets)
      else WithoutSummaries(rows[..|rows| - 1], targets) + [last]
  }

  function WithoutMessages(rows: seq<Row>, cut: set<MessageId>): seq<Row> {
    if rows == [] then []
    else
      var last := rows[|rows| - 1];
      if last.item.RawItem? && last.item.message in cut then WithoutMessages(rows[..|rows| - 1], cut)
      else WithoutMessages(rows[..|rows| - 1], cut) + [last]
  }

  /** The messages that some target links to. */
  function LinkedMessages(t: Tables, targets: set<SummaryId>): set<MessageId> {
    set link <- t.links | link.0 in targets :: link.1
  }

  function CutSummaries(t: Tables, targets: set<SummaryId>): Tables {
    t.(context := WithoutSummaries(t.context, targets))
  }

  function CutMessages(t: Tables, targets: set<SummaryId>): Tables {
    t.(context := WithoutMessages(t.context, LinkedMessages(t, targets)))
  }

  /** Some other summary, not suppressed, still holds the message. */
  predicate HeldElsewhere(t: Tables, targets: set<SummaryId>, m: MessageId) {
    exists id <- t.summaries.Keys :: id !in t.suppressed && id !in targets && (id, m) in t.links
  }

  /** The messages that only targets and suppressed summaries hold. */
  function HiddenRows(t: Tables, targets: set<SummaryId>): set<MessageId> {
    set m <- t.messages | m in LinkedMessages(t, targets) && !HeldElsewhere(t, targets, m)
  }

  function HideMessages(t: Tables, targets: set<SummaryId>): Tables {
    t.(hidden := t.hidden + HiddenRows(t, targets))
  }

  predicate CacheReads(t: Tables, cache: CacheId, targets: set<SummaryId>) {
    exists id <- targets :: (cache, id) in t.cacheLeaves
  }

  function DropCaches(t: Tables, targets: set<SummaryId>): Tables {
    t.(caches := set c <- t.caches | !CacheReads(t, c, targets))
  }

  function Cascade(t: Tables, targets: set<SummaryId>): Tables {
    var t1 := SuppressSummaries(t, targets);
    var t2 := FlagCondensed(t1, targets);
    var t3 := CutSummaries(t2, targets);
    var t4 := CutMessages(t3, targets);
    var t5 := HideMessages(t4, targets);
    DropCaches(t5, targets)
  }

  function PruneOnce(t: Tables, c: Criteria): Tables {
    if Targets(t, c) == {} then t else Cascade(t, Targets(t, c))
  }

  function PruneAll(t: Tables, cs: seq<Criteria>): Tables {
    if cs == [] then t else PruneOnce(PruneAll(t, cs[..|cs| - 1]), cs[|cs| - 1])
  }

  /* ---- The cascade in closed form ---- */

  /** A row survives unless it shows a target, or a message that a target links to. */
  predicate Survives(row: Row, targets: set<SummaryId>, cut: set<MessageId>) {
    match row.item
    case SummaryItem(id) => id !in targets
    case RawItem(m) => m !in cut
  }

  function Surviving(rows: seq<Row>, targets: set<SummaryId>, cut: set<MessageId>): seq<Row> {
    if rows == [] then []
    else
      var last := rows[|rows| - 1];
      if Survives(last, targets, cut) then Surviving(rows[..|rows| - 1], targets, cut) + [last]
      else Surviving(rows[..|rows| - 1], targets, cut)
  }

  lemma {:induction false} TwoCuts(rows: seq<Row>, targets: set<SummaryId>, cut: set<MessageId>)
    ensures WithoutMessages(WithoutSummaries(rows, targets), cut) == Surviving(rows, targets, cut)
  {
    if rows != [] {
      var init, last := rows[..|rows| - 1], rows[|rows| - 1];
      TwoCuts(init, targets, cut);
      var kept := WithoutSummaries(init, targets);
      assert (kept + [last])[..|kept|] == kept;
    }
  }

  lemma {:induction false} CutsCompose(rows: seq<Row>, a: set<SummaryId>, b: set<SummaryId>, cutA: set<MessageId>, cutB: set<MessageId>)
    ensures Surviving(Surviving(rows, a, cutA), b, cutB) == Surviving(rows, a + b, cutA + cutB)
  {
    if rows != [] {
      var init, last := rows[..|rows| - 1], rows[|rows| - 1];
      CutsCompose(init, a, b, cutA, cutB);
      var kept := Surviving(init, a, cutA);
      assert (kept + [last])[..|kept|] == kept;
    }
  }

  lemma {:induction false} NothingCut(rows: seq<Row>)
    ensures Surviving(rows, {}, {}) == rows
  {
    if rows != [] {
      NothingCut(rows[..|rows| - 1]);
      Snoc(rows);
    }
  }

  /** Hidden now: linked by a target and held by nothing that is left. */
  predicate Loses(t: Tables, targets: set<SummaryId>, m: MessageId) {
    m in t.messages && m in LinkedMessages(t, targets) && !HeldElsewhere(t, targets, m)
  }

  predicate GetsFlag(t: Tables, targets: set<SummaryId>, id: SummaryId) {
    id in t.summaries && t.summaries[id].kind == Condensed && HasChild(t, id, targets)
  }

  /** What the six steps leave, table by table, in terms of the tables before. */
  ghost predicate IsCascade(t: Tables, targets: set<SummaryId>, u: Tables) {
    && u.summaries == t.summaries && u.links == t.links && u.children == t.children
    && u.messages == t.messages && u.cacheLeaves == t.cacheLeaves
    && u.suppressed == t.suppressed + targets
    && (forall id :: id in u.flagged <==> id in t.flagged || GetsFlag(t, targets, id))
    && u.context == Surviving(t.context, targets, LinkedMessages(t, targets))
    && (forall m :: m in u.hidden <==> m in t.hidden || Loses(t, targets, m))
    && (forall c :: c in u.caches <==> c in t.caches && !CacheReads(t, c, targets))
  }

  lemma CascadeMeaning(t: Tables, targets: set<SummaryId>)
    requires targets <= t.summaries.Keys
    ensures IsCascade(t, targets, Cascade(t, targets))
  {
    TwoCuts(t.context, targets, LinkedMessages(t, targets));
    var t1 := SuppressSummaries(t, targets);
    forall m: MessageId ensures HeldElsewhere(t1, targets, m) <==> HeldElsewhere(t, targets, m) {
    }
  }

  lemma TablesEqual(t: Tables, targets: set<SummaryId>, u: Tables, v: Tables)
    requires IsCascade(t, targets, u) && IsCascade(t, targets, v)
    ensures u == v
  {
    assert u.flagged == v.flagged && u.hidden == v.hidden && u.caches == v.caches;
  }

  /** An empty target set changes nothing. */
  lemma EmptyCascade(t: Tables)
    ensures Cascade(t, {}) == t
  {
    CascadeMeaning(t, {});
    NothingCut(t.context);
    assert LinkedMessages(t, {}) == {};
    TablesEqual(t, {}, Cascade(t, {}), t);
  }

  /* ---- Order independence ---- */

  lemma LinkedUnion(t: Tables, a: set<SummaryId>, b: set<SummaryId>)
    ensures LinkedMessages(t, a + b) == LinkedMessages(t, a) + LinkedMessages(t, b)
  {
  }

  /** Two cascades after one another are one cascade over both target sets. */
  lemma CascadesJoin(t: Tables, a: set<SummaryId>, b: set<SummaryId>)
    requires a <= t.summaries.Keys && b <= t.summaries.Keys
    ensures Cascade(Cascade(t, a), b) == Cascade(t, a + b)
  {
    var u := Cascade(t, a);
    var v := Cascade(u, b);
    CascadeMeaning(t, a);
    CascadeMeaning(u, b);
    CascadeMeaning(t, a + b);
    LinkedUnion(t, a, b);
    CutsCompose(t.context, a, b, LinkedMessages(t, a), LinkedMessages(t, b));
    assert LinkedMessages(u, b) == LinkedMessages(t, b);
    forall m ensures m in v.hidden <==> m in t.hidden || Loses(t, a + b, m) {
      HiddenJoin(t, a, b, u, m);
    }
    forall id ensures GetsFlag(t, a + b, id) <==> GetsFlag(t, a, id) || GetsFlag(u, b, id) {
      FlagJoin(t, a, b, u, id);
    }
    forall c ensures CacheReads(t, c, a + b) <==> CacheReads(t, c, a) || CacheReads(u, c, b) {
      CacheJoin(t, a, b, u, c);
    }
    assert u.suppressed + b == t.suppressed + (a + b);
    TablesEqual(t, a + b, v, Cascade(t, a + b));
  }

  lemma HiddenJoin(t: Tables, a: set<SummaryId>, b: set<SummaryId>, u: Tables, m: MessageId)
    requires a <= t.summaries.Keys && b <= t.summaries.Keys && IsCascade(t, a, u)
    ensures Loses(t, a, m) || Loses(u, b, m) <==> Loses(t, a + b, m)
  {
    LinkedUnion(t, a, b);
    assert LinkedMessages(u, b) == LinkedMessages(t, b);
    assert HeldElsewhere(u, b, m) <==> HeldElsewhere(t, a + b, m);
    if m in LinkedMessages(t, a) && m !in LinkedMessages(t, b) {
      assert HeldElsewhere(t, a, m) <==> HeldElsewhere(t, a + b, m) by {
        forall id | id in b ensures (id, m) !in t.links {
          assert (id, m) in t.links ==> m in LinkedMessages(t, b);
        }
      }
    }
  }

  lemma FlagJoin(t: Tables, a: set<SummaryId>, b: set<SummaryId>, u: Tables, id: SummaryId)
    requires IsCascade(t, a, u)
    ensures GetsFlag(t, a + b, id) <==> GetsFlag(t, a, id) || GetsFlag(u, b, id)
  {
  }

  lemma CacheJoin(t: Tables, a: set<SummaryId>, b: set<SummaryId>, u: Tables, c: CacheId)
    requires IsCascade(t, a, u)
    ensures CacheReads(t, c, a + b) <==> CacheReads(t, c, a) || CacheReads(u, c, b)
  {
  }

  lemma PruneIsCascade(t: Tables, c: Criteria)
    ensures PruneOnce(t, c) == Cascade(t, Targets(t, c))
  {
    if Targets(t, c) == {} {
      EmptyCascade(t);
    }
  }

  /** Every leaf that one of the criteria selects and that is not suppressed yet. */
  function AllTargets(t: Tables, cs: seq<Criteria>): set<SummaryId> {
    set id <- t.summaries.Keys | exists c <- cs :: IsTarget(t, c, id)
  }

  /** Any sequence of prunes is one cascade over everything any of them selects, so their order does not matter. */
  lemma {:induction false} PrunesJoin(t: Tables, cs: seq<Criteria>)
    ensures PruneAll(t, cs) == Cascade(t, AllTargets(t, cs))
  {
    if cs == [] {
      assert AllTargets(t, cs) == {};
      EmptyCascade(t);
    } else {
      var init, last := cs[..|cs| - 1], cs[|cs| - 1];
      PrunesJoin(t, init);
      var a := AllTargets(t, init);
      var u := Cascade(t, a);
      CascadeMeaning(t, a);
      PruneIsCascade(u, last);
      Snoc(cs);
      assert Targets(u, last) == Targets(t, last) - a;
      assert AllTargets(t, cs) == a + Targets(u, last);
      CascadesJoin(t, a, Targets(u, last));
    }
  }

  /** In particular, the order of two prunes is irrelevant. */
  lemma PrunesCommute(t: Tables, a: Criteria, b: Criteria)
    ensures PruneAll(t, [a, b]) == PruneAll(t, [b, a])
  {
    PrunesJoin(t, [a, b]);
    PrunesJoin(t, [b, a]);
    assert AllTargets(t, [a, b]) == AllTargets(t, [b, a]);
  }

  /** Pruning `a` then `b` is pruning the union of the explicit ids once. */
  lemma {:induction false} PruneUnion(t: Tables, a: set<SummaryId>, b: set<SummaryId>)
    ensures PruneAll(t, [ByIds(a), ByIds(b)]) == PruneOnce(t, ByIds(a + b))
  {
    var cs := [ByIds(a), ByIds(b)];
    PrunesJoin(t, cs);
    PruneIsCascade(t, ByIds(a + b));
    forall id ensures id in AllTargets(t, cs) <==> id in Targets(t, ByIds(a + b)) {
      assert cs[0] in cs && cs[1] in cs;
      assert IsTarget(t, ByIds(a + b), id) <==> IsTarget(t, cs[0], id) || IsTarget(t, cs[1], id);
    }
    assert AllTargets(t, cs) == Targets(t, ByIds(a + b));
  }

  function ByIds(ids: set<SummaryId>): Criteria {
    Criteria(ids, None, None, None, None)
  }

  /* ---- Safety ---- */

  /** A message is hidden exactly when it was linked and every summary that links to it is suppressed. */
  ghost predicate HiddenExactly(t: Tables) {
    forall m <- t.messages :: m in t.hidden <==> LinkedTo(t, t.summaries.Keys, m) && !Held(t, m)
  }

  /** The context shows nothing suppressed. */
  ghost predicate ShowsNothingHidden(t: Tables) {
    forall row <- t.context ::
      match row.item
      case SummaryItem(id) => id !in t.suppressed
      case RawItem(m) => m !in t.hidden
  }

  /** No message is hidden while an unsuppressed summary links to it. */
  ghost predicate Safe(t: Tables) {
    forall m <- t.hidden :: !Held(t, m)
  }

  lemma CascadeKeepsSafe(t: Tables, targets: set<SummaryId>)
    requires targets <= t.summaries.Keys && Safe(t)
    ensures Safe(Cascade(t, targets))
  {
    var u := Cascade(t, targets);
    CascadeMeaning(t, targets);
    forall m <- u.hidden ensures !Held(u, m) {
      assert Held(u, m) <==> HeldElsewhere(t, targets, m);
      assert HeldElsewhere(t, targets, m) ==> Held(t, m);
    }
  }

  lemma CascadeKeepsExact(t: Tables, targets: set<SummaryId>)
    requires targets <= t.summaries.Keys && HiddenExactly(t)
    ensures HiddenExactly(Cascade(t, targets))
  {
    var u := Cascade(t, targets);
    CascadeMeaning(t, targets);
    forall m <- u.messages ensures m in u.hidden <==> LinkedTo(u, u.summaries.Keys, m) && !Held(u, m) {
      assert Held(u, m) <==> HeldElsewhere(t, targets, m);
      assert LinkedTo(u, u.summaries.Keys, m) <==> LinkedTo(t, t.summaries.Keys, m);
      ExactStep(t, targets, m);
    }
  }

  lemma ExactStep(t: Tables, targets: set<SummaryId>, m: MessageId)
    requires targets <= t.summaries.Keys && HiddenExactly(t) && m in t.messages
    ensures m in t.hidden || Loses(t, targets, m) <==> LinkedTo(t, t.summaries.Keys, m) && !HeldElsewhere(t, targets, m)
  {
    assert HeldElsewhere(t, targets, m) ==> Held(t, m);
    if m in LinkedMessages(t, targets) {
      var link :| link in t.links && link.0 in targets && link.1 == m;
      assert (link.0, m) in t.links;
    } else {
      forall id | id in targets ensures (id, m) !in t.links {
        assert (id, m) in t.links ==> m in LinkedMessages(t, targets);
      }
      assert Held(t, m) ==> HeldElsewhere(t, targets, m);
    }
  }

  lemma {:induction false} SurvivingMeaning(rows: seq<Row>, targets: set<SummaryId>, cut: set<MessageId>)
    ensures forall row :: row in Surviving(rows, targets, cut) <==> row in rows && Survives(row, targets, cut)
  {
    if rows != [] {
      SurvivingMeaning(rows[..|rows| - 1], targets, cut);
      Snoc(rows);
    }
  }

  lemma CascadeHidesFromContext(t: Tables, targets: set<SummaryId>)
    requires targets <= t.summaries.Keys && ShowsNothingHidden(t)
    ensures ShowsNothingHidden(Cascade(t, targets))
  {
    CascadeMeaning(t, targets);
    SurvivingMeaning(t.context, targets, LinkedMessages(t, targets));
  }

  /** Each of the three is kept by any sequence of prunes, whatever tables it starts from. */
  lemma PrunesKeepSafe(t: Tables, cs: seq<Criteria>)
    ensures Safe(t) ==> Safe(PruneAll(t, cs))
    ensures HiddenExactly(t) ==> HiddenExactly(PruneAll(t, cs))
    ensures ShowsNothingHidden(t) ==> ShowsNothingHidden(PruneAll(t, cs))
  {
    PrunesJoin(t, cs);
    if Safe(t) {
      CascadeKeepsSafe(t, AllTargets(t, cs));
    }
    if HiddenExactly(t) {
      CascadeKeepsExact(t, AllTargets(t, cs));
    }
    if ShowsNothingHidden(t) {
      CascadeHidesFromContext(t, AllTargets(t, cs));
    }
  }

  /**
   From tables with nothing suppressed, any sequence of prunes hides exactly the
   messages that no unsuppressed summary holds any more, and the context shows
   nothing that is suppressed.
   */
  lemma PrunesAreSafe(t: Tables, cs: seq<Criteria>)
    requires t.suppressed == {} && t.hidden == {}
    ensures var u := PruneAll(t, cs); HiddenExactly(u) && Safe(u) && ShowsNothingHidden(u)
  {
    PrunesKeepSafe(t, cs);
  }

  /* ---- Messages cut from the context although they stay visible ---- */

  /** The context shows a message that a target links to and that another unsuppressed summary holds. */
  ghost predicate CutsShared(t: Tables, targets: set<SummaryId>) {
    exists row <- t.context :: row.item.RawItem? && row.item.message in LinkedMessages(t, targets)
      && HeldElsewhere(t, targets, row.item.message)
  }

  ghost predicate CutMessagesAreHidden(t: Tables, targets: set<SummaryId>) {
    forall row <- t.context :: row.item.RawItem? && row !in Cascade(t, targets).context ==>
      row.item.message in Cascade(t, targets).hidden
  }

  /** The context cut ignores other holders: it removes visible messages exactly when such a shared one is shown. */
  lemma CutHidesIff(t: Tables, targets: set<SummaryId>)
    requires targets <= t.summaries.Keys && Safe(t)
    requires forall row <- t.context :: row.item.RawItem? ==> row.item.message in t.messages
    ensures CutMessagesAreHidden(t, targets) <==> !CutsShared(t, targets)
  {
    var u := Cascade(t, targets);
    CascadeMeaning(t, targets);
    SurvivingMeaning(t.context, targets, LinkedMessages(t, targets));
    forall row <- t.context | row.item.RawItem? && row !in u.context
      ensures row.item.message in u.hidden <==> !HeldElsewhere(t, targets, row.item.message)
    {
      assert Loses(t, targets, row.item.message) || HeldElsewhere(t, targets, row.item.message);
      assert HeldElsewhere(t, targets, row.item.message) ==> Held(t, row.item.message);
    }
  }

  /** Two leaves share message 0: pruning one removes it from the context though the other still holds it. */
  lemma SharedMessageVanishes()
    ensures var leaf := SummaryRow(Leaf, "s", 0, 1);
      var t := Tables(map[1 := leaf, 2 := leaf], {}, {}, {(1, 0), (2, 0)}, {}, [Row(0, RawItem(0))], {0}, {}, {}, {});
      PruneOnce(t, ByIds({1})).context == [] && 0 !in PruneOnce(t, ByIds({1})).hidden
  {
    var leaf := SummaryRow(Leaf, "s", 0, 1);
    var t := Tables(map[1 := leaf, 2 := leaf], {}, {}, {(1, 0), (2, 0)}, {}, [Row(0, RawItem(0))], {0}, {}, {}, {});
    assert Targets(t, ByIds({1})) == {1};
    PruneIsCascade(t, ByIds({1}));
    CascadeMeaning(t, {1});
    assert (1, 0) in t.links && (2, 0) in t.links;
    assert HeldElsewhere(t, {1}, 0);
    assert t.context[..0] == [];
  }

  /* ---- Ordinals ---- */

  /** Ordinals stay gapless exactly when nothing that survives stands after something that was cut. */
  ghost predicate CutsTailOnly(rows: seq<Row>, targets: set<SummaryId>, cut: set<MessageId>) {
    forall i, j :: 0 <= i < j < |rows| && Survives(rows[j], targets, cut) ==> Survives(rows[i], targets, cut)
  }

  lemma {:induction false} SurvivingPrefix(rows: seq<Row>, targets: set<SummaryId>, cut: set<MessageId>)
    requires CutsTailOnly(rows, targets, cut)
    ensures var r := Surviving(rows, targets, cut); |r| <= |rows| && r == rows[..|r|]
    ensures |Surviving(rows, targets, cut)| < |rows| ==> !Survives(rows[|rows| - 1], targets, cut)
  {
    if rows != [] {
      var init := rows[..|rows| - 1];
      SurvivingPrefix(init, targets, cut);
      if |rows| > 1 {
        assert rows[|rows| - 2] == init[|init| - 1];
        assert Survives(rows[|rows| - 1], targets, cut) ==> Survives(rows[|rows| - 2], targets, cut);
      }
      Snoc(rows);
    }
  }

  lemma SurvivingOrdinals(rows: seq<Row>, targets: set<SummaryId>, cut: set<MessageId>, j: nat)
    requires Contiguous(rows) && j < |rows| && Survives(rows[j], targets, cut) && Contiguous(Surviving(rows, targets, cut))
    ensures |Surviving(rows[..j], targets, cut)| == j
  {
    var r := Surviving(rows, targets, cut);
    SurvivingAt(rows, targets, cut, j);
    assert r[|Surviving(rows[..j], targets, cut)|] == rows[j];
  }

  /** Where a surviving row ends up. */
  lemma {:induction false} SurvivingAt(rows: seq<Row>, targets: set<SummaryId>, cut: set<MessageId>, j: nat)
    requires j < |rows| && Survives(rows[j], targets, cut)
    ensures var k := |Surviving(rows[..j], targets, cut)|;
      k < |Surviving(rows, targets, cut)| && Surviving(rows, targets, cut)[k] == rows[j]
  {
    var init := rows[..|rows| - 1];
    if j < |rows| - 1 {
      SurvivingAt(init, targets, cut, j);
      assert init[..j] == rows[..j];
    }
  }

  lemma {:induction false} AllSurvive(rows: seq<Row>, targets: set<SummaryId>, cut: set<MessageId>)
    ensures |Surviving(rows, targets, cut)| <= |rows|
    ensures |Surviving(rows, targets, cut)| == |rows| ==> forall i :: 0 <= i < |rows| ==> Survives(rows[i], targets, cut)
  {
    if rows != [] {
      AllSurvive(rows[..|rows| - 1], targets, cut);
    }
  }

  lemma ContiguousIff(rows: seq<Row>, targets: set<SummaryId>, cut: set<MessageId>)
    requires Contiguous(rows)
    ensures Contiguous(Surviving(rows, targets, cut)) <==> CutsTailOnly(rows, targets, cut)
  {
    if CutsTailOnly(rows, targets, cut) {
      SurvivingPrefix(rows, targets, cut);
    }
    if Contiguous(Surviving(rows, targets, cut)) {
      forall i, j | 0 <= i < j < |rows| && Survives(rows[j], targets, cut) ensures Survives(rows[i], targets, cut) {
        SurvivingOrdinals(rows, targets, cut, j);
        AllSurvive(rows[..j], targets, cut);
        assert rows[..j][i] == rows[i];
      }
    }
  }

  /** A prune keeps the ordinals gapless exactly when everything it cuts stands at the end of the context. */
  lemma PruneContiguousIff(t: Tables, c: Criteria)
    requires Contiguous(t.context)
    ensures Contiguous(PruneOnce(t, c).context) <==>
      CutsTailOnly(t.context, Targets(t, c), LinkedMessages(t, Targets(t, c)))
  {
    PruneIsCascade(t, c);
    CascadeMeaning(t, Targets(t, c));
    ContiguousIff(t.context, Targets(t, c), LinkedMessages(t, Targets(t, c)));
  }

  /** Two leaves in a row: pruning the first leaves the second at ordinal 1. */
  lemma PruneLeavesGap()
    ensures var leaf := SummaryRow(Leaf, "s", 0, 1);
      var rows := [Row(0, SummaryItem(1)), Row(1, SummaryItem(2))];
      var t := Tables(map[1 := leaf, 2 := leaf], {}, {}, {}, {}, rows, {}, {}, {}, {});
      PruneOnce(t, ByIds({1})).context == [Row(1, SummaryItem(2))] && !Contiguous(PruneOnce(t, ByIds({1})).context)
  {
    var leaf := SummaryRow(Leaf, "s", 0, 1);
    var rows := [Row(0, SummaryItem(1)), Row(1, SummaryItem(2))];
    var t := Tables(map[1 := leaf, 2 := leaf], {}, {}, {}, {}, rows, {}, {}, {}, {});
    assert Targets(t, ByIds({1})) == {1};
    PruneIsCascade(t, ByIds({1}));
    CascadeMeaning(t, {1});
    var one, cut := rows[..1], LinkedMessages(t, {1});
    assert one[0] == rows[0] && one[..0] == [];
    assert Surviving(one, {1}, cut) == [];
    assert Surviving(rows, {1}, cut) == [] + [rows[1]];
    assert Surviving(rows, {1}, cut)[0].ordinal == 1;
  }

  /* ---- One prune, table by table ---- */

  /** The caller asks for the row: by its id, or else by every bound given, of which there is at least one. */
  ghost predicate AskedFor(c: Criteria, id: SummaryId, row: SummaryRow) {
    if c.ids != {} then id in c.ids
    else
      && (c.since.Some? || c.before.Some? || c.minTokens.Some? || (c.session.Some? && c.session.value != ""))
      && (c.session.Some? ==> row.session == c.session.value)
      && (c.since.Some? ==> c.since.value <= row.created) && (c.before.Some? ==> row.created < c.before.value)
      && (c.minTokens.Some? ==> c.minTokens.value <= row.tokens)
  }

  /** The summary goes: a leaf that is asked for and shown so far. */
  ghost predicate Goes(t: Tables, c: Criteria, id: SummaryId) {
    id in t.summaries && t.summaries[id].kind == Leaf && id !in t.suppressed && AskedFor(c, id, t.summaries[id])
  }

  /** A leaf that goes is linked to the message. */
  ghost predicate LinkGoes(t: Tables, c: Criteria, m: MessageId) {
    exists id: SummaryId :: Goes(t, c, id) && (id, m) in t.links
  }

  /** A summary that is still shown afterwards is linked to the message. */
  ghost predicate LinkStays(t: Tables, c: Criteria, m: MessageId) {
    exists id: SummaryId :: id in t.summaries && id !in t.suppressed && !Goes(t, c, id) && (id, m) in t.links
  }

  /** A condensed summary with a leaf that goes among its children. */
  ghost predicate StandsAbove(t: Tables, c: Criteria, id: SummaryId) {
    id in t.summaries && t.summaries[id].kind == Condensed && exists leaf: SummaryId :: Goes(t, c, leaf) && (id, leaf) in t.children
  }

  /** The cache was made of a leaf that goes. */
  ghost predicate MadeOf(t: Tables, c: Criteria, cache: CacheId) {
    exists leaf: SummaryId :: Goes(t, c, leaf) && (cache, leaf) in t.cacheLeaves
  }

  /** The context row stays: it shows no leaf that goes, and no message of one. */
  ghost predicate RowStays(t: Tables, c: Criteria, row: Row) {
    match row.item
    case SummaryItem(id) => !Goes(t, c, id)
    case RawItem(m) => !LinkGoes(t, c, m)
  }

  /** Every table but the context, after the prune. */
  ghost predicate PrunedTo(t: Tables, c: Criteria, u: Tables) {
    && u.summaries == t.summaries && u.links == t.links && u.children == t.children
    && u.messages == t.messages && u.cacheLeaves == t.cacheLeaves
    && (forall id :: id in u.suppressed <==> id in t.suppressed || Goes(t, c, id))
    && (forall id :: id in u.flagged <==> id in t.flagged || StandsAbove(t, c, id))
    && (forall m :: m in u.hidden <==> m in t.hidden || (m in t.messages && LinkGoes(t, c, m) && !LinkStays(t, c, m)))
    && (forall k :: k in u.caches <==> k in t.caches && !MadeOf(t, c, k))
  }

  /**
   What a prune does to each table.  Just the leaves asked for are suppressed; condensed
   summaries above them are flagged; a message is hidden when no shown summary holds it any
   more; caches made of them are dropped; and their rows and their messages' rows leave the
   context, where the others keep their order and ordinals.
   */
  lemma PruneMeaning(t: Tables, c: Criteria) returns (at: seq<nat>)
    ensures PrunedTo(t, c, PruneOnce(t, c))
    ensures StandsAt(t.context, at, PruneOnce(t, c).context)
    ensures forall i: nat :: i in at <==> i < |t.context| && RowStays(t, c, t.context[i])
  {
    PruneIsCascade(t, c);
    CascadeMeaning(t, Targets(t, c));
    CascadeIsPrune(t, c, Cascade(t, Targets(t, c)));
    at := RowsThatStay(t, c);
  }

  lemma CascadeIsPrune(t: Tables, c: Criteria, u: Tables)
    requires IsCascade(t, Targets(t, c), u)
    ensures PrunedTo(t, c, u)
  {
    GoesIff(t, c);
    LinksIff(t, c);
    AboveIff(t, c);
  }

  lemma RowsThatStay(t: Tables, c: Criteria) returns (at: seq<nat>)
    ensures StandsAt(t.context, at, Surviving(t.context, Targets(t, c), LinkedMessages(t, Targets(t, c))))
    ensures forall i: nat :: i in at <==> i < |t.context| && RowStays(t, c, t.context[i])
  {
    var targets := Targets(t, c);
    GoesIff(t, c);
    LinksIff(t, c);
    at := SurvivorsAt(t.context, targets, LinkedMessages(t, targets));
    forall i: nat | i < |t.context| ensures Survives(t.context[i], targets, LinkedMessages(t, targets)) <==> RowStays(t, c, t.context[i]) {
    }
  }

  lemma GoesIff(t: Tables, c: Criteria)
    ensures forall id :: id in Targets(t, c) <==> Goes(t, c, id)
  {
  }

  lemma AboveIff(t: Tables, c: Criteria)
    ensures forall id: SummaryId :: GetsFlag(t, Targets(t, c), id) <==> StandsAbove(t, c, id)
    ensures forall k: CacheId :: CacheReads(t, k, Targets(t, c)) <==> MadeOf(t, c, k)
  {
    GoesIff(t, c);
  }

  lemma LinksIff(t: Tables, c: Criteria)
    ensures forall m: MessageId :: m in LinkedMessages(t, Targets(t, c)) <==> LinkGoes(t, c, m)
    ensures forall m: MessageId :: HeldElsewhere(t, Targets(t, c), m) <==> LinkStays(t, c, m)
  {
    var targets := Targets(t, c);
    GoesIff(t, c);
    forall m: MessageId ensures m in LinkedMessages(t, targets) <==> LinkGoes(t, c, m) {
      if LinkGoes(t, c, m) {
        var id: SummaryId :| Goes(t, c, id) && (id, m) in t.links;
        assert (id, m).0 in targets;
      }
    }
  }

  lemma {:induction false} SurvivorsAt(rows: seq<Row>, targets: set<SummaryId>, cut: set<MessageId>) returns (at: seq<nat>)
    ensures StandsAt(rows, at, Surviving(rows, targets, cut))
    ensures forall i: nat :: i in at <==> i < |rows| && Survives(rows[i], targets, cut)
  {
    at := [];
    if rows != [] {
      var last := |rows| - 1;
      at := SurvivorsAt(rows[..last], targets, cut);
      RisingSnoc(at, last);
      if Survives(rows[last], targets, cut) {
        at := at + [last];
      }
    }
  }
}
