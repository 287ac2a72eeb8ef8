/** The prune as the program runs it: one statement after another on tables that change in place. */
module PruneDatabase {
  import opened Sequences
  import opened SummaryDag
  import opened ContextTable
  import opened CompactionSteps
  import opened Prune

  datatype PruneError = MissingReason | NoCriteria | MainSessionBlocked

  /** Rows touched by each step. */
  datatype Counts = Counts(suppressed: nat, flagged: nat, cutSummaries: nat, cutMessages: nat, hidden: nat, droppedCaches: nat)

  datatype PruneResult = Pruned(leaves: set<SummaryId>, counts: Counts) | Refused(error: PruneError)

  const NOTHING := Counts(0, 0, 0, 0, 0, 0)

  /** The counts are those of the rows that the statements touched between `t` and `u`. */
  ghost predicate CountsOf(t: Tables, targets: set<SummaryId>, u: Tables, counts: Counts) {
    && counts.suppressed == |targets| && counts.flagged == |FlaggedRows(t, targets)|
    && counts.cutSummaries == |t.context| - |WithoutSummaries(t.context, targets)|
    && counts.cutSummaries + counts.cutMessages == |t.context| - |u.context|
    && counts.hidden == |HiddenRows(t, targets)| && counts.droppedCaches == |t.caches - u.caches|
  }

  lemma NothingCounted(t: Tables)
    ensures CountsOf(t, {}, t, NOTHING)
  {
    assert LinkedMessages(t, {}) == {};
    assert FlaggedRows(t, {}) == {};
    assert HiddenRows(t, {}) == {} && t.caches - t.caches == {};
    NoSummariesCut(t.context);
  }

  lemma {:induction false} NoSummariesCut(rows: seq<Row>)
    ensures WithoutSummaries(rows, {}) == rows
  {
    if rows != [] {
      NoSummariesCut(rows[..|rows| - 1]);
      Snoc(rows);
    }
  }

  const MAIN_SESSION := "agent:main:main"

  lemma {:induction false} CutShorter(rows: seq<Row>, targets: set<SummaryId>, cut: set<MessageId>)
    ensures |WithoutSummaries(rows, targets)| <= |rows| && |WithoutMessages(rows, cut)| <= |rows|
  {
    if rows != [] {
      CutShorter(rows[..|rows| - 1], targets, cut);
    }
  }

  /** The rows that the later steps touch are those that the tables had before the first. */
  lemma RowsUnmoved(t: Tables, targets: set<SummaryId>)
    ensures var t1 := SuppressSummaries(t, targets);
      var t4 := CutMessages(CutSummaries(FlagCondensed(t1, targets), targets), targets);
      FlaggedRows(t1, targets) == FlaggedRows(t, targets) && HiddenRows(t4, targets) == HiddenRows(t, targets)
  {
    var t1 := SuppressSummaries(t, targets);
    var t4 := CutMessages(CutSummaries(FlagCondensed(t1, targets), targets), targets);
    forall m: MessageId ensures HeldElsewhere(t4, targets, m) <==> HeldElsewhere(t, targets, m) {
    }
  }

  class Database {
    var tables: map<SummaryId, SummaryRow>
    var suppressed: set<SummaryId>
    var flagged: set<SummaryId>
    var links: set<(SummaryId, MessageId)>
    var children: set<(SummaryId, SummaryId)>
    var context: seq<Row>
    var messages: set<MessageId>
    var hidden: set<MessageId>
    var hasCaches: bool
    var caches: set<CacheId>
    var cacheLeaves: set<(CacheId, SummaryId)>

    /** Without cache tables there are no caches. */
    ghost predicate Valid()
      reads this
    {
      !hasCaches ==> caches == {}
    }

    function View(): Tables
      reads this
    {
      Tables(tables, suppressed, flagged, links, children, context, messages, hidden, caches, cacheLeaves)
    }

    /* ---- The six statements; each returns the number of rows it touched. ---- */

    method SuppressLeaves(targets: set<SummaryId>) returns (n: nat)
      requires Valid()
      modifies this
      ensures Valid() && View() == SuppressSummaries(old(View()), targets)
      ensures n == |targets * tables.Keys|
    {
      suppressed := suppressed + (targets * tables.Keys);
      n := |targets * tables.Keys|;
    }

    method FlagAbove(targets: set<SummaryId>) returns (n: nat)
      requires Valid()
      modifies this
      ensures Valid() && View() == FlagCondensed(old(View()), targets)
      ensures n == |FlaggedRows(old(View()), targets)|
    {
      var above := FlaggedRows(View(), targets);
      flagged, n := flagged + above, |above|;
    }

    method CutSummaryRows(targets: set<SummaryId>) returns (n: nat)
      requires Valid()
      modifies this
      ensures Valid() && View() == CutSummaries(old(View()), targets)
      ensures n == old(|context|) - |context|
    {
      CutShorter(context, targets, {});
      n := |context| - |WithoutSummaries(context, targets)|;
      context := WithoutSummaries(context, targets);
    }

    method CutMessageRows(targets: set<SummaryId>) returns (n: nat)
      requires Valid()
      modifies this
      ensures Valid() && View() == CutMessages(old(View()), targets)
      ensures n == old(|context|) - |context|
    {
      var cut := LinkedMessages(View(), targets);
      CutShorter(context, {}, cut);
      n := |context| - |WithoutMessages(context, cut)|;
      context := WithoutMessages(context, cut);
    }

    method HideUnheld(targets: set<SummaryId>) returns (n: nat)
      requires Valid()
      modifies this
      ensures Valid() && View() == HideMessages(old(View()), targets)
      ensures n == |HiddenRows(old(View()), targets)|
    {
      var lost := HiddenRows(View(), targets);
      hidden, n := hidden + lost, |lost|;
    }

    method DropStaleCaches(targets: set<SummaryId>) returns (n: nat)
      requires Valid()
      modifies this
      ensures Valid() && View() == DropCaches(old(View()), targets)
      ensures n == |old(caches) - caches|
    {
      n := 0;
      var kept := set c <- caches | !CacheReads(View(), c, targets);
      if hasCaches {
        n := |caches - kept|;
        caches := kept;
      }
      assert caches == kept && (!hasCaches ==> old(caches) - caches == {});
    }

    method RunCascade(targets: set<SummaryId>) returns (counts: Counts)
      requires Valid() && targets <= tables.Keys
      modifies this
      ensures Valid() && View() == Cascade(old(View()), targets)
      ensures CountsOf(old(View()), targets, View(), counts)
    {
      RowsUnmoved(View(), targets);
      var n1 := SuppressLeaves(targets);
      var n2 := FlagAbove(targets);
      var n3 := CutSummaryRows(targets);
      var n4 := CutMessageRows(targets);
      var n5 := HideUnheld(targets);
      var n6 := DropStaleCaches(targets);
      assert targets * old(tables).Keys == targets;
      counts := Counts(n1, n2, n3, n4, n5, n6);
    }

    /** Resolve and cascade in one transaction. */
    method SoftPrune(criteria: Criteria, reason: string) returns (result: PruneResult)
      requires Valid()
      modifies this
      ensures Valid()
      ensures IsBlankText(reason) ==> result == Refused(MissingReason)
      ensures !IsBlankText(reason) && !criteria.Selective() ==> result == Refused(NoCriteria)
      ensures result.Refused? ==> View() == old(View()) && (IsBlankText(reason) || !criteria.Selective())
      ensures result.Pruned? ==> View() == PruneOnce(old(View()), criteria) && result.leaves == Targets(old(View()), criteria)
      ensures result.Pruned? ==> CountsOf(old(View()), result.leaves, View(), result.counts)
    {
      if IsBlankText(reason) {
        return Refused(MissingReason);
      }
      if !criteria.Selective() {
        return Refused(NoCriteria);
      }
      var targets := Targets(View(), criteria);
      if targets == {} {
        NothingCounted(View());
        return Pruned({}, NOTHING);
      }
      var counts := RunCascade(targets);
      result := Pruned(targets, counts);
    }

    /** The same for one whole session; the main session needs an explicit permission. */
    method SoftPruneSession(session: string, since: Option<int>, before: Option<int>, minTokens: Option<int>,
                            reason: string, allowMain: bool) returns (result: PruneResult)
      requires Valid()
      modifies this
      ensures Valid()
      ensures result.Refused? <==> IsBlankText(reason) || IsBlankText(session) || (session == "agent:main:main" && !allowMain)
      ensures result.Refused? ==>
        result.error == if IsBlankText(reason) then MissingReason else if IsBlankText(session) then NoCriteria else MainSessionBlocked
      ensures result.Refused? ==> View() == old(View())
      ensures result.Pruned? ==>
        View() == PruneOnce(old(View()), Criteria({}, Some(session), since, before, minTokens))
    {
      if IsBlankText(reason) {
        return Refused(MissingReason);
      }
      if IsBlankText(session) {
        return Refused(NoCriteria);
      }
      if session == MAIN_SESSION && !allowMain {
        return Refused(MainSessionBlocked);
      }
      result := SoftPrune(Criteria({}, Some(session), since, before, minTokens), reason);
    }
  }
}
