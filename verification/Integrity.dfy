/**
 The integrity checks over one conversation: as read-only scans that report what is
 wrong, and as predicates that every pass preserves from any state that meets them.
 */
module Integrity {
  import opened Sequences
  import opened TokenEstimate
  import opened ChunkSelection
  import opened SummaryDag
  import opened CompactionSteps
  import opened Lossless
  import opened CompactionTail

  /* ---- The checks as predicates ---- */

  ghost predicate HasLineage(s: Store, id: SummaryId)
    requires id in s.summaries
  {
    match s.summaries[id].kind
    case Leaf => id in s.leafLinks && s.leafLinks[id] != []
    case Condensed => id in s.childLinks && s.childLinks[id] != []
  }

  ghost predicate SummariesHaveLineage(s: Store) {
    forall id <- s.summaries {:trigger HasLineage(s, id)} :: HasLineage(s, id)
  }

  ghost predicate InContext(items: seq<Item>, id: SummaryId) {
    exists k {:trigger SummaryAt(items, k)} :: SummaryAt(items, k) && items[k].summary == id
  }

  ghost predicate LinksTo(s: Store, p: SummaryId, id: SummaryId) {
    p in s.childLinks && id in s.childLinks[p]
  }

  ghost predicate IsChild(s: Store, id: SummaryId) {
    exists p {:trigger LinksTo(s, p, id)} :: LinksTo(s, p, id)
  }

  ghost predicate NoOrphans(s: Store) {
    forall id <- s.summaries :: InContext(s.context, id) || IsChild(s, id)
  }

  ghost predicate SeqContiguous(s: Store) {
    && (forall m <- s.messages :: s.messages[m].seqNo < |s.messages|)
    && (forall m, n :: m in s.messages && n in s.messages && s.messages[m].seqNo == s.messages[n].seqNo ==> m == n)
  }

  ghost predicate SameRef(items: seq<Item>, i: int, j: int) {
    0 <= i < j < |items| && items[i] == items[j]
  }

  ghost predicate NoDuplicateRefs(items: seq<Item>) {
    forall i, j {:trigger SameRef(items, i, j)} :: !SameRef(items, i, j)
  }

  /** The checks on references, lineage, orphans, sequence numbers and duplicates. */
  ghost predicate AllPass(s: Store) {
    && Resolves(s, s.context)
    && SummariesHaveLineage(s)
    && NoOrphans(s)
    && SeqContiguous(s)
    && NoDuplicateRefs(s.context)
  }

  /** Every summary id in use is below the next one to be given out. */
  ghost predicate FreshAbove(s: Store) {
    && (forall id <- s.summaries :: id < s.nextSummary)
    && (forall id <- s.leafLinks :: id < s.nextSummary)
    && (forall id <- s.childLinks :: id < s.nextSummary)
  }

  /* ---- Every pass keeps every check ---- */

  /** `t` has one more summary, `id`, standing where `mid` stood. */
  ghost predicate Folded(s: Store, t: Store, pre: seq<Item>, mid: seq<Item>, post: seq<Item>, id: SummaryId) {
    && s.context == pre + mid + post && t.context == pre + [SummaryItem(id)] + post
    && t.messages == s.messages && t.summaries.Keys == s.summaries.Keys + {id}
    && (forall x <- s.summaries :: t.summaries[x] == s.summaries[x])
    && (forall x <- s.leafLinks :: x != id ==> x in t.leafLinks && t.leafLinks[x] == s.leafLinks[x])
    && (forall x <- s.childLinks :: x != id ==> x in t.childLinks && t.childLinks[x] == s.childLinks[x])
  }

  lemma FoldKeepsRefs(s: Store, t: Store, pre: seq<Item>, mid: seq<Item>, post: seq<Item>, id: SummaryId)
    requires Folded(s, t, pre, mid, post, id) && Resolves(s, s.context)
    ensures Resolves(t, t.context)
  {
    forall i | 0 <= i < |t.context| ensures ItemResolves(t, t.context[i]) {
      if i < |pre| {
        assert t.context[i] == s.context[i] && ItemResolves(s, s.context[i]);
      } else if i > |pre| {
        assert t.context[i] == s.context[i + |mid| - 1] && ItemResolves(s, s.context[i + |mid| - 1]);
      }
    }
  }

  /** A repeated item of the folded context was repeated before. */
  lemma RepeatWasThere(pre: seq<Item>, mid: seq<Item>, post: seq<Item>, it: Item, i: nat, j: nat) returns (i': nat, j': nat)
    requires SameRef(pre + [it] + post, i, j) && it !in pre && it !in post && mid != []
    ensures SameRef(pre + mid + post, i', j')
  {
    var before, after := pre + mid + post, pre + [it] + post;
    forall k | 0 <= k < |after| ensures k != |pre| ==> after[k] != it {
      assert k < |pre| ==> after[k] == pre[k];
      assert k > |pre| ==> after[k] == post[k - |pre| - 1];
    }
    assert after[|pre|] == it;
    i' := if i < |pre| then i else i + |mid| - 1;
    j' := if j < |pre| then j else j + |mid| - 1;
    assert before[i'] == after[i] && before[j'] == after[j];
  }

  lemma FoldKeepsDistinct(pre: seq<Item>, mid: seq<Item>, post: seq<Item>, it: Item)
    requires NoDuplicateRefs(pre + mid + post) && it !in pre && it !in post && mid != []
    ensures NoDuplicateRefs(pre + [it] + post)
  {
    forall i, j ensures !SameRef(pre + [it] + post, i, j) {
      if SameRef(pre + [it] + post, i, j) {
        var i', j' := RepeatWasThere(pre, mid, post, it, i, j);
      }
    }
  }

  lemma FoldKeepsLineage(s: Store, t: Store, pre: seq<Item>, mid: seq<Item>, post: seq<Item>, id: SummaryId)
    requires Folded(s, t, pre, mid, post, id) && id !in s.summaries && SummariesHaveLineage(s) && HasLineage(t, id)
    ensures SummariesHaveLineage(t)
  {
    forall x <- t.summaries ensures HasLineage(t, x) {
      if x != id {
        assert HasLineage(s, x);
      }
    }
  }

  lemma InContextConcat(pre: seq<Item>, mid: seq<Item>, post: seq<Item>, id: SummaryId)
    ensures InContext(pre + mid + post, id) <==> SummaryItem(id) in pre || SummaryItem(id) in mid || SummaryItem(id) in post
  {
    var items := pre + mid + post;
    if SummaryItem(id) in items {
      var k :| 0 <= k < |items| && items[k] == SummaryItem(id);
      assert SummaryAt(items, k);
    }
  }

  lemma FoldKeepsOrphanFree(s: Store, t: Store, pre: seq<Item>, mid: seq<Item>, post: seq<Item>, id: SummaryId)
    requires Folded(s, t, pre, mid, post, id) && id !in s.childLinks && NoOrphans(s)
    requires forall x :: SummaryItem(x) in mid ==> LinksTo(t, id, x)
    ensures NoOrphans(t)
  {
    forall x <- t.summaries ensures InContext(t.context, x) || IsChild(t, x) {
      InContextConcat(pre, mid, post, x);
      InContextConcat(pre, [SummaryItem(id)], post, x);
      if x != id && !InContext(s.context, x) {
        var p :| LinksTo(s, p, x);
        assert LinksTo(t, p, x);
      }
    }
  }

  lemma FreshNotInContext(s: Store, id: SummaryId)
    requires Resolves(s, s.context) && id !in s.summaries
    ensures SummaryItem(id) !in s.context
  {
    forall k | 0 <= k < |s.context| ensures s.context[k] != SummaryItem(id) {
      assert ItemResolves(s, s.context[k]);
    }
  }

  lemma FoldKeepsAll(s: Store, t: Store, pre: seq<Item>, mid: seq<Item>, post: seq<Item>, id: SummaryId)
    requires mid != [] && Folded(s, t, pre, mid, post, id) && AllPass(s) && FreshAbove(s) && id == s.nextSummary
    requires HasLineage(t, id) && forall x :: SummaryItem(x) in mid ==> LinksTo(t, id, x)
    ensures AllPass(t)
  {
    FoldKeepsRefs(s, t, pre, mid, post, id);
    FoldKeepsLineage(s, t, pre, mid, post, id);
    FoldKeepsOrphanFree(s, t, pre, mid, post, id);
    FreshNotInContext(s, id);
    FoldKeepsDistinct(pre, mid, post, SummaryItem(id));
  }

  lemma NoSummaryAmongRaws(items: seq<Item>, id: SummaryId)
    requires Raws(items)
    ensures SummaryItem(id) !in items
  {
    forall k | 0 <= k < |items| ensures items[k] != SummaryItem(id) {
      assert RawAt(items, k);
    }
  }

  lemma FreshStays(s: Store, t: Store)
    requires FreshAbove(s) && t.nextSummary == s.nextSummary + 1
    requires t.summaries.Keys <= s.summaries.Keys + {s.nextSummary}
    requires t.leafLinks.Keys <= s.leafLinks.Keys + {s.nextSummary}
    requires t.childLinks.Keys <= s.childLinks.Keys + {s.nextSummary}
    ensures FreshAbove(t)
  {
  }

  lemma LeafWriteKeepsAll(s: Store, t: Store, pre: seq<Item>, mid: seq<Item>, post: seq<Item>, row: Summary, ms: seq<MessageId>)
    requires AllPass(s) && FreshAbove(s) && s.context == pre + mid + post && mid != [] && Raws(mid)
    requires row.kind == Leaf && ms != []
    requires t == s.(summaries := s.summaries[s.nextSummary := row], leafLinks := s.leafLinks[s.nextSummary := ms],
                     context := t.context, nextSummary := s.nextSummary + 1)
    requires t.context == pre + [SummaryItem(s.nextSummary)] + post
    ensures AllPass(t) && FreshAbove(t)
  {
    assert Folded(s, t, pre, mid, post, s.nextSummary);
    forall x ensures SummaryItem(x) !in mid {
      NoSummaryAmongRaws(mid, x);
    }
    FoldKeepsAll(s, t, pre, mid, post, s.nextSummary);
    FreshStays(s, t);
  }

  lemma CondensedWriteKeepsAll(s: Store, t: Store, pre: seq<Item>, mid: seq<Item>, post: seq<Item>, row: Summary, ids: seq<SummaryId>)
    requires AllPass(s) && FreshAbove(s) && s.context == pre + mid + post
    requires row.kind == Condensed && ids != [] && |ids| == |mid| && forall i :: 0 <= i < |mid| ==> mid[i] == SummaryItem(ids[i])
    requires Written(s, t, s.nextSummary, row, ids) && t.nextSummary == s.nextSummary + 1 && t.log == s.log
    requires t.context == pre + [SummaryItem(s.nextSummary)] + post
    ensures AllPass(t) && FreshAbove(t)
  {
    assert Folded(s, t, pre, mid, post, s.nextSummary);
    FoldKeepsAll(s, t, pre, mid, post, s.nextSummary);
    FreshStays(s, t);
  }

  /** All checks pass, and new ids are fresh. */
  ghost predicate Checked(s: Store) {
    AllPass(s) && FreshAbove(s)
  }

  /** From any state that passes every check, whatever the summarizer answers. */
  lemma LeafKeepsChecks(s: Store, cfg: Config, reply: Reply)
    requires Checked(s)
    ensures Checked(LeafPass(s, cfg, reply).store)
  {
    if LeafChunk(s, cfg).length > 0 && Usable(reply) {
      LeafMakes(s, cfg, reply);
      LeafAtKeepsChecks(s, cfg, reply.text);
    } else {
      LeafSkips(s, cfg, reply);
    }
  }

  lemma LeafAtKeepsChecks(s: Store, cfg: Config, text: Text)
    requires LeafChunk(s, cfg).length > 0
    ensures Checked(s) ==> Checked(AddLeaf(s, LeafChunk(s, cfg), text))
  {
    LeafChunkItems(s, cfg);
    if Checked(s) {
      AddLeafKeepsChecks(s, LeafChunk(s, cfg), text);
    }
  }

  lemma AddLeafKeepsChecks(s: Store, c: Chunk, text: Text)
    requires Checked(s)
    requires c.length > 0 && c.start + c.length <= |s.context| && Raws(s.context[c.start..c.start + c.length])
    ensures Checked(AddLeaf(s, c, text))
  {
    var pre, mid, post := s.context[..c.start], s.context[c.start..c.start + c.length], s.context[c.start + c.length..];
    var ms := ChunkMessages(s, mid);
    CutAround(s, c, s.nextSummary);
    RawChunk(s, mid);
    LeafWriteKeepsAll(s, AddLeaf(s, c, text), pre, mid, post, LeafRow(s, text, ms), ms);
  }

  lemma CondensedKeepsChecks(s: Store, cfg: Config, hard: bool, reply: Reply)
    requires Checked(s)
    ensures Checked(CondensedPass(s, cfg, hard, reply).store)
  {
    if Candidate(s, cfg, hard).Some? && Usable(reply) {
      var depth := Candidate(s, cfg, hard).value;
      CondensedMakes(s, cfg, hard, reply);
      CondensedAtKeepsChecks(s, cfg, depth, reply.text);
    } else {
      CondensedSkips(s, cfg, hard, reply);
    }
  }

  lemma CondensedAtKeepsChecks(s: Store, cfg: Config, depth: nat, text: Text)
    requires CondensedChunk(s, cfg, depth).length > 0
    ensures Checked(s) ==> Checked(AddCondensed(s, CondensedChunk(s, cfg, depth), depth, text))
  {
    CondensedChunkItems(s, cfg, depth);
    if Checked(s) {
      AddCondensedKeepsChecks(s, CondensedChunk(s, cfg, depth), depth, text);
    }
  }

  lemma AddCondensedKeepsChecks(s: Store, c: Chunk, depth: nat, text: Text)
    requires Checked(s)
    requires c.length > 0 && c.start + c.length <= |s.context|
    requires AllAtDepth(s, s.context[c.start..c.start + c.length], depth)
    ensures Checked(AddCondensed(s, c, depth, text))
  {
    var pre, mid, post := s.context[..c.start], s.context[c.start..c.start + c.length], s.context[c.start + c.length..];
    var ids := ChunkSummaries(s, mid);
    CutAround(s, c, s.nextSummary);
    SummaryChunk(s, mid, depth);
    RowWritten(s, c, CondensedRow(depth, text, ChildTotals(s, ids)), ids);
    CondensedWriteKeepsAll(s, AddCondensed(s, c, depth, text), pre, mid, post, CondensedRow(depth, text, ChildTotals(s, ids)), ids);
  }
}
