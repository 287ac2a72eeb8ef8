/**
 The conversation store as values: the ordered context, the message and summary
 tables, and the lineage edges from a leaf to its messages and from a condensed
 summary to the summaries it replaced.
 */
module SummaryDag {
  import opened Sequences
  import opened TokenEstimate

  type MessageId = nat
  type SummaryId = nat

  datatype Item = RawItem(message: MessageId) | SummaryItem(summary: SummaryId)

  datatype Message = Message(seqNo: nat, stored: int, content: Text) {
    /** The stored count when it is positive, else an estimate of the content. */
    function Tokens(): nat { if stored > 0 then stored else Estimate(content) }
  }

  datatype Kind = Leaf | Condensed

  datatype Summary = Summary(
    kind: Kind, depth: nat, content: Text, tokens: int,
    descendantCount: int, descendantTokens: int, sourceTokens: int)

  datatype Store = Store(
    context: seq<Item>,
    messages: map<MessageId, Message>,
    log: seq<MessageId>,
    summaries: map<SummaryId, Summary>,
    leafLinks: map<SummaryId, seq<MessageId>>,
    childLinks: map<SummaryId, seq<SummaryId>>,
    nextMessage: nat,
    nextSummary: nat)

  const EMPTY := Store([], map[], [], map[], map[], map[], 0, 0)

  /* ---- Lineage as a tree ---- */

  /** A leaf links to messages; a condensed node sits exactly one above all its children. */
  ghost predicate WellLinked(s: Store, id: SummaryId)
    requires id in s.summaries
  {
    match s.summaries[id].kind
    case Leaf =>
      && s.summaries[id].depth == 0
      && id in s.leafLinks && s.leafLinks[id] != []
      && forall m <- s.leafLinks[id] :: m in s.messages
    case Condensed =>
      && id in s.childLinks && s.childLinks[id] != []
      && forall c <- s.childLinks[id] ::
        c in s.summaries && s.summaries[id].depth == s.summaries[c].depth + 1
  }

  ghost predicate Dag(s: Store) {
    forall id <- s.summaries {:trigger WellLinked(s, id)} :: WellLinked(s, id)
  }

  /** What drilling down from one context item finds. */
  datatype Node =
    | MessageNode(message: MessageId)
    | LeafNode(id: SummaryId, messages: seq<MessageId>)
    | CondensedNode(id: SummaryId, children: seq<Node>)

  /** The whole lineage below one summary.  Depth bounds the recursion. */
  ghost function Tree(s: Store, id: SummaryId): Node
    requires Dag(s) && id in s.summaries
    decreases s.summaries[id].depth
  {
    assert WellLinked(s, id);
    if s.summaries[id].kind == Leaf then LeafNode(id, s.leafLinks[id])
    else
      var cs := s.childLinks[id];
      CondensedNode(id, seq(|cs|, i requires 0 <= i < |cs| => assert cs[i] in cs; Tree(s, cs[i])))
  }

  predicate ItemResolves(s: Store, it: Item) {
    match it
    case RawItem(m) => m in s.messages
    case SummaryItem(id) => id in s.summaries
  }

  ghost predicate Resolves(s: Store, items: seq<Item>) {
    forall i {:trigger ItemResolves(s, items[i])} :: 0 <= i < |items| ==> ItemResolves(s, items[i])
  }

  /** The forest whose roots are the given context items. */
  ghost function Roots(s: Store, items: seq<Item>): (ns: seq<Node>)
    requires Dag(s) && Resolves(s, items)
  {
    seq(|items|, i requires 0 <= i < |items| =>
      if items[i].RawItem? then MessageNode(items[i].message) else assert ItemResolves(s, items[i]); Tree(s, items[i].summary))
  }

  /** The messages under a node, in narrative order. */
  ghost function TreeMessages(n: Node): seq<MessageId>
    decreases n, 1
  {
    match n
    case MessageNode(m) => [m]
    case LeafNode(_, ms) => ms
    case CondensedNode(_, cs) => Messages(cs)
  }

  ghost function Messages(ns: seq<Node>): seq<MessageId>
    decreases ns, 0
  {
    if ns == [] then [] else TreeMessages(ns[0]) + Messages(ns[1..])
  }

  /** The summaries in a tree, root first. */
  ghost function TreeSummaries(n: Node): seq<SummaryId>
    decreases n, 1
  {
    match n
    case MessageNode(_) => []
    case LeafNode(id, _) => [id]
    case CondensedNode(id, cs) => [id] + Summaries(cs)
  }

  ghost function Summaries(ns: seq<Node>): seq<SummaryId>
    decreases ns, 0
  {
    if ns == [] then [] else TreeSummaries(ns[0]) + Summaries(ns[1..])
  }

  lemma ForestCons(n: Node, ns: seq<Node>)
    ensures Messages([n] + ns) == TreeMessages(n) + Messages(ns)
    ensures Summaries([n] + ns) == TreeSummaries(n) + Summaries(ns)
  {
    assert ([n] + ns)[1..] == ns;
  }

  lemma {:induction false} ForestAppend(ms: seq<Node>, ns: seq<Node>)
    ensures Messages(ms + ns) == Messages(ms) + Messages(ns)
    ensures Summaries(ms + ns) == Summaries(ms) + Summaries(ns)
  {
    if ms == [] {
      assert ms + ns == ns;
    } else {
      var n, rest := ms[0], ms[1..];
      ForestAppend(rest, ns);
      HeadTail(ms);
      Associative([n], rest, ns);
      ForestCons(n, rest);
      ForestCons(n, rest + ns);
      Associative(TreeMessages(n), Messages(rest), Messages(ns));
      Associative(TreeSummaries(n), Summaries(rest), Summaries(ns));
    }
  }

  lemma {:induction false} RawForest(ms: seq<MessageId>)
    ensures var ns := seq(|ms|, i requires 0 <= i < |ms| => MessageNode(ms[i]));
      Messages(ns) == ms && Summaries(ns) == []
  {
    var ns := seq(|ms|, i requires 0 <= i < |ms| => MessageNode(ms[i]));
    if ms != [] {
      assert ns[1..] == seq(|ms[1..]|, i requires 0 <= i < |ms[1..]| => MessageNode(ms[1..][i]));
      RawForest(ms[1..]);
    }
  }

  /* ---- Counters over the whole subtree ---- */

  ghost function SummaryTokens(s: Store, ids: seq<SummaryId>): int {
    if ids == [] then 0
    else (if ids[0] in s.summaries then s.summaries[ids[0]].tokens else 0) + SummaryTokens(s, ids[1..])
  }

  ghost function MessageTokens(s: Store, ms: seq<MessageId>): int {
    if ms == [] then 0
    else (if ms[0] in s.messages then s.messages[ms[0]].Tokens() else 0) + MessageTokens(s, ms[1..])
  }

  lemma {:induction false} SummaryTokensAppend(s: Store, xs: seq<SummaryId>, ys: seq<SummaryId>)
    ensures SummaryTokens(s, xs + ys) == SummaryTokens(s, xs) + SummaryTokens(s, ys)
  {
    if xs == [] {
      assert xs + ys == ys;
    } else {
      assert (xs + ys)[1..] == xs[1..] + ys;
      SummaryTokensAppend(s, xs[1..], ys);
    }
  }

  lemma {:induction false} MessageTokensAppend(s: Store, xs: seq<MessageId>, ys: seq<MessageId>)
    ensures MessageTokens(s, xs + ys) == MessageTokens(s, xs) + MessageTokens(s, ys)
  {
    if xs == [] {
      assert xs + ys == ys;
    } else {
      assert (xs + ys)[1..] == xs[1..] + ys;
      MessageTokensAppend(s, xs[1..], ys);
    }
  }

  /**
   The three incrementally stored counters of one row agree with its subtree:
   the number of summaries below it, their tokens, and the tokens of every
   message it expands to.
   */
  ghost predicate CountersExact(s: Store, id: SummaryId)
    requires Dag(s) && id in s.summaries
  {
    var row, tree := s.summaries[id], Tree(s, id);
    && row.descendantCount == |TreeSummaries(tree)| - 1
    && row.descendantTokens + row.tokens == SummaryTokens(s, TreeSummaries(tree))
    && row.sourceTokens == MessageTokens(s, TreeMessages(tree))
  }

  /* ---- Frames: old rows keep their trees when rows are added ---- */

  /** `t` keeps every row and every edge of `s`. */
  ghost predicate Extends(s: Store, t: Store) {
    && (forall id <- s.summaries ::
      && id in t.summaries && t.summaries[id] == s.summaries[id]
      && (id in s.leafLinks ==> id in t.leafLinks && t.leafLinks[id] == s.leafLinks[id])
      && (id in s.childLinks ==> id in t.childLinks && t.childLinks[id] == s.childLinks[id]))
    && (forall m <- s.messages :: m in t.messages && t.messages[m] == s.messages[m])
  }

  lemma {:induction false} TreeFrame(s: Store, t: Store, id: SummaryId)
    requires Dag(s) && Dag(t) && Extends(s, t) && id in s.summaries
    ensures Tree(t, id) == Tree(s, id)
    decreases s.summaries[id].depth
  {
    assert WellLinked(s, id);
    if s.summaries[id].kind == Condensed {
      var cs := s.childLinks[id];
      forall i | 0 <= i < |cs| ensures Tree(t, cs[i]) == Tree(s, cs[i]) {
        assert cs[i] in cs;
        TreeFrame(s, t, cs[i]);
      }
      assert Tree(t, id).children == Tree(s, id).children;
    }
  }

  lemma RootsFrame(s: Store, t: Store, items: seq<Item>)
    requires Dag(s) && Dag(t) && Extends(s, t) && Resolves(s, items)
    ensures Resolves(t, items) && Roots(t, items) == Roots(s, items)
  {
    forall i | 0 <= i < |items|
      ensures ItemResolves(s, items[i]) && ItemResolves(t, items[i])
      ensures items[i].SummaryItem? ==> Tree(t, items[i].summary) == Tree(s, items[i].summary)
    {
      assert ItemResolves(s, items[i]);
      if items[i].SummaryItem? {
        TreeFrame(s, t, items[i].summary);
      }
    }
  }

  lemma {:induction false} TokensFrame(s: Store, t: Store, ids: seq<SummaryId>, ms: seq<MessageId>)
    requires Extends(s, t)
    requires forall id <- ids :: id in s.summaries
    requires forall m <- ms :: m in s.messages
    ensures SummaryTokens(t, ids) == SummaryTokens(s, ids)
    ensures MessageTokens(t, ms) == MessageTokens(s, ms)
    decreases |ids| + |ms|
  {
    if ids != [] {
      TokensFrame(s, t, ids[1..], ms);
    } else if ms != [] {
      TokensFrame(s, t, ids, ms[1..]);
    }
  }

  /** Everything below the node exists in the store. */
  ghost predicate Closed(s: Store, ids: seq<SummaryId>, ms: seq<MessageId>) {
    (forall id <- ids :: id in s.summaries) && (forall m <- ms :: m in s.messages)
  }

  lemma {:induction false} TreeClosed(s: Store, id: SummaryId)
    requires Dag(s) && id in s.summaries
    ensures Closed(s, TreeSummaries(Tree(s, id)), TreeMessages(Tree(s, id)))
    decreases s.summaries[id].depth
  {
    assert WellLinked(s, id);
    if s.summaries[id].kind == Condensed {
      var cs := s.childLinks[id];
      forall i | 0 <= i < |cs| ensures Closed(s, TreeSummaries(Tree(s, cs[i])), TreeMessages(Tree(s, cs[i]))) {
        assert cs[i] in cs;
        TreeClosed(s, cs[i]);
      }
      ForestClosed(s, Tree(s, id).children);
    }
  }

  lemma {:induction false} ForestClosed(s: Store, ns: seq<Node>)
    requires forall i :: 0 <= i < |ns| ==> Closed(s, TreeSummaries(ns[i]), TreeMessages(ns[i]))
    ensures Closed(s, Summaries(ns), Messages(ns))
  {
    if ns != [] {
      ForestClosed(s, ns[1..]);
    }
  }

  lemma RootsClosed(s: Store, items: seq<Item>)
    requires Dag(s) && Resolves(s, items)
    ensures Closed(s, Summaries(Roots(s, items)), Messages(Roots(s, items)))
  {
    var ns := Roots(s, items);
    forall i | 0 <= i < |ns| ensures Closed(s, TreeSummaries(ns[i]), TreeMessages(ns[i])) {
      assert ItemResolves(s, items[i]);
      if items[i].SummaryItem? {
        TreeClosed(s, items[i].summary);
      }
    }
    ForestClosed(s, ns);
  }
}
