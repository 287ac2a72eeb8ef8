/** From the selected entries to the messages that are sent: stripping, cleaning, pairing. */
module Assembly {
  import opened Sequences
  import opened CompactionSteps
  import opened TranscriptRepair
  import opened TranscriptPairing
  import opened TranscriptGuarantees
  import opened TranscriptSanitizer
  import opened TranscriptShortcut
  import opened BudgetWalk
  import opened AssemblySelection

  /* ---- Stripping calls whose result was evicted ---- */

  function ResultId(m: Message): Option<Id> {
    if m.ToolResult? then m.id else None
  }

  /** The ordinals at which a result for the id stands. */
  function OrdinalsOf(entries: seq<Entry>, id: Id): seq<int> {
    if entries == [] then []
    else
      var last := entries[|entries| - 1];
      if ResultId(last.message) == Some(id) then OrdinalsOf(entries[..|entries| - 1], id) + [last.ordinal]
      else OrdinalsOf(entries[..|entries| - 1], id)
  }

  method IndexResults(entries: seq<Entry>) returns (index: map<Id, seq<int>>)
    ensures forall id {:trigger OrdinalsOf(entries, id)} ::
      (if id in index then index[id] else []) == OrdinalsOf(entries, id)
  {
    index := map[];
    for k := 0 to |entries|
      invariant forall id {:trigger OrdinalsOf(entries[..k], id)} ::
        (if id in index then index[id] else []) == OrdinalsOf(entries[..k], id)
    {
      var e := entries[k];
      IndexStep(index, entries[..k], e);
      assert entries[..k + 1] == entries[..k] + [e];
      if ResultId(e.message).Some? {
        var id := ResultId(e.message).value;
        index := index[id := (if id in index then index[id] else []) + [e.ordinal]];
      }
    }
    assert entries[..|entries|] == entries;
  }

  lemma IndexStep(index: map<Id, seq<int>>, entries: seq<Entry>, e: Entry)
    ensures forall id :: OrdinalsOf(entries + [e], id) ==
                    (if ResultId(e.message) == Some(id) then OrdinalsOf(entries, id) + [e.ordinal] else OrdinalsOf(entries, id))
  {
    assert (entries + [e])[..|entries|] == entries;
  }

  /** A result for the id is selected at a later ordinal. */
  ghost predicate AnsweredLater(selected: seq<Entry>, id: Id, ordinal: int) {
    exists k :: 0 <= k < |selected| && ResultId(selected[k].message) == Some(id) && selected[k].ordinal > ordinal
  }

  ghost predicate ResultExists(all: seq<Entry>, id: Id) {
    exists k :: 0 <= k < |all| && ResultId(all[k].message) == Some(id)
  }

  /**
   A call stays when a later result was selected; at or past the boundary it also
   stays when no result for it exists at all.
   */
  ghost predicate Stays(b: Block, ordinal: int, selected: seq<Entry>, boundary: int, all: seq<Entry>) {
    b.ToolCall? && b.id.Some? ==>
      AnsweredLater(selected, b.id.value, ordinal) || (ordinal >= boundary && !ResultExists(all, b.id.value))
  }

  predicate SomeAbove(ordinals: seq<int>, ordinal: int) {
    exists o <- ordinals :: o > ordinal
  }

  lemma SomeAboveSnoc(ordinals: seq<int>, o: int, ordinal: int)
    ensures SomeAbove(ordinals + [o], ordinal) <==> SomeAbove(ordinals, ordinal) || o > ordinal
  {
    assert o in ordinals + [o];
    forall x <- ordinals ensures x in ordinals + [o] {
    }
  }

  lemma ResultsSnoc(init: seq<Entry>, last: Entry, id: Id, ordinal: int)
    ensures ResultExists(init + [last], id) <==> ResultExists(init, id) || ResultId(last.message) == Some(id)
    ensures AnsweredLater(init + [last], id, ordinal) <==>
      AnsweredLater(init, id, ordinal) || (ResultId(last.message) == Some(id) && last.ordinal > ordinal)
  {
    var entries := init + [last];
    assert entries[|init|] == last;
    assert forall k :: 0 <= k < |init| ==> entries[k] == init[k];
  }

  lemma {:induction false} OrdinalsMeaning(entries: seq<Entry>, id: Id, ordinal: int)
    ensures OrdinalsOf(entries, id) != [] <==> ResultExists(entries, id)
    ensures SomeAbove(OrdinalsOf(entries, id), ordinal) <==> AnsweredLater(entries, id, ordinal)
  {
    if entries != [] {
      var init, last := entries[..|entries| - 1], entries[|entries| - 1];
      OrdinalsMeaning(init, id, ordinal);
      Snoc(entries);
      ResultsSnoc(init, last, id, ordinal);
      SomeAboveSnoc(OrdinalsOf(init, id), last.ordinal, ordinal);
    }
  }

  ghost function StayingBlocks(blocks: seq<Block>, ordinal: int, selected: seq<Entry>, boundary: int, all: seq<Entry>): seq<Block> {
    if blocks == [] then []
    else
      var last := blocks[|blocks| - 1];
      var before := StayingBlocks(blocks[..|blocks| - 1], ordinal, selected, boundary, all);
      if Stays(last, ordinal, selected, boundary, all) then before + [last] else before
  }

  /** The message as it survives, if it does. */
  ghost function Stripped(e: Entry, selected: seq<Entry>, boundary: int, all: seq<Entry>): Option<Message> {
    if e.message.Assistant? && e.message.content.Blocks? then
      var blocks := StayingBlocks(e.message.content.blocks, e.ordinal, selected, boundary, all);
      if blocks == [] then None else Some(e.message.(content := Blocks(blocks)))
    else Some(e.message)
  }

  ghost function StrippedAll(entries: seq<Entry>, selected: seq<Entry>, boundary: int, all: seq<Entry>): seq<Message> {
    if entries == [] then []
    else
      var before := StrippedAll(entries[..|entries| - 1], selected, boundary, all);
      var last := Stripped(entries[|entries| - 1], selected, boundary, all);
      if last.Some? then before + [last.value] else before
  }

  lemma {:induction false} StayingMeaning(blocks: seq<Block>, ordinal: int, selected: seq<Entry>, boundary: int, all: seq<Entry>)
    ensures var r := StayingBlocks(blocks, ordinal, selected, boundary, all);
      && (forall b :: b in r <==> b in blocks && Stays(b, ordinal, selected, boundary, all))
      && (r == blocks <==> |r| == |blocks|) && |r| <= |blocks|
  {
    if blocks != [] {
      var init := blocks[..|blocks| - 1];
      StayingMeaning(init, ordinal, selected, boundary, all);
      Snoc(blocks);
    }
  }

  method StripMessage(e: Entry, index: map<Id, seq<int>>, boundary: int, allIndex: map<Id, seq<int>>,
                      ghost selected: seq<Entry>, ghost all: seq<Entry>)
      returns (r: Option<Message>, touched: bool)
    requires forall id {:trigger OrdinalsOf(selected, id)} :: (if id in index then index[id] else []) == OrdinalsOf(selected, id)
    requires forall id {:trigger OrdinalsOf(all, id)} :: (if id in allIndex then allIndex[id] else []) == OrdinalsOf(all, id)
    ensures r == Stripped(e, selected, boundary, all)
    ensures touched <==> r != Some(e.message)
  {
    if !(e.message.Assistant? && e.message.content.Blocks?) {
      return Some(e.message), false;
    }
    var blocks, kept, removed := e.message.content.blocks, [], false;
    for k := 0 to |blocks|
      invariant kept == StayingBlocks(blocks[..k], e.ordinal, selected, boundary, all)
      invariant removed <==> |kept| < k
      invariant |kept| <= k
    {
      var b := blocks[k];
      assert blocks[..k + 1][..k] == blocks[..k];
      if b.ToolCall? && b.id.Some? {
        var id := b.id.value;
        OrdinalsMeaning(selected, id, e.ordinal);
        OrdinalsMeaning(all, id, e.ordinal);
        var ordinals := if id in index then index[id] else [];
        var answered := SomeAbove(ordinals, e.ordinal);
        var resolved := id in allIndex && allIndex[id] != [];
        if !answered && (e.ordinal < boundary || resolved) {
          removed := true;
          continue;
        }
      }
      kept := kept + [b];
    }
    assert blocks[..|blocks|] == blocks;
    StayingMeaning(blocks, e.ordinal, selected, boundary, all);
    if kept == [] {
      return None, true;
    }
    r, touched := Some(e.message.(content := Blocks(kept))), removed;
  }

  method StripCalls(selected: seq<Entry>, boundary: int, all: seq<Entry>) returns (out: seq<Message>, touched: nat)
    ensures out == StrippedAll(selected, selected, boundary, all)
    ensures touched == 0 <==> forall e <- selected :: Stripped(e, selected, boundary, all) == Some(e.message)
  {
    var index := IndexResults(selected);
    var allIndex := IndexResults(all);
    out, touched := [], 0;
    for k := 0 to |selected|
      invariant out == StrippedAll(selected[..k], selected, boundary, all)
      invariant touched == 0 <==> forall e <- selected[..k] :: Stripped(e, selected, boundary, all) == Some(e.message)
    {
      assert selected[..k + 1] == selected[..k] + [selected[k]];
      assert selected[..k + 1][..k] == selected[..k];
      var r, changed := StripMessage(selected[k], index, boundary, allIndex, selected, all);
      if r.Some? {
        out := out + [r.value];
      }
      if changed {
        touched := touched + 1;
      }
    }
    assert selected[..|selected|] == selected;
  }

  /* ---- Dropping empty turns ---- */

  predicate IsBlankBlock(b: Block) {
    b.Text? && IsBlankText(b.text)
  }

  predicate IsThinking(b: Block) {
    b.Reasoning? || b.Redacted?
  }

  function WithoutBlanks(blocks: seq<Block>): seq<Block> {
    if blocks == [] then []
    else
      var last := blocks[|blocks| - 1];
      if IsBlankBlock(last) then WithoutBlanks(blocks[..|blocks| - 1]) else WithoutBlanks(blocks[..|blocks| - 1]) + [last]
  }

  lemma {:induction false} WithoutBlanksMeaning(blocks: seq<Block>)
    ensures forall b :: b in WithoutBlanks(blocks) <==> b in blocks && !IsBlankBlock(b)
  {
    if blocks != [] {
      WithoutBlanksMeaning(blocks[..|blocks| - 1]);
      Snoc(blocks);
    }
  }

  /** A turn a provider accepts: some block that is not thinking, and no blank text. */
  predicate Substantial(m: Message) {
    m.Assistant? ==>
      && m.content.Blocks?
      && (exists b <- m.content.blocks :: !IsThinking(b))
      && (forall b <- m.content.blocks :: !IsBlankBlock(b))
  }

  /** String content becomes one text block, and blank text blocks go. */
  function Normalized(m: Message): Message {
    if !m.Assistant? then m
    else
      match m.content
      case NoContent => m
      case PlainText(text) => m.(content := Blocks([Text(text)]))
      case Blocks(blocks) => m.(content := Blocks(WithoutBlanks(blocks)))
  }

  /** The drop test of the second stage. */
  predicate Dropped(m: Message) {
    m.Assistant? &&
    (!m.content.Blocks? || m.content.blocks == []
     || (forall b <- m.content.blocks :: IsThinking(b)) || (forall b <- m.content.blocks :: IsBlankBlock(b)))
  }

  method CleanTurns(ms: seq<Message>) returns (out: seq<Message>)
    ensures out == Cleaned(ms)
  {
    out := [];
    for k := 0 to |ms|
      invariant out == Cleaned(ms[..k])
    {
      assert ms[..k + 1][..k] == ms[..k];
      var m := Normalized(ms[k]);
      if !Dropped(m) {
        out := out + [m];
      }
    }
    assert ms[..|ms|] == ms;
  }

  function Cleaned(ms: seq<Message>): seq<Message> {
    if ms == [] then []
    else
      var last := Normalized(ms[|ms| - 1]);
      if Dropped(last) then Cleaned(ms[..|ms| - 1]) else Cleaned(ms[..|ms| - 1]) + [last]
  }

  /** The drop test removes exactly the turns that are not substantial. */
  lemma DroppedMeaning(m: Message)
    ensures Dropped(Normalized(m)) <==> !Substantial(Normalized(m))
  {
    var n := Normalized(m);
    if m.Assistant? && m.content.Blocks? {
      WithoutBlanksMeaning(m.content.blocks);
      if n.content.blocks != [] {
        assert n.content.blocks[0] in n.content.blocks;
      }
    } else if m.Assistant? && m.content.PlainText? {
      assert n.content.blocks == [Text(m.content.text)];
      assert n.content.blocks[0] == Text(m.content.text);
    }
  }

  ghost predicate AllSubstantial(ms: seq<Message>) {
    forall m <- ms :: Substantial(m)
  }

  lemma {:induction false} CleanedSubstantial(ms: seq<Message>)
    ensures AllSubstantial(Cleaned(ms))
  {
    if ms != [] {
      CleanedSubstantial(ms[..|ms| - 1]);
      DroppedMeaning(ms[|ms| - 1]);
    }
  }

  /* ---- Pairing keeps turns substantial ---- */

  lemma HoistKeepsSubstance(m: Message)
    ensures Substantial(Normalize(m)) <==> Substantial(m)
  {
    NormalizeMeaning(m);
    if m.Assistant? && m.content.Blocks? {
      SameElements(Normalize(m).content.blocks, m.content.blocks);
    }
  }

  lemma SameElements<T>(xs: seq<T>, ys: seq<T>)
    requires multiset(xs) == multiset(ys)
    ensures forall x :: x in xs <==> x in ys
  {
    forall x ensures x in xs <==> x in ys {
      assert x in xs <==> x in multiset(xs);
      assert x in ys <==> x in multiset(ys);
    }
  }

  lemma RebuildKeepsSubstance(ms: seq<Message>)
    requires AllSubstantial(ms)
    ensures AllSubstantial(Rebuild(ms, {}))
  {
    forall m <- Rebuild(ms, {}) ensures Substantial(m) {
      if m.Assistant? {
        NonResultsHold(Rebuild(ms, {}), m);
        NonResultsKept(ms, {});
        NonResultsMeaning(ms);
        var k :| 0 <= k < |NonResults(ms)| && Hoisted(NonResults(ms))[k] == m;
        assert NonResults(ms)[k] in NonResults(ms);
        HoistKeepsSubstance(NonResults(ms)[k]);
      }
    }
  }

  /* ---- The pipeline ---- */

  /** What is sent: the selected entries stripped, cleaned and paired. */
  ghost predicate Assembled(entries: seq<Entry>, selected: seq<Entry>, boundary: int, messages: seq<Message>) {
    var cleaned := Cleaned(StrippedAll(selected, selected, boundary, entries));
    messages == if Quiet(cleaned, {}) then cleaned else Rebuild(cleaned, {})
  }

  /** The kept part of the old entries as the mode says, then the whole fresh tail. */
  ghost predicate Selected(entries: seq<Entry>, tailStart: int, budget: int, score: Option<nat -> real>, mode: Mode, selected: seq<Entry>) {
    var evictable, tail := Below(entries, tailStart), FromOn(entries, tailStart);
    exists chosen {:trigger Picked(evictable, chosen)} ::
      Keeps(mode, Tokens(evictable), score, Remaining(budget, tail), chosen) && selected == Picked(evictable, chosen) + tail
  }

  /** Fresh tail, split and budget walk. */
  method SelectEntries(entries: seq<Entry>, tailStart: int, budget: int, score: Option<nat -> real>)
      returns (selected: seq<Entry>, mode: Mode, estimated: int)
    requires InOrder(entries)
    ensures Selected(entries, tailStart, budget, score, mode, selected)
    ensures estimated == Sum(Tokens(selected)) <= Max(budget, Sum(Tokens(FromOn(entries, tailStart))))
  {
    var evictable, tail := Below(entries, tailStart), FromOn(entries, tailStart);
    SplitIsCut(entries, tailStart);
    InOrderParts(entries, evictable, tail);
    var kept;
    ghost var chosen;
    kept, mode, chosen := SelectWithinBudget(evictable, tail, budget, score);
    selected := kept + tail;
    estimated := Sum(Tokens(kept)) + Sum(Tokens(tail));
    TokensAppend(kept, tail);
  }

  lemma TokensAppend(a: seq<Entry>, b: seq<Entry>)
    ensures Sum(Tokens(a + b)) == Sum(Tokens(a)) + Sum(Tokens(b))
  {
    assert Tokens(a + b) == Tokens(a) + Tokens(b);
    SumAppend(Tokens(a), Tokens(b));
  }

  method Assemble(entries: seq<Entry>, count: int, maxTokens: Option<int>, budget: int,
                  score: Option<nat -> real>, stripOrdinal: Option<int>)
      returns (messages: seq<Message>, estimated: int, mode: Mode, selected: seq<Entry>)
    requires InOrder(entries)
    ensures Selected(entries, Boundary(entries, count, maxTokens), budget, score, mode, selected)
    ensures estimated == Sum(Tokens(selected)) <= Max(budget, Sum(Tokens(FromOn(entries, Boundary(entries, count, maxTokens)))))
    ensures Assembled(entries, selected,
      if stripOrdinal.Some? && stripOrdinal.value >= 0 then stripOrdinal.value else Boundary(entries, count, maxTokens), messages)
  {
    var tailStart := ResolveFreshTailOrdinal(entries, count, maxTokens);
    selected, mode, estimated := SelectEntries(entries, tailStart, budget, score);
    var stripBoundary := if stripOrdinal.Some? && stripOrdinal.value >= 0 then stripOrdinal.value else tailStart;
    var stripped, touched := StripCalls(selected, stripBoundary, entries);
    var cleaned := CleanTurns(stripped);
    messages := Sanitize(cleaned);
  }

  lemma InOrderParts(entries: seq<Entry>, a: seq<Entry>, b: seq<Entry>)
    requires InOrder(entries) && a + b == entries
    ensures InOrder(a)
  {
    forall i | 0 <= i < |a| ensures a[i] == entries[i] {
    }
  }

  /**
   What the provider gets: no empty, blank or thinking-only assistant turn, and a
   paired transcript, up to the order of results inside blocks, unless two results
   for one id slipped through unflagged.
   */
  lemma AssembledIsAcceptable(entries: seq<Entry>, selected: seq<Entry>, boundary: int, messages: seq<Message>)
    requires Assembled(entries, selected, boundary, messages)
    ensures AllSubstantial(messages)
    ensures UniqueResults(messages) ==> exists paired :: Paired(paired, {}) && BlockPermuted(messages, paired)
    ensures var cleaned := Cleaned(StrippedAll(selected, selected, boundary, entries));
      NonResults(Rebuild(cleaned, {})) == Hoisted(NonResults(cleaned))
  {
    var cleaned := Cleaned(StrippedAll(selected, selected, boundary, entries));
    CleanedSubstantial(StrippedAll(selected, selected, boundary, entries));
    RebuildKeepsSubstance(cleaned);
    HandedBackIff(cleaned);
    RebuildIsPaired(cleaned, {});
    NonResultsKept(cleaned, {});
  }
}
