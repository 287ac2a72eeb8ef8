/** What of the selected entries is sent, entry by entry and block by block, and what the budget keeps. */
module AssemblyPromises {
  import opened Sequences
  import opened ChunkSelection
  import opened CompactionSteps
  import opened TranscriptRepair
  import opened TranscriptPairing
  import opened TranscriptGuarantees
  import opened TranscriptSanitizer
  import opened TranscriptFlag
  import opened BudgetWalk
  import opened AssemblySelection
  import opened Assembly

  /* ---- Blocks ---- */

  /** The call's result was selected later, or the call is at or past the boundary and has no result at all. */
  ghost predicate CallStays(id: Id, ordinal: int, selected: seq<Entry>, boundary: int, all: seq<Entry>) {
    || (exists e <- selected :: e.message.ToolResult? && e.message.id == Some(id) && e.ordinal > ordinal)
    || (ordinal >= boundary && forall e <- all :: e.message.ToolResult? ==> e.message.id != Some(id))
  }

  /** The block is sent: no blank text, and no call that goes. */
  ghost predicate Remains(b: Block, ordinal: int, selected: seq<Entry>, boundary: int, all: seq<Entry>) {
    && !(b.Text? && IsBlankText(b.text))
    && (b.ToolCall? && b.id.Some? ==> CallStays(b.id.value, ordinal, selected, boundary, all))
  }

  lemma StaysIff(b: Block, ordinal: int, selected: seq<Entry>, boundary: int, all: seq<Entry>)
    ensures Remains(b, ordinal, selected, boundary, all) <==> Stays(b, ordinal, selected, boundary, all) && !IsBlankBlock(b)
  {
    if b.ToolCall? && b.id.Some? {
      var id := b.id.value;
      if Assembly.AnsweredLater(selected, id, ordinal) {
        var k :| 0 <= k < |selected| && ResultId(selected[k].message) == Some(id) && selected[k].ordinal > ordinal;
        assert selected[k] in selected;
      }
      if ResultExists(all, id) {
        var k :| 0 <= k < |all| && ResultId(all[k].message) == Some(id);
        assert all[k] in all;
      }
    }
  }

  lemma WithoutBlanksSnoc(blocks: seq<Block>, b: Block)
    ensures WithoutBlanks(blocks + [b]) == WithoutBlanks(blocks) + if IsBlankBlock(b) then [] else [b]
  {
    assert (blocks + [b])[..|blocks|] == blocks;
  }

  /** What is left of blocks is exactly the remaining ones, in order. */
  lemma {:induction false} BlocksLeft(blocks: seq<Block>, ordinal: int, selected: seq<Entry>, boundary: int, all: seq<Entry>)
      returns (at: seq<nat>)
    ensures StandsAt(blocks, at, WithoutBlanks(StayingBlocks(blocks, ordinal, selected, boundary, all)))
    ensures forall k: nat :: k in at <==> k < |blocks| && Remains(blocks[k], ordinal, selected, boundary, all)
  {
    at := [];
    if blocks != [] {
      var last := |blocks| - 1;
      var staying := StayingBlocks(blocks[..last], ordinal, selected, boundary, all);
      at := BlocksLeft(blocks[..last], ordinal, selected, boundary, all);
      RisingSnoc(at, last);
      StaysIff(blocks[last], ordinal, selected, boundary, all);
      WithoutBlanksSnoc(staying, blocks[last]);
      if Remains(blocks[last], ordinal, selected, boundary, all) {
        at := at + [last];
      }
    }
  }

  /* ---- Entries ---- */

  /** The entry is sent: it is no assistant turn, or something of substance is left of it. */
  ghost predicate Goes(e: Entry, selected: seq<Entry>, boundary: int, all: seq<Entry>) {
    e.message.Assistant? ==>
      match e.message.content
      case NoContent => false
      case PlainText(text) => !IsBlankText(text)
      case Blocks(blocks) =>
        exists b <- blocks :: !b.Reasoning? && !b.Redacted? && Remains(b, e.ordinal, selected, boundary, all)
  }

  /** What is sent of the entry: itself, but an assistant turn with its remaining blocks only, and its text as a block. */
  ghost predicate SentAs(e: Entry, m: Message, selected: seq<Entry>, boundary: int, all: seq<Entry>) {
    if !e.message.Assistant? || e.message.content.NoContent? then m == e.message
    else if e.message.content.PlainText? then m == e.message.(content := Blocks([Text(e.message.content.text)]))
    else
      && m.Assistant? && m.halted == e.message.halted && m.content.Blocks?
      && LeftOf(e.message.content.blocks, m.content.blocks, e.ordinal, selected, boundary, all)
  }

  ghost predicate LeftOf(blocks: seq<Block>, left: seq<Block>, ordinal: int, selected: seq<Entry>, boundary: int, all: seq<Entry>) {
    exists at {:trigger StandsAt(blocks, at, left)} :: StandsAt(blocks, at, left)
      && forall k: nat :: k in at <==> k < |blocks| && Remains(blocks[k], ordinal, selected, boundary, all)
  }

  /** The entry after stripping and cleaning, if anything of it is left. */
  ghost function Outcome(e: Entry, selected: seq<Entry>, boundary: int, all: seq<Entry>): Option<Message> {
    var stripped := Stripped(e, selected, boundary, all);
    if stripped.None? || Dropped(Normalized(stripped.value)) then None else Some(Normalized(stripped.value))
  }

  lemma OutcomeMeaning(e: Entry, selected: seq<Entry>, boundary: int, all: seq<Entry>)
    ensures var r := Outcome(e, selected, boundary, all);
      && (r.Some? <==> Goes(e, selected, boundary, all))
      && (r.Some? ==> SentAs(e, r.value, selected, boundary, all))
  {
    if e.message.Assistant? && e.message.content.Blocks? {
      BlocksOutcome(e, selected, boundary, all);
    } else if e.message.Assistant? && e.message.content.PlainText? {
      var m := Normalized(e.message);
      DroppedMeaning(e.message);
      assert m.content.blocks[0] == Text(e.message.content.text) && m.content.blocks[0] in m.content.blocks;
    }
  }

  lemma BlocksOutcome(e: Entry, selected: seq<Entry>, boundary: int, all: seq<Entry>)
    requires e.message.Assistant? && e.message.content.Blocks?
    ensures var r := Outcome(e, selected, boundary, all);
      && (r.Some? <==> Goes(e, selected, boundary, all))
      && (r.Some? ==> SentAs(e, r.value, selected, boundary, all))
  {
    var blocks := e.message.content.blocks;
    var staying := StayingBlocks(blocks, e.ordinal, selected, boundary, all);
    var at := BlocksLeft(blocks, e.ordinal, selected, boundary, all);
    var m := Normalized(e.message.(content := Blocks(staying)));
    DroppedMeaning(e.message.(content := Blocks(staying)));
    WithoutBlanksMeaning(staying);
    StayingMeaning(blocks, e.ordinal, selected, boundary, all);
    forall b ensures b in m.content.blocks <==> b in blocks && Remains(b, e.ordinal, selected, boundary, all) {
      StaysIff(b, e.ordinal, selected, boundary, all);
    }
  }

  /* ---- The list ---- */

  lemma CleanedSnoc(ms: seq<Message>, m: Message)
    ensures Cleaned(ms + [m]) == Cleaned(ms) + if Dropped(Normalized(m)) then [] else [Normalized(m)]
  {
    assert (ms + [m])[..|ms|] == ms;
  }

  /** The last entry adds its outcome. */
  lemma EntrySnoc(entries: seq<Entry>, selected: seq<Entry>, boundary: int, all: seq<Entry>)
    requires entries != []
    ensures var before, out := StrippedAll(entries[..|entries| - 1], selected, boundary, all), Outcome(entries[|entries| - 1], selected, boundary, all);
      Cleaned(StrippedAll(entries, selected, boundary, all)) == Cleaned(before) + if out.Some? then [out.value] else []
  {
    var before := StrippedAll(entries[..|entries| - 1], selected, boundary, all);
    var stripped := Stripped(entries[|entries| - 1], selected, boundary, all);
    if stripped.Some? {
      CleanedSnoc(before, stripped.value);
    } else {
      assert Cleaned(before) + [] == Cleaned(before);
    }
  }

  ghost predicate SentAt(entries: seq<Entry>, at: seq<nat>, ms: seq<Message>, i: nat, selected: seq<Entry>, boundary: int, all: seq<Entry>) {
    i < |at| && i < |ms| && at[i] < |entries| && SentAs(entries[at[i]], ms[i], selected, boundary, all)
  }

  /** The messages are what is sent of the entries at the positions. */
  ghost predicate SentAll(entries: seq<Entry>, at: seq<nat>, ms: seq<Message>, selected: seq<Entry>, boundary: int, all: seq<Entry>) {
    && Rising(at, |entries|) && |at| == |ms|
    && forall i: nat {:trigger SentAt(entries, at, ms, i, selected, boundary, all)} ::
      i < |at| ==> SentAt(entries, at, ms, i, selected, boundary, all)
  }

  lemma SentAllKeeps(init: seq<Entry>, e: Entry, at: seq<nat>, ms: seq<Message>, selected: seq<Entry>, boundary: int, all: seq<Entry>)
    requires SentAll(init, at, ms, selected, boundary, all)
    ensures SentAll(init + [e], at, ms, selected, boundary, all)
  {
    RisingSnoc(at, |init|);
    forall i: nat | i < |at| ensures SentAt(init + [e], at, ms, i, selected, boundary, all) {
      assert SentAt(init, at, ms, i, selected, boundary, all);
    }
  }

  lemma SentAllSnoc(init: seq<Entry>, e: Entry, at: seq<nat>, ms: seq<Message>, m: Message, selected: seq<Entry>, boundary: int, all: seq<Entry>)
    requires SentAll(init, at, ms, selected, boundary, all) && SentAs(e, m, selected, boundary, all)
    ensures SentAll(init + [e], at + [|init|], ms + [m], selected, boundary, all)
  {
    RisingSnoc(at, |init|);
    forall i: nat | i < |at| + 1 ensures SentAt(init + [e], at + [|init|], ms + [m], i, selected, boundary, all) {
      assert i < |at| ==> SentAt(init, at, ms, i, selected, boundary, all);
    }
  }

  /** The entry goes; of tool results, only when they are asked for. */
  ghost predicate Wanted(e: Entry, results: bool, selected: seq<Entry>, boundary: int, all: seq<Entry>) {
    Goes(e, selected, boundary, all) && (results || !e.message.ToolResult?)
  }

  ghost predicate WantedAt(entries: seq<Entry>, at: seq<nat>, k: nat, results: bool, selected: seq<Entry>, boundary: int, all: seq<Entry>) {
    k in at <==> k < |entries| && Wanted(entries[k], results, selected, boundary, all)
  }

  /** The positions are those of the wanted entries. */
  ghost predicate AllWanted(entries: seq<Entry>, at: seq<nat>, results: bool, selected: seq<Entry>, boundary: int, all: seq<Entry>) {
    forall k: nat {:trigger WantedAt(entries, at, k, results, selected, boundary, all)} :: WantedAt(entries, at, k, results, selected, boundary, all)
  }

  lemma AllWantedSnoc(init: seq<Entry>, e: Entry, at: seq<nat>, results: bool, selected: seq<Entry>, boundary: int, all: seq<Entry>)
    requires AllWanted(init, at, results, selected, boundary, all)
    ensures AllWanted(init + [e], if Wanted(e, results, selected, boundary, all) then at + [|init|] else at, results, selected, boundary, all)
  {
    var at' := if Wanted(e, results, selected, boundary, all) then at + [|init|] else at;
    forall k: nat ensures WantedAt(init + [e], at', k, results, selected, boundary, all) {
      assert WantedAt(init, at, k, results, selected, boundary, all);
    }
  }

  /** What stripping and cleaning leave, with or without the tool results. */
  ghost function LeftOver(entries: seq<Entry>, results: bool, selected: seq<Entry>, boundary: int, all: seq<Entry>): seq<Message> {
    var cleaned := Cleaned(StrippedAll(entries, selected, boundary, all));
    if results then cleaned else NonResults(cleaned)
  }

  lemma NonResultsSnoc(ms: seq<Message>, m: Message)
    ensures NonResults(ms + [m]) == NonResults(ms) + if m.ToolResult? then [] else [m]
  {
    assert (ms + [m])[..|ms|] == ms;
  }

  lemma LeftOverSnoc(init: seq<Entry>, e: Entry, results: bool, selected: seq<Entry>, boundary: int, all: seq<Entry>)
    ensures var out := Outcome(e, selected, boundary, all);
      && LeftOver(init + [e], results, selected, boundary, all) ==
        LeftOver(init, results, selected, boundary, all) + (if out.Some? && Wanted(e, results, selected, boundary, all) then [out.value] else [])
      && (Wanted(e, results, selected, boundary, all) ==> out.Some? && SentAs(e, out.value, selected, boundary, all))
  {
    var out, before := Outcome(e, selected, boundary, all), Cleaned(StrippedAll(init, selected, boundary, all));
    assert (init + [e])[..|init|] == init;
    EntrySnoc(init + [e], selected, boundary, all);
    OutcomeMeaning(e, selected, boundary, all);
    if out.Some? {
      NonResultsSnoc(before, out.value);
    } else {
      assert before + [] == before;
    }
  }

  /**
   Exactly the entries that go are sent, in order, each as it is sent: no message but an
   assistant turn without substance disappears.  The same holds with tool results apart.
   */
  lemma {:induction false} SentEntries(entries: seq<Entry>, results: bool, selected: seq<Entry>, boundary: int, all: seq<Entry>)
      returns (at: seq<nat>)
    ensures SentAll(entries, at, LeftOver(entries, results, selected, boundary, all), selected, boundary, all)
    ensures AllWanted(entries, at, results, selected, boundary, all)
  {
    at := [];
    if entries != [] {
      var init, e := entries[..|entries| - 1], entries[|entries| - 1];
      at := SentEntries(init, results, selected, boundary, all);
      at := SentMore(init, e, at, results, selected, boundary, all);
      Snoc(entries);
    }
  }

  lemma SentMore(init: seq<Entry>, e: Entry, at: seq<nat>, results: bool, selected: seq<Entry>, boundary: int, all: seq<Entry>)
      returns (at': seq<nat>)
    requires SentAll(init, at, LeftOver(init, results, selected, boundary, all), selected, boundary, all)
    requires AllWanted(init, at, results, selected, boundary, all)
    ensures SentAll(init + [e], at', LeftOver(init + [e], results, selected, boundary, all), selected, boundary, all)
    ensures AllWanted(init + [e], at', results, selected, boundary, all)
  {
    var ms := LeftOver(init, results, selected, boundary, all);
    AllWantedSnoc(init, e, at, results, selected, boundary, all);
    LeftOverSnoc(init, e, results, selected, boundary, all);
    if Wanted(e, results, selected, boundary, all) {
      SentAllSnoc(init, e, at, ms, Outcome(e, selected, boundary, all).value, selected, boundary, all);
      at' := at + [|init|];
    } else {
      SentAllKeeps(init, e, at, ms, selected, boundary, all);
      assert ms + [] == ms;
      at' := at;
    }
  }

  lemma HoistedIsSame(ms: seq<Message>)
    requires Quiet(ms, {})
    ensures Hoisted(NonResults(ms)) == NonResults(ms)
  {
    QuietIff(ms, {});
    NonResultsMeaning(ms);
    forall i | 0 <= i < |NonResults(ms)| ensures Normalize(NonResults(ms)[i]) == NonResults(ms)[i] {
      var m := NonResults(ms)[i];
      assert m in NonResults(ms);
      var k: nat :| k < |ms| && ms[k] == m;
      assert !HoistedAt(ms, k);
    }
  }

  /**
   Results apart, what is sent are exactly the selected entries that go, in order, each as
   it is sent, with the blocks of a turn reordered where it needs a hoist.
   */
  lemma AssembledSends(entries: seq<Entry>, selected: seq<Entry>, boundary: int, messages: seq<Message>) returns (at: seq<nat>)
    requires Assembled(entries, selected, boundary, messages)
    ensures Rising(at, |selected|) && |at| == |NonResults(messages)|
    ensures AllWanted(selected, at, false, selected, boundary, entries)
    ensures forall i :: 0 <= i < |at| ==> Arrives(selected[at[i]], NonResults(messages)[i], selected, boundary, entries)
  {
    var cleaned := Cleaned(StrippedAll(selected, selected, boundary, entries));
    at := SentEntries(selected, false, selected, boundary, entries);
    if Quiet(cleaned, {}) {
      HoistedIsSame(cleaned);
    } else {
      NonResultsKept(cleaned, {});
    }
    forall i | 0 <= i < |at| ensures Arrives(selected[at[i]], NonResults(messages)[i], selected, boundary, entries) {
      assert SentAt(selected, at, NonResults(cleaned), i, selected, boundary, entries);
      assert NonResults(messages)[i] == Normalize(NonResults(cleaned)[i]);
    }
  }

  /** The message is what is sent of the entry, up to the hoist. */
  ghost predicate Arrives(e: Entry, m: Message, selected: seq<Entry>, boundary: int, all: seq<Entry>) {
    exists sent :: SentAs(e, sent, selected, boundary, all) && m == Normalize(sent)
  }

  /* ---- Messages that are neither turns nor results ---- */

  /** The messages that are neither assistant turns nor tool results. */
  function Others(ms: seq<Message>): seq<Message> {
    if ms == [] then []
    else
      var last := ms[|ms| - 1];
      Others(ms[..|ms| - 1]) + if last.Assistant? || last.ToolResult? then [] else [last]
  }

  lemma OthersSnoc(ms: seq<Message>, m: Message)
    ensures Others(ms + [m]) == Others(ms) + if m.Assistant? || m.ToolResult? then [] else [m]
  {
    assert (ms + [m])[..|ms|] == ms;
  }

  function MessagesOf(entries: seq<Entry>): seq<Message> {
    seq(|entries|, i requires 0 <= i < |entries| => entries[i].message)
  }

  /** What the last entry adds apart from turns and results is its message. */
  lemma OthersEntry(entries: seq<Entry>, selected: seq<Entry>, boundary: int, all: seq<Entry>)
    requires entries != []
    ensures var last := entries[|entries| - 1].message;
      Others(Cleaned(StrippedAll(entries, selected, boundary, all))) ==
      Others(Cleaned(StrippedAll(entries[..|entries| - 1], selected, boundary, all)))
        + if last.Assistant? || last.ToolResult? then [] else [last]
  {
    var before, last := StrippedAll(entries[..|entries| - 1], selected, boundary, all), entries[|entries| - 1];
    var out := Outcome(last, selected, boundary, all);
    EntrySnoc(entries, selected, boundary, all);
    OutcomeMeaning(last, selected, boundary, all);
    if out.Some? {
      OthersSnoc(Cleaned(before), out.value);
    } else {
      assert Cleaned(before) + [] == Cleaned(before) && Others(Cleaned(before)) + [] == Others(Cleaned(before));
    }
  }

  lemma {:induction false} OthersCleaned(entries: seq<Entry>, selected: seq<Entry>, boundary: int, all: seq<Entry>)
    ensures Others(Cleaned(StrippedAll(entries, selected, boundary, all))) == Others(MessagesOf(entries))
  {
    if entries != [] {
      var init, last := entries[..|entries| - 1], entries[|entries| - 1];
      OthersCleaned(init, selected, boundary, all);
      OthersEntry(entries, selected, boundary, all);
      OthersSnoc(MessagesOf(init), last.message);
      assert MessagesOf(entries) == MessagesOf(init) + [last.message];
    }
  }

  lemma {:induction false} OthersOfNonResults(ms: seq<Message>)
    ensures Others(NonResults(ms)) == Others(ms)
  {
    if ms != [] {
      var init, last := ms[..|ms| - 1], ms[|ms| - 1];
      OthersOfNonResults(init);
      OthersSnoc(NonResults(init), last);
    }
  }

  lemma {:induction false} OthersHoisted(ms: seq<Message>)
    ensures Others(Hoisted(ms)) == Others(ms)
  {
    if ms != [] {
      var init, last := ms[..|ms| - 1], ms[|ms| - 1];
      OthersHoisted(init);
      assert Hoisted(ms) == Hoisted(init) + [Normalize(last)];
      OthersSnoc(Hoisted(init), Normalize(last));
      NormalizeMeaning(last);
    }
  }

  /** Every selected message that is neither a turn nor a result is sent as it is, and no other such message. */
  lemma OthersAreSent(entries: seq<Entry>, selected: seq<Entry>, boundary: int, messages: seq<Message>)
    requires Assembled(entries, selected, boundary, messages)
    ensures Others(messages) == Others(MessagesOf(selected))
  {
    var cleaned := Cleaned(StrippedAll(selected, selected, boundary, entries));
    OthersCleaned(selected, selected, boundary, entries);
    if !Quiet(cleaned, {}) {
      NonResultsKept(cleaned, {});
      OthersOfNonResults(messages);
      OthersHoisted(NonResults(cleaned));
      OthersOfNonResults(cleaned);
    }
  }

  /* ---- The fresh tail and the budget ---- */

  /** The tail by its meaning; a negative cap is no cap. */
  lemma TailMeaning(entries: seq<Entry>, count: int, maxTokens: Option<int>)
    ensures var cap := if maxTokens.Some? && maxTokens.value >= 0 then Some(maxTokens.value as nat) else None;
      IsProtectedTail(Tokens(RawEntries(entries)), count, cap, ProtectedCount(entries, count, maxTokens))
  {
    ProtectedMeaning(Tokens(RawEntries(entries)), count, Cap(maxTokens));
  }

  /** What the budget leaves beside the fresh tail. */
  function Left(entries: seq<Entry>, tailStart: int, budget: int): int {
    Max(0, budget - Sum(Tokens(FromOn(entries, tailStart))))
  }

  /**
   The mode follows from what fits and from whether there are scores; with everything
   fitting all entries are kept, without scores the longest fitting run of the newest ones,
   with scores each old entry that fits beside those of a higher score, or newer at the same.
   */
  lemma SelectedMeaning(entries: seq<Entry>, tailStart: int, budget: int, score: Option<nat -> real>, mode: Mode, selected: seq<Entry>)
    requires InOrder(entries) && Assembly.Selected(entries, tailStart, budget, score, mode, selected)
    ensures var earlier, tail, left := Below(entries, tailStart), FromOn(entries, tailStart), Left(entries, tailStart, budget);
      && (mode.FullFit? <==> Sum(Tokens(earlier)) <= left) && (mode.FullFit? ==> selected == entries)
      && (mode.Chronological? <==> Sum(Tokens(earlier)) > left && score.None?)
      && (mode.Chronological? ==> exists k: nat {:trigger earlier[k..]} ::
            k <= |earlier| && selected == earlier[k..] + tail && Sum(Tokens(earlier)[k..]) <= left
            && forall j :: 0 <= j < k ==> Sum(Tokens(earlier)[j..]) > left)
      && (mode.PromptAware? <==> Sum(Tokens(earlier)) > left && score.Some?)
      && (mode.PromptAware? ==> exists chosen {:trigger Picked(earlier, chosen)} ::
            selected == Picked(earlier, chosen) + tail && KeptByScore(Tokens(earlier), score.value, left, chosen))
  {
    var earlier, tail, left := Below(entries, tailStart), FromOn(entries, tailStart), Left(entries, tailStart, budget);
    SplitIsCut(entries, tailStart);
    var chosen :| Keeps(mode, Tokens(earlier), score, Remaining(budget, tail), chosen) && selected == Picked(earlier, chosen) + tail;
    match mode
    case FullFit => PickedEverything(earlier, chosen);
    case Chronological =>
      var k: nat :| IsLongestSuffix(Tokens(earlier), left, k) && chosen == Suffix(|earlier|, k);
      SuffixPicked(earlier, |earlier|, k);
      assert earlier[k..] == Picked(earlier, chosen);
    case PromptAware => GreedyByScore(Tokens(earlier), score.value, left, chosen);
  }

  /** An entry is kept exactly when it fits beside the kept ones with a higher score, or with the same and newer. */
  ghost predicate KeptByScore(ts: seq<nat>, score: nat -> real, left: int, chosen: set<nat>) {
    forall i: nat {:trigger i in chosen} :: i in chosen <==>
      i < |ts| && Load(ts, set j | j in chosen && (score(j) > score(i) || (score(j) == score(i) && j > i))) + ts[i] <= left
  }

  lemma GreedyByScore(ts: seq<nat>, score: nat -> real, left: nat, chosen: set<nat>)
    requires IsGreedy(ts, score, left, chosen)
    ensures KeptByScore(ts, score, left, chosen)
  {
    forall i: nat ensures i in chosen <==>
      i < |ts| && Load(ts, set j | j in chosen && (score(j) > score(i) || (score(j) == score(i) && j > i))) + ts[i] <= left
    {
      assert Fits(ts, score, left, chosen, i) <==> i in chosen;
      assert AheadOf(score, chosen, i) == set j | j in chosen && (score(j) > score(i) || (score(j) == score(i) && j > i));
    }
  }
}
