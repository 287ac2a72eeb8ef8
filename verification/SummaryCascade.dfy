/**
 The summarizer's provider chain.  Each candidate is tried, retried when its answer is
 empty or incomplete, and passed over when it fails; the loop with its many exits is
 proved equal to a closed form over the candidates' outcomes.
 */
module SummaryCascade {
  import opened Sequences
  import opened TokenEstimate
  import opened CompactionSteps

  /** How one completion call ends.  `content` and `whole` are the normalized texts of the content and the envelope. */
  datatype Answer =
    | Envelope(content: Text, whole: Text, incomplete: bool)
    | AuthFailed
    | Rejected
    | TimedOut
    | Failed

  /** One attempt: the call, and the call with direct credentials that may follow an auth failure. */
  datatype Attempt = Attempt(first: Answer, managed: bool, hasDirectKey: bool, direct: Answer)

  datatype Provider = Provider(initial: Attempt, retry: Attempt)

  datatype Verdict =
    | Nothing
    | NoCandidates
    | Summary(text: Text)
    | Fallback(text: Text)
    | AuthError(candidate: nat)

  function TextOf(e: Answer): Text
    requires e.Envelope?
  {
    if e.content != [] then e.content else e.whole
  }

  /* ---- One candidate in closed form ---- */

  function Ending(a: Attempt): Answer {
    if a.first.AuthFailed? && !a.managed && a.hasDirectKey then a.direct else a.first
  }

  /** The initial answer is empty or incomplete, so it is retried. */
  predicate Retried(p: Provider) {
    var a := Ending(p.initial);
    a.Envelope? && (TextOf(a) == [] || a.incomplete)
  }

  predicate GivesText(a: Answer) {
    a.Envelope? && TextOf(a) != []
  }

  /** The candidate settles the matter wherever it stands in the chain. */
  predicate Good(p: Provider) {
    GivesText(Ending(if Retried(p) then p.retry else p.initial))
  }

  function GoodText(p: Provider): (t: Text)
    requires Good(p)
    ensures t != []
  {
    TextOf(Ending(if Retried(p) then p.retry else p.initial))
  }

  /** An auth failure is on record for the candidate. */
  predicate AuthOn(p: Provider) {
    Ending(p.initial).AuthFailed? || (Retried(p) && Ending(p.retry).AuthFailed?)
  }

  /** The incomplete text of the initial answer. */
  function Partial(p: Provider): Text {
    var a := Ending(p.initial);
    if a.Envelope? then TextOf(a) else []
  }

  /** As the last candidate it ends the chain by itself: with its partial text, or the fallback. */
  predicate EndsItself(p: Provider) {
    || Ending(p.initial).TimedOut?
    || (Retried(p) && (Ending(p.retry).Envelope? || Ending(p.retry).TimedOut? || Ending(p.retry).Failed?))
  }

  /* ---- The chain in closed form ---- */

  function FirstGood(ps: seq<Provider>): (k: nat)
    ensures k <= |ps|
    ensures k < |ps| ==> Good(ps[k])
  {
    if ps == [] then 0 else if Good(ps[0]) then 0 else 1 + FirstGood(ps[1..])
  }

  lemma {:induction false} NoneBeforeFirstGood(ps: seq<Provider>)
    ensures forall j :: 0 <= j < FirstGood(ps) ==> !Good(ps[j])
  {
    if ps != [] && !Good(ps[0]) {
      NoneBeforeFirstGood(ps[1..]);
    }
  }

  /** Nobody before `k` is good, so the first good candidate is at `k` or later. */
  lemma {:induction false} FirstGoodFrom(ps: seq<Provider>, k: nat)
    requires k <= |ps| && forall j :: 0 <= j < k ==> !Good(ps[j])
    ensures FirstGood(ps) >= k && (k < |ps| && Good(ps[k]) ==> FirstGood(ps) == k)
  {
    NoneBeforeFirstGood(ps);
  }

  /** The last candidate with an auth failure on record. */
  function LastAuth(ps: seq<Provider>): (r: Option<nat>)
    ensures r.Some? ==> r.value < |ps| && AuthOn(ps[r.value])
  {
    if ps == [] then None
    else if AuthOn(ps[|ps| - 1]) then Some(|ps| - 1)
    else LastAuth(ps[..|ps| - 1])
  }

  lemma {:induction false} NoneAfterLastAuth(ps: seq<Provider>)
    ensures var r := LastAuth(ps); forall j :: 0 <= j < |ps| && (r.None? || r.value < j) ==> !AuthOn(ps[j])
  {
    if ps != [] && !AuthOn(ps[|ps| - 1]) {
      NoneAfterLastAuth(ps[..|ps| - 1]);
    }
  }

  function Chain(ps: seq<Provider>, text: Text, target: nat): Verdict
    requires ps != []
  {
    var k := FirstGood(ps);
    var last := ps[|ps| - 1];
    if k < |ps| then Summary(GoodText(ps[k]))
    else if EndsItself(last) then if Partial(last) != [] then Summary(Partial(last)) else Fallback(Marked(text, target))
    else if LastAuth(ps).Some? then AuthError(LastAuth(ps).value)
    else Fallback(Marked(text, target))
  }

  function Resolve(ps: seq<Provider>, text: Text, target: nat): Verdict {
    if IsBlank(text) then Nothing
    else if ps == [] then NoCandidates
    else Chain(ps, text, target)
  }

  /* ---- The deterministic fallback ---- */

  function Chars(s: string): Text {
    seq(|s|, i requires 0 <= i < |s| => s[i] as int)
  }

  const WHOLE_MARKER := Chars("[LCM fallback summary \U{2014} model unavailable; raw source preserved verbatim below]\n")
  const CUT_MARKER := Chars("[LCM fallback summary \U{2014} model unavailable; raw source truncated for context management]\n")

  function TrimLeft(text: Text): Text {
    if text != [] && IsSpace(text[0]) then TrimLeft(text[1..]) else text
  }

  function TrimRight(text: Text): Text {
    if text != [] && IsSpace(text[|text| - 1]) then TrimRight(text[..|text| - 1]) else text
  }

  function Trim(text: Text): Text {
    TrimRight(TrimLeft(text))
  }

  function MaxChars(target: nat): nat {
    Max(256, target * 4)
  }

  function Marked(text: Text, target: nat): Text {
    var trimmed := Trim(text);
    if trimmed == [] then []
    else if |trimmed| <= MaxChars(target) then WHOLE_MARKER + trimmed
    else CUT_MARKER + trimmed[..MaxChars(target)]
  }

  lemma {:induction false} TrimLeftMeaning(text: Text)
    ensures IsBlank(text) <==> TrimLeft(text) == []
    ensures TrimLeft(text) != [] ==> !IsSpace(TrimLeft(text)[0])
  {
    if text != [] && IsSpace(text[0]) {
      TrimLeftMeaning(text[1..]);
      assert forall i :: 0 < i < |text| ==> text[i] == text[1..][i - 1];
    }
  }

  lemma {:induction false} TrimRightKeepsHead(text: Text)
    requires text != [] && !IsSpace(text[0])
    ensures TrimRight(text) != [] && TrimRight(text)[0] == text[0]
    ensures !IsSpace(TrimRight(text)[|TrimRight(text)| - 1])
  {
    if IsSpace(text[|text| - 1]) {
      TrimRightKeepsHead(text[..|text| - 1]);
    }
  }

  /** For any text but a blank one the fallback is marked, holds the text or its longest allowed prefix, and is bounded. */
  lemma MarkedMeaning(text: Text, target: nat)
    ensures IsBlank(text) <==> Marked(text, target) == []
    ensures !IsBlank(text) ==>
      var r := Marked(text, target);
      (WHOLE_MARKER < r && r[|WHOLE_MARKER|..] == Trim(text) && |Trim(text)| <= MaxChars(target))
      || (CUT_MARKER < r && r[|CUT_MARKER|..] == Trim(text)[..MaxChars(target)] && |Trim(text)| > MaxChars(target))
  {
    TrimLeftMeaning(text);
    if TrimLeft(text) != [] {
      TrimRightKeepsHead(TrimLeft(text));
    } else {
      assert TrimRight([]) == [];
    }
  }

  /* ---- Target size ---- */

  const DEFAULT_LEAF_TARGET_TOKENS := 4000
  const DEFAULT_CONDENSED_TARGET_TOKENS := 2000

  function Positive(configured: int, default: nat): nat
    requires default > 0
  {
    if configured > 0 then configured else default
  }

  function TargetTokens(inputTokens: nat, aggressive: bool, condensed: bool, leafTarget: int, condensedTarget: int): nat {
    var leaf, inner := Positive(leafTarget, DEFAULT_LEAF_TARGET_TOKENS), Positive(condensedTarget, DEFAULT_CONDENSED_TARGET_TOKENS);
    var leafFloor := Max(192, leaf);
    if condensed then Max(512, inner)
    else if aggressive then
      Max(96, Min(Max(96, Min(leafFloor, (leafFloor as real * 0.55).Floor)), (inputTokens as real * 0.20).Floor))
    else Max(192, Min(leafFloor, (inputTokens as real * 0.35).Floor))
  }

  /** The aggressive target is never above the normal one, and neither leaves its bounds. */
  lemma TargetBounds(inputTokens: nat, leafTarget: int, condensedTarget: int)
    ensures var normal := TargetTokens(inputTokens, false, false, leafTarget, condensedTarget);
      var aggressive := TargetTokens(inputTokens, true, false, leafTarget, condensedTarget);
      96 <= aggressive <= normal && 192 <= normal <= Max(192, Positive(leafTarget, DEFAULT_LEAF_TARGET_TOKENS))
  {
  }

  /* ---- The loop ---- */

  function Backoff(index: nat): nat {
    Min(500 * Power2(index), 8000)
  }

  function Power2(n: nat): (r: nat)
    ensures r > 0
  {
    if n == 0 then 1 else 2 * Power2(n - 1)
  }

  /** The wait doubles from half a second and stays at eight seconds from the fifth candidate on. */
  lemma {:induction false} BackoffMeaning(index: nat)
    ensures Backoff(0) == 500 && Backoff(index + 1) == Min(2 * Backoff(index), 8000)
    ensures index >= 4 ==> Backoff(index) == 8000
  {
    if index > 4 {
      BackoffMeaning(index - 1);
    } else {
      assert Power2(1) == 2 && Power2(2) == 4 && Power2(3) == 8 && Power2(4) == 16;
    }
  }

  /* ---- Calls and waits ---- */

  function AttemptCalls(a: Attempt): (n: nat)
    ensures 1 <= n <= 2
  {
    if a.first.AuthFailed? && !a.managed && a.hasDirectKey then 2 else 1
  }

  /** Completion calls for the first `k` candidates. */
  function Calls(ps: seq<Provider>, k: nat): (n: nat)
    requires k <= |ps|
    ensures k <= n <= 4 * k
  {
    if k == 0 then 0
    else
      var p := ps[k - 1];
      Calls(ps, k - 1) + AttemptCalls(p.initial) + if Retried(p) then AttemptCalls(p.retry) else 0
  }

  /** Waits between the first `k` candidates and the next; after a retry that just failed there is none. */
  function Waits(ps: seq<Provider>, k: nat): seq<nat>
    requires k <= |ps|
  {
    if k == 0 then []
    else
      var p := ps[k - 1];
      if Retried(p) && Ending(p.retry).Failed? then Waits(ps, k - 1) else Waits(ps, k - 1) + [Backoff(k - 1)]
  }

  /** The call, then once more with direct credentials where that is possible. */
  method Try(a: Attempt) returns (answer: Answer, calls: nat)
    ensures answer == Ending(a) && calls == AttemptCalls(a)
    // A failure on authentication remains exactly when no second call was possible or that one failed on it too.
    ensures answer.AuthFailed? <==> a.first.AuthFailed? && (a.managed || !a.hasDirectKey || a.direct.AuthFailed?)
    // There is a second call only after such a failure, and its answer is final.
    ensures calls == 2 ==> a.first.AuthFailed? && answer == a.direct
    ensures calls == 1 ==> answer == a.first
  {
    answer, calls := a.first, 1;
    if answer.AuthFailed? && !a.managed && a.hasDirectKey {
      answer, calls := a.direct, 2;
    }
  }

  /** How many candidates are asked: none after the first good one. */
  function Asked(ps: seq<Provider>): (n: nat)
    ensures n <= |ps|
  {
    Min(FirstGood(ps) + 1, |ps|)
  }

  /** One candidate: its text, or why the next one is asked. */
  datatype Turn = Settled(text: Text) | PassedOver(auth: bool, endsChain: bool, partial: Text, wait: bool)

  method TryCandidate(p: Provider) returns (turn: Turn, calls: nat)
    ensures calls == AttemptCalls(p.initial) + if Retried(p) then AttemptCalls(p.retry) else 0
    ensures turn.Settled? <==> Good(p)
    ensures turn.Settled? ==> turn.text == GoodText(p)
    ensures turn.PassedOver? ==>
      && turn.auth == AuthOn(p) && turn.endsChain == EndsItself(p) && turn.partial == Partial(p)
      && turn.wait == !(Retried(p) && Ending(p.retry).Failed?)
  {
    var answer, more;
    answer, calls := Try(p.initial);
    if !answer.Envelope? {
      return PassedOver(answer.AuthFailed?, answer.TimedOut?, [], true), calls;
    }
    var initial := TextOf(answer);
    if initial != [] && !answer.incomplete {
      return Settled(initial), calls;
    }
    answer, more := Try(p.retry);
    calls := calls + more;
    if GivesText(answer) {
      return Settled(TextOf(answer)), calls;
    }
    turn := PassedOver(answer.AuthFailed?, !answer.AuthFailed? && !answer.Rejected?, initial, !answer.Failed?);
  }

  method RunChain(ps: seq<Provider>, text: Text, target: nat) returns (verdict: Verdict, calls: nat, sleeps: seq<nat>)
    requires ps != []
    ensures verdict == Chain(ps, text, target)
    ensures calls == Calls(ps, Asked(ps)) && sleeps == Waits(ps, Asked(ps) - 1)
  {
    calls, sleeps := 0, [];
    var lastAuth: Option<nat> := None;
    var index := 0;
    while index < |ps|
      invariant 0 <= index <= |ps| && calls == Calls(ps, index)
      invariant NobodyGood(ps, index) && lastAuth == LastAuth(ps[..index])
      invariant index == |ps| ==> !EndsItself(ps[|ps| - 1])
      invariant sleeps == Waits(ps, if index == |ps| then index - 1 else index)
    {
      var isLast := index == |ps| - 1;
      AuthSoFar(ps, index);
      var turn, n := TryCandidate(ps[index]);
      calls := calls + n;
      if turn.Settled? {
        GoodEnds(ps, index, text, target);
        return Summary(turn.text), calls, sleeps;
      }
      if turn.auth {
        lastAuth := Some(index);
      }
      if isLast && turn.endsChain {
        LastEnds(ps, text, target);
        return if turn.partial == [] then Fallback(Marked(text, target)) else Summary(turn.partial), calls, sleeps;
      }
      if !isLast && turn.wait {
        sleeps := sleeps + [Backoff(index)];
      }
      index := index + 1;
    }
    assert ps[..|ps|] == ps;
    NobodyEnds(ps);
    if lastAuth.Some? {
      return AuthError(lastAuth.value), calls, sleeps;
    }
    verdict := Fallback(Marked(text, target));
  }

  /** None of the first `n` candidates is good. */
  ghost predicate NobodyGood(ps: seq<Provider>, n: nat)
    requires n <= |ps|
  {
    FirstGood(ps) >= n
  }

  lemma {:induction false} AuthSoFar(ps: seq<Provider>, index: nat)
    requires index < |ps|
    ensures LastAuth(ps[..index + 1]) == if AuthOn(ps[index]) then Some(index) else LastAuth(ps[..index])
  {
    assert ps[..index + 1][..index] == ps[..index];
  }

  lemma {:induction false} GoodEnds(ps: seq<Provider>, index: nat, text: Text, target: nat)
    requires index < |ps| && NobodyGood(ps, index) && Good(ps[index])
    ensures Chain(ps, text, target) == Summary(GoodText(ps[index])) && Asked(ps) == index + 1
  {
    NoneBeforeFirstGood(ps);
  }

  lemma {:induction false} NobodyEnds(ps: seq<Provider>)
    requires NobodyGood(ps, |ps|)
    ensures FirstGood(ps) == |ps| == Asked(ps)
  {
  }

  lemma {:induction false} LastEnds(ps: seq<Provider>, text: Text, target: nat)
    requires ps != [] && NobodyGood(ps, |ps| - 1) && !Good(ps[|ps| - 1]) && EndsItself(ps[|ps| - 1])
    ensures Asked(ps) == |ps|
    ensures Chain(ps, text, target) ==
      if Partial(ps[|ps| - 1]) != [] then Summary(Partial(ps[|ps| - 1])) else Fallback(Marked(text, target))
  {
  }

  method Summarize(ps: seq<Provider>, text: Text, aggressive: bool, condensed: bool, leafTarget: int, condensedTarget: int)
      returns (verdict: Verdict, calls: nat, sleeps: seq<nat>)
    ensures verdict == Resolve(ps, text, TargetTokens(Estimate(text), aggressive, condensed, leafTarget, condensedTarget))
    ensures calls <= 4 * |ps|
    ensures IsBlank(text) ==> verdict == Nothing && calls == 0 && sleeps == []
    ensures !IsBlank(text) && ps == [] ==> verdict == NoCandidates && calls == 0 && sleeps == []
    ensures !IsBlank(text) && ps != [] ==> !verdict.Nothing? && !verdict.NoCandidates?
  {
    calls, sleeps := 0, [];
    if IsBlank(text) {
      return Nothing, calls, sleeps;
    }
    if ps == [] {
      return NoCandidates, calls, sleeps;
    }
    var input := EstimateTokens(text);
    verdict, calls, sleeps := RunChain(ps, text, TargetTokens(input, aggressive, condensed, leafTarget, condensedTarget));
  }

  /* ---- What the verdict means ---- */

  /** A text comes back in every case but one: an auth error is raised. */
  lemma {:induction false} VerdictHasText(ps: seq<Provider>, text: Text, target: nat)
    requires ps != [] && !IsBlank(text)
    ensures var v := Resolve(ps, text, target);
      && (v.Summary? || v.Fallback? || v.AuthError?)
      && (v.Summary? ==> v.text != []) && (v.Fallback? ==> v.text == Marked(text, target) != [])
  {
    MarkedHasText(text, target);
    SummaryHasText(ps, text, target);
  }

  lemma MarkedHasText(text: Text, target: nat)
    requires !IsBlank(text)
    ensures Marked(text, target) != []
  {
    MarkedMeaning(text, target);
  }

  lemma {:induction false} SummaryHasText(ps: seq<Provider>, text: Text, target: nat)
    requires ps != []
    ensures Chain(ps, text, target).Summary? ==> Chain(ps, text, target).text != []
  {
  }

  /** When it raises: nobody is good, somebody failed to authenticate, and the last candidate does not end the chain itself. */
  lemma {:induction false} RaisesIff(ps: seq<Provider>, text: Text, target: nat)
    requires ps != [] && !IsBlank(text)
    ensures Resolve(ps, text, target).AuthError? <==>
      && (forall k :: 0 <= k < |ps| ==> !Good(ps[k]))
      && (exists k :: 0 <= k < |ps| && AuthOn(ps[k]))
      && !EndsItself(ps[|ps| - 1])
  {
    NoneBeforeFirstGood(ps);
    NoneAfterLastAuth(ps);
    if LastAuth(ps).Some? {
      assert AuthOn(ps[LastAuth(ps).value]);
    }
    if FirstGood(ps) < |ps| {
      assert Good(ps[FirstGood(ps)]);
    }
  }

  /** In particular when every candidate fails to authenticate. */
  lemma {:induction false} AllAuthRaises(ps: seq<Provider>, text: Text, target: nat)
    requires ps != [] && !IsBlank(text)
    requires forall k :: 0 <= k < |ps| ==> AuthOn(ps[k])
    ensures Resolve(ps, text, target) == AuthError(|ps| - 1)
  {
    assert AuthOn(ps[|ps| - 1]);
    forall k | 0 <= k < |ps| ensures !Good(ps[k]) {
      assert AuthOn(ps[k]);
    }
  }

  /** The first good candidate's text is returned, whatever the others do. */
  lemma {:induction false} FirstGoodWins(ps: seq<Provider>, k: nat, text: Text, target: nat)
    requires !IsBlank(text) && k < |ps| && Good(ps[k]) && forall j :: 0 <= j < k ==> !Good(ps[j])
    ensures Resolve(ps, text, target) == Summary(GoodText(ps[k]))
  {
    FirstGoodFrom(ps, k);
  }

  /** One auth failure among other failures is enough to raise. */
  lemma OneAuthRaises()
    ensures var down := Attempt(AuthFailed, true, false, Failed);
      var broken := Attempt(Failed, true, false, Failed);
      Resolve([Provider(down, down), Provider(broken, broken)], [0x41], 0) == AuthError(0)
  {
    var down, broken := Attempt(AuthFailed, true, false, Failed), Attempt(Failed, true, false, Failed);
    var ps := [Provider(down, down), Provider(broken, broken)];
    assert !IsBlank([0x41]) by {
      assert !IsSpace([0x41][0]);
    }
    assert ps[..1] == [ps[0]] && !AuthOn(ps[1]) && AuthOn(ps[0]);
  }

  /**
   When nobody is good, the partial text of the last candidate is returned exactly when
   its retry was neither rejected nor refused on authentication.
   */
  lemma {:induction false} PartialKeptIff(ps: seq<Provider>, text: Text, target: nat)
    requires ps != [] && !IsBlank(text) && (forall k :: 0 <= k < |ps| ==> !Good(ps[k]))
    requires Partial(ps[|ps| - 1]) != []
    ensures var last := ps[|ps| - 1];
      Resolve(ps, text, target) == Summary(Partial(last)) <==>
      !(Ending(last.retry).Rejected? || Ending(last.retry).AuthFailed?)
  {
    assert Retried(ps[|ps| - 1]) && FirstGood(ps) == |ps|;
  }

  /**
   What comes back instead of the partial text: after a rejected retry the chain's last
   auth failure or, without any, the fallback; after a retry that failed on
   authentication that failure.
   */
  lemma {:induction false} RejectedRetryDiscards(ps: seq<Provider>, text: Text, target: nat)
    requires ps != [] && !IsBlank(text) && (forall k :: 0 <= k < |ps| ==> !Good(ps[k]))
    requires Partial(ps[|ps| - 1]) != []
    ensures var retry, v := Ending(ps[|ps| - 1].retry), Resolve(ps, text, target);
      && (retry.AuthFailed? ==> v == AuthError(|ps| - 1))
      && (retry.Rejected? && LastAuth(ps).Some? ==> v == AuthError(LastAuth(ps).value))
      && (retry.Rejected? && LastAuth(ps).None? ==> v == Fallback(Marked(text, target)))
  {
    FirstGoodFrom(ps, |ps|);
    assert Retried(ps[|ps| - 1]);
    if !EndsItself(ps[|ps| - 1]) {
      RunsDry(ps, text, target);
    }
  }

  lemma {:induction false} RunsDry(ps: seq<Provider>, text: Text, target: nat)
    requires ps != [] && NobodyGood(ps, |ps|) && !EndsItself(ps[|ps| - 1])
    ensures Chain(ps, text, target) ==
      if LastAuth(ps).Some? then AuthError(LastAuth(ps).value) else Fallback(Marked(text, target))
  {
    NobodyEnds(ps);
  }

  /** One candidate answers with an incomplete text and then rejects: the text is lost. */
  lemma PartialDiscarded()
    ensures var p := Provider(Attempt(Envelope([0x41], [], true), false, false, Failed), Attempt(Rejected, false, false, Failed));
      Partial(p) == [0x41] && Resolve([p], [0x41], 0) == Fallback(Marked([0x41], 0))
  {
    var p := Provider(Attempt(Envelope([0x41], [], true), false, false, Failed), Attempt(Rejected, false, false, Failed));
    assert !IsBlank([0x41]) by {
      assert !IsSpace([0x41][0]);
    }
    RejectedRetryDiscards([p], [0x41], 0);
  }
}
