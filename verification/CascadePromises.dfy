/** What the summarizer chain promises, spelled out in characters, numbers and single answers. */
module CascadePromises {
  import opened Sequences
  import opened TokenEstimate
  import opened CompactionSteps
  import opened SummaryCascade

  /* ---- Trimming and the fallback ---- */

  /** `r` is `text` from `i` to `j`, with only spaces outside and none at its ends. */
  ghost predicate TrimmedTo(text: Text, i: nat, j: nat, r: Text) {
    && i <= j <= |text| && r == text[i..j]
    && (forall k :: 0 <= k < i ==> IsSpace(text[k])) && (forall k :: j <= k < |text| ==> IsSpace(text[k]))
    && (r != [] ==> !IsSpace(r[0]) && !IsSpace(r[|r| - 1]))
  }

  lemma {:induction false} LeftIsSuffix(text: Text) returns (i: nat)
    ensures i <= |text| && TrimLeft(text) == text[i..] && forall k :: 0 <= k < i ==> IsSpace(text[k])
  {
    i := 0;
    if text != [] && IsSpace(text[0]) {
      i := LeftIsSuffix(text[1..]);
      forall k | 0 < k < i + 1 ensures IsSpace(text[k]) {
        assert text[1..][k - 1] == text[k];
      }
      i := i + 1;
    }
  }

  lemma {:induction false} RightIsPrefix(text: Text) returns (j: nat)
    ensures j <= |text| && TrimRight(text) == text[..j] && forall k :: j <= k < |text| ==> IsSpace(text[k])
    ensures TrimRight(text) != [] ==> !IsSpace(TrimRight(text)[|TrimRight(text)| - 1])
  {
    j := |text|;
    if text != [] && IsSpace(text[|text| - 1]) {
      j := RightIsPrefix(text[..|text| - 1]);
    }
  }

  /** Trimming takes away the spaces at both ends and nothing else. */
  lemma TrimMeaning(text: Text)
    ensures exists i: nat, j: nat :: TrimmedTo(text, i, j, Trim(text))
  {
    var left := TrimLeft(text);
    var i := LeftIsSuffix(text);
    var j := RightIsPrefix(left);
    TrimLeftMeaning(text);
    forall k | i + j <= k < |text| ensures IsSpace(text[k]) {
      assert left[k - i] == text[k];
    }
    assert text[i..i + j] == left[..j];
    assert TrimmedTo(text, i, i + j, Trim(text));
  }

  /** The fallback holds at most four characters a token, and never fewer than 256. */
  lemma FallbackSize(text: Text, target: nat)
    requires !IsBlank(text)
    ensures var limit := if target > 64 then 4 * target else 256;
      Marked(text, target) ==
      if |Trim(text)| <= limit then WHOLE_MARKER + Trim(text) else CUT_MARKER + Trim(text)[..limit]
  {
    MarkedMeaning(text, target);
  }

  /* ---- Target sizes ---- */

  /** A share of a count in whole numbers. */
  lemma ShareOf(n: nat)
    ensures (n as real * 0.35).Floor == 7 * n / 20 && (n as real * 0.55).Floor == 11 * n / 20 && (n as real * 0.20).Floor == n / 5
  {
  }

  /** The target sizes in whole numbers: a share of the input, or of the leaf target, within fixed bounds. */
  lemma TargetsInWholeNumbers(inputTokens: nat, leafTarget: int, condensedTarget: int)
    ensures var leaf := if leafTarget > 192 then leafTarget else if leafTarget > 0 then 192 else 4000;
      && TargetTokens(inputTokens, false, false, leafTarget, condensedTarget) == Max(192, Min(leaf, 7 * inputTokens / 20))
      && TargetTokens(inputTokens, true, false, leafTarget, condensedTarget) ==
        Max(96, Min(11 * leaf / 20, inputTokens / 5))
    ensures TargetTokens(inputTokens, false, true, leafTarget, condensedTarget) ==
      TargetTokens(inputTokens, true, true, leafTarget, condensedTarget) ==
      if condensedTarget > 512 then condensedTarget else if condensedTarget > 0 then 512 else 2000
  {
    var leaf := if leafTarget > 192 then leafTarget else if leafTarget > 0 then 192 else 4000;
    ShareOf(inputTokens);
    ShareOf(leaf);
  }

  /* ---- One candidate, answer by answer ---- */

  /** A call that no second one with direct credentials follows. */
  function Only(answer: Answer): Attempt {
    Attempt(answer, true, false, Failed)
  }

  /** The text of an answer: its content, or the whole envelope's when that is empty. */
  function Said(answer: Answer): Text {
    match answer
    case Envelope(content, whole, _) => if content != [] then content else whole
    case _ => []
  }

  /** What comes back of a lone candidate that answers `x` and, where it is asked again, `y`. */
  lemma OneCandidate(x: Answer, y: Answer, text: Text, target: nat)
    requires !IsBlank(text)
    ensures var v, fallback := Resolve([Provider(Only(x), Only(y))], text, target), Fallback(Marked(text, target));
      v ==
      if x.AuthFailed? then AuthError(0)
      else if !x.Envelope? then fallback
      else if Said(x) != [] && !x.incomplete then Summary(Said(x))
      else if Said(y) != [] then Summary(Said(y))
      else if y.AuthFailed? then AuthError(0)
      else if y.Rejected? || Said(x) == [] then fallback
      else Summary(Said(x))
  {
    var p := Provider(Only(x), Only(y));
    assert [p][0] == p && [p][1..] == [] && [p][..0] == [];
    assert Good(p) <==> (x.Envelope? && Said(x) != [] && !x.incomplete) || (x.Envelope? && (Said(x) == [] || x.incomplete) && Said(y) != []);
  }

  /* ---- Waits and calls ---- */

  ghost predicate WaitsAfter(ps: seq<Provider>, i: nat) {
    i < |ps| && !(Retried(ps[i]) && Ending(ps[i].retry).Failed?)
  }

  /** Each candidate passed over is followed by its doubled wait, but for one whose retry just failed. */
  lemma {:induction false} WaitsMeaning(ps: seq<Provider>, k: nat) returns (at: seq<nat>)
    requires k <= |ps|
    ensures |at| == |Waits(ps, k)|
    ensures forall i :: 0 <= i < |at| ==> Waits(ps, k)[i] == Backoff(at[i]) && WaitsAfter(ps, at[i])
    ensures (forall i, j :: 0 <= i < j < |at| ==> at[i] < at[j]) && forall i: nat :: i in at <==> i < k && WaitsAfter(ps, i)
  {
    at := [];
    if k > 0 {
      at := WaitsMeaning(ps, k - 1);
      if WaitsAfter(ps, k - 1) {
        at := at + [k - 1];
      }
    }
  }

  /** One call a candidate, one more when it is retried, and one more for each that is repeated with direct credentials. */
  lemma CallsStep(ps: seq<Provider>, k: nat)
    requires k < |ps|
    ensures Calls(ps, 0) == 0
    ensures Calls(ps, k + 1) - Calls(ps, k) ==
      1 + (if Repeated(ps[k].initial) then 1 else 0)
      + if Retried(ps[k]) then 1 + (if Repeated(ps[k].retry) then 1 else 0) else 0
  {
  }

  /** A call that failed on authentication is repeated where a direct key may be used. */
  predicate Repeated(a: Attempt) {
    a.first.AuthFailed? && !a.managed && a.hasDirectKey
  }
}
