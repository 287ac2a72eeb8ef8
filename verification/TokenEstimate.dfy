/**
 The code-point-aware token estimator.  Every weight is a multiple of a quarter
 token, so a sum is kept exactly as a whole number of quarters.
 */
module TokenEstimate {
  import opened Sequences

  type CodePoint = c: int | 0 <= c < 0x11_0000
  type Text = seq<CodePoint>

  predicate IsCjk(cp: CodePoint) {
    || 0x4E00 <= cp <= 0x9FFF
    || 0x3400 <= cp <= 0x4DBF
    || 0x20000 <= cp <= 0x2A6DF
    || 0x2A700 <= cp <= 0x2B73F
    || 0x2B740 <= cp <= 0x2B81F
    || 0x2B820 <= cp <= 0x2CEAF
    || 0x2CEB0 <= cp <= 0x2EBEF
    || 0x3000 <= cp <= 0x303F
    || 0x3040 <= cp <= 0x30FF
    || 0xAC00 <= cp <= 0xD7AF
    || 0xFF00 <= cp <= 0xFFEF
  }

  /** The weight of one code point, in quarter tokens: 1.5, 2 or 0.25 tokens. */
  function Weight(cp: CodePoint): (w: nat) {
    if IsCjk(cp) then 6 else if cp > 0xFFFF then 8 else 1
  }

  function Quarters(text: Text): nat {
    if text == [] then 0 else Quarters(text[..|text| - 1]) + Weight(text[|text| - 1])
  }

  /** Quarters rounded up to whole tokens. */
  function CeilTokens(quarters: nat): nat { (quarters + 3) / 4 }

  function Estimate(text: Text): nat { CeilTokens(Quarters(text)) }

  lemma {:induction false} QuartersAppend(a: Text, b: Text)
    ensures Quarters(a + b) == Quarters(a) + Quarters(b)
  {
    if b == [] {
      assert a + b == a;
    } else {
      assert (a + b)[..|a + b| - 1] == a + b[..|b| - 1];
      QuartersAppend(a, b[..|b| - 1]);
    }
  }

  /** A longer prefix never costs less. */
  lemma EstimateMonotone(text: Text, j: nat, k: nat)
    requires j <= k <= |text|
    ensures Estimate(text[..j]) <= Estimate(text[..k])
  {
    assert text[..k] == text[..j] + text[j..k];
    QuartersAppend(text[..j], text[j..k]);
  }

  /** Splitting a text never saves tokens and costs at most one more. */
  lemma EstimateSplit(a: Text, b: Text)
    ensures Estimate(a + b) <= Estimate(a) + Estimate(b) <= Estimate(a + b) + 1
  {
    QuartersAppend(a, b);
  }

  /** Only the empty text is free. */
  lemma EstimatePositive(text: Text)
    ensures Estimate(text) == 0 <==> text == []
  {
  }

  /** The blocks of Chinese, Japanese and Korean code points, first and last. */
  const CJK_BLOCKS := [
    (0x4E00, 0x9FFF), (0x3400, 0x4DBF), (0x2_0000, 0x2_A6DF), (0x2_A700, 0x2_B73F), (0x2_B740, 0x2_B81F),
    (0x2_B820, 0x2_CEAF), (0x2_CEB0, 0x2_EBEF), (0x3000, 0x303F), (0x3040, 0x30FF), (0xAC00, 0xD7AF), (0xFF00, 0xFFEF)]

  lemma CjkBlocks(cp: CodePoint)
    ensures IsCjk(cp) <==> exists i :: 0 <= i < |CJK_BLOCKS| && CJK_BLOCKS[i].0 <= cp <= CJK_BLOCKS[i].1
  {
    assert CJK_BLOCKS[0] == (0x4E00, 0x9FFF) && CJK_BLOCKS[1] == (0x3400, 0x4DBF) && CJK_BLOCKS[2] == (0x2_0000, 0x2_A6DF);
    assert CJK_BLOCKS[3] == (0x2_A700, 0x2_B73F) && CJK_BLOCKS[4] == (0x2_B740, 0x2_B81F) && CJK_BLOCKS[5] == (0x2_B820, 0x2_CEAF);
    assert CJK_BLOCKS[6] == (0x2_CEB0, 0x2_EBEF) && CJK_BLOCKS[7] == (0x3000, 0x303F) && CJK_BLOCKS[8] == (0x3040, 0x30FF);
    assert CJK_BLOCKS[9] == (0xAC00, 0xD7AF) && CJK_BLOCKS[10] == (0xFF00, 0xFFEF);
  }

  function Copies(cp: CodePoint, n: nat): Text {
    seq(n, _ => cp)
  }

  /** `n` code points of one block cost one and a half tokens each, two beyond the basic plane, else a quarter, rounded up. */
  lemma CostOfCopies(cp: CodePoint, n: nat)
    ensures Estimate(Copies(cp, n)) ==
      if exists i :: 0 <= i < |CJK_BLOCKS| && CJK_BLOCKS[i].0 <= cp <= CJK_BLOCKS[i].1 then (3 * n + 1) / 2
      else if cp > 0xFFFF then 2 * n else (n + 3) / 4
  {
    CjkBlocks(cp);
    QuartersOfCopies(cp, n);
  }

  lemma {:induction false} QuartersOfCopies(cp: CodePoint, n: nat)
    ensures Quarters(Copies(cp, n)) == n * Weight(cp)
  {
    if n > 0 {
      assert Copies(cp, n)[..n - 1] == Copies(cp, n - 1);
      QuartersOfCopies(cp, n - 1);
    }
  }

  method EstimateTokens(text: Text) returns (tokens: nat)
    ensures tokens == Estimate(text)
  {
    var quarters := 0;
    for i := 0 to |text|
      invariant quarters == Quarters(text[..i])
    {
      assert text[..i + 1][..i] == text[..i];
      quarters := quarters + Weight(text[i]);
    }
    assert text[..|text|] == text;
    tokens := CeilTokens(quarters);
  }

  /** `prefix` is the longest prefix of `text` that costs at most `cap`. */
  ghost predicate LongestWithin(text: Text, cap: int, prefix: Text) {
    && prefix <= text
    && Estimate(prefix) <= cap
    && forall k :: |prefix| < k <= |text| ==> cap < Estimate(text[..k])
  }

  method Truncate(text: Text, maxTokens: int) returns (prefix: Text)
    ensures maxTokens < 0 ==> prefix == []
    ensures 0 <= maxTokens ==> LongestWithin(text, maxTokens, prefix)
  {
    if maxTokens <= 0 || text == [] {
      prefix := [];
      forall k | 0 < k <= |text| ensures 0 < Estimate(text[..k]) {
        EstimatePositive(text[..k]);
      }
      return;
    }
    var quarters, end := 0, 0;
    while end < |text|
      invariant 0 <= end <= |text|
      invariant quarters == Quarters(text[..end])
      invariant CeilTokens(quarters) <= maxTokens
    {
      assert text[..end + 1][..end] == text[..end];
      var next := quarters + Weight(text[end]);
      if CeilTokens(next) > maxTokens {
        break;
      }
      quarters, end := next, end + 1;
    }
    prefix := text[..end];
    forall k | end < k <= |text| ensures maxTokens < Estimate(text[..k]) {
      assert text[..end + 1][..end] == text[..end];
      EstimateMonotone(text, end + 1, k);
    }
  }

  /** Truncating twice is truncating once to the smaller cap. */
  lemma TruncateCompose(text: Text, cap: nat, cap': nat, once: Text, twice: Text)
    requires LongestWithin(text, cap, once) && LongestWithin(once, cap', twice)
    ensures LongestWithin(text, Min(cap, cap'), twice)
  {
    assert twice == once[..|twice|] == text[..|twice|];
    assert once == text[..|once|];
    EstimateMonotone(text, |twice|, |once|);
    forall k | |twice| < k <= |text| ensures Min(cap, cap') < Estimate(text[..k]) {
      if k <= |once| {
        assert once[..k] == text[..k];
      }
    }
  }
}
