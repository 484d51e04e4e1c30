/** The numbers of Punycode: the weights of digits, and two known words. */
module PunycodeNumbers {
  import opened Wrappers
  import opened Words
  import opened Arithmetic
  import opened PunycodeDigits
  import opened PunycodeSpec
  import opened PunycodeRoundTrip
  import opened PunycodeLimits
  import opened PunycodeEncode

  // ----- Weights -----

  /** The threshold of the digit at index `j`: 36 * (j + 1) - `bias`, but at least 1 and at most 26. */
  function Clamped(j: nat, bias: nat): nat {
    if 36 * (j + 1) <= bias + 1 then 1 else if 36 * (j + 1) >= bias + 26 then 26 else 36 * (j + 1) - bias
  }

  /** The weight of the digit at index `j` (section 3.3 of RFC 3492). */
  function Weight(j: nat, bias: nat): nat {
    if j == 0 then 1 else Weight(j - 1, bias) * (36 - Clamped(j - 1, bias))
  }

  /** The sum of the digits with their weights, from index `j` on. */
  function Weighted(ds: seq<nat>, j: nat, bias: nat): nat
    requires j <= |ds|
    decreases |ds| - j
  {
    if j == |ds| then 0
    else
      MulMonotone(0, ds[j], Weight(j, bias));
      ds[j] * Weight(j, bias) + Weighted(ds, j + 1, bias)
  }

  lemma ClampedIs(j: nat, bias: nat)
    ensures Threshold(36 * (j + 1), bias) == Clamped(j, bias)
  {
  }

  lemma WeightsCombine(d: int, v: int, u: int, w: int)
    ensures (d + v * u) * w == d * w + v * (w * u)
  {
    MulDistributes(d, v * u, w);
    MulAssociates(v, u, w);
  }

  lemma {:induction false} WeightedIs(ds: seq<nat>, j: nat, bias: nat)
    requires j <= |ds|
    ensures Weighted(ds, j, bias) == VarValue(ds[j..], 36 * (j + 1), bias) * Weight(j, bias)
    decreases |ds| - j
  {
    hide Threshold, Clamped;
    if j < |ds| {
      WeightedIs(ds, j + 1, bias);
      ClampedIs(j, bias);
      var v, t, w := VarValue(ds[j + 1..], 36 * (j + 2), bias), Clamped(j, bias), Weight(j, bias);
      ValueFirst(ds, j, bias);
      WeightsCombine(ds[j], v, 36 - t, w);
    }
  }

  lemma ValueFirst(ds: seq<nat>, j: nat, bias: nat)
    requires j < |ds|
    ensures VarValue(ds[j..], 36 * (j + 1), bias)
         == ds[j] + VarValue(ds[j + 1..], 36 * (j + 2), bias) * (36 - Threshold(36 * (j + 1), bias))
  {
    assert ds[j..][1..] == ds[j + 1..];
  }

  /** What is written for an integer: digits with that weighted sum, of which the last only is below its threshold. */
  lemma WrittenDigits(q: nat, bias: nat)
    ensures (var ds := VarDigits(q, 36, bias);
      && |ds| > 0 && Weighted(ds, 0, bias) == q && ds[|ds| - 1] < Clamped(|ds| - 1, bias)
      && forall j :: 0 <= j < |ds| - 1 ==> Clamped(j, bias) <= ds[j] < 36)
  {
    hide VarValue, VarDigits, SelfDelimiting;
    var ds := VarDigits(q, 36, bias);
    VarDigitsSound(q, 36, bias);
    WeightedIs(ds, 0, bias);
    assert ds[0..] == ds;
    EndsBelow(ds, 0, bias);
  }

  lemma {:induction false} EndsBelow(ds: seq<nat>, j: nat, bias: nat)
    requires j <= |ds| && SelfDelimiting(ds[j..], 36 * (j + 1), bias)
    ensures |ds| > j && ds[|ds| - 1] < Clamped(|ds| - 1, bias)
    ensures forall m :: j <= m < |ds| - 1 ==> Clamped(m, bias) <= ds[m] < 36
    decreases |ds| - j
  {
    if |ds| > j + 1 {
      assert ds[j..][1..] == ds[j + 1..];
      EndsBelow(ds, j + 1, bias);
    }
  }

  // ----- Two words -----

  /** The letters u and o, both with dots. */
  const LETTERS: seq<uint32> := [0xFC, 0xF6]

  /** "ndal" */
  const LETTERS_CODE: seq<byte> := [0x6E, 0x64, 0x61, 0x6C]

  lemma LettersStates()
    ensures NextIndex(LETTERS, 2, 0x80, 0) == Some(1) && Delta(LETTERS, 0x80, 0, 1) == 118
    ensures Count(LETTERS, 2, 0x80, 0) == 0 && Count(LETTERS, 0, 0x80, 0) == 0
    ensures NextIndex(LETTERS, 2, 0xF6, 2) == Some(0) && Delta(LETTERS, 0xF6, 2, 0) == 11
    ensures Count(LETTERS, 2, 0xF6, 2) == 1
    ensures NextIndex(LETTERS, 2, 0xFC, 1) == None
  {
    assert Count(LETTERS, 1, 0x80, 0) == 0 && Count(LETTERS, 1, 0xF6, 1) == 0 && Count(LETTERS, 0, 0xF6, 1) == 0;
    assert Count(LETTERS, 1, 0xF6, 2) == 0 && Count(LETTERS, 0, 0xF6, 2) == 0 && Count(LETTERS, 0, 0xFC, 0) == 0;
    assert NextIndex(LETTERS, 0, 0x80, 0) == None && NextIndex(LETTERS, 1, 0x80, 0) == Some(0);
    assert NextIndex(LETTERS, 0, 0xF6, 2) == None && NextIndex(LETTERS, 1, 0xF6, 2) == Some(0);
    assert NextIndex(LETTERS, 0, 0xFC, 1) == None && NextIndex(LETTERS, 1, 0xFC, 1) == None;
  }

  lemma FirstInteger()
    ensures VarBytes(118, 36, 72, false) == [0x6E, 0x64, 0x61] && Adapt(118, 1, true) == 0
    ensures VarBytes(11, 36, 0, false) == [0x6C]
  {
    VarBytesStep(118, 36, 72, false, 1, 13, 3);
    VarBytesStep(3, 72, 72, false, 1, 3, 0);
    VarBytesEnd(0, 108, 72, false);
    VarBytesEnd(11, 36, 0, false);
    assert [0x6E] + ([0x64] + [0x61]) == [0x6E, 0x64, 0x61];
  }

  /** The word of these two letters is encoded as "ndal", and decoded from it. */
  lemma LettersCode()
    ensures Encoding(LETTERS, None) == LETTERS_CODE
    ensures Decoding(LETTERS_CODE, 2, MAX_UINT32) == Decoded(Success, LETTERS, [false, false])
  {
    hide Adapt, Count, Delta, NextIndex, VarBytes, EncodeTail, Decoding, SumsFit;
    var cps := LETTERS;
    LettersStates();
    FirstInteger();
    EncodeTailStep(cps, None, 0x80, 0, 72, 1, 118, 0);
    EncodeTailStep(cps, None, 0xF6, 2, 0, 0, 11, Adapt(11, 2, false));
    EncodeTailEnd(cps, None, 0xFC, 1, Adapt(11, 2, false));
    assert EncodeBasics(cps, None, 2) == [] by {
      assert EncodeBasics(cps, None, 0) == [] && EncodeBasics(cps, None, 1) == [];
    }
    assert [] + [] + ([0x6E, 0x64, 0x61] + ([0x6C] + [])) == LETTERS_CODE;
    LettersFit();
    WordRoundTrip(cps, None, 2);
    assert FlagsBack(cps, None) == [false, false];
  }

  lemma LettersFit()
    ensures SumsFit(LETTERS, 0x80, 0, MAX_UINT32)
  {
    hide Count, Delta, NextIndex, SumsFit;
    LettersStates();
    SumsFitStep(LETTERS, 0x80, 0, MAX_UINT32, 1);
    SumsFitStep(LETTERS, 0xF6, 2, MAX_UINT32, 0);
    SumsFitEnd(LETTERS, 0xFC, 1, MAX_UINT32);
    assert Count(LETTERS, 2, 0xF6, 2) == 1;
  }

  /** The letter b, and two ideographs. */
  const MIXED: seq<uint32> := [0x62, 0x4F60, 0x597D]

  /** "b-476ap73a" */
  const MIXED_CODE: seq<byte> := [0x62, 0x2D, 0x34, 0x37, 0x36, 0x61, 0x70, 0x37, 0x33, 0x61]

  lemma MixedCounts()
    ensures Count(MIXED, 3, 0x80, 0) == 1 && Count(MIXED, 0, 0x80, 0) == 0 && Count(MIXED, 1, 0x4F60, 1) == 1
    ensures Count(MIXED, 3, 0x4F60, 2) == 2 && Count(MIXED, 2, 0x4F60, 2) == 2 && Count(MIXED, 2, 0x597D, 2) == 2
    ensures Count(MIXED, 3, 0x597D, 3) == 3
  {
    assert Count(MIXED, 1, 0x80, 0) == 1 && Count(MIXED, 2, 0x80, 0) == 1 && Count(MIXED, 0, 0x4F60, 1) == 0;
    assert Count(MIXED, 0, 0x4F60, 2) == 0 && Count(MIXED, 1, 0x4F60, 2) == 1;
    assert Count(MIXED, 0, 0x597D, 2) == 0 && Count(MIXED, 1, 0x597D, 2) == 1;
    assert Count(MIXED, 0, 0x597D, 3) == 0 && Count(MIXED, 1, 0x597D, 3) == 1 && Count(MIXED, 2, 0x597D, 3) == 2;
  }

  lemma MixedStates()
    ensures NextIndex(MIXED, 3, 0x80, 0) == Some(1) && Delta(MIXED, 0x80, 0, 1) == 40385
    ensures NextIndex(MIXED, 3, 0x4F60, 2) == Some(2) && Delta(MIXED, 0x4F60, 2, 2) == 7767
    ensures NextIndex(MIXED, 3, 0x597D, 3) == None
  {
    hide Count;
    MixedCounts();
    assert NextIndex(MIXED, 0, 0x80, 0) == None && NextIndex(MIXED, 1, 0x80, 0) == None;
    assert NextIndex(MIXED, 2, 0x80, 0) == Some(1);
    assert NextIndex(MIXED, 0, 0x4F60, 2) == None && NextIndex(MIXED, 1, 0x4F60, 2) == None;
    assert NextIndex(MIXED, 2, 0x4F60, 2) == None;
    assert NextIndex(MIXED, 0, 0x597D, 3) == None && NextIndex(MIXED, 1, 0x597D, 3) == None;
    assert NextIndex(MIXED, 2, 0x597D, 3) == None;
  }

  lemma MixedFirst()
    ensures VarBytes(40385, 36, 72, false) == [0x34, 0x37, 0x36, 0x61]
  {
    hide VarBytes;
    VarBytesStep(40385, 36, 72, false, 1, 30, 1153);
    VarBytesStep(1153, 72, 72, false, 1, 33, 32);
    VarBytesStep(32, 108, 72, false, 26, 32, 0);
    VarBytesEnd(0, 144, 72, false);
    assert [0x34] + ([0x37] + ([0x36] + [0x61])) == [0x34, 0x37, 0x36, 0x61];
  }

  /** The bias between the two integers is 24: there are two code points then, and it is the first time. */
  lemma MixedBias()
    ensures Adapt(40385, 2, true) == 24
  {
  }

  lemma MixedSecond()
    ensures VarBytes(7767, 36, 24, false) == [0x70, 0x37, 0x33, 0x61]
  {
    hide VarBytes;
    VarBytesStep(7767, 36, 24, false, 12, 15, 323);
    VarBytesStep(323, 72, 24, false, 26, 33, 29);
    VarBytesStep(29, 108, 24, false, 26, 29, 0);
    VarBytesEnd(0, 144, 24, false);
    assert [0x70] + ([0x37] + ([0x33] + [0x61])) == [0x70, 0x37, 0x33, 0x61];
  }

  lemma MixedTail()
    ensures EncodeTail(MIXED, None, 0x80, 0, 72) == [0x34, 0x37, 0x36, 0x61, 0x70, 0x37, 0x33, 0x61]
  {
    hide Adapt, Count, Delta, NextIndex, VarBytes, EncodeTail;
    MixedCounts();
    MixedStates();
    MixedFirst();
    MixedBias();
    MixedSecond();
    EncodeTailStep(MIXED, None, 0x80, 0, 72, 1, 40385, 24);
    EncodeTailStep(MIXED, None, 0x4F60, 2, 24, 2, 7767, Adapt(7767, 3, false));
    EncodeTailEnd(MIXED, None, 0x597D, 3, Adapt(7767, 3, false));
    assert [0x34, 0x37, 0x36, 0x61] + ([0x70, 0x37, 0x33, 0x61] + [])
        == [0x34, 0x37, 0x36, 0x61, 0x70, 0x37, 0x33, 0x61];
  }

  lemma MixedBasics()
    ensures EncodeBasics(MIXED, None, 3) == [0x62]
  {
    assert EncodeBasics(MIXED, None, 0) == [] && EncodeBasics(MIXED, None, 1) == [0x62];
    assert EncodeBasics(MIXED, None, 2) == [0x62];
  }

  lemma MixedFits()
    ensures SumsFit(MIXED, 0x80, 0, MAX_UINT32)
  {
    hide Count, Delta, NextIndex, SumsFit;
    MixedCounts();
    MixedStates();
    SumsFitStep(MIXED, 0x80, 0, MAX_UINT32, 1);
    SumsFitStep(MIXED, 0x4F60, 2, MAX_UINT32, 2);
    SumsFitEnd(MIXED, 0x597D, 3, MAX_UINT32);
  }

  /** With a basic letter: it comes first, then the delimiter. */
  lemma MixedCode()
    ensures Encoding(MIXED, None) == MIXED_CODE
    ensures Decoding(MIXED_CODE, 3, MAX_UINT32) == Decoded(Success, MIXED, [false, false, false])
  {
    hide EncodeTail, EncodeBasics, Decoding, SumsFit;
    MixedTail();
    MixedBasics();
    MixedFits();
    assert [0x62] + [0x2D] + [0x34, 0x37, 0x36, 0x61, 0x70, 0x37, 0x33, 0x61] == MIXED_CODE;
    WordRoundTrip(MIXED, None, 3);
    assert FlagsBack(MIXED, None) == [false, false, false];
  }
}
