/**
 When the integers fit.  The encoder's status as a function of the order of insertions; the bound of section 6.4
 of RFC 3492; and an input that the encoder accepts but the decoder cannot read back.
 */
module PunycodeLimits {
  import opened Wrappers
  import opened Words
  import opened Arithmetic
  import opened PunycodeDigits
  import opened PunycodeSpec
  import opened PunycodeRoundTrip

  /** The encoder's status, once it has written `written` bytes and everything before (`n`, `j`). */
  function EncodeTailStatus(cps: seq<uint32>, n: nat, j: nat, bias: nat, written: nat, capacity: nat,
                            limit: nat): Status
    requires j <= |cps|
    decreases |cps| - Count(cps, |cps|, n, j)
  {
    var next := NextIndex(cps, |cps|, n, j);
    if next.None? then Success
    else
      NextFacts(cps, n, j, next.value);
      var delta := Delta(cps, n, j, next.value);
      var written' := written + |VarBytes(delta, BASE, bias, false)|;
      if delta > limit then Overflow
      else if written' > capacity then BigOutput
      else EncodeTailStatus(cps, cps[next.value], next.value + 1, Adapt(delta, Count(cps, |cps|, n, j) + 1, j == 0),
                            written', capacity, limit)
  }

  /** The number of basic code points. */
  function BasicCount(cps: seq<uint32>): nat {
    Count(cps, |cps|, INITIAL_N, 0)
  }

  /** The encoder's status.  It asks for two free places before it writes a basic code point. */
  function EncodeStatus(cps: seq<uint32>, capacity: nat, limit: nat): Status {
    var b := BasicCount(cps);
    if b > 0 && b >= capacity then BigOutput
    else EncodeTailStatus(cps, INITIAL_N, 0, INITIAL_BIAS, if b > 0 then b + 1 else 0, capacity, limit)
  }

  /** Is every delta at most `limit`? */
  predicate DeltasFit(cps: seq<uint32>, n: nat, j: nat, limit: nat)
    requires j <= |cps|
    decreases |cps| - Count(cps, |cps|, n, j)
  {
    var next := NextIndex(cps, |cps|, n, j);
    next.Some? ==>
      (NextFacts(cps, n, j, next.value);
       Delta(cps, n, j, next.value) <= limit && DeltasFit(cps, cps[next.value], next.value + 1, limit))
  }

  lemma {:induction false} TailSucceeds(cps: seq<uint32>, flags: CaseFlags, n: nat, j: nat, bias: nat, written: nat,
                                        capacity: nat, limit: nat)
    requires FlagsFor(cps, flags) && j <= |cps| && written <= capacity
    ensures EncodeTailStatus(cps, n, j, bias, written, capacity, limit).Success?
       <==> DeltasFit(cps, n, j, limit) && written + |EncodeTail(cps, flags, n, j, bias)| <= capacity
    decreases |cps| - Count(cps, |cps|, n, j)
  {
    hide Adapt, Count, Delta, NextIndex, VarDigits;
    var next := NextIndex(cps, |cps|, n, j);
    if next.None? {
      EncodeTailEnd(cps, flags, n, j, bias);
    } else {
      var k := next.value;
      NextFacts(cps, n, j, k);
      var delta := Delta(cps, n, j, k);
      var bias' := Adapt(delta, Count(cps, |cps|, n, j) + 1, j == 0);
      var written' := written + |VarBytes(delta, BASE, bias, false)|;
      EncodeTailStep(cps, flags, n, j, bias, k, delta, bias');
      if written' <= capacity {
        TailSucceeds(cps, flags, cps[k], k + 1, bias', written', capacity, limit);
      }
    }
  }

  /** Encoding succeeds exactly when every delta fits the machine and the whole encoding fits the output. */
  lemma EncodeSucceeds(cps: seq<uint32>, flags: CaseFlags, capacity: nat, limit: nat)
    requires FlagsFor(cps, flags)
    ensures EncodeStatus(cps, capacity, limit).Success?
       <==> DeltasFit(cps, INITIAL_N, 0, limit) && |Encoding(cps, flags)| <= capacity
  {
    hide Adapt, DeltasFit, EncodeTail, EncodeTailStatus, EncodeBasics, Count;
    BasicsInserted(cps, flags, |cps|);
    var b := BasicCount(cps);
    var written := if b > 0 then b + 1 else 0;
    if written <= capacity {
      TailSucceeds(cps, flags, INITIAL_N, 0, INITIAL_BIAS, written, capacity, limit);
    }
  }

  lemma {:induction false} FitsHaveSmallDeltas(cps: seq<uint32>, n: nat, j: nat, bias: nat, limit: nat)
    requires j <= |cps| && TailFits(cps, n, j, bias, limit)
    ensures DeltasFit(cps, n, j, limit)
    decreases |cps| - Count(cps, |cps|, n, j)
  {
    hide Adapt, Count, Delta, NextIndex, VarDigits, WeightsFit;
    var next := NextIndex(cps, |cps|, n, j);
    if next.Some? {
      NextFacts(cps, n, j, next.value);
      var delta := Delta(cps, n, j, next.value);
      FitsHaveSmallDeltas(cps, cps[next.value], next.value + 1, Adapt(delta, Count(cps, |cps|, n, j) + 1, j == 0),
                          limit);
    }
  }

  // ----- What fits 32 bits -----

  /** The weights of an integer that fits 32 bits fit them as well: from the eighth on, a weight is below the value. */
  lemma {:induction false} WeightsAlwaysFit(ds: seq<nat>, m: nat, bias: nat, w: nat, total: nat)
    requires bias <= MAX_BIAS && SelfDelimiting(ds, BASE * (m + 1), bias) && (m <= 6 ==> w <= Pow35(m))
    requires total == VarValue(ds, BASE * (m + 1), bias) * w && total <= MAX_UINT32
    ensures WeightsFit(|ds|, BASE * (m + 1), bias, w, MAX_UINT32)
    decreases |ds|
  {
    hide WeightsFit, Threshold;
    var k := BASE * (m + 1);
    if |ds| > 1 {
      var w', total' := NextWeight(ds, m, k, bias, w, total);
      WeightsAlwaysFit(ds[1..], m + 1, bias, w', total');
    }
    WeightsStep(|ds|, k, bias, w, MAX_UINT32);
  }

  lemma NextWeight(ds: seq<nat>, m: nat, k: nat, bias: nat, w: nat, total: nat) returns (w': nat, total': nat)
    requires |ds| > 1 && bias <= MAX_BIAS && k == BASE * (m + 1) && SelfDelimiting(ds, k, bias)
    requires (m <= 6 ==> w <= Pow35(m))
    requires total == VarValue(ds, k, bias) * w && total <= MAX_UINT32
    ensures w' == w * (BASE - Threshold(k, bias)) && 0 <= w' <= MAX_UINT32 && (m + 1 <= 6 ==> w' <= Pow35(m + 1))
    ensures SelfDelimiting(ds[1..], k + BASE, bias) && total' == VarValue(ds[1..], k + BASE, bias) * w'
    ensures total' <= MAX_UINT32
  {
    hide Threshold;
    var b := BASE - Threshold(k, bias);
    var v' := VarValue(ds[1..], k + BASE, bias);
    MulMonotone(0, b, w);
    w' := w * b;
    MulMonotone(0, v', w');
    total' := v' * w';
    WeightedSum(ds[0], v', b, w);
    MulMonotone(0, ds[0], w);
    NextWeightFits(ds[0], m, k, bias, w);
  }

  lemma NextWeightFits(d: nat, m: nat, k: nat, bias: nat, w: nat)
    requires bias <= MAX_BIAS && k == BASE * (m + 1) && (m <= 6 ==> w <= Pow35(m))
    requires Threshold(k, bias) <= d && d * w <= MAX_UINT32
    ensures 0 <= w * (BASE - Threshold(k, bias)) <= MAX_UINT32
    ensures m <= 5 ==> w * (BASE - Threshold(k, bias)) <= Pow35(m + 1)
  {
    var t := Threshold(k, bias);
    MulMonotone(0, BASE - t, w);
    if m <= 5 {
      MulMonotone(BASE - t, 35, w);
      Pow35Grows(m + 1, 6);
      Pow35Values();
    } else {
      MulMonotone(BASE - t, d, w);
    }
  }

  lemma {:induction false} Pow35Grows(m: nat, n: nat)
    requires m <= n
    ensures Pow35(m) <= Pow35(n)
  {
    if m < n {
      Pow35Grows(m, n - 1);
    }
  }

  lemma WeightsStep(count: nat, k: nat, bias: nat, w: nat, limit: nat)
    ensures WeightsFit(count, k, bias, w, limit)
       <==> (count > 1 ==>
              var w' := w * (BASE - Threshold(k, bias));
              0 <= w' <= limit && WeightsFit(count - 1, k + BASE, bias, w', limit))
  {
  }

  /** Is the `i` that the decoder reaches at most `limit`, at every insertion? */
  predicate SumsFit(cps: seq<uint32>, n: nat, j: nat, limit: nat)
    requires j <= |cps|
    decreases |cps| - Count(cps, |cps|, n, j)
  {
    var next := NextIndex(cps, |cps|, n, j);
    next.Some? ==>
      (NextFacts(cps, n, j, next.value);
       Count(cps, j, n, j) + Delta(cps, n, j, next.value) <= limit
       && SumsFit(cps, cps[next.value], next.value + 1, limit))
  }

  lemma SumsFitStep(cps: seq<uint32>, n: nat, j: nat, limit: nat, k: nat)
    requires j <= |cps| && NextIndex(cps, |cps|, n, j) == Some(k)
    ensures k < |cps|
    ensures SumsFit(cps, n, j, limit) <==>
              Count(cps, j, n, j) + Delta(cps, n, j, k) <= limit && SumsFit(cps, cps[k], k + 1, limit)
  {
    hide Count, Delta, NextIndex;
    NextFacts(cps, n, j, k);
  }

  /** With 32-bit words, the decoder's test of the next weight never fails for what an encoder wrote. */
  lemma {:induction false} OnlySumsCount(cps: seq<uint32>, n: nat, j: nat, bias: nat)
    requires j <= |cps| && bias <= MAX_BIAS
    ensures TailFits(cps, n, j, bias, MAX_UINT32) <==> SumsFit(cps, n, j, MAX_UINT32)
    decreases |cps| - Count(cps, |cps|, n, j)
  {
    hide Adapt, Count, Delta, NextIndex, SelfDelimiting, VarDigits, VarValue, WeightsFit, TailFits, SumsFit;
    var next := NextIndex(cps, |cps|, n, j);
    if next.Some? {
      var k := next.value;
      NextFacts(cps, n, j, k);
      var delta := Delta(cps, n, j, k);
      var bias' := Adapt(delta, Count(cps, |cps|, n, j) + 1, j == 0);
      TailFitsStep(cps, n, j, bias, MAX_UINT32, k, delta, bias');
      SumsFitStep(cps, n, j, MAX_UINT32, k);
      if delta <= MAX_UINT32 {
        VarDigitsSound(delta, BASE, bias);
        assert Pow35(0) == 1;
        WeightsAlwaysFit(VarDigits(delta, BASE, bias), 0, bias, 1, delta);
        AdaptBound(delta, Count(cps, |cps|, n, j) + 1, j == 0);
        OnlySumsCount(cps, cps[k], k + 1, bias');
      }
    } else {
      TailFitsEnd(cps, n, j, bias, MAX_UINT32);
      SumsFitEnd(cps, n, j, MAX_UINT32);
    }
  }

  lemma SumsFitEnd(cps: seq<uint32>, n: nat, j: nat, limit: nat)
    requires j <= |cps| && NextIndex(cps, |cps|, n, j).None?
    ensures SumsFit(cps, n, j, limit)
  {
  }

  /**
   The round trip with 32-bit words: it succeeds exactly when there is room for the code points and the decoder's `i`
   stays within 32 bits at every insertion; with room, it fails with an overflow.
   */
  lemma WordRoundTrip(cps: seq<uint32>, flags: CaseFlags, capacity: nat)
    requires FlagsFor(cps, flags) && |Encoding(cps, flags)| <= MAX_UINT32
    ensures Recovered(Decoding(Encoding(cps, flags), capacity, MAX_UINT32), cps, flags,
                      SumsFit(cps, INITIAL_N, 0, MAX_UINT32), |cps| <= capacity)
  {
    hide Recovered, SumsFit, TailFits, Decoding, Encoding;
    RoundTrip(cps, flags, capacity, MAX_UINT32);
    OnlySumsCount(cps, INITIAL_N, 0, INITIAL_BIAS);
  }

  lemma {:induction false} SmallDeltasFit(cps: seq<uint32>, n: nat, j: nat, bound: nat, limit: nat)
    requires j <= |cps| && DeltasFit(cps, n, j, bound) && bound + |cps| <= limit
    ensures SumsFit(cps, n, j, limit)
    decreases |cps| - Count(cps, |cps|, n, j)
  {
    hide Count, Delta, NextIndex;
    var next := NextIndex(cps, |cps|, n, j);
    if next.Some? {
      NextFacts(cps, n, j, next.value);
      SmallDeltasFit(cps, cps[next.value], next.value + 1, bound, limit);
    }
  }

  /** The round trip succeeds where the deltas leave room for the number of code points. */
  lemma SmallDeltasRoundTrip(cps: seq<uint32>, flags: CaseFlags, bound: nat)
    requires FlagsFor(cps, flags) && DeltasFit(cps, INITIAL_N, 0, bound) && bound + |cps| <= MAX_UINT32
    requires |Encoding(cps, flags)| <= MAX_UINT32
    ensures Decoding(Encoding(cps, flags), |cps|, MAX_UINT32)
         == Decoded(Success, CasedAll(cps, flags), FlagsBack(cps, flags))
  {
    hide SumsFit, DeltasFit, Encoding, Decoding, CasedAll, FlagsBack;
    SmallDeltasFit(cps, INITIAL_N, 0, bound, MAX_UINT32);
    WordRoundTrip(cps, flags, |cps|);
  }

  /**
   Section 6.4 of RFC 3492: when the input is shorter than 2^26 and every delta is below 2^26, then 32-bit
   decoding with the input's length as capacity gives back the code points and the flags.
   */
  lemma RoundTripBelow26Bits(cps: seq<uint32>, flags: CaseFlags)
    requires FlagsFor(cps, flags)
    requires |cps| < 0x400_0000 && DeltasFit(cps, INITIAL_N, 0, 0x3FF_FFFF)
    ensures |Encoding(cps, flags)| <= MAX_UINT32
    ensures Decoding(Encoding(cps, flags), |cps|, MAX_UINT32)
         == Decoded(Success, CasedAll(cps, flags), FlagsBack(cps, flags))
  {
    hide DeltasFit, Encoding, Decoding, CasedAll, FlagsBack;
    DeltasGrow(cps, INITIAL_N, 0, 0x3FF_FFFF, MAX_UINT32);
    EncodingLength(cps, flags);
    SmallDeltasRoundTrip(cps, flags, 0x3FF_FFFF);
  }

  /** The deltas of code points up to `max` are below `(max - 0x7F) * |cps|`. */
  lemma {:induction false} DeltasBelow(cps: seq<uint32>, n: nat, j: nat, max: nat, bound: nat)
    requires j <= |cps| && n >= INITIAL_N && forall x :: 0 <= x < |cps| ==> cps[x] <= max
    requires (max - 0x7F) * |cps| <= bound + 1
    ensures DeltasFit(cps, n, j, bound)
    decreases |cps| - Count(cps, |cps|, n, j)
  {
    hide Count, Delta, NextIndex;
    var next := NextIndex(cps, |cps|, n, j);
    if next.Some? {
      var k := next.value;
      NextFacts(cps, n, j, k);
      DeltaBelow(cps, n, j, k, max, bound);
      DeltasBelow(cps, cps[k], k + 1, max, bound);
    }
  }

  lemma DeltaBelow(cps: seq<uint32>, n: nat, j: nat, k: nat, max: nat, bound: nat)
    requires j <= |cps| && k < |cps| && INITIAL_N <= n <= cps[k] <= max && (max - 0x7F) * |cps| <= bound + 1
    requires Count(cps, |cps|, n, j) < |cps|
    requires Count(cps, k, cps[k], k) <= Count(cps, |cps|, n, j) + Count(cps, j, n, j)
    ensures Delta(cps, n, j, k) <= bound
  {
    hide Count, Delta;
    DeltaIs(cps, n, j, k);
    var h, steps := Count(cps, |cps|, n, j), max - INITIAL_N;
    MulMonotone(cps[k] - n, steps, h + 1);
    MulMonotone(h + 1, |cps|, steps);
    MulDistributes(steps, 1, |cps|);
  }

  lemma DeltaIs(cps: seq<uint32>, n: nat, j: nat, k: nat)
    requires j <= |cps| && k < |cps|
    ensures Delta(cps, n, j, k)
            == (cps[k] - n) * (Count(cps, |cps|, n, j) + 1) + Count(cps, k, cps[k], k) - Count(cps, j, n, j)
  {
  }

  /** Up to 3855 Unicode code points always survive the round trip: encoding succeeds, and so does decoding. */
  lemma UnicodeRoundTrip(cps: seq<uint32>, flags: CaseFlags, capacity: nat)
    requires FlagsFor(cps, flags) && |cps| <= 3855 && forall x :: 0 <= x < |cps| ==> cps[x] <= 0x10_FFFF
    requires |Encoding(cps, flags)| <= capacity
    ensures EncodeStatus(cps, capacity, MAX_UINT32).Success? && |Encoding(cps, flags)| <= MAX_UINT32
    ensures Decoding(Encoding(cps, flags), |cps|, MAX_UINT32)
         == Decoded(Success, CasedAll(cps, flags), FlagsBack(cps, flags))
  {
    hide CasedAll, Decoding, DeltasFit, EncodeStatus, Encoding, FlagsBack;
    var bound: nat := 0x10_FF80 * 3855;
    MulMonotone(|cps|, 3855, 0x10_FF80);
    DeltasBelow(cps, INITIAL_N, 0, 0x10_FFFF, bound);
    DeltasGrow(cps, INITIAL_N, 0, bound, MAX_UINT32);
    EncodeSucceeds(cps, flags, capacity, MAX_UINT32);
    EncodingLength(cps, flags);
    SmallDeltasRoundTrip(cps, flags, bound);
  }

  lemma {:induction false} DeltasGrow(cps: seq<uint32>, n: nat, j: nat, bound: nat, bound': nat)
    requires j <= |cps| && DeltasFit(cps, n, j, bound) && bound <= bound'
    ensures DeltasFit(cps, n, j, bound')
    decreases |cps| - Count(cps, |cps|, n, j)
  {
    hide Count, Delta, NextIndex;
    var next := NextIndex(cps, |cps|, n, j);
    if next.Some? {
      NextFacts(cps, n, j, next.value);
      DeltasGrow(cps, cps[next.value], next.value + 1, bound, bound');
    }
  }

  /**
   Without such a bound the round trip fails: here the encoder accepts a delta of 2^32 - 1, but the decoder would have
   to add it to an `i` of 2.
   */
  lemma RoundTripFails()
    ensures var cps := [0x80, 0x80, 0x5555_55D5];
            var s := Encoding(cps, None);
            && EncodeStatus(cps, |s|, MAX_UINT32).Success?
            && |s| <= MAX_UINT32
            && !SumsFit(cps, INITIAL_N, 0, MAX_UINT32)
            && Decoding(s, |cps|, MAX_UINT32).status == Overflow
  {
    hide DeltasFit, Encoding, EncodeStatus, Decoding, SumsFit;
    var cps: seq<uint32> := [0x80, 0x80, 0x5555_55D5];
    var s := Encoding(cps, None);
    var max := MAX_UINT32;
    FailingStates(cps);
    DeltasFitStep(cps, 0x80, 0, max);
    DeltasFitStep(cps, 0x80, 1, max);
    DeltasFitStep(cps, 0x80, 2, max);
    DeltasFitStep(cps, 0x5555_55D5, 3, max);
    SumsFitStep(cps, 0x80, 0, max, 0);
    SumsFitStep(cps, 0x80, 1, max, 1);
    SumsFitStep(cps, 0x80, 2, max, 2);
    EncodingLength(cps, None);
    EncodeSucceeds(cps, None, |s|, max);
    WordRoundTrip(cps, None, |cps|);
  }

  /** An encoding with 32-bit deltas has at most 11 bytes for each code point, and the delimiter. */
  lemma EncodingLength(cps: seq<uint32>, flags: CaseFlags)
    requires FlagsFor(cps, flags) && DeltasFit(cps, INITIAL_N, 0, MAX_UINT32)
    ensures |Encoding(cps, flags)| <= 11 * |cps| + 1
  {
    hide Adapt, DeltasFit, EncodeTail, EncodeBasics, Count;
    BasicsInserted(cps, flags, |cps|);
    DeltasLength(cps, flags, INITIAL_N, 0, INITIAL_BIAS);
  }

  lemma FailingStates(cps: seq<uint32>)
    requires cps == [0x80, 0x80, 0x5555_55D5]
    ensures NextIndex(cps, 3, 0x80, 0) == Some(0) && Delta(cps, 0x80, 0, 0) == 0 && Count(cps, 3, 0x80, 0) == 0
    ensures NextIndex(cps, 3, 0x80, 1) == Some(1) && Delta(cps, 0x80, 1, 1) == 0 && Count(cps, 3, 0x80, 1) == 1
    ensures NextIndex(cps, 3, 0x80, 2) == Some(2) && Delta(cps, 0x80, 2, 2) == MAX_UINT32 && Count(cps, 3, 0x80, 2) == 2
    ensures NextIndex(cps, 3, 0x5555_55D5, 3) == None
    ensures Count(cps, 2, 0x80, 2) == 2
  {
    assert Count(cps, 1, 0x80, 1) == 1 && Count(cps, 0, 0x80, 0) == 0;
    assert Count(cps, 1, 0x80, 0) == 0 && Count(cps, 2, 0x80, 0) == 0;
    assert Count(cps, 2, 0x80, 1) == 1;
    assert Count(cps, 1, 0x80, 2) == 1 && Count(cps, 2, 0x80, 2) == 2;
    assert Count(cps, 1, 0x5555_55D5, 2) == 1 && Count(cps, 2, 0x5555_55D5, 2) == 2;
    assert NextIndex(cps, 1, 0x80, 0) == Some(0) && NextIndex(cps, 2, 0x80, 0) == Some(0);
    assert NextIndex(cps, 1, 0x80, 1) == None && NextIndex(cps, 2, 0x80, 1) == Some(1);
    assert NextIndex(cps, 1, 0x80, 2) == None && NextIndex(cps, 2, 0x80, 2) == None;
    assert NextIndex(cps, 1, 0x5555_55D5, 3) == None && NextIndex(cps, 2, 0x5555_55D5, 3) == None;
  }

  lemma DeltasFitStep(cps: seq<uint32>, n: nat, j: nat, limit: nat)
    requires j <= |cps|
    ensures var next := NextIndex(cps, |cps|, n, j);
            && (next.None? ==> DeltasFit(cps, n, j, limit))
            && (next.Some? && Delta(cps, n, j, next.value) <= limit
                && DeltasFit(cps, cps[next.value], next.value + 1, limit)
                ==> DeltasFit(cps, n, j, limit))
  {
    hide Count, Delta, NextIndex;
  }

  /** With 32-bit deltas no code point takes more than 11 bytes. */
  lemma {:induction false} DeltasLength(cps: seq<uint32>, flags: CaseFlags, n: nat, j: nat, bias: nat)
    requires FlagsFor(cps, flags) && j <= |cps| && DeltasFit(cps, n, j, MAX_UINT32)
    ensures |EncodeTail(cps, flags, n, j, bias)| <= 11 * (|cps| - Count(cps, |cps|, n, j))
    decreases |cps| - Count(cps, |cps|, n, j)
  {
    hide Adapt, Count, Delta, NextIndex, VarDigits;
    var next := NextIndex(cps, |cps|, n, j);
    if next.None? {
      EncodeTailEnd(cps, flags, n, j, bias);
      CountBounds(cps, 0, |cps|, n, j);
      assert Count(cps, 0, n, j) == 0 by { CountNone(cps, n, j); }
    } else {
      var k := next.value;
      NextFacts(cps, n, j, k);
      var delta := Delta(cps, n, j, k);
      var bias' := Adapt(delta, Count(cps, |cps|, n, j) + 1, j == 0);
      EncodeTailStep(cps, flags, n, j, bias, k, delta, bias');
      BelowPow10();
      VarDigitsShort(delta, BASE, bias, 10);
      DeltasLength(cps, flags, cps[k], k + 1, bias');
    }
  }

  lemma CountNone(cps: seq<uint32>, n: nat, j: nat)
    ensures Count(cps, 0, n, j) == 0
  {
  }
}
