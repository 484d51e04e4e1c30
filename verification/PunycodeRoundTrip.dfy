/**
 Decoding what was encoded: the decoder replays the encoder's insertions, so it recovers every code point and
 every case flag, exactly when the integers it forms fit the machine.
 */
module PunycodeRoundTrip {
  import opened Wrappers
  import opened Words
  import opened PunycodeDigits
  import opened PunycodeSpec

  /** What the decoder recovers: the code points in the case of their flags, and the flags. */
  function CasedAll(cps: seq<uint32>, flags: CaseFlags): (r: seq<uint32>)
    requires flags.Some? ==> |flags.value| == |cps|
    ensures |r| == |cps|
    ensures flags.None? ==> r == cps
  {
    seq(|cps|, x requires 0 <= x < |cps| => Cased(cps, flags, x))
  }

  function FlagsBack(cps: seq<uint32>, flags: CaseFlags): (r: seq<bool>)
    requires flags.Some? ==> |flags.value| == |cps|
    ensures |r| == |cps|
  {
    seq(|cps|, x requires 0 <= x < |cps| =>
      if IsBasic(cps[x]) then Flagged(Cased(cps, flags, x)) else FlagAt(flags, x))
  }

  /** Those of `xs`, one for each code point, whose code points below `end` come before (`n`, `j`). */
  function Inserted<T>(xs: seq<T>, cps: seq<uint32>, end: nat, n: nat, j: nat): (r: seq<T>)
    requires end <= |cps| == |xs|
    ensures |r| == Count(cps, end, n, j)
  {
    if end == 0 then []
    else Inserted(xs, cps, end - 1, n, j) + (if Before(cps, end - 1, n, j) then [xs[end - 1]] else [])
  }

  lemma {:induction false} InsertedSame<T>(xs: seq<T>, cps: seq<uint32>, end: nat, n: nat, j: nat, n': nat, j': nat)
    requires end <= |cps| == |xs|
    requires forall x :: 0 <= x < end ==> (Before(cps, x, n, j) <==> Before(cps, x, n', j'))
    ensures Inserted(xs, cps, end, n, j) == Inserted(xs, cps, end, n', j')
  {
    if end > 0 {
      InsertedSame(xs, cps, end - 1, n, j, n', j');
    }
  }

  lemma {:induction false} AllInserted<T>(xs: seq<T>, cps: seq<uint32>, end: nat, n: nat, j: nat)
    requires end <= |cps| == |xs| && forall x :: 0 <= x < end ==> Before(cps, x, n, j)
    ensures Inserted(xs, cps, end, n, j) == xs[..end]
  {
    if end > 0 {
      AllInserted(xs, cps, end - 1, n, j);
    }
  }

  /** Advancing past the index `j`, whose code point is `n`, inserts its element where the smaller indices end. */
  lemma {:induction false} InsertedStep<T>(xs: seq<T>, cps: seq<uint32>, end: nat, n: nat, j: nat)
    requires j < end <= |cps| == |xs| && cps[j] == n
    requires Count(cps, j, n, j) <= Count(cps, end, n, j)
    ensures Inserted(xs, cps, end, n, j + 1) == InsertAt(Inserted(xs, cps, end, n, j), Count(cps, j, n, j), xs[j])
  {
    hide Inserted, Count;
    var pos, k := Count(cps, j, n, j), end - 1;
    InsertedUnfold(xs, cps, end, n, j);
    InsertedUnfold(xs, cps, end, n, j + 1);
    if k == j {
      InsertedSame(xs, cps, j, n, j, n, j + 1);
    } else {
      CountBounds(cps, j, k, n, j);
      InsertedStep(xs, cps, k, n, j);
      if Before(cps, k, n, j) {
        InsertBeforeLast(Inserted(xs, cps, k, n, j), pos, xs[j], xs[k]);
      }
    }
  }

  lemma InsertedUnfold<T>(xs: seq<T>, cps: seq<uint32>, end: nat, n: nat, j: nat)
    requires 0 < end <= |cps| == |xs|
    ensures |Inserted(xs, cps, end, n, j)| == Count(cps, end, n, j)
    ensures Inserted(xs, cps, end, n, j)
         == Inserted(xs, cps, end - 1, n, j) + (if Before(cps, end - 1, n, j) then [xs[end - 1]] else [])
  {
  }

  lemma InsertBeforeLast<T>(s: seq<T>, pos: nat, x: T, last: T)
    requires pos <= |s|
    ensures InsertAt(s + [last], pos, x) == InsertAt(s, pos, x) + [last]
  {
    assert (s + [last])[..pos] == s[..pos] && (s + [last])[pos..] == s[pos..] + [last];
  }

  /** What is inserted when the encoder gets to its next index. */
  lemma InsertedNext<T>(xs: seq<T>, cps: seq<uint32>, n: nat, j: nat, next: nat)
    requires j <= |cps| == |xs| && NextIndex(cps, |cps|, n, j) == Some(next)
    ensures Count(cps, next, cps[next], next) <= Count(cps, |cps|, n, j)
    ensures Inserted(xs, cps, |cps|, cps[next], next + 1)
         == InsertAt(Inserted(xs, cps, |cps|, n, j), Count(cps, next, cps[next], next), xs[next])
  {
    NextFacts(cps, n, j, next);
    NothingBetween(cps, n, j, next);
    InsertedSame(xs, cps, |cps|, cps[next], next, n, j);
    InsertedStep(xs, cps, |cps|, cps[next], next);
  }

  /** The encoder's scan is between insertions: at the start, or just after one. */
  predicate AtInsertion(cps: seq<uint32>, n: nat, j: nat) {
    j <= |cps| && n >= INITIAL_N && if j == 0 then n == INITIAL_N else cps[j - 1] == n
  }

  lemma FirstInsertion(cps: seq<uint32>, n: nat, j: nat)
    requires AtInsertion(cps, n, j)
    ensures Count(cps, j, n, j) == 0 <==> j == 0
  {
    if j > 0 {
      CountBounds(cps, 0, j - 1, n, j);
    }
  }

  /** The state `<n, i>` that the delta leads the decoder to. */
  lemma DeltaPosition(cps: seq<uint32>, n: nat, j: nat, next: nat)
    requires j <= |cps| && NextIndex(cps, |cps|, n, j) == Some(next)
    ensures Delta(cps, n, j, next) >= 0
    ensures WrapAround(Count(cps, j, n, j) + Delta(cps, n, j, next), Count(cps, |cps|, n, j) + 1)
         == (cps[next] - n, Count(cps, next, cps[next], next))
    ensures Count(cps, next + 1, cps[next], next + 1) == Count(cps, next, cps[next], next) + 1
  {
    NextFacts(cps, n, j, next);
    CountStep(cps, next + 1, cps[next], next);
    WrapsTo(cps[next] - n, Count(cps, next, cps[next], next), Count(cps, |cps|, n, j) + 1);
  }

  /** Does every sum and every weight that the decoder forms stay within `limit`? */
  predicate TailFits(cps: seq<uint32>, n: nat, j: nat, bias: nat, limit: nat)
    requires j <= |cps|
    decreases |cps| - Count(cps, |cps|, n, j)
  {
    var next := NextIndex(cps, |cps|, n, j);
    next.Some? ==>
      (NextFacts(cps, n, j, next.value);
       var delta := Delta(cps, n, j, next.value);
       && Count(cps, j, n, j) + delta <= limit
       && WeightsFit(|VarDigits(delta, BASE, bias)|, BASE, bias, 1, limit)
       && TailFits(cps, cps[next.value], next.value + 1, Adapt(delta, Count(cps, |cps|, n, j) + 1, j == 0), limit))
  }

  lemma TailFitsStep(cps: seq<uint32>, n: nat, j: nat, bias: nat, limit: nat, k: nat, delta: nat, bias': nat)
    requires j <= |cps| && NextIndex(cps, |cps|, n, j) == Some(k) && delta == Delta(cps, n, j, k)
    requires bias' == Adapt(delta, Count(cps, |cps|, n, j) + 1, j == 0)
    ensures TailFits(cps, n, j, bias, limit)
       <==> && Count(cps, j, n, j) + delta <= limit
            && WeightsFit(|VarDigits(delta, BASE, bias)|, BASE, bias, 1, limit)
            && TailFits(cps, cps[k], k + 1, bias', limit)
  {
    hide Adapt, Count, Delta, NextIndex, VarDigits, WeightsFit;
  }

  lemma TailFitsEnd(cps: seq<uint32>, n: nat, j: nat, bias: nat, limit: nat)
    requires j <= |cps| && NextIndex(cps, |cps|, n, j).None?
    ensures TailFits(cps, n, j, bias, limit)
  {
  }

  predicate DecoderFits(cps: seq<uint32>, limit: nat) {
    TailFits(cps, INITIAL_N, 0, INITIAL_BIAS, limit)
  }

  /** What one round of the decoding loop finds, where the encoder wrote the delta of index `k`. */
  lemma DecodeStep(cps: seq<uint32>, flags: CaseFlags, n: nat, j: nat, k: nat, i: nat, delta: nat, bias: nat,
                   s: seq<byte>, p: nat, next: nat, limit: uint32)
    requires FlagsFor(cps, flags) && AtInsertion(cps, n, j) && NextIndex(cps, |cps|, n, j) == Some(k)
    requires i == Count(cps, j, n, j) <= limit && delta == Delta(cps, n, j, k)
    requires p <= next <= |s| && s[p..next] == VarBytes(delta, BASE, bias, FlagAt(flags, k))
    ensures ReadVar(s, p, BASE, bias, i, 1, limit)
         == WhenFits(i + delta, next, |VarDigits(delta, BASE, bias)|, BASE, bias, 1, limit)
    ensures WrapAround(i + delta, Count(cps, |cps|, n, j) + 1) == (cps[k] - n, Count(cps, k, cps[k], k))
    ensures next > p && Flagged(CharToUint(s[next - 1])) == FlagsBack(cps, flags)[k]
    ensures CasedAll(cps, flags)[k] == cps[k]
    ensures AtInsertion(cps, cps[k], k + 1)
    ensures Count(cps, k + 1, cps[k], k + 1) == Count(cps, k, cps[k], k) + 1
  {
    hide VarBytes, VarDigits, ReadVar, WeightsFit, WhenFits, NextIndex, WrapAround, Delta;
    DeltaPosition(cps, n, j, k);
    NextFacts(cps, n, j, k);
    ReadVarBytes(s, p, delta, bias, FlagAt(flags, k), i, limit);
    VarBytesDigits(delta, BASE, bias, FlagAt(flags, k));
    VarBytesShape(delta, BASE, bias, FlagAt(flags, k));
    assert s[next - 1] == s[p..next][next - p - 1];
  }

  /** A decoding gave back the code points and flags; or it failed, with an overflow when there was room for them. */
  ghost predicate Recovered(r: Decoded, cps: seq<uint32>, flags: CaseFlags, fits: bool, room: bool)
    requires FlagsFor(cps, flags)
  {
    && (r.status.Success? <==> fits && room)
    && (r.status.Success? ==> r.cps == CasedAll(cps, flags) && r.flags == FlagsBack(cps, flags))
    && r.status != BadInput && (room && !fits ==> r.status == Overflow)
  }

  lemma {:induction false} TailRoundTrip(cps: seq<uint32>, flags: CaseFlags, n: nat, j: nat, i: nat, bias: nat,
                                         out: seq<uint32>, outFlags: seq<bool>, s: seq<byte>, p: nat, capacity: nat,
                                         limit: uint32)
    requires FlagsFor(cps, flags) && AtInsertion(cps, n, j)
    requires n <= limit && forall x :: 0 <= x < |cps| ==> cps[x] <= limit
    requires i == Count(cps, j, n, j) <= |out| && |s| - p + |out| <= limit
    requires out == Inserted(CasedAll(cps, flags), cps, |cps|, n, j)
    requires outFlags == Inserted(FlagsBack(cps, flags), cps, |cps|, n, j)
    requires p <= |s| && s[p..] == EncodeTail(cps, flags, n, j, bias)
    ensures Recovered(DecodeTail(s, p, n, i, bias, out, outFlags, capacity, limit), cps, flags,
                      TailFits(cps, n, j, bias, limit), |out| < |cps| ==> |cps| <= capacity)
    decreases |s| - p
  {
    hide Adapt, CasedAll, Count, DecodeTail, Delta, EncodeTail, FlagsBack, Inserted, NextIndex, ReadVar, TailFits,
         VarBytes, VarDigits, WeightsFit, WrapAround;
    var next := NextIndex(cps, |cps|, n, j);
    if next.None? {
      EncodeTailEnd(cps, flags, n, j, bias);
      TailFitsEnd(cps, n, j, bias, limit);
      DecodeTailEnd(s, n, i, bias, out, outFlags, capacity, limit);
      NextIndexIsLeast(cps, |cps|, n, j);
      AllInserted(CasedAll(cps, flags), cps, |cps|, n, j);
      AllInserted(FlagsBack(cps, flags), cps, |cps|, n, j);
    } else {
      var k, delta := next.value, Delta(cps, n, j, next.value);
      NextFacts(cps, n, j, k);
      var m, pos := cps[k], Count(cps, k, cps[k], k);
      var bs := VarBytes(delta, BASE, bias, FlagAt(flags, k));
      var bias', p' := Adapt(delta, |out| + 1, j == 0), p + |bs|;
      var tail := EncodeTail(cps, flags, m, k + 1, bias');
      EncodeTailStep(cps, flags, n, j, bias, k, delta, bias');
      assert s[p..p'] == s[p..][..|bs|] == bs;
      assert s[p'..] == s[p..][|bs|..] == tail;
      DecodeStep(cps, flags, n, j, k, i, delta, bias, s, p, p', limit);
      FirstInsertion(cps, n, j);
      TailFitsStep(cps, n, j, bias, limit, k, delta, bias');
      InsertedNext(CasedAll(cps, flags), cps, n, j, k);
      InsertedNext(FlagsBack(cps, flags), cps, n, j, k);
      if i + delta <= limit && WeightsFit(|VarDigits(delta, BASE, bias)|, BASE, bias, 1, limit) && |out| < capacity {
        var out', outFlags' := InsertAt(out, pos, m), InsertAt(outFlags, pos, FlagsBack(cps, flags)[k]);
        TailRoundTrip(cps, flags, m, k + 1, pos + 1, bias', out', outFlags', s, p', capacity, limit);
        DecodeTailStep(s, p, n, i, bias, out, outFlags, capacity, limit, p', m, i + delta, pos, bias', out', outFlags');
      } else {
        DecodeTailStop(s, p, n, i, bias, out, outFlags, capacity, limit);
      }
    }
  }

  lemma {:induction false} BasicsInserted(cps: seq<uint32>, flags: CaseFlags, end: nat)
    requires FlagsFor(cps, flags) && end <= |cps|
    ensures EncodeBasics(cps, flags, end) == Inserted(CasedAll(cps, flags), cps, end, INITIAL_N, 0)
    ensures var fs := Inserted(FlagsBack(cps, flags), cps, end, INITIAL_N, 0);
            forall x :: 0 <= x < |fs| ==> fs[x] == Flagged(EncodeBasics(cps, flags, end)[x])
  {
    hide Flagged;
    if end > 0 {
      BasicsInserted(cps, flags, end - 1);
    }
  }

  lemma {:induction false} TailShape(cps: seq<uint32>, flags: CaseFlags, n: nat, j: nat, bias: nat)
    requires FlagsFor(cps, flags) && j <= |cps|
    ensures var t := EncodeTail(cps, flags, n, j, bias); DELIMITER !in t && 0 !in t
    decreases |cps| - Count(cps, |cps|, n, j)
  {
    hide Adapt, Count, Delta, NextIndex, VarBytes;
    var next := NextIndex(cps, |cps|, n, j);
    if next.Some? {
      NextFacts(cps, n, j, next.value);
      var delta := Delta(cps, n, j, next.value);
      VarBytesShape(delta, BASE, bias, FlagAt(flags, next.value));
      TailShape(cps, flags, cps[next.value], next.value + 1, Adapt(delta, Count(cps, |cps|, n, j) + 1, j == 0));
    }
  }

  lemma DelimiterFound(s: seq<byte>, b: nat)
    requires b < |s| && DELIMITER !in s[b + 1..]
    requires if b > 0 then s[b] == DELIMITER else s[0] != DELIMITER
    ensures LastDelimiter(s, |s|) == b
  {
    assert forall x :: b < x < |s| ==> s[x] == s[b + 1..][x - b - 1];
  }

  /** How the decoder divides an encoding. */
  lemma EncodingParts(cps: seq<uint32>, flags: CaseFlags)
    requires FlagsFor(cps, flags)
    ensures var s, basics := Encoding(cps, flags), EncodeBasics(cps, flags, |cps|);
            var b := |basics|;
            && LastDelimiter(s, |s|) == b && s[..b] == basics && (b > 0 ==> b < |s|)
            && s[if b > 0 then b + 1 else 0..] == EncodeTail(cps, flags, INITIAL_N, 0, INITIAL_BIAS)
  {
    hide EncodeTail, EncodeBasics, LastDelimiter;
    var s, basics := Encoding(cps, flags), EncodeBasics(cps, flags, |cps|);
    var b := |basics|;
    var tail := EncodeTail(cps, flags, INITIAL_N, 0, INITIAL_BIAS);
    TailShape(cps, flags, INITIAL_N, 0, INITIAL_BIAS);
    assert s[if b > 0 then b + 1 else 0..] == tail && s[..b] == basics;
    if s != [] {
      assert b == 0 ==> s == tail;
      DelimiterFound(s, b);
    }
  }

  /**
   Round trip: decoding an encoding succeeds exactly when the integers it forms fit the machine and the capacity is
   enough, and then it gives back the code points and the flags.
   */
  lemma RoundTrip(cps: seq<uint32>, flags: CaseFlags, capacity: nat, limit: uint32)
    requires FlagsFor(cps, flags) && limit >= INITIAL_N
    requires |Encoding(cps, flags)| <= limit && forall x :: 0 <= x < |cps| ==> cps[x] <= limit
    ensures Recovered(Decoding(Encoding(cps, flags), capacity, limit), cps, flags,
                      DecoderFits(cps, limit), |cps| <= capacity)
  {
    hide CasedAll, DecodeTail, EncodeBasics, EncodeTail, Encoding, FlagsBack, Flagged, Inserted, LastDelimiter,
         TailFits;
    var s, basics := Encoding(cps, flags), EncodeBasics(cps, flags, |cps|);
    var b := |basics|;
    EncodingParts(cps, flags);
    BasicsInserted(cps, flags, |cps|);
    var out, outFlags := s[..b], seq(b, x requires 0 <= x < b => Flagged(CharToUint(s[x])));
    assert forall x :: 0 <= x < b ==> s[x] == basics[x] < 0x80;
    assert outFlags == Inserted(FlagsBack(cps, flags), cps, |cps|, INITIAL_N, 0);
    CountBounds(cps, 0, |cps|, INITIAL_N, 0);
    if b <= capacity {
      TailRoundTrip(cps, flags, INITIAL_N, 0, 0, INITIAL_BIAS, out, outFlags, s, if b > 0 then b + 1 else 0, capacity,
                    limit);
    }
  }
}
