/** The encoder: scans in 32-bit arithmetic.  Its status and output are those of the order of insertions. */
module PunycodeEncode {
  import opened Wrappers
  import opened Words
  import opened Arithmetic
  import opened PunycodeDigits
  import opened PunycodeSpec
  import opened PunycodeRoundTrip
  import opened PunycodeLimits

  /** Writes `delta` as a variable-length integer, from position `start` of `output`. */
  method WriteInteger(output: array<byte>, start: uint32, delta: uint32, bias: uint32, flag: bool)
    returns (ok: bool, out: uint32)
    requires start <= output.Length <= MAX_UINT32 && bias <= MAX_BIAS
    modifies output
    ensures start <= out <= output.Length
    ensures ok <==> start + |VarBytes(delta, BASE, bias, flag)| <= output.Length
    ensures ok ==> output[..out] == old(output[..start]) + VarBytes(delta, BASE, bias, flag)
    ensures forall x :: out <= x < output.Length ==> output[x] == old(output[x])
  {
    hide VarBytes, VarDigits;
    out := start;
    var q: uint32, k: uint32 := delta, BASE;
    ghost var steps := 0;
    while true
      invariant start <= out <= output.Length
      invariant k == BASE * (steps + 1) && q * Pow10(steps) <= delta && (steps > 0 ==> Pow10(steps - 1) <= delta)
      invariant output[..out] + VarBytes(q, k, bias, flag) == old(output[..start]) + VarBytes(delta, BASE, bias, flag)
      invariant forall x :: out <= x < output.Length ==> output[x] == old(output[x])
      decreases q
    {
      if out >= output.Length { return false, out; }
      StepsBound(steps, delta);
      var t: uint32 := if k <= bias then TMIN else if k >= bias + TMAX then TMAX else k - bias;
      if q < t { break; }
      DigitAndQuotient(q, t);
      QuotientSteps(q, (q - t) / (BASE - t), steps, delta);
      VarBytesStep(q, k, bias, flag, t, t + (q - t) % (BASE - t), (q - t) / (BASE - t));
      output[out] := EncodeDigit(t + (q - t) % (BASE - t), false);
      out := out + 1;
      q := (q - t) / (BASE - t);
      k := k + BASE;
      steps := steps + 1;
    }
    VarBytesEnd(q, k, bias, flag);
    output[out] := EncodeDigit(q, flag);
    out := out + 1;
    ok := true;
  }

  lemma QuotientSteps(q: nat, q': nat, steps: nat, delta: nat)
    requires 10 * q' < q && q * Pow10(steps) <= delta
    ensures q' * Pow10(steps + 1) <= delta && Pow10(steps) <= delta
  {
    MulMonotone(10 * q', q, Pow10(steps));
    MulMonotone(1, q, Pow10(steps));
    MulAssociates(q', 10, Pow10(steps));
  }

  lemma VarBytesStep(q: nat, k: nat, bias: nat, flag: bool, t: nat, d: nat, q': nat)
    requires t == Threshold(k, bias) <= q && d == t + (q - t) % (BASE - t) < BASE && q' == (q - t) / (BASE - t)
    ensures VarBytes(q, k, bias, flag) == [EncodeDigit(d, false)] + VarBytes(q', k + BASE, bias, flag)
  {
    hide Threshold, EncodeDigit;
    assert VarDigits(q, k, bias) == [d] + VarDigits(q', k + BASE, bias);
  }

  lemma VarBytesEnd(q: nat, k: nat, bias: nat, flag: bool)
    requires q < Threshold(k, bias)
    ensures VarBytes(q, k, bias, flag) == [EncodeDigit(q, flag)]
  {
    hide Threshold, EncodeDigit;
    assert VarDigits(q, k, bias) == [q];
  }

  lemma StepsBound(steps: nat, delta: uint32)
    requires steps > 0 ==> Pow10(steps - 1) <= delta
    ensures steps <= 10
  {
    if steps > 10 {
      Pow10Grows(10, steps - 1);
      BelowPow10();
    }
  }

  /** The least code point from `n` on. */
  method LeastFrom(input: seq<uint32>, n: uint32) returns (m: uint32)
    requires |input| <= MAX_UINT32
    ensures forall x :: 0 <= x < |input| && input[x] >= n ==> m <= input[x]
    ensures (exists x :: 0 <= x < |input| && input[x] >= n) ==>
              exists x :: 0 <= x < |input| && input[x] >= n && input[x] == m
  {
    m := MAX_UINT32;
    for j := 0 to |input|
      invariant forall x :: 0 <= x < j && input[x] >= n ==> m <= input[x]
      invariant m == MAX_UINT32 || exists x :: 0 <= x < j && input[x] >= n && input[x] == m
    {
      if input[j] >= n && input[j] < m { m := input[j]; }
    }
  }

  /** Writes the basic code points; two places must be free before each. */
  method WriteBasics(input: seq<uint32>, caseFlags: CaseFlags, output: array<byte>) returns (ok: bool, out: uint32)
    requires |input| <= MAX_UINT32 && output.Length <= MAX_UINT32 && FlagsFor(input, caseFlags)
    modifies output
    ensures out <= output.Length
    ensures ok <==> (BasicCount(input) > 0 ==> BasicCount(input) < output.Length)
    ensures ok ==> out == BasicCount(input) && output[..out] == EncodeBasics(input, caseFlags, |input|)
    ensures forall x :: out <= x < output.Length ==> output[x] == old(output[x])
  {
    out := 0;
    for j := 0 to |input|
      invariant out == Count(input, j, INITIAL_N, 0) && (out > 0 ==> out < output.Length)
      invariant output[..out] == EncodeBasics(input, caseFlags, j)
      invariant forall x :: out <= x < output.Length ==> output[x] == old(output[x])
    {
      CountBounds(input, j + 1, |input|, INITIAL_N, 0);
      if IsBasic(input[j]) {
        if output.Length - out < 2 { return false, out; }
        output[out] := if caseFlags.Some? then EncodeBasic(input[j], caseFlags.value[j]) else input[j];
        out := out + 1;
      }
    }
    ok := true;
  }

  /**
   The scan at (`n`, `j`), since the insertion that ended at (`nl`, `jl`): exactly the code points before (`n`, `j`)
   are handled, and `delta` counts the decoder's states in between.
   */
  ghost predicate Scanning(input: seq<uint32>, nl: nat, jl: nat, h: nat, delta: int, n: nat, j: nat) {
    && AtInsertion(input, nl, jl) && nl <= n && j <= |input|
    && h == Count(input, |input|, nl, jl)
    && (forall x :: 0 <= x < |input| ==> (Before(input, x, nl, jl) <==> Before(input, x, n, j)))
    && delta == (n - nl) * (h + 1) + Count(input, j, n, j) - Count(input, jl, nl, jl)
  }

  lemma ScanStart(input: seq<uint32>)
    ensures Scanning(input, INITIAL_N, 0, BasicCount(input), 0, INITIAL_N, 0)
  {
  }

  /** To the next code point that occurs. */
  lemma ScanAdvance(input: seq<uint32>, nl: nat, jl: nat, h: nat, delta: int, n: nat, m: nat)
    requires Scanning(input, nl, jl, h, delta, n, 0) && n <= m
    requires forall x :: 0 <= x < |input| && input[x] >= n ==> m <= input[x]
    ensures Scanning(input, nl, jl, h, delta + (m - n) * (h + 1), m, 0)
  {
    MulDistributes(m - n, n - nl, h + 1);
  }

  /** Past a code point other than `n`. */
  lemma ScanSkip(input: seq<uint32>, nl: nat, jl: nat, h: nat, delta: int, n: nat, j: nat)
    requires Scanning(input, nl, jl, h, delta, n, j) && j < |input| && input[j] != n
    ensures Scanning(input, nl, jl, h, if input[j] < n then delta + 1 else delta, n, j + 1)
  {
    CountSame(input, j, n, j, n, j + 1);
  }

  /** Past a code point `n`, which is the next insertion. */
  lemma ScanInsert(input: seq<uint32>, nl: nat, jl: nat, h: nat, delta: int, n: nat, j: nat)
    requires Scanning(input, nl, jl, h, delta, n, j) && j < |input| && input[j] == n
    ensures NextIndex(input, |input|, nl, jl) == Some(j) && Delta(input, nl, jl, j) == delta
    ensures Scanning(input, n, j + 1, h + 1, 0, n, j + 1)
  {
    NextIs(input, nl, jl, j);
    NextFacts(input, nl, jl, j);
    CountSame(input, j, n, j, nl, jl);
  }

  /** Past the last code point. */
  lemma ScanEnd(input: seq<uint32>, jl: nat, h: nat, delta: int, n: nat)
    requires Scanning(input, n, jl, h, delta, n, |input|)
    ensures Scanning(input, n, jl, h, delta + 1, n + 1, 0)
  {
    CountSame(input, |input|, n, jl, n, |input|);
  }

  /** The next insertion's delta is at least what the scan has counted. */
  lemma PendingDelta(input: seq<uint32>, nl: nat, jl: nat, h: nat, delta: int, n: nat, j: nat, k: nat)
    requires Scanning(input, nl, jl, h, delta, n, j) && NextIndex(input, |input|, nl, jl) == Some(k)
    ensures Delta(input, nl, jl, k) >= delta
  {
    NextIndexIsLeast(input, |input|, nl, jl);
    NothingBetween(input, nl, jl, k);
    CountSame(input, k, input[k], k, n, j);
    CountSame(input, j, n, j, nl, jl);
    CountBounds(input, j, |input|, nl, jl);
    if input[k] == n {
      CountBounds(input, j, k, n, j);
    } else {
      MulMonotone(n + 1 - nl, input[k] - nl, h + 1);
      MulDistributes(n - nl, 1, h + 1);
    }
  }

  /** Once everything is handled, the count that goes on is below the length of the input. */
  lemma TrailingDelta(input: seq<uint32>, jl: nat, h: nat, delta: int, n: nat, j: nat)
    requires Scanning(input, n, jl, h, delta, n, j) && jl <= j
    ensures 0 <= delta <= j - jl
  {
    CountSame(input, j, n, j, n, jl);
    CountBounds(input, jl, j, n, jl);
  }

  lemma HandledAll(input: seq<uint32>, n: nat, j: nat)
    requires j <= |input|
    ensures NextIndex(input, |input|, n, j).None? <==> Count(input, |input|, n, j) == |input|
    ensures Count(input, |input|, n, j) <= |input|
  {
    NextIndexIsLeast(input, |input|, n, j);
    CountBounds(input, 0, |input|, n, j);
    if NextIndex(input, |input|, n, j).None? {
      AllInserted(input, input, |input|, n, j);
    } else {
      NextFacts(input, n, j, NextIndex(input, |input|, n, j).value);
    }
  }

  /** What is written, and what the encoder will report, at the insertion that ended at (`nl`, `jl`). */
  ghost predicate Written(input: seq<uint32>, caseFlags: CaseFlags, nl: nat, jl: nat, bias: nat, bytes: seq<byte>,
                          capacity: nat)
    requires FlagsFor(input, caseFlags) && jl <= |input|
  {
    && bytes + EncodeTail(input, caseFlags, nl, jl, bias) == Encoding(input, caseFlags)
    && EncodeTailStatus(input, nl, jl, bias, |bytes|, capacity, MAX_UINT32) == EncodeStatus(input, capacity, MAX_UINT32)
  }

  /** One insertion, written or not. */
  lemma WrittenStep(input: seq<uint32>, caseFlags: CaseFlags, nl: nat, jl: nat, bias: nat, bytes: seq<byte>,
                    capacity: nat, k: nat, delta: nat, bias': nat)
    requires FlagsFor(input, caseFlags) && jl <= |input| && Written(input, caseFlags, nl, jl, bias, bytes, capacity)
    requires NextIndex(input, |input|, nl, jl) == Some(k) && delta == Delta(input, nl, jl, k)
    requires bias' == Adapt(delta, Count(input, |input|, nl, jl) + 1, jl == 0)
    ensures var bytes' := bytes + VarBytes(delta, BASE, bias, FlagAt(caseFlags, k));
            if delta > MAX_UINT32 then EncodeStatus(input, capacity, MAX_UINT32).Overflow?
            else if |bytes'| > capacity then EncodeStatus(input, capacity, MAX_UINT32).BigOutput?
            else Written(input, caseFlags, input[k], k + 1, bias', bytes', capacity)
  {
    hide Adapt, Count, Delta, NextIndex, VarDigits, EncodeStatus, Encoding, EncodeTail;
    EncodeTailStep(input, caseFlags, nl, jl, bias, k, delta, bias');
    var bs := VarBytes(delta, BASE, bias, FlagAt(caseFlags, k));
    assert (bytes + bs) + EncodeTail(input, caseFlags, input[k], k + 1, bias')
        == bytes + (bs + EncodeTail(input, caseFlags, input[k], k + 1, bias'));
  }

  /** The encoder's scan for one code point `n`, which occurs at an index `k` that is not yet handled. */
  method EncodePass(input: seq<uint32>, caseFlags: CaseFlags, output: array<byte>, n: uint32, b: uint32, delta0: uint32,
                    h0: uint32, bias0: uint32, out0: uint32, ghost nl0: nat, ghost jl0: nat, ghost k: nat)
    returns (status: Status, delta: uint32, h: uint32, bias: uint32, out: uint32, ghost jl: nat)
    requires |input| <= MAX_UINT32 && out0 <= output.Length <= MAX_UINT32 && FlagsFor(input, caseFlags)
    requires Scanning(input, nl0, jl0, h0, delta0, n, 0) && (jl0 == 0 || nl0 < n)
    requires h0 >= b && (h0 == b <==> jl0 == 0) && bias0 <= MAX_BIAS
    requires k < |input| && input[k] == n
    requires Written(input, caseFlags, nl0, jl0, bias0, output[..out0], output.Length)
    modifies output
    ensures out0 <= out <= output.Length
    ensures forall x :: out <= x < output.Length ==> output[x] == old(output[x])
    ensures !status.Success? ==> status == EncodeStatus(input, output.Length, MAX_UINT32)
    ensures status.Success? ==>
              && h0 < h <= |input| && h > b && jl > 0 && bias <= MAX_BIAS && delta < |input|
              && Scanning(input, n, jl, h, delta, n, |input|)
              && Written(input, caseFlags, n, jl, bias, output[..out], output.Length)
  {
    hide Adapt, Count, Delta, NextIndex, VarBytes, Written, Scanning;
    ScanIs(input, nl0, jl0, h0, delta0, n, 0);
    delta, h, bias, out := delta0, h0, bias0, out0;
    jl := jl0;
    ghost var nl: nat := nl0;
    for j := 0 to |input|
      invariant h0 <= h && out0 <= out <= output.Length && bias <= MAX_BIAS
      invariant AtInsertion(input, nl, jl) && h == Count(input, |input|, nl, jl)
      invariant h >= b && (h == b <==> jl == 0)
      invariant if nl == n && jl > 0 then jl <= j && h > h0 else nl == nl0 && jl == jl0 && h == h0 && j <= k
      invariant Scanning(input, nl, jl, h, delta, n, j)
      invariant Written(input, caseFlags, nl, jl, bias, output[..out], output.Length)
      invariant forall x :: out <= x < output.Length ==> output[x] == old(output[x])
    {
      HandledAll(input, nl, jl);
      if input[j] != n { ScanSkip(input, nl, jl, h, delta, n, j); }
      if input[j] < n {
        if nl == n && jl > 0 { TrailingDelta(input, jl, h, delta, n, j); }
        if delta == MAX_UINT32 {
          OverflowNow(input, caseFlags, nl, jl, h, delta + 1, n, j + 1, bias, output[..out], output.Length, k);
          return Overflow, delta, h, bias, out, jl;
        }
        delta := delta + 1;
      }
      if input[j] == n {
        ScanInsert(input, nl, jl, h, delta, n, j);
        NextFacts(input, nl, jl, j);
        WrittenStep(input, caseFlags, nl, jl, bias, output[..out], output.Length, j, delta,
                    Adapt(delta, h + 1, jl == 0));
        var ok;
        ok, out := WriteInteger(output, out, delta, bias, FlagAt(caseFlags, j));
        if !ok { return BigOutput, delta, h, bias, out, jl; }
        AdaptBound(delta, h + 1, h == b);
        bias := AdaptBias(delta, h + 1, h == b);
        delta := 0;
        h := h + 1;
        nl, jl := n, j + 1;
      }
    }
    TrailingDelta(input, jl, h, delta, n, |input|);
    HandledAll(input, nl, jl);
    status := Success;
  }

  lemma ScanIs(input: seq<uint32>, nl: nat, jl: nat, h: nat, delta: int, n: nat, j: nat)
    requires Scanning(input, nl, jl, h, delta, n, j)
    ensures AtInsertion(input, nl, jl) && h == Count(input, |input|, nl, jl)
  {
  }

  /** A count beyond 32 bits belongs to the next insertion, which overflows. */
  lemma OverflowNow(input: seq<uint32>, caseFlags: CaseFlags, nl: nat, jl: nat, h: nat, delta: nat, n: nat, j: nat,
                    bias: nat, bytes: seq<byte>, capacity: nat, k: nat)
    requires FlagsFor(input, caseFlags) && jl <= |input|
    requires Scanning(input, nl, jl, h, delta, n, j) && delta > MAX_UINT32
    requires k < |input| && !Before(input, k, n, j)
    requires Written(input, caseFlags, nl, jl, bias, bytes, capacity)
    ensures EncodeStatus(input, capacity, MAX_UINT32).Overflow?
  {
    hide Adapt, Count, Delta, EncodeStatus, VarBytes, Written;
    NextIndexIsLeast(input, |input|, nl, jl);
    var next := NextIndex(input, |input|, nl, jl).value;
    PendingDelta(input, nl, jl, h, delta, n, j, next);
    var d := Delta(input, nl, jl, next);
    WrittenStep(input, caseFlags, nl, jl, bias, bytes, capacity, next, d,
                Adapt(d, Count(input, |input|, nl, jl) + 1, jl == 0));
  }

  /** While something is not handled, a code point from `n` on occurs. */
  lemma Pending(input: seq<uint32>, nl: nat, jl: nat, h: nat, delta: int, n: nat) returns (k: nat)
    requires Scanning(input, nl, jl, h, delta, n, 0) && h < |input|
    ensures k < |input| && input[k] >= n
  {
    HandledAll(input, nl, jl);
    NextIndexIsLeast(input, |input|, nl, jl);
    k := NextIndex(input, |input|, nl, jl).value;
  }

  lemma EncodeDone(input: seq<uint32>, caseFlags: CaseFlags, nl: nat, jl: nat, bias: nat, bytes: seq<byte>,
                   capacity: nat)
    requires FlagsFor(input, caseFlags) && jl <= |input| && Count(input, |input|, nl, jl) == |input|
    requires Written(input, caseFlags, nl, jl, bias, bytes, capacity)
    ensures bytes == Encoding(input, caseFlags) && EncodeStatus(input, capacity, MAX_UINT32).Success?
  {
    hide Encoding, EncodeStatus;
    HandledAll(input, nl, jl);
    EncodeTailEnd(input, caseFlags, nl, jl, bias);
  }

  /** `delta += steps * size`, guarded against overflow. */
  method Increase(delta: uint32, steps: uint32, size: uint32) returns (r: Option<uint32>)
    requires size > 0
    ensures delta + steps * size >= 0
    ensures r == if delta + steps * size <= MAX_UINT32 then Some(delta + steps * size) else None
  {
    ProductWithin(steps, MAX_UINT32 - delta, size);
    MulMonotone(0, steps, size);
    if steps > (MAX_UINT32 - delta) / size { return None; }
    r := Some(delta + steps * size);
  }

  /** The next code point to handle, and the delta before it, if that fits. */
  method NextPoint(input: seq<uint32>, n: uint32, delta: uint32, h: uint32, ghost nl: nat, ghost jl: nat)
    returns (m: uint32, more: Option<uint32>, ghost k: nat)
    requires |input| <= MAX_UINT32 && h < |input| && Scanning(input, nl, jl, h, delta, n, 0)
    ensures k < |input| && input[k] == m && n <= m
    ensures Scanning(input, nl, jl, h, delta + (m - n) * (h + 1), m, 0) && delta + (m - n) * (h + 1) >= 0
    ensures more == if delta + (m - n) * (h + 1) <= MAX_UINT32 then Some(delta + (m - n) * (h + 1)) else None
  {
    hide Scanning;
    k := Pending(input, nl, jl, h, delta, n);
    m := LeastFrom(input, n);
    ScanAdvance(input, nl, jl, h, delta, n, m);
    k :| 0 <= k < |input| && input[k] >= n && input[k] == m;
    more := Increase(delta, m - n, h + 1);
  }

  /** The status and the output are those of the order of insertions; on success, nothing else is written. */
  method Encode(input: seq<uint32>, caseFlags: CaseFlags, output: array<byte>)
    returns (status: Status, outputLength: uint32)
    requires |input| <= MAX_UINT32 && output.Length <= MAX_UINT32 && FlagsFor(input, caseFlags)
    modifies output
    ensures status == EncodeStatus(input, output.Length, MAX_UINT32)
    ensures outputLength <= output.Length
    ensures status.Success? ==> output[..outputLength] == Encoding(input, caseFlags)
    ensures status.Success? ==> forall x :: outputLength <= x < output.Length ==> output[x] == old(output[x])
    ensures !status.Success? ==> outputLength == output.Length
  {
    hide Adapt, Count, Delta, NextIndex, VarBytes, Scanning, EncodeTail, EncodeTailStatus, EncodeBasics;
    outputLength := output.Length;
    var ok: bool, out: uint32 := WriteBasics(input, caseFlags, output);
    if !ok { return BigOutput, outputLength; }
    var h: uint32, b: uint32 := out, out;
    if b > 0 {
      output[out] := DELIMITER;
      out := out + 1;
    }
    var n: uint32, delta: uint32, bias: uint32 := INITIAL_N, 0, INITIAL_BIAS;
    ghost var nl: nat, jl: nat := INITIAL_N, 0;
    ScanStart(input);
    HandledAll(input, nl, jl);
    while h < |input|
      invariant b <= h <= |input| && out <= output.Length && bias <= MAX_BIAS
      invariant AtInsertion(input, nl, jl) && h == Count(input, |input|, nl, jl)
      invariant h == b <==> jl == 0
      invariant h < |input| ==> Scanning(input, nl, jl, h, delta, n, 0) && (jl == 0 || nl < n)
      invariant Written(input, caseFlags, nl, jl, bias, output[..out], output.Length)
      invariant forall x :: out <= x < output.Length ==> output[x] == old(output[x])
      decreases |input| - h
    {
      hide Written;
      var m, more;
      ghost var k;
      m, more, k := NextPoint(input, n, delta, h, nl, jl);
      if more.None? {
        ghost var sum := delta + (m - n) * (h + 1);
        OverflowNow(input, caseFlags, nl, jl, h, sum, m, 0, bias, output[..out], output.Length, k);
        return Overflow, outputLength;
      }
      delta := more.value;
      n := m;
      status, delta, h, bias, out, jl :=
        EncodePass(input, caseFlags, output, n, b, delta, h, bias, out, nl, jl, k);
      if !status.Success? { return status, outputLength; }
      nl := n;
      ScanEnd(input, jl, h, delta, n);
      ScanIs(input, nl, jl, h, delta, n, |input|);
      HandledAll(input, nl, jl);
      if h < |input| { ghost var _ := Pending(input, nl, jl, h, delta + 1, n + 1); }
      delta := delta + 1;
      n := Increment(n);
    }
    EncodeDone(input, caseFlags, nl, jl, bias, output[..out], output.Length);
    return Success, out;
  }

  /** `++n`, which wraps around after the largest code point. */
  function Increment(n: uint32): uint32 {
    (n + 1) % 0x1_0000_0000
  }
}
