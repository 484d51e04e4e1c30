/** The decoder: 32-bit arithmetic, insertion in place.  Nothing in it wraps around, and it writes within its arrays. */
module PunycodeDecode {
  import opened Words
  import opened Arithmetic
  import opened PunycodeDigits
  import opened PunycodeSpec

  /** The decoder's digit loop. */
  method ReadInteger(input: seq<byte>, start: uint32, i0: uint32, bias: uint32)
    returns (status: Status, in_: uint32, i: uint32)
    requires start < |input| <= MAX_UINT32 && bias <= MAX_BIAS
    ensures var v := ReadVar(input, start, BASE, bias, i0, 1, MAX_UINT32);
            if status.Success? then v == Read(i, in_) else v == Stop(status)
  {
    hide ReadVar, DecodeDigit;
    in_, i := start, i0;
    var w: uint32, k: uint32 := 1, BASE;
    ghost var steps := 0;
    while true
      invariant start <= in_ <= |input| && w > 0
      invariant k == BASE * (steps + 1) && Pow10(steps) <= w
      invariant ReadVar(input, start, BASE, bias, i0, 1, MAX_UINT32) == ReadVar(input, in_, k, bias, i, w, MAX_UINT32)
      decreases |input| - in_
    {
      if in_ >= |input| {
        ReadVarAtEnd(input, k, bias, i, w, MAX_UINT32);
        return BadInput, in_, i;
      }
      ReadVarStep(input, in_, k, bias, i, w, MAX_UINT32);
      var digit := DecodeDigit(CharToUint(input[in_]));
      in_ := in_ + 1;
      if digit >= BASE { return BadInput, in_, i; }
      ProductWithin(digit, MAX_UINT32 - i, w);
      if digit > (MAX_UINT32 - i) / w { return Overflow, in_, i; }
      i := i + digit * w;
      StepsBound(steps, w);
      var t: uint32 := if k <= bias then TMIN else if k >= bias + TMAX then TMAX else k - bias;
      if digit < t { break; }
      ProductWithin(w, MAX_UINT32, BASE - t);
      if w > MAX_UINT32 / (BASE - t) { return Overflow, in_, i; }
      w := w * (BASE - t);
      k := k + BASE;
      steps := steps + 1;
    }
    status := Success;
  }

  lemma ReadVarAtEnd(s: seq<byte>, k: nat, bias: nat, i: nat, w: nat, limit: nat)
    requires w > 0 && i <= limit
    ensures ReadVar(s, |s|, k, bias, i, w, limit) == Stop(BadInput)
  {
  }

  lemma StepsBound(steps: nat, w: uint32)
    requires Pow10(steps) <= w
    ensures steps < 10
  {
    Pow10Grows(10, steps);
    BelowPow10();
  }

  /** `memmove` by one place to the right, from `pos`, of the first `count` elements; then `x` goes in at `pos`. */
  method Insert<T>(a: array<T>, count: nat, pos: nat, x: T)
    requires pos <= count < a.Length
    modifies a
    ensures a[..count + 1] == InsertAt(old(a[..count]), pos, x)
    ensures forall x :: count < x < a.Length ==> a[x] == old(a[x])
  {
    forall k | pos < k <= count {
      a[k] := a[k - 1];
    }
    a[pos] := x;
  }

  /** The position of the last delimiter. */
  method FindDelimiter(input: seq<byte>) returns (b: uint32)
    requires |input| <= MAX_UINT32
    ensures b == LastDelimiter(input, |input|)
  {
    b := 0;
    for j := 0 to |input|
      invariant b == LastDelimiter(input, j)
    {
      if input[j] == DELIMITER { b := j; }
    }
  }

  /** Copies the basic code points, with their flags. */
  method CopyBasics(input: seq<byte>, b: uint32, output: array<uint32>, caseFlags: array?<bool>) returns (ok: bool)
    requires b <= |input| && b <= output.Length
    requires caseFlags != null ==> caseFlags.Length >= output.Length
    modifies output, caseFlags
    ensures ok <==> forall x :: 0 <= x < b ==> input[x] < 0x80
    ensures ok ==> output[..b] == input[..b] && forall x :: b <= x < output.Length ==> output[x] == old(output[x])
    ensures ok && caseFlags != null ==> caseFlags[..b] == seq(b, x requires 0 <= x < b => Flagged(CharToUint(input[x])))
  {
    var out: uint32 := 0;
    for j := 0 to b
      invariant out == j
      invariant forall x :: 0 <= x < j ==> input[x] < 0x80 && output[x] == input[x]
      invariant caseFlags != null ==> forall x :: 0 <= x < j ==> caseFlags[x] == Flagged(CharToUint(input[x]))
      invariant forall x :: j <= x < output.Length ==> output[x] == old(output[x])
    {
      if caseFlags != null { caseFlags[out] := Flagged(CharToUint(input[j])); }
      if !IsBasic(CharToUint(input[j])) { return false; }
      output[out] := CharToUint(input[j]);
      out := out + 1;
    }
    ok := true;
  }

  /** The new state `<n, i>` after an integer was read: `n` counts the wrap-arounds of `i`. */
  method Advance(n: uint32, i: uint32, size: uint32) returns (ok: bool, n': uint32, pos: uint32)
    requires size > 0
    ensures var w := WrapAround(i, size); ok == (w.0 <= MAX_UINT32 - n) && (ok ==> n' == n + w.0 && pos == w.1)
  {
    Wrapped(i, size);
    if i / size > MAX_UINT32 - n { return false, n, i; }
    return true, n + i / size, i % size;
  }

  /** The main decoding loop, from the code points already in `output`. */
  method DecodeLoop(input: seq<byte>, start: uint32, b: uint32, output: array<uint32>, caseFlags: array?<bool>,
                    ghost flags0: seq<bool>)
    returns (status: Status, out: uint32)
    requires b <= start <= |input| <= MAX_UINT32 && b <= output.Length <= MAX_UINT32 && |flags0| == b
    requires caseFlags != null ==> caseFlags.Length >= output.Length && caseFlags[..b] == flags0
    modifies output, caseFlags
    ensures b <= out <= output.Length
    ensures var r := DecodeTail(input, start, INITIAL_N, 0, INITIAL_BIAS, old(output[..b]), flags0,
                                output.Length, MAX_UINT32);
            && status == r.status
            && (status.Success? ==> output[..out] == r.cps && (caseFlags != null ==> caseFlags[..out] == r.flags))
    ensures forall x :: out <= x < output.Length ==> output[x] == old(output[x])
  {
    hide Adapt, IsBias, DecodeTail, ReadVar, WrapAround, Flagged;
    out := b;
    ghost var result :=
      DecodeTail(input, start, INITIAL_N, 0, INITIAL_BIAS, output[..b], flags0, output.Length, MAX_UINT32);
    ghost var flags := flags0;
    var n: uint32, i: uint32, bias: uint32, in_: uint32 := INITIAL_N, 0, INITIAL_BIAS, start;
    while in_ < |input|
      invariant b <= out <= in_ <= |input| && out <= output.Length && i <= out && |flags| == out
      invariant bias <= MAX_BIAS
      invariant caseFlags != null ==> caseFlags[..out] == flags
      invariant forall x :: out <= x < output.Length ==> output[x] == old(output[x])
      invariant result == DecodeTail(input, in_, n, i, bias, output[..out], flags, output.Length, MAX_UINT32)
      decreases |input| - in_
    {
      var oldi := i;
      DecodeTailCase(input, in_, n, oldi, bias, output[..out], flags, output.Length, MAX_UINT32);
      status, in_, i := ReadInteger(input, in_, i, bias);
      if !status.Success? { return; }
      AdaptBound(i - oldi, out + 1, oldi == 0);
      bias := AdaptBias(i - oldi, out + 1, oldi == 0);
      var ok;
      ok, n, i := Advance(n, i, out + 1);
      if !ok { return Overflow, out; }
      if out >= output.Length { return BigOutput, out; }
      var flag := Flagged(CharToUint(input[in_ - 1]));
      if caseFlags != null { Insert(caseFlags, out, i, flag); }
      Insert(output, out, i, n);
      flags := InsertAt(flags, i, flag);
      i := i + 1;
      out := out + 1;
    }
    DecodeTailEnd(input, n, i, bias, output[..out], flags, output.Length, MAX_UINT32);
    status := Success;
  }

  /** The decoding into `output`, and into `caseFlags` when that is not null, is exactly `Decoding`. */
  method Decode(input: seq<byte>, output: array<uint32>, caseFlags: array?<bool>)
    returns (status: Status, outputLength: uint32)
    requires |input| <= MAX_UINT32 && output.Length <= MAX_UINT32
    requires caseFlags != null ==> caseFlags.Length >= output.Length
    modifies output, caseFlags
    ensures outputLength <= output.Length
    ensures var r := Decoding(input, output.Length, MAX_UINT32);
            && status == r.status
            && (status.Success? ==>
                  output[..outputLength] == r.cps && (caseFlags != null ==> caseFlags[..outputLength] == r.flags))
    ensures status.Success? ==> forall x :: outputLength <= x < output.Length ==> output[x] == old(output[x])
    ensures !status.Success? ==> outputLength == output.Length
  {
    hide DecodeTail;
    outputLength := output.Length;
    var b := FindDelimiter(input);
    if b > outputLength { return BigOutput, outputLength; }
    var ok := CopyBasics(input, b, output, caseFlags);
    if !ok { return BadInput, outputLength; }
    ghost var flags := seq(b, x requires 0 <= x < b => Flagged(CharToUint(input[x])));
    var out;
    status, out := DecodeLoop(input, if b > 0 then b + 1 else 0, b, output, caseFlags, flags);
    if status.Success? { outputLength := out; }
  }

  lemma Wrapped(i: nat, size: nat)
    requires size > 0
    ensures WrapAround(i, size) == (i / size, i % size) && 0 <= i / size && 0 <= i % size < size
  {
    DivMod(i, size);
    DivMonotone(i, size);
    WrapsTo(i / size, i % size, size);
  }
}
