/**
 Digits, bias adaptation and the generalized variable-length integers of Punycode
 (sections 3.3, 3.4, 5 and 6.1 of RFC 3492).
 */
module PunycodeDigits {
  import opened Arithmetic
  import opened Words

  const BASE: nat := 36
  const TMIN: nat := 1
  const TMAX: nat := 26
  const SKEW: nat := 38
  const DAMP: nat := 700
  const INITIAL_BIAS: nat := 72
  const INITIAL_N: nat := 0x80
  const DELIMITER: nat := 0x2D
  /** The largest bias that a 32-bit delta leads to. */
  const MAX_BIAS: nat := 215

  datatype Status = Success | BadInput | BigOutput | Overflow

  predicate IsBasic(cp: uint32) { cp < 0x80 }

  /** Value of a basic code point used as a digit; `BASE` when it is none. Subtractions wrap around. */
  function DecodeDigit(cp: uint32): uint32 {
    if Sub32(cp, 48) < 10 then Sub32(cp, 22)
    else if Sub32(cp, 65) < 26 then Sub32(cp, 65)
    else if Sub32(cp, 97) < 26 then Sub32(cp, 97)
    else BASE
  }

  /** The basic code point for digit `d`; upper case when flagged. */
  function EncodeDigit(d: nat, flag: bool): byte
    requires d < BASE && (flag ==> d < TMAX)
  {
    d + 22 + (if d < 26 then 75 else 0) - (if flag then 32 else 0)
  }

  /** Is a basic code point an upper-case letter? */
  predicate Flagged(bcp: uint32) { Sub32(bcp, 65) < 26 }

  /** Forces a basic code point to the case that `flag` asks for. */
  function EncodeBasic(bcp: uint32, flag: bool): (r: uint32)
    requires IsBasic(bcp)
    ensures IsBasic(r)
    ensures Flagged(r) ==> flag
    ensures r == 0 <==> bcp == 0
    ensures r != bcp ==> (65 <= bcp <= 90 && r == bcp + 32) || (97 <= bcp <= 122 && r == bcp - 32)
    ensures 65 <= bcp <= 90 || 97 <= bcp <= 122 ==> (65 <= r <= 90 <==> flag) && (97 <= r <= 122 <==> !flag)
  {
    var up := if Sub32(bcp, 97) < 26 then bcp - 32 else bcp;
    if !flag && Sub32(up, 65) < 26 then up + 32 else up
  }

  /** The lower-case form of a byte. */
  function LowerByte(c: byte): byte {
    if 65 <= c < 91 then c + 32 else c
  }

  /** The digits are the letters, which stand for 0 to 25 in either case, and then the decimal digits. */
  lemma DigitIs(d: nat)
    requires d < 36
    ensures EncodeDigit(d, false) == if d < 26 then 'a' as int + d else '0' as int + (d - 26)
    ensures d < 26 ==> EncodeDigit(d, true) == 'A' as int + d && DecodeDigit('A' as int + d) == d
    ensures DecodeDigit(if d < 26 then 'a' as int + d else '0' as int + (d - 26)) == d
  {
  }

  /** Other characters are no digits. */
  lemma NoDigit(cp: uint32)
    ensures DecodeDigit(cp) == 36 <==> !(48 <= cp <= 57 || 65 <= cp <= 90 || 97 <= cp <= 122)
    ensures DecodeDigit(cp) <= 36
  {
  }

  /** A digit survives the trip, with its case as a flag, and no digit is the delimiter or zero. */
  lemma DigitRoundTrip(d: nat, flag: bool)
    requires d < BASE && (flag ==> d < TMAX)
    ensures var c := EncodeDigit(d, flag);
            && DecodeDigit(CharToUint(c)) == d
            && Flagged(CharToUint(c)) == flag
            && c != DELIMITER && c != 0
  {
  }

  /** Every byte that reads as a digit is, up to case, the byte that writes that digit. */
  lemma DigitCanonical(c: byte)
    ensures var d := DecodeDigit(CharToUint(c));
            d < BASE ==> EncodeDigit(d, false) == LowerByte(c) && c != DELIMITER
  {
  }

  function AdaptLoop(delta: nat, k: nat): nat
    decreases delta
  {
    if delta > ((BASE - TMIN) * TMAX) / 2
    then AdaptLoop(delta / (BASE - TMIN), k + BASE)
    else k + (BASE - TMIN + 1) * delta / (delta + SKEW)
  }

  /** Bias adaptation (section 3.4 of RFC 3492), over unbounded integers. */
  function Adapt(delta: nat, numpoints: nat, firstTime: bool): nat
    requires numpoints > 0
  {
    var d := if firstTime then delta / DAMP else delta / 2;
    DivMonotone(d, numpoints);
    AdaptLoop(d + d / numpoints, 0)
  }

  function Pow35(n: nat): (r: nat)
    ensures r > 0
  {
    if n == 0 then 1 else 35 * Pow35(n - 1)
  }

  /** A delta below 456 * 35^n is divided at most n times. */
  lemma {:induction false} AdaptLoopBound(delta: nat, k: nat, n: nat)
    requires delta < 456 * Pow35(n)
    ensures AdaptLoop(delta, k) <= k + 36 * n + 35
    decreases n
  {
    if delta > 455 {
      AdaptLoopBound(delta / 35, k + 36, n - 1);
    } else {
      ScaledBelow(delta);
    }
  }

  /** A 700th of the delta the first time, and half of it later, with the share of the code points added. */
  function Damped(delta: nat, numpoints: nat, firstTime: bool): nat
    requires numpoints > 0
  {
    var d := if firstTime then delta / 700 else delta / 2;
    DivMonotone(d, numpoints);
    d + d / numpoints
  }

  /**
   `r` is the bias of section 3.4 of RFC 3492: the damped delta is divided by 35 as often as it takes to come down to
   455.
   */
  ghost predicate IsBias(delta: nat, numpoints: nat, firstTime: bool, r: nat)
    requires numpoints > 0
  {
    exists m: nat :: IsBiasAfter(Damped(delta, numpoints, firstTime), m, r)
  }

  /** `d` divided `m` times by 35. */
  function Divided(d: nat, m: nat): nat {
    if m == 0 then d else Divided(d, m - 1) / 35
  }

  /** The bias when `d` is divided `m` times, and no fewer times would do. */
  ghost predicate IsBiasAfter(d: nat, m: nat, r: nat) {
    var e := Divided(d, m);
    e <= 455 && (forall n: nat :: n < m ==> Divided(d, n) > 455) && r == 36 * m + 36 * e / (e + 38)
  }

  lemma {:induction false} AdaptLoopIs(delta: nat, k: nat, d: nat, m: nat)
    requires delta == Divided(d, m) && k == 36 * m && forall n: nat :: n < m ==> Divided(d, n) > 455
    ensures exists m' :: IsBiasAfter(d, m', AdaptLoop(delta, k))
    decreases delta
  {
    if delta > 455 {
      AdaptLoopIs(delta / 35, k + 36, d, m + 1);
    } else {
      assert IsBiasAfter(d, m, AdaptLoop(delta, k));
    }
  }

  /** The bias function computes this bias. */
  lemma AdaptIs(delta: nat, numpoints: nat, firstTime: bool)
    requires numpoints > 0
    ensures IsBias(delta, numpoints, firstTime, Adapt(delta, numpoints, firstTime))
  {
    hide AdaptLoop, IsBiasAfter;
    var d := Damped(delta, numpoints, firstTime);
    assert Adapt(delta, numpoints, firstTime) == AdaptLoop(d, 0);
    AdaptLoopIs(d, 0, d, 0);
  }

  lemma ScaledBelow(delta: nat)
    ensures 36 * delta / (delta + 38) < 36
  {
    ProductWithin(36, 36 * delta, delta + 38);
  }

  lemma Pow35Values()
    ensures Pow35(5) == 52521875 && Pow35(6) == 1838265625
  {
    assert Pow35(2) == 1225 && Pow35(4) == 1500625;
  }

  /** A 32-bit delta is divided at most five times, and the bias is small. */
  lemma AdaptBound(delta: nat, numpoints: nat, firstTime: bool)
    requires numpoints > 0 && delta <= MAX_UINT32
    ensures Adapt(delta, numpoints, firstTime) <= MAX_BIAS
  {
    var d := if firstTime then delta / DAMP else delta / 2;
    DivMonotone(d, numpoints);
    Pow35Values();
    AdaptLoopBound(d + d / numpoints, 0, 5);
  }

  /** The bias adaptation loop in 32-bit arithmetic: nothing in it wraps. */
  method AdaptBias(delta0: uint32, numpoints: uint32, firstTime: bool) returns (r: uint32)
    requires numpoints > 0
    ensures r == Adapt(delta0, numpoints, firstTime) && IsBias(delta0, numpoints, firstTime, r)
  {
    AdaptIs(delta0, numpoints, firstTime);
    var delta: uint32 := if firstTime then delta0 / DAMP else delta0 / 2;
    DivMonotone(delta, numpoints);
    delta := delta + delta / numpoints;
    AdaptBound(delta0, numpoints, firstTime);
    var k: uint32 := 0;
    ghost var start := delta;
    while delta > ((BASE - TMIN) * TMAX) / 2
      invariant AdaptLoop(start, 0) == AdaptLoop(delta, k)
      invariant k + delta <= start + 1
      decreases delta
    {
      delta := delta / (BASE - TMIN);
      k := k + BASE;
    }
    ScaledBelow(delta);
    r := k + (BASE - TMIN + 1) * delta / (delta + SKEW);
  }

  /** Digit threshold at weight index `k / BASE` under `bias` (section 3.3 of RFC 3492). */
  function Threshold(k: nat, bias: nat): (t: nat)
    ensures TMIN <= t <= TMAX
  {
    if k <= bias then TMIN else if k >= bias + TMAX then TMAX else k - bias
  }

  lemma DigitAndQuotient(q: nat, t: nat)
    requires TMIN <= t <= TMAX && t <= q
    ensures 0 <= (q - t) / (BASE - t) < q
    ensures 10 * ((q - t) / (BASE - t)) < q
    ensures t <= t + (q - t) % (BASE - t) < BASE
    ensures q == t + (q - t) % (BASE - t) + (q - t) / (BASE - t) * (BASE - t)
  {
    DivMod(q - t, BASE - t);
    MulMonotone(10, BASE - t, (q - t) / (BASE - t));
  }

  /** The digits that represent `q` as a variable-length integer, least significant first. */
  function VarDigits(q: nat, k: nat, bias: nat): (ds: seq<nat>)
    decreases q
  {
    var t := Threshold(k, bias);
    if q < t then [q]
    else
      DigitAndQuotient(q, t);
      [t + (q - t) % (BASE - t)] + VarDigits((q - t) / (BASE - t), k + BASE, bias)
  }

  /** The integer that a digit string stands for: each digit's weight depends on the thresholds before it. */
  function VarValue(ds: seq<nat>, k: nat, bias: nat): nat {
    if ds == [] then 0 else ds[0] + VarValue(ds[1..], k + BASE, bias) * (BASE - Threshold(k, bias))
  }

  /** Exactly the last digit is below its threshold, so a reader knows where the integer ends. */
  predicate SelfDelimiting(ds: seq<nat>, k: nat, bias: nat) {
    ds != [] &&
    var t := Threshold(k, bias);
    if |ds| == 1 then ds[0] < t
    else t <= ds[0] < BASE && SelfDelimiting(ds[1..], k + BASE, bias)
  }

  /** `VarDigits` writes a self-delimiting digit string for `q`. */
  lemma {:induction false} VarDigitsSound(q: nat, k: nat, bias: nat)
    ensures var ds := VarDigits(q, k, bias); SelfDelimiting(ds, k, bias) && VarValue(ds, k, bias) == q
    decreases q
  {
    var t := Threshold(k, bias);
    if q < t {
      assert VarDigits(q, k, bias)[1..] == [];
    } else {
      DigitAndQuotient(q, t);
      var d, q' := t + (q - t) % (BASE - t), (q - t) / (BASE - t);
      VarDigitsSound(q', k + BASE, bias);
      assert VarDigits(q, k, bias)[1..] == VarDigits(q', k + BASE, bias);
    }
  }

  /** There is only one self-delimiting digit string for each integer. */
  lemma {:induction false} VarDigitsUnique(ds: seq<nat>, k: nat, bias: nat)
    requires SelfDelimiting(ds, k, bias)
    ensures ds == VarDigits(VarValue(ds, k, bias), k, bias)
  {
    var t := Threshold(k, bias);
    if |ds| == 1 {
      assert VarValue(ds[1..], k + BASE, bias) == 0;
    } else {
      VarDigitsUnique(ds[1..], k + BASE, bias);
      var q' := VarValue(ds[1..], k + BASE, bias);
      DivModUnique(ds[0] - t, q', BASE - t);
      MulMonotone(0, q', BASE - t);
    }
  }

  /** A 32-bit integer has at most ten decimal digits. */
  lemma BelowPow10()
    ensures MAX_UINT32 < Pow10(10)
  {
    assert Pow10(2) == 100;
    assert Pow10(4) == 10000;
    assert Pow10(6) == 1000000;
    assert Pow10(8) == 100000000;
  }

  /** An integer below 10^n takes at most n + 1 digits. */
  lemma {:induction false} VarDigitsShort(q: nat, k: nat, bias: nat, n: nat)
    requires q < Pow10(n)
    ensures |VarDigits(q, k, bias)| <= n + 1
  {
    var t := Threshold(k, bias);
    if q >= t {
      DigitAndQuotient(q, t);
      VarDigitsShort((q - t) / (BASE - t), k + BASE, bias, n - 1);
    }
  }

  lemma {:induction false} SelfDelimitingShape(ds: seq<nat>, k: nat, bias: nat)
    requires SelfDelimiting(ds, k, bias)
    ensures forall x :: 0 <= x < |ds| ==> ds[x] < BASE
    ensures ds[|ds| - 1] < TMAX
  {
    if |ds| > 1 {
      SelfDelimitingShape(ds[1..], k + BASE, bias);
      assert forall x :: 0 < x < |ds| ==> ds[x] == ds[1..][x - 1];
    }
  }

  /** The bytes the encoder writes for `q`; the flag decides the case of the last one. */
  function VarBytes(q: nat, k: nat, bias: nat, flag: bool): (bs: seq<byte>)
    ensures |bs| == |VarDigits(q, k, bias)| > 0
  {
    VarDigitsSound(q, k, bias);
    SelfDelimitingShape(VarDigits(q, k, bias), k, bias);
    var ds := VarDigits(q, k, bias);
    seq(|ds|, x requires 0 <= x < |ds| => EncodeDigit(ds[x], flag && x == |ds| - 1))
  }

  /** Do the weights a decoder forms for a string of `count` digits stay within `limit`? */
  predicate WeightsFit(count: nat, k: nat, bias: nat, w: nat, limit: nat) {
    count > 1 ==>
      var w' := w * (BASE - Threshold(k, bias));
      0 <= w' <= limit && WeightsFit(count - 1, k + BASE, bias, w', limit)
  }

  datatype VarResult = Read(i: nat, next: nat) | Stop(status: Status)

  /**
   The decoder's digit loop from position `p` of `s`: the new `i`, and the position it stops at.
   `limit` is the largest integer of the machine.
   */
  function ReadVar(s: seq<byte>, p: nat, k: nat, bias: nat, i: nat, w: nat, limit: nat): (r: VarResult)
    requires p <= |s| && w > 0 && i <= limit
    ensures r.Read? ==> p < r.next <= |s| && i <= r.i <= limit
    ensures r.Stop? ==> r.status.BadInput? || r.status.Overflow?
    decreases |s| - p
  {
    if p >= |s| then Stop(BadInput)
    else
      var digit := DecodeDigit(CharToUint(s[p]));
      if digit >= BASE then Stop(BadInput)
      else if i + digit * w > limit then Stop(Overflow)
      else
        MulMonotone(0, digit, w);
        var i' := i + digit * w;
        var t := Threshold(k, bias);
        if digit < t then Read(i', p + 1)
        else if w * (BASE - t) > limit then Stop(Overflow)
        else
          MulMonotone(1, BASE - t, w);
          ReadVar(s, p + 1, k + BASE, bias, i', w * (BASE - t), limit)
  }

  /** One step of the digit loop. */
  lemma ReadVarStep(s: seq<byte>, p: nat, k: nat, bias: nat, i: nat, w: nat, limit: nat)
    requires p < |s| && w > 0 && i <= limit
    ensures var digit, t := DecodeDigit(CharToUint(s[p])), Threshold(k, bias);
            var i', w' := i + digit * w, w * (BASE - t);
            && i <= i' && w <= 10 * w <= w'
            && ReadVar(s, p, k, bias, i, w, limit)
            == if digit >= BASE then Stop(BadInput)
               else if i' > limit then Stop(Overflow)
               else if digit < t then Read(i', p + 1)
               else if w' > limit then Stop(Overflow)
               else ReadVar(s, p + 1, k + BASE, bias, i', w', limit)
  {
    hide DecodeDigit, Threshold;
    MulMonotone(10, BASE - Threshold(k, bias), w);
    MulMonotone(0, DecodeDigit(CharToUint(s[p])), w);
  }

  /** The values of the bytes of `s` as digits. */
  function DigitsOf(s: seq<byte>): (ds: seq<nat>)
    ensures |ds| == |s|
  {
    seq(|s|, x requires 0 <= x < |s| => DecodeDigit(CharToUint(s[x])))
  }

  function WhenFits(i: nat, next: nat, count: nat, k: nat, bias: nat, w: nat, limit: nat): VarResult {
    if i <= limit && WeightsFit(count, k, bias, w, limit) then Read(i, next) else Stop(Overflow)
  }

  /**
   Reading a self-delimiting digit string: the digit loop adds exactly its value times `w`, stops after its last
   digit, and fails, with an overflow, exactly when the sum or a weight is too large for the machine.
   */
  lemma {:induction false} ReadVarDigits(s: seq<byte>, p: nat, next: nat, k: nat, bias: nat, i: nat, w: nat, total: nat,
                                         limit: nat)
    requires w > 0 && i <= limit && p <= next <= |s|
    requires SelfDelimiting(DigitsOf(s[p..next]), k, bias)
    requires total == VarValue(DigitsOf(s[p..next]), k, bias) * w
    ensures ReadVar(s, p, k, bias, i, w, limit) == WhenFits(i + total, next, next - p, k, bias, w, limit)
    decreases next - p
  {
    var ds := DigitsOf(s[p..next]);
    var t := Threshold(k, bias);
    var digit := ds[0];
    MulMonotone(0, digit, w);
    if |ds| == 1 {
      assert VarValue(ds[1..], k + BASE, bias) == 0;
    } else {
      var b := BASE - t;
      var v' := VarValue(ds[1..], k + BASE, bias);
      var w', i' := w * b, i + digit * w;
      assert w' > 0 by { MulMonotone(1, b, w); }
      assert DigitsOf(s[p + 1..next]) == ds[1..] by { assert s[p + 1..next] == s[p..next][1..]; }
      WeightedSum(digit, v', b, w);
      var total' := v' * w';
      assert total == digit * w + total';
      if i' <= limit && w' <= limit {
        ReadVarDigits(s, p + 1, next, k + BASE, bias, i', w', total', limit);
      }
    }
  }

  lemma WeightedSum(d: nat, v: nat, b: nat, w: nat)
    ensures (d + v * b) * w == d * w + v * (w * b)
    ensures v * (w * b) >= 0
  {
    MulDistributes(d, v * b, w);
    MulAssociates(v, b, w);
    MulMonotone(0, w, b);
    MulMonotone(0, v, w * b);
  }

  /** Whatever the digit loop reads is a self-delimiting digit string. */
  lemma {:induction false} ReadVarSelfDelimiting(s: seq<byte>, p: nat, k: nat, bias: nat, i: nat, w: nat, limit: nat)
    requires p <= |s| && w > 0 && i <= limit
    requires ReadVar(s, p, k, bias, i, w, limit).Read?
    ensures SelfDelimiting(DigitsOf(s[p..ReadVar(s, p, k, bias, i, w, limit).next]), k, bias)
    decreases |s| - p
  {
    var next := ReadVar(s, p, k, bias, i, w, limit).next;
    var ds := DigitsOf(s[p..next]);
    var t := Threshold(k, bias);
    if ds[0] >= t {
      MulMonotone(1, BASE - t, w);
      MulMonotone(0, ds[0], w);
      ReadVarSelfDelimiting(s, p + 1, k + BASE, bias, i + ds[0] * w, w * (BASE - t), limit);
      assert DigitsOf(s[p + 1..next]) == ds[1..] by { assert s[p + 1..next] == s[p..next][1..]; }
    }
  }

  /**
   Round trip of one integer (section 3.3 of RFC 3492): where the encoder wrote `q`, the decoder's digit loop adds
   exactly `q` and stops where the encoder stopped, unless the sum or a weight is too large for the machine.
   */
  lemma ReadVarBytes(s: seq<byte>, p: nat, q: nat, bias: nat, flag: bool, i: nat, limit: nat)
    requires i <= limit
    requires var bs := VarBytes(q, BASE, bias, flag); p + |bs| <= |s| && s[p..p + |bs|] == bs
    ensures var count := |VarBytes(q, BASE, bias, flag)|;
            ReadVar(s, p, BASE, bias, i, 1, limit) == WhenFits(i + q, p + count, count, BASE, bias, 1, limit)
  {
    var bs := VarBytes(q, BASE, bias, flag);
    VarDigitsSound(q, BASE, bias);
    VarBytesDigits(q, BASE, bias, flag);
    ReadVarDigits(s, p, p + |bs|, BASE, bias, i, 1, q, limit);
  }

  lemma VarBytesDigits(q: nat, k: nat, bias: nat, flag: bool)
    ensures DigitsOf(VarBytes(q, k, bias, flag)) == VarDigits(q, k, bias)
  {
    var ds, bs := VarDigits(q, k, bias), VarBytes(q, k, bias, flag);
    VarDigitsSound(q, k, bias);
    SelfDelimitingShape(ds, k, bias);
    forall x | 0 <= x < |ds| ensures DigitsOf(bs)[x] == ds[x] {
      DigitRoundTrip(ds[x], flag && x == |ds| - 1);
    }
  }

  /** The flag is the case of the last byte, and no byte is the delimiter or zero. */
  lemma VarBytesShape(q: nat, k: nat, bias: nat, flag: bool)
    ensures var bs := VarBytes(q, k, bias, flag);
            && Flagged(CharToUint(bs[|bs| - 1])) == flag
            && DELIMITER !in bs && 0 !in bs
  {
    var ds, bs := VarDigits(q, k, bias), VarBytes(q, k, bias, flag);
    VarDigitsSound(q, k, bias);
    SelfDelimitingShape(ds, k, bias);
    forall x | 0 <= x < |bs|
      ensures bs[x] != DELIMITER && bs[x] != 0 && (x == |bs| - 1 ==> Flagged(CharToUint(bs[x])) == flag)
    {
      DigitRoundTrip(ds[x], flag && x == |ds| - 1);
    }
  }

  function LowerBytes(s: seq<byte>): (r: seq<byte>)
    ensures |r| == |s|
  {
    seq(|s|, x requires 0 <= x < |s| => LowerByte(s[x]))
  }

  /** Canonicity of one integer: what the decoder reads is, up to case, what the encoder writes for it. */
  lemma ReadVarCanonical(s: seq<byte>, p: nat, bias: nat, i: nat, limit: nat)
    requires p <= |s| && i <= limit
    requires ReadVar(s, p, BASE, bias, i, 1, limit).Read?
    ensures var r := ReadVar(s, p, BASE, bias, i, 1, limit);
            && LowerBytes(s[p..r.next]) == VarBytes(r.i - i, BASE, bias, false)
            && DELIMITER !in s[p..r.next]
            && WeightsFit(r.next - p, BASE, bias, 1, limit)
  {
    var r := ReadVar(s, p, BASE, bias, i, 1, limit);
    var u := s[p..r.next];
    ReadVarSelfDelimiting(s, p, BASE, bias, i, 1, limit);
    ReadVarDigits(s, p, r.next, BASE, bias, i, 1, VarValue(DigitsOf(u), BASE, bias), limit);
    LowerBytesCanonical(u, BASE, bias);
  }

  lemma LowerBytesCanonical(u: seq<byte>, k: nat, bias: nat)
    requires SelfDelimiting(DigitsOf(u), k, bias)
    ensures LowerBytes(u) == VarBytes(VarValue(DigitsOf(u), k, bias), k, bias, false)
    ensures DELIMITER !in u
  {
    var ds := DigitsOf(u);
    VarDigitsUnique(ds, k, bias);
    SelfDelimitingShape(ds, k, bias);
    forall x | 0 <= x < |u| ensures LowerByte(u[x]) == EncodeDigit(ds[x], false) && u[x] != DELIMITER {
      DigitCanonical(u[x]);
    }
  }
}
