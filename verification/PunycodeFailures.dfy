/** How Punycode fails: which error the encoder and the decoder report. */
module PunycodeFailures {
  import opened Wrappers
  import opened Words
  import opened PunycodeDigits
  import opened PunycodeSpec
  import opened PunycodeRoundTrip
  import opened PunycodeLimits

  // ----- The encoder -----

  /** The encoder fails with an overflow only if some delta does not fit, and otherwise for lack of room. */
  lemma EncodeFails(cps: seq<uint32>, flags: CaseFlags, capacity: nat, limit: nat)
    requires FlagsFor(cps, flags)
    ensures (var status := EncodeStatus(cps, capacity, limit);
      && status in {Success, Overflow, BigOutput}
      && (status == Overflow ==> !DeltasFit(cps, 0x80, 0, limit))
      && (status == BigOutput ==> |Encoding(cps, flags)| > capacity))
  {
    hide Adapt, DeltasFit, EncodeTail, EncodeTailStatus, EncodeBasics, Count;
    BasicsInserted(cps, flags, |cps|);
    var b := BasicCount(cps);
    if !(b > 0 && b >= capacity) {
      TailFails(cps, flags, 0x80, 0, INITIAL_BIAS, if b > 0 then b + 1 else 0, capacity, limit);
    }
  }

  lemma {:induction false} TailFails(cps: seq<uint32>, flags: CaseFlags, n: nat, j: nat, bias: nat, written: nat,
                                     capacity: nat, limit: nat)
    requires FlagsFor(cps, flags) && j <= |cps|
    ensures (var status := EncodeTailStatus(cps, n, j, bias, written, capacity, limit);
      && status in {Success, Overflow, BigOutput}
      && (status == Overflow ==> !DeltasFit(cps, n, j, limit))
      && (status == BigOutput ==> written + |EncodeTail(cps, flags, n, j, bias)| > capacity))
    decreases |cps| - Count(cps, |cps|, n, j)
  {
    hide Adapt, Count, Delta, NextIndex, VarDigits;
    var next := NextIndex(cps, |cps|, n, j);
    if next.Some? {
      var k := next.value;
      NextFacts(cps, n, j, k);
      var delta := Delta(cps, n, j, k);
      var bias' := Adapt(delta, Count(cps, |cps|, n, j) + 1, j == 0);
      EncodeTailStep(cps, flags, n, j, bias, k, delta, bias');
      TailFails(cps, flags, cps[k], k + 1, bias', written + |VarBytes(delta, BASE, bias, false)|, capacity, limit);
    }
  }

  // ----- Reading an integer -----

  /** The letter that stands for 0, which ends every integer. */
  const LETTER_A: byte := 0x61

  predicate IsDigit(c: byte) {
    var cp := CharToUint(c);
    48 <= cp <= 57 || 65 <= cp <= 90 || 97 <= cp <= 122
  }

  lemma DigitOrNot(c: byte)
    ensures DecodeDigit(CharToUint(c)) < BASE <==> IsDigit(c)
    ensures DecodeDigit(CharToUint(LETTER_A)) == 0 && IsDigit(LETTER_A) && LETTER_A != DELIMITER
  {
    NoDigit(CharToUint(c));
  }

  /** Behind the last byte that is looked at. */
  function Seen(s: seq<byte>, p: nat, k: nat, bias: nat, i: nat, w: nat, limit: nat): (r: nat)
    requires p <= |s| && w > 0 && i <= limit
    ensures p <= r <= |s|
    decreases |s| - p
  {
    if p == |s| then p
    else
      var digit := DecodeDigit(CharToUint(s[p]));
      if digit >= BASE || i + digit * w > limit then p + 1
      else
        var t := Threshold(k, bias);
        if digit < t || w * (BASE - t) > limit then p + 1
        else
          ReadVarStep(s, p, k, bias, i, w, limit);
          Seen(s, p + 1, k + BASE, bias, i + digit * w, w * (BASE - t), limit)
  }

  /** What is behind that byte does not matter, unless the input ends inside the integer. */
  lemma {:induction false} SeenOnly(s: seq<byte>, u: seq<byte>, p: nat, k: nat, bias: nat, i: nat, w: nat, limit: nat)
    requires p <= |s| && w > 0 && i <= limit
    requires var e := Seen(s, p, k, bias, i, w, limit); e <= |u| && u[..e] == s[..e]
    ensures (var v := ReadVar(s, p, k, bias, i, w, limit);
      && (v.Read? ==> v.next == Seen(s, p, k, bias, i, w, limit))
      && (v != Stop(BadInput) ==> ReadVar(u, p, k, bias, i, w, limit) == v)
      && (v != Stop(BadInput) ==> forall x :: p <= x < Seen(s, p, k, bias, i, w, limit) ==> IsDigit(s[x])))
    decreases |s| - p
  {
    hide DecodeDigit, Threshold, IsDigit;
    if p < |s| {
      var e := Seen(s, p, k, bias, i, w, limit);
      assert p < e && u[p] == u[..e][p] == s[..e][p] == s[p];
      DigitOrNot(s[p]);
      var digit := DecodeDigit(CharToUint(s[p]));
      if digit < BASE && i + digit * w <= limit {
        var t := Threshold(k, bias);
        if digit >= t && w * (BASE - t) <= limit {
          ReadVarStep(s, p, k, bias, i, w, limit);
          SeenOnly(s, u, p + 1, k + BASE, bias, i + digit * w, w * (BASE - t), limit);
        }
      }
    }
  }

  /** Bad input: a byte that is no digit, or an integer that the letter for 0 would end. */
  lemma {:induction false} BadInteger(s: seq<byte>, p: nat, k: nat, bias: nat, i: nat, w: nat, limit: nat)
    requires p <= |s| && w > 0 && i <= limit && ReadVar(s, p, k, bias, i, w, limit) == Stop(BadInput)
    ensures (exists x :: p <= x < |s| && !IsDigit(s[x])) ||
            (var v := ReadVar(s + [LETTER_A], p, k, bias, i, w, limit); v.Read? && v.next == |s| + 1)
    decreases |s| - p
  {
    hide DecodeDigit, IsDigit;
    var u := s + [LETTER_A];
    if p == |s| {
      DigitOrNot(u[p]);
    } else {
      assert u[p] == s[p];
      DigitOrNot(s[p]);
      var digit := DecodeDigit(CharToUint(s[p]));
      if digit < BASE {
        var t := Threshold(k, bias);
        ReadVarStep(s, p, k, bias, i, w, limit);
        BadInteger(s, p + 1, k + BASE, bias, i + digit * w, w * (BASE - t), limit);
      }
    }
  }

  // ----- The decoder -----

  /** One round over another input that is the same as far as this round looks. */
  lemma SameRound(s: seq<byte>, u: seq<byte>, p: nat, n: nat, i: nat, bias: nat, cps: seq<uint32>, flags: seq<bool>,
                  capacity: nat, room: nat, limit: uint32)
    requires p < |s| && n <= limit && i <= |cps| <= limit && |flags| == |cps|
    requires |s| - p + |cps| <= limit && |u| - p + |cps| <= limit
    requires (var e := Seen(s, p, BASE, bias, i, 1, limit); e <= |u| && u[..e] == s[..e])
    requires ReadVar(s, p, BASE, bias, i, 1, limit).Read?
    ensures (var v := ReadVar(s, p, BASE, bias, i, 1, limit);
      && p < v.next <= |u| && v.i <= limit
      && (var (steps, pos) := WrapAround(v.i, |cps| + 1);
          && (steps <= limit - n ==>
                (var cps', flags' := InsertAt(cps, pos, n + steps),
                                     InsertAt(flags, pos, Flagged(CharToUint(s[v.next - 1])));
                 var bias' := Adapt(v.i - i, |cps| + 1, i == 0);
                 && (|cps| < capacity ==>
                       DecodeTail(s, p, n, i, bias, cps, flags, capacity, limit) ==
                       DecodeTail(s, v.next, n + steps, pos + 1, bias', cps', flags', capacity, limit))
                 && (|cps| < room ==>
                       DecodeTail(u, p, n, i, bias, cps, flags, room, limit) ==
                       DecodeTail(u, v.next, n + steps, pos + 1, bias', cps', flags', room, limit))))
          && (steps > limit - n ==>
                DecodeTail(s, p, n, i, bias, cps, flags, capacity, limit).status.Overflow? &&
                DecodeTail(u, p, n, i, bias, cps, flags, room, limit).status.Overflow?)))
  {
    hide ReadVar, Adapt, WrapAround, Flagged, DecodeTail, Seen;
    SeenOnly(s, u, p, BASE, bias, i, 1, limit);
    var v := ReadVar(s, p, BASE, bias, i, 1, limit);
    assert u[v.next - 1] == u[..v.next][v.next - 1] == s[..v.next][v.next - 1] == s[v.next - 1];
    DecodeTailCase(s, p, n, i, bias, cps, flags, capacity, limit);
    DecodeTailCase(u, p, n, i, bias, cps, flags, room, limit);
  }

  lemma {:induction false} TailBadInput(s: seq<byte>, p: nat, n: nat, i: nat, bias: nat, cps: seq<uint32>,
                                        flags: seq<bool>, capacity: nat, limit: uint32)
    requires p <= |s| && n <= limit && i <= |cps| <= limit && |flags| == |cps| && |s| + 1 - p + |cps| <= limit
    requires DecodeTail(s, p, n, i, bias, cps, flags, capacity, limit).status.BadInput?
    ensures (exists x :: p <= x < |s| && !IsDigit(s[x])) ||
            !DecodeTail(s + [LETTER_A], p, n, i, bias, cps, flags, capacity, limit).status.BadInput?
    decreases |s| - p
  {
    hide ReadVar, Adapt, WrapAround, Flagged, DecodeTail, Seen, IsDigit;
    var u := s + [LETTER_A];
    if p == |s| {
      DecodeTailEnd(s, n, i, bias, cps, flags, capacity, limit);
    } else {
      var v := ReadVar(s, p, BASE, bias, i, 1, limit);
      DecodeTailCase(s, p, n, i, bias, cps, flags, capacity, limit);
      DecodeTailCase(u, p, n, i, bias, cps, flags, capacity, limit);
      if v.Read? {
        assert u[..Seen(s, p, BASE, bias, i, 1, limit)] == s[..Seen(s, p, BASE, bias, i, 1, limit)];
        SameRound(s, u, p, n, i, bias, cps, flags, capacity, capacity, limit);
        var (steps, pos) := WrapAround(v.i, |cps| + 1);
        TailBadInput(s, v.next, n + steps, pos + 1, Adapt(v.i - i, |cps| + 1, i == 0), InsertAt(cps, pos, n + steps),
                     InsertAt(flags, pos, Flagged(CharToUint(s[v.next - 1]))), capacity, limit);
      } else {
        BadInteger(s, p, BASE, bias, i, 1, limit);
        EndsWell(u, p, n, i, bias, cps, flags, capacity, limit);
      }
    }
  }

  /** After the last integer, the input is no longer bad. */
  lemma EndsWell(u: seq<byte>, p: nat, n: nat, i: nat, bias: nat, cps: seq<uint32>, flags: seq<bool>, capacity: nat,
                 limit: uint32)
    requires p < |u| && n <= limit && i <= |cps| <= limit && |flags| == |cps| && |u| - p + |cps| <= limit
    ensures (var v := ReadVar(u, p, BASE, bias, i, 1, limit);
      v.Read? && v.next == |u| ==> !DecodeTail(u, p, n, i, bias, cps, flags, capacity, limit).status.BadInput?)
  {
    hide ReadVar, Adapt, WrapAround, Flagged;
  }

  lemma {:induction false} TailOverflow(s: seq<byte>, p: nat, n: nat, i: nat, bias: nat, cps: seq<uint32>,
                                        flags: seq<bool>, capacity: nat, limit: uint32)
    returns (q: nat)
    requires p <= |s| && n <= limit && i <= |cps| <= limit && |flags| == |cps| && |s| + 1 - p + |cps| <= limit
    requires DecodeTail(s, p, n, i, bias, cps, flags, capacity, limit).status.Overflow?
    ensures p <= q <= |s| && forall x :: p <= x < q ==> IsDigit(s[x])
    ensures DecodeTail(s[..q] + [LETTER_A], p, n, i, bias, cps, flags, capacity, limit).status.Overflow?
    decreases |s| - p
  {
    hide ReadVar, Adapt, WrapAround, Flagged, DecodeTail, Seen, IsDigit;
    var v, e := ReadVar(s, p, BASE, bias, i, 1, limit), Seen(s, p, BASE, bias, i, 1, limit);
    if p == |s| {
      DecodeTailEnd(s, n, i, bias, cps, flags, capacity, limit);
    } else {
      q := e;
      DecodeTailCase(s, p, n, i, bias, cps, flags, capacity, limit);
      SeenOnly(s, s, p, BASE, bias, i, 1, limit);
      if v.Read? {
        var (steps, pos) := WrapAround(v.i, |cps| + 1);
        if steps <= limit - n {
          q := TailOverflow(s, v.next, n + steps, pos + 1, Adapt(v.i - i, |cps| + 1, i == 0),
                            InsertAt(cps, pos, n + steps),
                            InsertAt(flags, pos, Flagged(CharToUint(s[v.next - 1]))), capacity, limit);
        }
      }
      var u := s[..q] + [LETTER_A];
      assert u[..e] == s[..e];
      SeenOnly(s, u, p, BASE, bias, i, 1, limit);
      DecodeTailCase(u, p, n, i, bias, cps, flags, capacity, limit);
      if v.Read? { SameRound(s, u, p, n, i, bias, cps, flags, capacity, capacity, limit); }
    }
  }

  lemma {:induction false} TailBigOutput(s: seq<byte>, p: nat, n: nat, i: nat, bias: nat, cps: seq<uint32>,
                                         flags: seq<bool>, capacity: nat, room: nat, limit: uint32)
    returns (q: nat)
    requires p <= |s| && n <= limit && i <= |cps| <= limit && |flags| == |cps| && |s| - p + |cps| <= limit
    requires room >= |s| - p + |cps|
    requires DecodeTail(s, p, n, i, bias, cps, flags, capacity, limit).status.BigOutput?
    ensures p <= q <= |s|
    ensures (var r := DecodeTail(s[..q], p, n, i, bias, cps, flags, room, limit);
      r.status.Success? && |r.cps| > capacity)
    decreases |s| - p
  {
    hide ReadVar, Adapt, WrapAround, Flagged, DecodeTail, Seen;
    var v, e := ReadVar(s, p, BASE, bias, i, 1, limit), Seen(s, p, BASE, bias, i, 1, limit);
    if p == |s| {
      DecodeTailEnd(s, n, i, bias, cps, flags, capacity, limit);
    } else {
      DecodeTailCase(s, p, n, i, bias, cps, flags, capacity, limit);
      SeenOnly(s, s, p, BASE, bias, i, 1, limit);
      var (steps, pos) := WrapAround(v.i, |cps| + 1);
      var cps', bias' := InsertAt(cps, pos, n + steps), Adapt(v.i - i, |cps| + 1, i == 0);
      var flags' := InsertAt(flags, pos, Flagged(CharToUint(s[v.next - 1])));
      if |cps| >= capacity {
        q := v.next;
        DecodeTailEnd(s[..q], n + steps, pos + 1, bias', cps', flags', room, limit);
      } else {
        q := TailBigOutput(s, v.next, n + steps, pos + 1, bias', cps', flags', capacity, room, limit);
      }
      assert s[..q][..e] == s[..e];
      SameRound(s, s[..q], p, n, i, bias, cps, flags, capacity, room, limit);
    }
  }

  // ----- Whole inputs -----

  /** The input has the same basic part, and other bytes behind it. */
  lemma SameBasics(s: seq<byte>, u: seq<byte>)
    requires (var b := LastDelimiter(s, |s|); b > 0 ==> b < |u| && u[b] == DELIMITER)
    requires forall x :: LastDelimiter(s, |s|) < x < |u| ==> u[x] != DELIMITER
    ensures LastDelimiter(u, |u|) == LastDelimiter(s, |s|)
  {
  }

  /** Where the integers begin. */
  function TailStart(s: seq<byte>): (r: nat)
    ensures r <= |s|
  {
    var b := LastDelimiter(s, |s|);
    if b > 0 then b + 1 else 0
  }

  lemma DecodingIs(s: seq<byte>, u: seq<byte>, capacity: nat, limit: uint32)
    requires |s| <= limit && |u| <= limit && INITIAL_N <= limit && TailStart(s) <= |u|
    requires u[..TailStart(s)] == s[..TailStart(s)]
    requires forall x :: TailStart(s) <= x < |u| ==> u[x] != DELIMITER || LastDelimiter(s, |s|) == x == 0
    requires LastDelimiter(s, |s|) <= capacity && forall x :: 0 <= x < LastDelimiter(s, |s|) ==> s[x] < 0x80
    ensures (var b := LastDelimiter(s, |s|);
      Decoding(u, capacity, limit) ==
      DecodeTail(u, TailStart(s), INITIAL_N, 0, INITIAL_BIAS, s[..b],
                 seq(b, x requires 0 <= x < b => Flagged(CharToUint(s[x]))), capacity, limit))
  {
    hide DecodeTail, Decoding, Flagged, LastDelimiter;
    var b := LastDelimiter(s, |s|);
    BasicsKept(s, u, b);
    SameBasics(s, u);
    DecodingBehind(u, b, capacity, limit);
  }

  lemma BasicsKept(s: seq<byte>, u: seq<byte>, b: nat)
    requires b <= |s| && b <= |u|
    requires b == 0 || (b < |s| && b < |u| && u[..b + 1] == s[..b + 1])
    ensures s[..b] == u[..b] && (b > 0 ==> u[b] == s[b]) && forall x :: 0 <= x < b ==> s[x] == u[x]
    ensures seq(b, x requires 0 <= x < b => Flagged(CharToUint(s[x])))
         == seq(b, x requires 0 <= x < b => Flagged(CharToUint(u[x])))
  {
    hide Flagged;
    if b > 0 {
      assert forall x :: 0 <= x <= b ==> s[x] == s[..b + 1][x] == u[x];
    }
  }

  lemma DecodingBehind(u: seq<byte>, b: nat, capacity: nat, limit: uint32)
    requires |u| <= limit && INITIAL_N <= limit && b == LastDelimiter(u, |u|) <= capacity
    requires forall x :: 0 <= x < b ==> u[x] < 0x80
    ensures Decoding(u, capacity, limit) ==
            DecodeTail(u, if b > 0 then b + 1 else 0, INITIAL_N, 0, INITIAL_BIAS, u[..b],
                       seq(b, x requires 0 <= x < b => Flagged(CharToUint(u[x]))), capacity, limit)
  {
    hide DecodeTail, Flagged, LastDelimiter;
  }

  /**
   Why the decoder fails. Bad input: in front of the last delimiter there is a byte that is not basic, or behind it one
   that is no digit, or the input ends inside an integer. Too large an output: some first part of the input stands for
   more code points. An overflow: it comes with a first part that has digits only, and whose last integer is complete.
   */
  lemma DecodeFails(s: seq<byte>, capacity: nat, limit: uint32)
    requires |s| < limit && INITIAL_N <= limit
    ensures (var b, start, status := LastDelimiter(s, |s|), TailStart(s), Decoding(s, capacity, limit).status;
      && (status.BadInput? ==>
            || (exists x :: 0 <= x < b && s[x] >= 0x80)
            || (exists x :: start <= x < |s| && !IsDigit(s[x]))
            || !Decoding(s + [LETTER_A], capacity, limit).status.BadInput?)
      && (status.BigOutput? ==>
            || b > capacity
            || (exists q :: start <= q <= |s| &&
                  (var r := Decoding(s[..q], |s|, limit); r.status.Success? && |r.cps| > capacity)))
      && (status.Overflow? ==>
            exists q :: start <= q <= |s| && (forall x :: start <= x < q ==> IsDigit(s[x])) &&
              Decoding(s[..q] + [LETTER_A], capacity, limit).status.Overflow?))
  {
    hide DecodeTail, Flagged, IsDigit;
    var b, start, r := LastDelimiter(s, |s|), TailStart(s), Decoding(s, capacity, limit);
    var fs := seq(b, x requires 0 <= x < b => Flagged(CharToUint(s[x])));
    DigitOrNot(LETTER_A);
    if b <= capacity && forall x :: 0 <= x < b ==> s[x] < 0x80 {
      DecodingIs(s, s, capacity, limit);
      if r.status.BadInput? {
        TailBadInput(s, start, INITIAL_N, 0, INITIAL_BIAS, s[..b], fs, capacity, limit);
        DecodingIs(s, s + [LETTER_A], capacity, limit);
      } else if r.status.BigOutput? {
        var q := TailBigOutput(s, start, INITIAL_N, 0, INITIAL_BIAS, s[..b], fs, capacity, |s|, limit);
        assert s[..q][..start] == s[..start];
        DecodingIs(s, s[..q], |s|, limit);
      } else if r.status.Overflow? {
        var q := TailOverflow(s, start, INITIAL_N, 0, INITIAL_BIAS, s[..b], fs, capacity, limit);
        assert (s[..q] + [LETTER_A])[..start] == s[..start];
        DecodingIs(s, s[..q] + [LETTER_A], capacity, limit);
      }
    }
  }
}
