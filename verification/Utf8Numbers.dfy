/**
 UTF-8 in numbers (section 3 of RFC 3629): the bytes of a code point, and what a decoding step answers to any bytes.
 */
module Utf8Numbers {
  import opened Utf8

  predicate IsTail(c: bv8) { 0x80 <= c <= 0xBF }

  lemma TailOf(x: bv32)
    ensures IsTail(Trail(x)) && Trail(x) as bv32 - 0x80 == x & 0x3F
  {
  }

  lemma First1(cp: bv32)
    requires cp < 0x80
    ensures Low8(cp) == cp as bv8
  {
  }

  lemma First2(cp: bv32)
    requires 0x80 <= cp < 0x800
    ensures (var c := Low8((cp >> 6) | 0xC0);
      0xC2 <= c <= 0xDF && cp == (c as bv32 - 0xC0) * 64 + (cp & 0x3F))
  {
  }

  lemma First3(cp: bv32)
    requires 0x800 <= cp < 0x1_0000
    ensures (var c := Low8((cp >> 12) | 0xE0);
      0xE0 <= c <= 0xEF && cp == (c as bv32 - 0xE0) * 4096 + ((cp >> 6) & 0x3F) * 64 + (cp & 0x3F))
  {
  }

  lemma First4(cp: bv32)
    requires 0x1_0000 <= cp < 0x11_0000
    ensures (var c := Low8((cp >> 18) | 0xF0);
      0xF0 <= c <= 0xF4
      && cp == (c as bv32 - 0xF0) * 262144 + ((cp >> 12) & 0x3F) * 4096 + ((cp >> 6) & 0x3F) * 64 + (cp & 0x3F))
  {
  }

  /** The bytes of a code point: ranges of the bytes, and the sum that gives the code point. */
  lemma EncodedIs(cp: bv32)
    ensures cp < 0x80 ==> Encode(cp) == [cp as bv8]
    ensures 0x80 <= cp < 0x800 ==> IsSum2(cp, Encode(cp))
    ensures 0x800 <= cp < 0x1_0000 ==> IsSum3(cp, Encode(cp))
    ensures 0x1_0000 <= cp < 0x11_0000 ==> IsSum4(cp, Encode(cp))
    ensures cp >= 0x11_0000 ==> Encode(cp) == []
  {
    hide Trail, IsTail, Low8, IsSum2, IsSum3, IsSum4;
    if cp < 0x80 {
      First1(cp);
    } else if cp < 0x800 {
      Sum2(cp, Low8((cp >> 6) | 0xC0), Trail(cp));
    } else if cp < 0x1_0000 {
      Sum3(cp, Low8((cp >> 12) | 0xE0), Trail(cp >> 6), Trail(cp));
    } else if cp < 0x11_0000 {
      Sum4(cp, Low8((cp >> 18) | 0xF0), Trail(cp >> 12), Trail(cp >> 6), Trail(cp));
    }
  }

  predicate IsSum2(cp: bv32, e: seq<bv8>) {
    |e| == 2 && 0xC2 <= e[0] <= 0xDF && IsTail(e[1]) && cp == (e[0] as bv32 - 0xC0) * 64 + (e[1] as bv32 - 0x80)
  }

  predicate IsSum3(cp: bv32, e: seq<bv8>) {
    |e| == 3 && 0xE0 <= e[0] <= 0xEF && IsTail(e[1]) && IsTail(e[2])
    && cp == (e[0] as bv32 - 0xE0) * 4096 + (e[1] as bv32 - 0x80) * 64 + (e[2] as bv32 - 0x80)
  }

  predicate IsSum4(cp: bv32, e: seq<bv8>) {
    |e| == 4 && AddUp(cp, e[0], e[1], e[2], e[3])
  }

  predicate AddUp(cp: bv32, a: bv8, b: bv8, c: bv8, d: bv8) {
    && 0xF0 <= a <= 0xF4 && IsTail(b) && IsTail(c) && IsTail(d)
    && cp == (a as bv32 - 0xF0) * 262144 + (b as bv32 - 0x80) * 4096 + (c as bv32 - 0x80) * 64 + (d as bv32 - 0x80)
  }

  lemma Sum2(cp: bv32, a: bv8, b: bv8)
    requires 0x80 <= cp < 0x800 && a == Low8((cp >> 6) | 0xC0) && b == Trail(cp)
    ensures IsSum2(cp, [a, b])
  {
    hide Low8, Trail, IsTail;
    First2(cp);
    TailOf(cp);
  }

  lemma Sum3(cp: bv32, a: bv8, b: bv8, c: bv8)
    requires 0x800 <= cp < 0x1_0000 && a == Low8((cp >> 12) | 0xE0) && b == Trail(cp >> 6) && c == Trail(cp)
    ensures IsSum3(cp, [a, b, c])
  {
    hide Low8, Trail, IsTail;
    First3(cp);
    TailOf(cp);
    TailOf(cp >> 6);
  }

  lemma Sum4(cp: bv32, a: bv8, b: bv8, c: bv8, d: bv8)
    requires 0x1_0000 <= cp < 0x11_0000 && a == Low8((cp >> 18) | 0xF0)
    requires b == Trail(cp >> 12) && c == Trail(cp >> 6) && d == Trail(cp)
    ensures IsSum4(cp, [a, b, c, d])
  {
    hide Low8, Trail, AddUp;
    Parts4(cp, a, b, c, d);
  }

  lemma Parts4(cp: bv32, a: bv8, b: bv8, c: bv8, d: bv8)
    requires 0x1_0000 <= cp < 0x11_0000 && a == Low8((cp >> 18) | 0xF0)
    requires b == Trail(cp >> 12) && c == Trail(cp >> 6) && d == Trail(cp)
    ensures AddUp(cp, a, b, c, d)
  {
    hide Low8, Trail, IsTail;
    First4(cp);
    TailOf(cp);
    TailOf(cp >> 6);
    TailOf(cp >> 12);
  }

  /** The number of bytes that the first one asks for; 0 for one that begins nothing, as the null character. */
  function Wanted(c: bv8): nat {
    if 1 <= c <= 0x7F then 1 else if 0xC2 <= c <= 0xDF then 2 else if 0xE0 <= c <= 0xEF then 3
    else if 0xF0 <= c <= 0xF4 then 4 else 0
  }

  /** What a decoding step answers, for any bytes: U+FFFD where a byte is out of place or the number is too large. */
  lemma StepIs(t: seq<bv8>, at: nat)
    requires Terminated(t) && at < |t|
    ensures (var c, n, s := t[at], Wanted(t[at]), DecodeStep(t, at);
      if n == 0 then s == Step(0xFFFD, at + 1)
      else if n == 1 then s == Step(c as bv32, at + 1)
      else if !IsTail(t[at + 1]) then s == Step(0xFFFD, at + 1)
      else if n == 2 then s == Step((c as bv32 - 0xC0) * 64 + (t[at + 1] as bv32 - 0x80), at + 2)
      else if !IsTail(t[at + 2]) then s == Step(0xFFFD, at + 2)
      else if n == 3 then
        s == Step((c as bv32 - 0xE0) * 4096 + (t[at + 1] as bv32 - 0x80) * 64 + (t[at + 2] as bv32 - 0x80), at + 3)
      else if !IsTail(t[at + 3]) then s == Step(0xFFFD, at + 3)
      else
        var cp := (c as bv32 - 0xF0) * 262144 + (t[at + 1] as bv32 - 0x80) * 4096 + (t[at + 2] as bv32 - 0x80) * 64
                  + (t[at + 3] as bv32 - 0x80);
        s == if cp > 0x10_FFFF then Step(0xFFFD, at + 1) else Step(cp, at + 4))
  {
  }

  /** The pieces of an accepted text: code points that are no surrogates, and sequences that stop too early. */
  lemma UnitIs(u: seq<bv8>)
    ensures IsUnit(u) <==>
              || (1 < |u| < Wanted(u[0]) && forall k :: 0 < k < |u| ==> IsTail(u[k]))
              || exists cp :: (0 < cp < 0xD800 || 0xE000 <= cp < 0x11_0000) && u == Encode(cp)
  {
    hide Encode;
    if u != [] && |u| > 1 {
      CutIs(u);
    }
    if cp :| (0 < cp < 0xD800 || 0xE000 <= cp < 0x11_0000) && u == Encode(cp) {
      assert IsProper(cp);
    }
    if cp :| IsProper(cp) && u == Encode(cp) {
      assert 0 < cp < 0xD800 || 0xE000 <= cp < 0x11_0000;
    }
  }

  lemma CutIs(u: seq<bv8>)
    requires |u| > 1
    ensures IsCut(u) <==> |u| < Wanted(u[0]) && forall k :: 0 < k < |u| ==> IsTail(u[k])
  {
    forall k | 0 < k < |u| ensures IsContinuation(u[k]) <==> IsTail(u[k]) {
      ContinuationIs(u[k]);
    }
  }

  lemma ContinuationIs(c: bv8)
    ensures IsContinuation(c) <==> IsTail(c)
  {
  }
}
