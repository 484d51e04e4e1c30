/** UTF-8 (RFC 3629) over bytes and code points as bit vectors: what one encoder and one decoding step do. */
module Utf8 {

  const REPLACEMENT: bv32 := 0xFFFD
  const MAX_CODEPOINT: bv32 := 0x10FFFF

  predicate IsContinuation(c: bv8) { c & 0xC0 == 0x80 }

  predicate IsLead(c: bv8) { 0xC2 <= c <= 0xF4 }

  /** `predict_length_of_codepoint_from_lead_byte`; the null byte has length 0. */
  function PredictLength(c: bv8): (n: nat)
    ensures n <= 4
    ensures n > 1 ==> IsLead(c) && !IsContinuation(c)
  {
    if c < 0x80 then (if c != 0 then 1 else 0)
    else if c & 0xE0 == 0xC0 then (if c >= 0xC2 then 2 else 0)
    else if c & 0xF0 == 0xE0 then 3
    else if c & 0xF0 == 0xF0 && c <= 0xF4 then 4
    else 0
  }

  /** `proper_length_of_codepoint`. */
  function ProperLength(cp: bv32): nat {
    if cp <= 0x7F then 1 else if cp <= 0x7FF then 2 else if cp <= 0xFFFF then 3 else 4
  }

  predicate IsSurrogate(cp: bv32) { 0xD800 <= cp <= 0xDFFF }

  predicate IsCodepoint(cp: bv32) { 0 < cp <= MAX_CODEPOINT }

  predicate AreCodepoints(cps: seq<bv32>) { forall k :: 0 <= k < |cps| ==> IsCodepoint(cps[k]) }

  /** A conversion to `char`. */
  function Low8(x: bv32): bv8 { (x & 0xFF) as bv8 }

  /** A continuation byte with the low bits of `cp`. */
  function Trail(cp: bv32): bv8 { Low8((cp & 0x3F) | 0x80) }

  /** The bytes of a code point; nothing for a number that is too large. */
  function Encode(cp: bv32): seq<bv8> {
    if cp < 0x80 then [Low8(cp)]
    else if cp < 0x800 then [Low8((cp >> 6) | 0xC0), Trail(cp)]
    else if cp < 0x10000 then [Low8((cp >> 12) | 0xE0), Trail(cp >> 6), Trail(cp)]
    else if cp < 0x110000 then [Low8((cp >> 18) | 0xF0), Trail(cp >> 12), Trail(cp >> 6), Trail(cp)]
    else []
  }

  /** One continuation byte more. */
  function Push(cp: bv32, c: bv8): bv32 { (cp << 6) | ((c & 0x3F) as bv32) }

  /** Six bits more. */
  function Shift(acc: bv32, x: bv32): bv32 { (acc << 6) | (x & 0x3F) }

  /** The bits of a lead byte that belong to the code point. */
  function LeadBits(c: bv8, n: nat): bv32 {
    if n == 1 then c as bv32
    else if n == 2 then (c & 0x1F) as bv32
    else if n == 3 then (c & 0x0F) as bv32
    else (c & 0x07) as bv32
  }

  /** A text with its null terminator. */
  predicate Terminated(t: seq<bv8>) { t != [] && t[|t| - 1] == 0 }

  /** What one decoding step finds, and where the next one begins. */
  datatype Step = Step(cp: bv32, next: nat)

  /** The continuation bytes of a step: `left` more are wanted at `p`. */
  function Continue(t: seq<bv8>, p: nat, cp: bv32, left: nat): (r: Step)
    requires Terminated(t) && p <= |t| && (left > 0 ==> p < |t|)
    ensures p <= r.next <= p + left && r.next <= |t|
    decreases left
  {
    if left == 0 then Step(cp, p)
    else if !IsContinuation(t[p]) then Step(REPLACEMENT, p)
    else Continue(t, p + 1, Push(cp, t[p]), left - 1)
  }

  /** `get_codepoint_from_utf8`. */
  function DecodeStep(t: seq<bv8>, at: nat): (r: Step)
    requires Terminated(t) && at < |t|
    ensures at < r.next <= |t|
  {
    var n := PredictLength(t[at]);
    if n == 0 then Step(REPLACEMENT, at + 1)
    else
      NullHasNoLength();
      var s := Continue(t, at + 1, LeadBits(t[at], n), n - 1);
      if n == 4 && s.cp > MAX_CODEPOINT then Step(REPLACEMENT, at + 1) else s
  }

  // ----- The bits -----

  lemma PushTrail(acc: bv32, x: bv32)
    ensures IsContinuation(Trail(x)) && Push(acc, Trail(x)) == Shift(acc, x)
    ensures !IsLead(Trail(x)) && Trail(x) >= 0x80
  {
  }

  lemma Lead1(cp: bv32)
    requires 0 < cp < 0x80
    ensures PredictLength(Low8(cp)) == 1 && Low8(cp) as bv32 == cp && Low8(cp) < 0x80 && !IsContinuation(Low8(cp))
  {
  }

  lemma Lead2(cp: bv32)
    requires 0x80 <= cp < 0x800
    ensures (var c := Low8((cp >> 6) | 0xC0); PredictLength(c) == 2 && LeadBits(c, 2) == cp >> 6)
    ensures Shift(cp >> 6, cp) == cp
  {
  }

  lemma Lead3(cp: bv32)
    requires 0x800 <= cp < 0x10000
    ensures (var c := Low8((cp >> 12) | 0xE0); PredictLength(c) == 3 && LeadBits(c, 3) == cp >> 12)
    ensures Shift(Shift(cp >> 12, cp >> 6), cp) == cp
  {
  }

  lemma Lead4(cp: bv32)
    requires 0x10000 <= cp < 0x110000
    ensures (var c := Low8((cp >> 18) | 0xF0); PredictLength(c) == 4 && LeadBits(c, 4) == cp >> 18)
    ensures Shift(Shift(Shift(cp >> 18, cp >> 12), cp >> 6), cp) == cp
  {
  }

  /** The bytes of one code point, as the decoder sees them. */
  lemma EncodedBytes(cp: bv32)
    requires IsCodepoint(cp)
    ensures (var e := Encode(cp);
      && |e| == ProperLength(cp) == PredictLength(e[0]) && (e[0] < 0x80 || IsLead(e[0])) && e[0] != 0
      && (forall k :: 0 < k < |e| ==> IsContinuation(e[k]) && e[k] >= 0x80 && !IsLead(e[k])))
  {
    hide LeadBits, Push, Low8, Trail, PredictLength;
    PushTrail(0, cp);
    PushTrail(0, cp >> 6);
    PushTrail(0, cp >> 12);
    if cp < 0x80 {
      Lead1(cp);
    } else if cp < 0x800 {
      Lead2(cp);
    } else if cp < 0x10000 {
      Lead3(cp);
    } else {
      Lead4(cp);
    }
    NullHasNoLength();
  }

  lemma NullHasNoLength()
    ensures PredictLength(0) == 0
  {
  }

  // ----- Back from the bytes -----

  lemma Back1(c: bv8)
    requires PredictLength(c) == 1
    ensures IsCodepoint(LeadBits(c, 1)) && Encode(LeadBits(c, 1)) == [c]
  {
  }

  lemma BackBits2(c: bv8, c1: bv8)
    requires PredictLength(c) == 2 && IsContinuation(c1)
    ensures (var cp := Push(LeadBits(c, 2), c1); 0x80 <= cp < 0x800 && Low8((cp >> 6) | 0xC0) == c && Trail(cp) == c1)
  {
  }

  lemma BackBits3(c: bv8, c1: bv8, c2: bv8)
    requires PredictLength(c) == 3 && IsContinuation(c1) && IsContinuation(c2)
    ensures (var cp := Push(Push(LeadBits(c, 3), c1), c2);
      cp < 0x10000 && Low8((cp >> 12) | 0xE0) == c && Trail(cp >> 6) == c1 && Trail(cp) == c2)
  {
  }

  lemma BackBits4(c: bv8, c1: bv8, c2: bv8, c3: bv8)
    requires PredictLength(c) == 4 && IsContinuation(c1) && IsContinuation(c2) && IsContinuation(c3)
    ensures (var cp := Push(Push(Push(LeadBits(c, 4), c1), c2), c3);
      Low8((cp >> 18) | 0xF0) == c && Trail(cp >> 12) == c1 && Trail(cp >> 6) == c2 && Trail(cp) == c3)
  {
  }

  lemma Back2(c: bv8, c1: bv8)
    requires PredictLength(c) == 2 && IsContinuation(c1)
    ensures (var cp := Push(LeadBits(c, 2), c1); IsCodepoint(cp) && Encode(cp) == [c, c1])
  {
    hide Low8, Trail, Push, LeadBits, PredictLength, IsContinuation;
    BackBits2(c, c1);
  }

  lemma Back3(c: bv8, c1: bv8, c2: bv8)
    requires PredictLength(c) == 3 && IsContinuation(c1) && IsContinuation(c2)
    requires ProperLength(Push(Push(LeadBits(c, 3), c1), c2)) >= 3
    ensures (var cp := Push(Push(LeadBits(c, 3), c1), c2); IsCodepoint(cp) && Encode(cp) == [c, c1, c2])
  {
    hide Low8, Trail, Push, LeadBits, PredictLength, IsContinuation;
    BackBits3(c, c1, c2);
  }

  lemma Back4(c: bv8, c1: bv8, c2: bv8, c3: bv8)
    requires PredictLength(c) == 4 && IsContinuation(c1) && IsContinuation(c2) && IsContinuation(c3)
    requires (var cp := Push(Push(Push(LeadBits(c, 4), c1), c2), c3); ProperLength(cp) >= 4 && cp <= MAX_CODEPOINT)
    ensures (var cp := Push(Push(Push(LeadBits(c, 4), c1), c2), c3); IsCodepoint(cp) && Encode(cp) == [c, c1, c2, c3])
  {
    hide Low8, Trail, Push, LeadBits, PredictLength, IsContinuation;
    BackBits4(c, c1, c2, c3);
  }

  // ----- One step -----

  predicate StartsWith(t: seq<bv8>, at: nat, e: seq<bv8>) { at + |e| <= |t| && t[at..at + |e|] == e }

  lemma ContinueOn(t: seq<bv8>, p: nat, acc: bv32, x: bv32, left: nat)
    requires Terminated(t) && p < |t| && left > 0 && t[p] == Trail(x)
    ensures p + 1 < |t| && Continue(t, p, acc, left) == Continue(t, p + 1, Shift(acc, x), left - 1)
  {
    hide Push, Trail, IsContinuation, Shift;
    PushTrail(acc, x);
    NullIsNoTrail();
  }

  lemma NullIsNoTrail()
    ensures !IsContinuation(0)
  {
  }

  lemma Continue1(t: seq<bv8>, p: nat, acc: bv32, x: bv32)
    requires Terminated(t) && p < |t| && t[p] == Trail(x)
    ensures Continue(t, p, acc, 1) == Step(Shift(acc, x), p + 1)
  {
    hide Continue, Trail, Shift;
    ContinueOn(t, p, acc, x, 1);
    ContinueEnd(t, p + 1, Shift(acc, x));
  }

  lemma Continue2(t: seq<bv8>, p: nat, acc: bv32, x: bv32, y: bv32)
    requires Terminated(t) && p + 1 < |t| && t[p] == Trail(x) && t[p + 1] == Trail(y)
    ensures Continue(t, p, acc, 2) == Step(Shift(Shift(acc, x), y), p + 2)
  {
    hide Continue, Trail, Shift;
    ContinueOn(t, p, acc, x, 2);
    Continue1(t, p + 1, Shift(acc, x), y);
  }

  lemma Continue3(t: seq<bv8>, p: nat, acc: bv32, x: bv32, y: bv32, z: bv32)
    requires Terminated(t) && p + 2 < |t| && t[p] == Trail(x) && t[p + 1] == Trail(y) && t[p + 2] == Trail(z)
    ensures Continue(t, p, acc, 3) == Step(Shift(Shift(Shift(acc, x), y), z), p + 3)
  {
    hide Continue, Trail, Shift;
    ContinueOn(t, p, acc, x, 3);
    Continue2(t, p + 1, Shift(acc, x), y, z);
  }

  lemma StartsAt(t: seq<bv8>, at: nat, e: seq<bv8>)
    requires StartsWith(t, at, e)
    ensures |t| >= at + |e|
    ensures |e| > 0 ==> t[at] == e[0]
    ensures |e| > 1 ==> t[at + 1] == e[1]
    ensures |e| > 2 ==> t[at + 2] == e[2]
    ensures |e| > 3 ==> t[at + 3] == e[3]
  {
  }

  /** A step over an encoded code point finds it, and goes behind it. */
  lemma DecodeEncoded(t: seq<bv8>, at: nat, cp: bv32)
    requires Terminated(t) && IsCodepoint(cp) && StartsWith(t, at, Encode(cp))
    ensures at < |t| && DecodeStep(t, at) == Step(cp, at + |Encode(cp)|)
  {
    hide LeadBits, Push, Shift, Low8, Trail, PredictLength, IsContinuation, Continue, StartsWith;
    StartsAt(t, at, Encode(cp));
    if cp < 0x80 {
      Lead1(cp);
      LeadBitsOne(Low8(cp));
      ContinueEnd(t, at + 1, cp);
    } else if cp < 0x800 {
      Lead2(cp);
      Continue1(t, at + 1, cp >> 6, cp);
    } else if cp < 0x10000 {
      Lead3(cp);
      Continue2(t, at + 1, cp >> 12, cp >> 6, cp);
    } else {
      Lead4(cp);
      Continue3(t, at + 1, cp >> 18, cp >> 12, cp >> 6, cp);
    }
  }

  lemma ContinueEnd(t: seq<bv8>, p: nat, cp: bv32)
    requires Terminated(t) && p <= |t|
    ensures Continue(t, p, cp, 0) == Step(cp, p)
  {
  }

  lemma LeadBitsOne(c: bv8)
    ensures LeadBits(c, 1) == c as bv32
  {
  }

  // ----- What passes the check of well-formedness -----

  /** A lead byte with some of its continuation bytes, but not all. */
  predicate IsCut(u: seq<bv8>) {
    |u| > 1 && |u| < PredictLength(u[0]) && forall k :: 0 < k < |u| ==> IsContinuation(u[k])
  }

  predicate IsProper(cp: bv32) { IsCodepoint(cp) && !IsSurrogate(cp) }

  /** The bytes of a code point that is no surrogate, or a cut sequence. */
  ghost predicate IsUnit(u: seq<bv8>) {
    IsCut(u) || exists cp :: IsProper(cp) && u == Encode(cp)
  }

  /** The tests of `is_well_formed_utf8` on one step. */
  predicate Passes(at: nat, s: Step)
    requires at <= s.next
  {
    && !(s.cp == REPLACEMENT && s.next == at + 1)
    && !(s.next - at > 1 && ProperLength(s.cp) < s.next - at)
    && !IsSurrogate(s.cp)
  }

  /** How far the continuation bytes go. */
  lemma {:induction false} ContinueFar(t: seq<bv8>, p: nat, cp: bv32, left: nat)
    requires Terminated(t) && p <= |t| && (left > 0 ==> p < |t|)
    ensures (var r := Continue(t, p, cp, left);
      && (forall k :: p <= k < r.next ==> IsContinuation(t[k]))
      && (r.next < p + left ==> r.cp == REPLACEMENT && r.next < |t| && !IsContinuation(t[r.next])))
    decreases left
  {
    hide IsContinuation, Push;
    NullIsNoTrail();
    if left > 0 && IsContinuation(t[p]) {
      ContinueFar(t, p + 1, Push(cp, t[p]), left - 1);
    }
  }

  lemma {:induction false} ContinueStops(t: seq<bv8>, p: nat, cp: bv32, left: nat, stop: nat)
    requires Terminated(t) && p <= stop < |t| && stop < p + left
    requires (forall k :: p <= k < stop ==> IsContinuation(t[k])) && !IsContinuation(t[stop])
    ensures Continue(t, p, cp, left) == Step(REPLACEMENT, stop)
    decreases left
  {
    hide IsContinuation, Push;
    if p < stop {
      ContinueStops(t, p + 1, Push(cp, t[p]), left - 1, stop);
    }
  }

  lemma CutSteps(t: seq<bv8>, at: nat, u: seq<bv8>)
    requires Terminated(t) && StartsWith(t, at, u) && at + |u| < |t| && IsCut(u) && !IsContinuation(t[at + |u|])
    ensures DecodeStep(t, at) == Step(REPLACEMENT, at + |u|) && Passes(at, DecodeStep(t, at))
  {
    hide IsContinuation, Push, PredictLength, LeadBits, Continue;
    forall k | 0 <= k < |u| ensures t[at + k] == u[k] {
      assert t[at..at + |u|][k] == u[k];
    }
    assert t[at] == u[0];
    forall k | at + 1 <= k < at + |u| ensures IsContinuation(t[k]) {
      assert t[at + (k - at)] == u[k - at];
    }
    ContinueStops(t, at + 1, LeadBits(t[at], PredictLength(t[at])), PredictLength(t[at]) - 1, at + |u|);
  }

  lemma ProperSteps(t: seq<bv8>, at: nat, cp: bv32)
    requires Terminated(t) && IsProper(cp) && StartsWith(t, at, Encode(cp))
    ensures at < |t| && DecodeStep(t, at) == Step(cp, at + |Encode(cp)|) && Passes(at, DecodeStep(t, at))
  {
    hide DecodeStep, Low8, Trail;
    DecodeEncoded(t, at, cp);
  }

  /** The bytes of a complete sequence that is not too short for its code point are those of the code point. */
  lemma CompleteIsEncoded(t: seq<bv8>, at: nat)
    requires Terminated(t) && at < |t| && PredictLength(t[at]) > 0
    requires DecodeStep(t, at).next == at + PredictLength(t[at])
    requires ProperLength(DecodeStep(t, at).cp) >= PredictLength(t[at])
    requires forall k :: at < k < at + PredictLength(t[at]) ==> IsContinuation(t[k])
    requires !(PredictLength(t[at]) == 1 && DecodeStep(t, at).cp == REPLACEMENT)
    ensures (var s := DecodeStep(t, at); IsCodepoint(s.cp) && t[at..s.next] == Encode(s.cp))
  {
    hide Push, PredictLength, LeadBits, IsContinuation, Continue, Encode, ProperLength, IsCodepoint;
    var n, c := PredictLength(t[at]), t[at];
    LengthAtMost4(c);
    var s := DecodeStep(t, at);
    ContinueOnce(t, at, c, n);
    if n == 1 {
      Back1(c);
      assert t[at..s.next] == [c];
    } else if n == 2 {
      Back2(c, t[at + 1]);
      assert t[at..s.next] == [c, t[at + 1]];
    } else if n == 3 {
      Back3(c, t[at + 1], t[at + 2]);
      assert t[at..s.next] == [c, t[at + 1], t[at + 2]];
    } else {
      Back4(c, t[at + 1], t[at + 2], t[at + 3]);
      assert t[at..s.next] == [c, t[at + 1], t[at + 2], t[at + 3]];
    }
  }

  /** All continuation bytes of a sequence are there. */
  lemma ContinueOnce(t: seq<bv8>, at: nat, c: bv8, n: nat)
    requires Terminated(t) && at < |t| && t[at] == c && n == PredictLength(c) > 0 && at + n <= |t|
    requires forall k :: at < k < at + n ==> IsContinuation(t[k])
    ensures n == 1 ==> Continue(t, at + 1, LeadBits(c, 1), 0) == Step(LeadBits(c, 1), at + 1)
    ensures n == 2 ==> Continue(t, at + 1, LeadBits(c, 2), 1) == Step(Push(LeadBits(c, 2), t[at + 1]), at + 2)
    ensures n == 3 ==>
              Continue(t, at + 1, LeadBits(c, 3), 2) == Step(Push(Push(LeadBits(c, 3), t[at + 1]), t[at + 2]), at + 3)
    ensures n == 4 ==> Continue(t, at + 1, LeadBits(c, 4), 3)
                       == Step(Push(Push(Push(LeadBits(c, 4), t[at + 1]), t[at + 2]), t[at + 3]), at + 4)
  {
    hide Push, LeadBits, IsContinuation;
    LengthAtMost4(c);
    if n == 3 {
      assert Continue(t, at + 2, Push(LeadBits(c, 3), t[at + 1]), 1)
          == Step(Push(Push(LeadBits(c, 3), t[at + 1]), t[at + 2]), at + 3);
    }
    if n == 4 {
      var x := Push(LeadBits(c, 4), t[at + 1]);
      assert Continue(t, at + 3, Push(x, t[at + 2]), 1) == Step(Push(Push(x, t[at + 2]), t[at + 3]), at + 4);
      assert Continue(t, at + 2, x, 2) == Continue(t, at + 3, Push(x, t[at + 2]), 1);
    }
  }

  lemma LengthAtMost4(c: bv8)
    ensures PredictLength(c) <= 4
  {
  }

  /** What passes the check is a unit. */
  lemma PassedIsUnit(t: seq<bv8>, at: nat)
    requires Terminated(t) && at < |t| && Passes(at, DecodeStep(t, at))
    ensures IsUnit(t[at..DecodeStep(t, at).next])
    ensures IsCut(t[at..DecodeStep(t, at).next]) ==>
              DecodeStep(t, at).next < |t| && !IsContinuation(t[DecodeStep(t, at).next])
  {
    hide Low8, Trail, Push, PredictLength, LeadBits, IsContinuation, Continue, Encode, ProperLength;
    var n, s := PredictLength(t[at]), DecodeStep(t, at);
    var u := t[at..s.next];
    if n > 0 {
      ContinueFar(t, at + 1, LeadBits(t[at], n), n - 1);
      if s.next == at + n {
        ProperIsPositive(s.cp);
        CompleteIsEncoded(t, at);
      } else {
        assert forall k :: 0 < k < |u| ==> IsContinuation(u[k]);
      }
    }
  }

  lemma ProperIsPositive(cp: bv32)
    ensures 1 <= ProperLength(cp) <= 4
  {
  }
}
