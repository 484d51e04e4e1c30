/** UTF-8 texts: encoding into a buffer, decoding, counting, stepping, finding and checking. */
module Utf8Text {
  import opened Wrappers
  import opened Utf8

  // ----- Encoding -----

  /** `add_codepoint_to_utf8`: `at` is `buf`, and there are `length` bytes from there on; `None` is a null buffer. */
  method AddCodepoint(buf: Option<array<bv8>>, at: nat, length: nat, cp: bv32) returns (ok: bool, next: nat)
    requires buf.Some? ==> at + length <= buf.value.Length
    modifies if buf.Some? then {buf.value} else {}
    ensures ok <==> buf.Some? && length >= 1 && length >= |Encode(cp)|
    ensures next == if ok then at + |Encode(cp)| else at
    ensures buf.Some? && ok ==> buf.value[..] == old(buf.value[..at]) + Encode(cp) + old(buf.value[next..])
    ensures buf.Some? && !ok ==> buf.value[..] == old(buf.value[..])
  {
    hide Low8, Trail, Encode;
    EncodeIs(cp);
    next := at;
    if buf.None? || length < 1 { return false, next; }
    var b := buf.value;
    ghost var before := b[..];
    if cp < 0x80 {
      b[next] := Low8(cp);
      next := next + 1;
      Written(before, b[..], at, [Low8(cp)]);
    } else if cp < 0x800 {
      if length < 2 { return false, next; }
      b[next], b[next + 1] := Low8((cp >> 6) | 0xC0), Trail(cp);
      next := next + 2;
      Written(before, b[..], at, [Low8((cp >> 6) | 0xC0), Trail(cp)]);
    } else if cp < 0x10000 {
      if length < 3 { return false, next; }
      b[next], b[next + 1], b[next + 2] := Low8((cp >> 12) | 0xE0), Trail(cp >> 6), Trail(cp);
      next := next + 3;
      Written(before, b[..], at, [Low8((cp >> 12) | 0xE0), Trail(cp >> 6), Trail(cp)]);
    } else if cp < 0x110000 {
      if length < 4 { return false, next; }
      b[next], b[next + 1] := Low8((cp >> 18) | 0xF0), Trail(cp >> 12);
      b[next + 2], b[next + 3] := Trail(cp >> 6), Trail(cp);
      next := next + 4;
      Written(before, b[..], at, [Low8((cp >> 18) | 0xF0), Trail(cp >> 12), Trail(cp >> 6), Trail(cp)]);
    } else {
      Written(before, b[..], at, []);
    }
    ok := true;
    assert before[..at] == old(buf.value[..at]) && before[next..] == old(buf.value[next..]);
  }

  lemma EncodeIs(cp: bv32)
    ensures cp < 0x80 ==> Encode(cp) == [Low8(cp)]
    ensures 0x80 <= cp < 0x800 ==> Encode(cp) == [Low8((cp >> 6) | 0xC0), Trail(cp)]
    ensures 0x800 <= cp < 0x10000 ==> Encode(cp) == [Low8((cp >> 12) | 0xE0), Trail(cp >> 6), Trail(cp)]
    ensures 0x10000 <= cp < 0x110000 ==>
              Encode(cp) == [Low8((cp >> 18) | 0xF0), Trail(cp >> 12), Trail(cp >> 6), Trail(cp)]
    ensures cp >= 0x110000 ==> Encode(cp) == []
  {
  }

  lemma Written(before: seq<bv8>, after: seq<bv8>, at: nat, e: seq<bv8>)
    requires at + |e| <= |before| == |after|
    requires forall k :: 0 <= k < |after| ==> after[k] == if at <= k < at + |e| then e[k - at] else before[k]
    ensures after == before[..at] + e + before[at + |e|..]
  {
  }

  /** `codepoint_to_utf8` of the JSON library: the same bytes, from masks and shifts in another order. */
  method CodepointToUtf8(cp: bv32) returns (result: seq<bv8>)
    ensures result == Encode(cp)
  {
    result := [];
    if cp <= 0x7F {
      result := [Low8(cp)];
    } else if cp <= 0x7FF {
      result := [0, 0];
      result := result[1 := Low8(0x80 | (0x3F & cp))];
      result := result[0 := Low8(0xC0 | (0x1F & (cp >> 6)))];
      SameBytes(cp);
    } else if cp <= 0xFFFF {
      result := [0, 0, 0];
      result := result[2 := Low8(0x80 | (0x3F & cp))];
      result := result[1 := 0x80 | Low8(0x3F & (cp >> 6))];
      result := result[0 := 0xE0 | Low8(0xF & (cp >> 12))];
      SameBytes(cp);
    } else if cp <= 0x10FFFF {
      result := [0, 0, 0, 0];
      result := result[3 := Low8(0x80 | (0x3F & cp))];
      result := result[2 := Low8(0x80 | (0x3F & (cp >> 6)))];
      result := result[1 := Low8(0x80 | (0x3F & (cp >> 12)))];
      result := result[0 := Low8(0xF0 | (0x7 & (cp >> 18)))];
      SameBytes(cp);
    }
  }

  lemma SameBytes(cp: bv32)
    ensures Low8(0x80 | (0x3F & cp)) == Trail(cp)
    ensures Low8(0x80 | (0x3F & (cp >> 6))) == Trail(cp >> 6) == 0x80 | Low8(0x3F & (cp >> 6))
    ensures Low8(0x80 | (0x3F & (cp >> 12))) == Trail(cp >> 12)
    ensures cp < 0x800 ==> Low8(0xC0 | (0x1F & (cp >> 6))) == Low8((cp >> 6) | 0xC0)
    ensures cp < 0x10000 ==> 0xE0 | Low8(0xF & (cp >> 12)) == Low8((cp >> 12) | 0xE0)
    ensures cp < 0x110000 ==> Low8(0xF0 | (0x7 & (cp >> 18))) == Low8((cp >> 18) | 0xF0)
  {
  }

  /** The text of a list of code points. */
  function EncodeAll(cps: seq<bv32>): seq<bv8> {
    if cps == [] then [] else EncodeAll(cps[..|cps| - 1]) + Encode(cps[|cps| - 1])
  }

  /** Where code point `k` begins. */
  function Offset(cps: seq<bv32>, k: nat): nat
    requires k <= |cps|
  {
    |EncodeAll(cps[..k])|
  }

  /** `t` begins with the text of `cps`, and goes on. */
  ghost predicate HasText(t: seq<bv8>, end: nat, cps: seq<bv32>) {
    Terminated(t) && AreCodepoints(cps) && end < |t| && t[..end] == EncodeAll(cps)
  }

  lemma {:induction false} PrefixOffset(cps: seq<bv32>, k: nat)
    requires k <= |cps|
    ensures EncodeAll(cps[..k]) <= EncodeAll(cps)
    decreases |cps|
  {
    if k < |cps| {
      var front := cps[..|cps| - 1];
      assert front[..k] == cps[..k];
      PrefixOffset(front, k);
    } else {
      assert cps[..k] == cps;
    }
  }

  /** Code point `k` is there in the text, and the next one begins behind it. */
  lemma AtOffset(t: seq<bv8>, end: nat, cps: seq<bv32>, k: nat)
    requires HasText(t, end, cps) && k < |cps|
    ensures Offset(cps, k + 1) == Offset(cps, k) + |Encode(cps[k])| <= end
    ensures StartsWith(t, Offset(cps, k), Encode(cps[k])) && |Encode(cps[k])| > 0
    ensures Offset(cps, k) < |t| && DecodeStep(t, Offset(cps, k)) == Step(cps[k], Offset(cps, k + 1))
  {
    hide Encode, DecodeStep;
    assert cps[..k + 1][..k] == cps[..k] && cps[..k + 1][k] == cps[k];
    PrefixOffset(cps, k + 1);
    var e, at := Encode(cps[k]), Offset(cps, k);
    assert EncodeAll(cps[..k + 1]) == EncodeAll(cps[..k]) + e;
    assert t[..end][at..at + |e|] == EncodeAll(cps[..k + 1])[at..at + |e|] == e;
    assert t[at..at + |e|] == e;
    EncodedBytes(cps[k]);
    DecodeEncoded(t, at, cps[k]);
  }

  lemma OffsetEnds(cps: seq<bv32>)
    ensures Offset(cps, 0) == 0 && Offset(cps, |cps|) == |EncodeAll(cps)|
  {
    assert cps[..|cps|] == cps;
  }

  // ----- Decoding -----

  /** `get_codepoint_from_utf8` at a position of a text, or without a text. */
  method GetCodepoint(text: Option<seq<bv8>>, at: nat) returns (cp: bv32, to: Option<nat>)
    requires text.Some? ==> Terminated(text.value) && at < |text.value|
    ensures text.None? ==> cp == REPLACEMENT && to == None
    ensures text.Some? ==> to.Some? && Step(cp, to.value) == DecodeStep(text.value, at)
  {
    hide IsContinuation, Push, PredictLength, LeadBits;
    if text == None { return REPLACEMENT, None; }
    NullHasNoLength();
    NullIsNoTrail();
    var t := text.value;
    var n, next := PredictLength(t[at]), at + 1;
    if n == 0 { return REPLACEMENT, Some(next); }
    cp := LeadBits(t[at], n);
    var left := n - 1;
    while left > 0
      invariant next <= |t| && (left > 0 ==> next < |t|)
      invariant Continue(t, next, cp, left) == Continue(t, at + 1, LeadBits(t[at], n), n - 1)
    {
      if !IsContinuation(t[next]) {
        ReplacementIsSmall();
        return REPLACEMENT, Some(next);
      }
      cp, next, left := Push(cp, t[next]), next + 1, left - 1;
    }
    if n == 4 && cp > MAX_CODEPOINT { cp, next := REPLACEMENT, at + 1; }
    to := Some(next);
  }

  lemma ReplacementIsSmall()
    ensures REPLACEMENT <= MAX_CODEPOINT
  {
  }

  /** What repeated decoding finds in any text, well-formed or not. */
  function Steps(t: seq<bv8>, at: nat, end: nat): seq<bv32>
    requires Terminated(t) && at <= |t| && end < |t|
    decreases |t| - at
  {
    if at >= end then [] else [DecodeStep(t, at).cp] + Steps(t, DecodeStep(t, at).next, end)
  }

  /** The first step that finds the code point. */
  function FirstStep(t: seq<bv8>, at: nat, end: nat, cp: bv32): Option<nat>
    requires Terminated(t) && at <= |t| && end < |t|
    decreases |t| - at
  {
    if at >= end then None
    else if DecodeStep(t, at).cp == cp then Some(at) else FirstStep(t, DecodeStep(t, at).next, end, cp)
  }

  /** Finding agrees with decoding on any text. */
  lemma {:induction false} FindingAgrees(t: seq<bv8>, at: nat, end: nat, cp: bv32)
    requires Terminated(t) && at <= |t| && end < |t|
    ensures FirstStep(t, at, end, cp).Some? <==> cp in Steps(t, at, end)
    decreases |t| - at
  {
    hide DecodeStep;
    if at < end {
      FindingAgrees(t, DecodeStep(t, at).next, end, cp);
    }
  }

  /** Repeated decoding: of an encoded text, it gives the code points back. */
  method DecodeAll(t: seq<bv8>, end: nat) returns (cps: seq<bv32>)
    requires Terminated(t) && end < |t|
    ensures cps == Steps(t, 0, end)
    ensures forall text :: HasText(t, end, text) ==> cps == text
  {
    hide HasText, DecodeStep, EncodeAll, Offset, AreCodepoints;
    cps := [];
    var at := 0;
    Beginning(t, end);
    while at < end
      invariant at <= |t| && cps + Steps(t, at, end) == Steps(t, 0, end)
      invariant forall text :: HasText(t, end, text) ==>
                  |cps| <= |text| && cps == text[..|cps|] && at == Offset(text, |cps|)
      decreases end - at
    {
      var cp, to := GetCodepoint(Some(t), at);
      var next := to.value;
      forall text | HasText(t, end, text)
        ensures |cps| < |text| && cp == text[|cps|] && next == Offset(text, |cps| + 1)
      {
        Within(t, end, text, |cps|);
        AtOffset(t, end, text, |cps|);
      }
      StepForward(t, at);
      assert cps + Steps(t, at, end) == cps + [cp] + Steps(t, next, end);
      cps, at := cps + [cp], next;
    }
    forall text | HasText(t, end, text) ensures cps == text {
      AllDone(t, end, text, |cps|);
    }
  }

  lemma Beginning(t: seq<bv8>, end: nat)
    ensures forall text :: HasText(t, end, text) ==> Offset(text, 0) == 0 && text[..0] == []
  {
    forall text | HasText(t, end, text) ensures Offset(text, 0) == 0 { OffsetEnds(text); }
  }

  lemma StepForward(t: seq<bv8>, at: nat)
    requires Terminated(t) && at < |t|
    ensures at < DecodeStep(t, at).next <= |t|
  {
  }

  /** Before the end of the text there is another code point. */
  lemma Within(t: seq<bv8>, end: nat, text: seq<bv32>, k: nat)
    requires HasText(t, end, text) && k <= |text| && Offset(text, k) < end
    ensures k < |text|
  {
    OffsetEnds(text);
  }

  lemma AllDone(t: seq<bv8>, end: nat, text: seq<bv32>, k: nat)
    requires HasText(t, end, text) && k <= |text| && Offset(text, k) >= end
    ensures k == |text| && text[..k] == text
  {
    if k < |text| {
      AtOffset(t, end, text, k);
    }
  }

  /** `count_codepoints_in_utf8`: the number of steps of any text, and of code points of an encoded one. */
  method CountCodepoints(t: seq<bv8>, end: nat) returns (count: nat)
    requires Terminated(t) && end < |t|
    ensures count == |Steps(t, 0, end)|
    ensures forall text :: HasText(t, end, text) ==> count == |text|
  {
    hide HasText, DecodeStep, EncodeAll, Offset, AreCodepoints;
    count := 0;
    var at := 0;
    Beginning(t, end);
    while at < end
      invariant at <= |t| && count + |Steps(t, at, end)| == |Steps(t, 0, end)|
      invariant forall text :: HasText(t, end, text) ==> count <= |text| && at == Offset(text, count)
      decreases end - at
    {
      var cp, to := GetCodepoint(Some(t), at);
      var next := to.value;
      forall text | HasText(t, end, text) ensures count < |text| && next == Offset(text, count + 1) {
        Within(t, end, text, count);
        AtOffset(t, end, text, count);
      }
      StepForward(t, at);
      at, count := next, count + 1;
    }
    forall text | HasText(t, end, text) ensures count == |text| {
      AllDone(t, end, text, count);
    }
  }

  /** `next_utf8_char`: from the beginning of a code point to that of the next one, or to the terminator. */
  method NextChar(t: seq<bv8>, at: nat) returns (next: nat)
    requires Terminated(t) && at < |t| - 1
    ensures at < next < |t| && (t[next] < 0x80 || 0xC2 <= t[next] <= 0xF4)
    ensures forall j :: at < j < next ==> 0x80 <= t[j] && !(0xC2 <= t[j] <= 0xF4)
    ensures forall text, k :: HasText(t, |t| - 1, text) && 0 <= k < |text| && at == Offset(text, k) ==>
              next == Offset(text, k + 1) == DecodeStep(t, at).next
  {
    next := at + 1;
    while t[next] >= 0x80 && !IsLead(t[next])
      invariant at < next < |t|
      invariant forall k :: at < k < next ==> t[k] >= 0x80 && !IsLead(t[k])
      decreases |t| - next
    {
      next := next + 1;
    }
    forall text, k | HasText(t, |t| - 1, text) && 0 <= k < |text| && at == Offset(text, k)
      ensures next == Offset(text, k + 1) == DecodeStep(t, at).next
    {
      StepsAgree(t, text, k, next);
    }
  }

  lemma StepsAgree(t: seq<bv8>, text: seq<bv32>, k: nat, next: nat)
    requires t != [] && HasText(t, |t| - 1, text) && k < |text| && Offset(text, k) < next < |t|
    requires forall j :: Offset(text, k) < j < next ==> t[j] >= 0x80 && !IsLead(t[j])
    requires t[next] < 0x80 || IsLead(t[next])
    ensures next == Offset(text, k + 1) == DecodeStep(t, Offset(text, k)).next
  {
    hide Encode, DecodeStep, IsLead, IsContinuation;
    var at := Offset(text, k);
    AtOffset(t, |t| - 1, text, k);
    EncodedBytes(text[k]);
    forall j | at < j < Offset(text, k + 1) ensures t[j] >= 0x80 && !IsLead(t[j]) {
      assert t[at..at + |Encode(text[k])|][j - at] == Encode(text[k])[j - at];
    }
    OffsetEnds(text);
    if k + 1 < |text| {
      AtOffset(t, |t| - 1, text, k + 1);
      EncodedBytes(text[k + 1]);
      StartsAt(t, Offset(text, k + 1), Encode(text[k + 1]));
    }
  }

  /** `find_codepoint_in_utf8` up to an end: where the first step, or occurrence, of the code point begins. */
  method FindCodepoint(t: Option<seq<bv8>>, end: nat, cp: bv32) returns (r: Option<nat>)
    requires t.Some? ==> Terminated(t.value) && end < |t.value|
    ensures r == if t.None? then None else FirstStep(t.value, 0, end, cp)
    ensures t.Some? ==> forall text :: HasText(t.value, end, text) ==> FoundFirst(text, cp, r)
  {
    hide HasText, DecodeStep, EncodeAll, Offset, AreCodepoints;
    if t.None? { return None; }
    var at := 0;
    ghost var count: nat := 0;
    Beginning(t.value, end);
    while at < end
      invariant at <= |t.value| && FirstStep(t.value, at, end, cp) == FirstStep(t.value, 0, end, cp)
      invariant forall text :: HasText(t.value, end, text) ==>
                  count <= |text| && at == Offset(text, count) && cp !in text[..count]
      decreases end - at
    {
      var found, to := GetCodepoint(t, at);
      var next := to.value;
      forall text | HasText(t.value, end, text)
        ensures count < |text| && found == text[count] && next == Offset(text, count + 1)
      {
        Within(t.value, end, text, count);
        AtOffset(t.value, end, text, count);
      }
      if cp == found { return Some(at); }
      assert forall text :: HasText(t.value, end, text) ==> text[..count + 1] == text[..count] + [text[count]];
      StepForward(t.value, at);
      at, count := next, count + 1;
    }
    forall text | HasText(t.value, end, text) ensures cp !in text {
      AllDone(t.value, end, text, count);
    }
    r := None;
  }

  ghost predicate FoundFirst(text: seq<bv32>, cp: bv32, r: Option<nat>) {
    if cp in text then exists k :: 0 <= k < |text| && text[k] == cp && cp !in text[..k] && r == Some(Offset(text, k))
    else r == None
  }

  /** The first null byte from `at` on. */
  function FirstNull(t: seq<bv8>, at: nat): (r: nat)
    requires Terminated(t) && at < |t|
    ensures at <= r < |t| && t[r] == 0 && forall k :: at <= k < r ==> t[k] != 0
    decreases |t| - at
  {
    if t[at] == 0 then at else FirstNull(t, at + 1)
  }

  lemma {:induction false} ContinueStops(t: seq<bv8>, p: nat, cp: bv32, left: nat, e: nat)
    requires Terminated(t) && p <= e < |t| && t[e] == 0
    ensures Continue(t, p, cp, left).next <= e
    decreases left
  {
    hide Push;
    NullIsNoTrail();
    if left > 0 && IsContinuation(t[p]) {
      ContinueStops(t, p + 1, Push(cp, t[p]), left - 1, e);
    }
  }

  /** A step does not go beyond a null byte. */
  lemma StepStops(t: seq<bv8>, at: nat, e: nat)
    requires Terminated(t) && at < e < |t| && t[e] == 0
    ensures DecodeStep(t, at).next <= e
  {
    hide Continue, PredictLength, LeadBits;
    var n := PredictLength(t[at]);
    if n > 0 {
      ContinueStops(t, at + 1, LeadBits(t[at], n), n - 1, e);
    }
  }

  /** `find_codepoint_in_utf8` up to the terminator, which is the first null byte. */
  method FindInTerminated(t: Option<seq<bv8>>, cp: bv32) returns (r: Option<nat>)
    requires t.Some? ==> Terminated(t.value)
    ensures r == if t.None? then None else FirstStep(t.value, 0, FirstNull(t.value, 0), cp)
    ensures t.Some? ==> forall text :: HasText(t.value, |t.value| - 1, text) ==> FoundFirst(text, cp, r)
  {
    hide HasText, DecodeStep, EncodeAll, Offset, AreCodepoints;
    if t.None? { return None; }
    var at, end := 0, |t.value| - 1;
    ghost var count: nat := 0;
    Beginning(t.value, end);
    ghost var e := FirstNull(t.value, 0);
    while true
      invariant at <= e && FirstStep(t.value, at, e, cp) == FirstStep(t.value, 0, e, cp)
      invariant forall text :: HasText(t.value, end, text) ==>
                  count <= |text| && at == Offset(text, count) && cp !in text[..count]
      decreases |t.value| - at
    {
      forall text | HasText(t.value, end, text) ensures t.value[at] == 0 <==> count == |text| {
        NullAtEnd(t.value, text, count);
      }
      if t.value[at] == 0 {
        assert forall text :: HasText(t.value, end, text) ==> text[..count] == text;
        return None;
      }
      var found, to := GetCodepoint(t, at);
      var next := to.value;
      forall text | HasText(t.value, end, text)
        ensures count < |text| && found == text[count] && next == Offset(text, count + 1)
      {
        AtOffset(t.value, end, text, count);
      }
      if cp == found { return Some(at); }
      assert forall text :: HasText(t.value, end, text) ==> text[..count + 1] == text[..count] + [text[count]];
      StepForward(t.value, at);
      StepStops(t.value, at, e);
      at, count := next, count + 1;
    }
  }

  lemma NullAtEnd(t: seq<bv8>, text: seq<bv32>, k: nat)
    requires t != [] && HasText(t, |t| - 1, text) && k <= |text| && Offset(text, k) < |t|
    ensures t[Offset(text, k)] == 0 <==> k == |text|
  {
    hide Encode, DecodeStep;
    OffsetEnds(text);
    if k < |text| {
      AtOffset(t, |t| - 1, text, k);
      EncodedBytes(text[k]);
      StartsAt(t, Offset(text, k), Encode(text[k]));
    }
  }

  /** A step from a byte that is not the terminator does not go beyond the terminator. */
  lemma NotBeyond(t: seq<bv8>, at: nat)
    requires Terminated(t) && at < |t| && t[at] != 0
    ensures DecodeStep(t, at).next < |t|
  {
    hide Continue, PredictLength, IsContinuation, LeadBits;
    NullIsNoTrail();
    var n := PredictLength(t[at]);
    if n > 0 {
      ContinueFar(t, at + 1, LeadBits(t[at], n), n - 1);
    }
    if DecodeStep(t, at).next == |t| {
      assert at < |t| - 1;
    }
  }

  // ----- Well-formedness -----

  /** The steps from `at` to the terminator all pass. */
  predicate WellFormedFrom(t: seq<bv8>, at: nat)
    requires Terminated(t) && at < |t|
    decreases |t| - at
  {
    if t[at] == 0 then true
    else
      NotBeyond(t, at);
      var s := DecodeStep(t, at);
      Passes(at, s) && WellFormedFrom(t, s.next)
  }

  /** `is_well_formed_utf8`. */
  method IsWellFormed(t: Option<seq<bv8>>) returns (r: bool)
    requires t.Some? ==> Terminated(t.value)
    ensures r <==> t.Some? && WellFormedFrom(t.value, 0)
  {
    hide DecodeStep, Passes;
    if t.None? { return false; }
    var at := 0;
    while t.value[at] != 0
      invariant at < |t.value| && (WellFormedFrom(t.value, at) <==> WellFormedFrom(t.value, 0))
      decreases |t.value| - at
    {
      var cp, to := GetCodepoint(t, at);
      var next := to.value;
      StepForward(t.value, at);
      NotBeyond(t.value, at);
      PassesIs(at, Step(cp, next));
      if cp == REPLACEMENT && next == at + 1 {
        return false;
      } else {
        var byteCount := next - at;
        if byteCount > 1 && ProperLength(cp) < byteCount { return false; }
        if IsSurrogate(cp) { return false; }
      }
      at := next;
    }
    r := true;
  }

  lemma PassesIs(at: nat, s: Step)
    requires at <= s.next
    ensures Passes(at, s) <==> !(s.cp == REPLACEMENT && s.next == at + 1)
                               && !(s.next - at > 1 && ProperLength(s.cp) < s.next - at) && !IsSurrogate(s.cp)
  {
  }

  function Concat(us: seq<seq<bv8>>): seq<bv8> {
    if us == [] then [] else us[0] + Concat(us[1..])
  }

  ghost predicate AreUnits(us: seq<seq<bv8>>) { forall k :: 0 <= k < |us| ==> IsUnit(us[k]) }

  /** The terminator that is met first. */
  predicate EndsAt(t: seq<bv8>, n: nat) {
    n < |t| && t[n] == 0 && forall k :: 0 <= k < n ==> t[k] != 0
  }

  lemma UnitStart(u: seq<bv8>)
    requires IsUnit(u)
    ensures |u| > 0 && !IsContinuation(u[0]) && u[0] != 0
    ensures !IsCut(u) ==> exists cp :: IsProper(cp) && u == Encode(cp)
  {
    hide Encode, PredictLength, IsContinuation;
    if IsCut(u) {
      NullHasNoLength();
      LongLead(u[0]);
    } else {
      var cp :| IsProper(cp) && u == Encode(cp);
      EncodedBytes(cp);
      LongLead(u[0]);
    }
  }

  lemma LongLead(c: bv8)
    ensures PredictLength(c) > 0 ==> !IsContinuation(c)
  {
  }

  /** Units pass. */
  lemma {:induction false} UnitsPass(t: seq<bv8>, at: nat, n: nat, us: seq<seq<bv8>>)
    requires Terminated(t) && EndsAt(t, n) && at <= n && AreUnits(us) && t[at..n] == Concat(us)
    ensures WellFormedFrom(t, at)
    decreases |us|
  {
    hide DecodeStep, Passes, IsUnit, IsCut, Encode, IsContinuation;
    if us == [] {
      assert at == n;
    } else {
      var u := us[0];
      UnitStart(u);
      assert t[at..n][..|u|] == u && t[at..n][|u|..] == Concat(us[1..]);
      assert t[at..at + |u|] == u && t[at + |u|..n] == Concat(us[1..]);
      assert t[at] == u[0];
      NextIsNoTrail(t, at + |u|, n, us[1..]);
      if IsCut(u) {
        CutSteps(t, at, u);
      } else {
        var cp :| IsProper(cp) && u == Encode(cp);
        ProperSteps(t, at, cp);
      }
      UnitsPass(t, at + |u|, n, us[1..]);
    }
  }

  lemma NextIsNoTrail(t: seq<bv8>, at: nat, n: nat, us: seq<seq<bv8>>)
    requires Terminated(t) && EndsAt(t, n) && at <= n && AreUnits(us) && t[at..n] == Concat(us)
    ensures at < |t| && !IsContinuation(t[at])
  {
    hide IsUnit, IsContinuation;
    NullIsNoTrail();
    if us != [] {
      UnitStart(us[0]);
      assert t[at..n][0] == us[0][0];
    }
  }

  /** What passes is made of units. */
  lemma {:induction false} PassedAreUnits(t: seq<bv8>, at: nat, n: nat) returns (us: seq<seq<bv8>>)
    requires Terminated(t) && EndsAt(t, n) && at <= n && WellFormedFrom(t, at)
    ensures AreUnits(us) && t[at..n] == Concat(us)
    decreases n - at
  {
    hide DecodeStep, Passes, IsUnit;
    if at == n {
      us := [];
    } else {
      NotBeyond(t, at);
      StepForward(t, at);
      PassedIsUnit(t, at);
      var next := DecodeStep(t, at).next;
      NoNullInside(t, at, n);
      var tail := PassedAreUnits(t, next, n);
      us := [t[at..next]] + tail;
      assert us[1..] == tail && t[at..n] == t[at..next] + t[next..n];
    }
  }

  /** A step does not go over the terminator that is met first. */
  lemma NoNullInside(t: seq<bv8>, at: nat, n: nat)
    requires Terminated(t) && EndsAt(t, n) && at < n
    ensures DecodeStep(t, at).next <= n
  {
    hide Continue, PredictLength, IsContinuation, LeadBits;
    NullIsNoTrail();
    var k := PredictLength(t[at]);
    if k > 0 {
      ContinueFar(t, at + 1, LeadBits(t[at], k), k - 1);
    }
  }

  /**
   The check accepts exactly the texts that are made of encoded code points, without surrogates, and of cut sequences:
   lead bytes with some, but not all, of their continuation bytes.
   */
  lemma WellFormedExact(t: seq<bv8>, n: nat)
    requires Terminated(t) && EndsAt(t, n)
    ensures WellFormedFrom(t, 0) <==> exists us :: AreUnits(us) && t[..n] == Concat(us)
  {
    hide IsUnit;
    if WellFormedFrom(t, 0) {
      var us := PassedAreUnits(t, 0, n);
      assert t[0..n] == t[..n];
    }
    if us :| AreUnits(us) && t[..n] == Concat(us) {
      assert t[0..n] == t[..n];
      UnitsPass(t, 0, n, us);
    }
  }

  lemma {:induction false} ProperUnits(cps: seq<bv32>) returns (us: seq<seq<bv8>>)
    requires forall k :: 0 <= k < |cps| ==> IsProper(cps[k])
    ensures AreUnits(us) && Concat(us) == EncodeAll(cps)
    ensures forall k :: 0 <= k < |EncodeAll(cps)| ==> EncodeAll(cps)[k] != 0
  {
    hide Encode, IsCut;
    if cps == [] {
      us := [];
    } else {
      var front, last := cps[..|cps| - 1], cps[|cps| - 1];
      var before := ProperUnits(front);
      us := before + [Encode(last)];
      ConcatMore(before, Encode(last));
      EncodedBytes(last);
      EncodedNonzero(last);
    }
  }

  lemma EncodedNonzero(cp: bv32)
    requires IsCodepoint(cp)
    ensures forall k :: 0 <= k < |Encode(cp)| ==> Encode(cp)[k] != 0
  {
    hide Encode;
    EncodedBytes(cp);
  }

  lemma {:induction false} ConcatMore(us: seq<seq<bv8>>, u: seq<bv8>)
    ensures Concat(us + [u]) == Concat(us) + u
  {
    if us == [] {
      assert us + [u] == [u] && [u][1..] == [];
    } else {
      assert (us + [u])[1..] == us[1..] + [u];
      ConcatMore(us[1..], u);
    }
  }

  /** Every text of code points without surrogates is accepted. */
  lemma ProperTextAccepted(cps: seq<bv32>)
    requires forall k :: 0 <= k < |cps| ==> IsProper(cps[k])
    ensures WellFormedFrom(EncodeAll(cps) + [0], 0)
  {
    hide EncodeAll, IsUnit, IsProper, WellFormedFrom, Concat;
    var e := EncodeAll(cps);
    var us := ProperUnits(cps);
    EndsBehind(e);
    WellFormedExact(e + [0], |e|);
  }

  lemma EndsBehind(e: seq<bv8>)
    requires forall k :: 0 <= k < |e| ==> e[k] != 0
    ensures Terminated(e + [0]) && EndsAt(e + [0], |e|) && (e + [0])[..|e|] == e
  {
  }

  /** A text that is accepted although it is not the text of any code points: the sequence at its beginning is cut. */
  lemma CutAccepted()
    ensures WellFormedFrom([0xE2, 0x82, 0x41, 0], 0)
    ensures !exists cps :: AreCodepoints(cps) && EncodeAll(cps) == [0xE2, 0x82, 0x41]
  {
    var t: seq<bv8> := [0xE2, 0x82, 0x41, 0];
    assert PredictLength(0xE2) == 3 && IsContinuation(0x82) && !IsContinuation(0x41);
    assert IsCut([0xE2, 0x82]) && Encode(0x41) == [0x41] && IsProper(0x41);
    var us: seq<seq<bv8>> := [[0xE2, 0x82], [0x41]];
    assert us[1..] == [[0x41]] && us[1..][1..] == [];
    assert Concat(us) == t[..3];
    assert AreUnits(us) && EndsAt(t, 3);
    WellFormedExact(t, 3);
    forall cps | AreCodepoints(cps) ensures EncodeAll(cps) != t[..3] {
      CutNotDecoded(t, cps);
    }
  }

  lemma CutNotDecoded(t: seq<bv8>, cps: seq<bv32>)
    requires t == [0xE2, 0x82, 0x41, 0]
    ensures !HasText(t, 3, cps)
  {
    CutSteps(t, 0, [0xE2, 0x82]);
    assert DecodeStep(t, 0) == Step(REPLACEMENT, 2) && |Encode(REPLACEMENT)| == 3;
    OffsetEnds(cps);
    if HasText(t, 3, cps) {
      AtOffset(t, 3, cps, 0);
    }
  }
}
