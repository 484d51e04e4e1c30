/**
 What Punycode encodings and decodings are (sections 6.2 and 6.3 of RFC 3492), as functions.  The encoder is
 described by the order in which code points are inserted, over unbounded integers; the decoder by its state
 machine, with the largest integer of the machine, `limit`, as a parameter.
 */
module PunycodeSpec {
  import opened Wrappers
  import opened Words
  import opened Arithmetic
  import opened PunycodeDigits

  type CaseFlags = Option<seq<bool>>

  ghost predicate FlagsFor(cps: seq<uint32>, flags: CaseFlags) {
    flags.Some? ==> |flags.value| == |cps|
  }

  function FlagAt(flags: CaseFlags, j: nat): bool
    requires flags.Some? ==> j < |flags.value|
  {
    flags.Some? && flags.value[j]
  }

  // ----- Which code points the decoder has, once it has advanced to <n, position of j> -----

  /** The code point at index `x` comes before the pair (`n`, `j`) in the order of insertions. */
  predicate Before(cps: seq<uint32>, x: nat, n: nat, j: nat)
    requires x < |cps|
  {
    cps[x] < n || (cps[x] == n && x < j)
  }

  /** How many of the code points below `end` come before (`n`, `j`). */
  function Count(cps: seq<uint32>, end: nat, n: nat, j: nat): nat
    requires end <= |cps|
  {
    if end == 0 then 0 else Count(cps, end - 1, n, j) + (if Before(cps, end - 1, n, j) then 1 else 0)
  }

  /** The index below `end` that is inserted first among those that do not come before (`n`, `j`). */
  function NextIndex(cps: seq<uint32>, end: nat, n: nat, j: nat): (r: Option<nat>)
    requires end <= |cps|
    ensures r.Some? ==> r.value < end
  {
    if end == 0 then None
    else
      var r := NextIndex(cps, end - 1, n, j);
      if Before(cps, end - 1, n, j) || (r.Some? && cps[r.value] <= cps[end - 1]) then r else Some(end - 1)
  }

  /** `NextIndex` is the least index, in the order of insertions, that does not come before (`n`, `j`). */
  lemma {:induction false} NextIndexIsLeast(cps: seq<uint32>, end: nat, n: nat, j: nat)
    requires end <= |cps|
    ensures var r := NextIndex(cps, end, n, j);
            && (r.None? ==> forall x :: 0 <= x < end ==> Before(cps, x, n, j))
            && (r.Some? ==> !Before(cps, r.value, n, j))
            && (r.Some? ==> forall x :: 0 <= x < end ==>
                  Before(cps, x, n, j) || !Before(cps, x, cps[r.value], r.value))
  {
    if end > 0 {
      NextIndexIsLeast(cps, end - 1, n, j);
    }
  }

  lemma {:induction false} CountSame(cps: seq<uint32>, end: nat, n: nat, j: nat, n': nat, j': nat)
    requires end <= |cps|
    requires forall x :: 0 <= x < end ==> (Before(cps, x, n, j) <==> Before(cps, x, n', j'))
    ensures Count(cps, end, n, j) == Count(cps, end, n', j')
  {
    if end > 0 {
      CountSame(cps, end - 1, n, j, n', j');
    }
  }

  lemma {:induction false} CountBounds(cps: seq<uint32>, end: nat, end': nat, n: nat, j: nat)
    requires end <= end' <= |cps|
    ensures Count(cps, end, n, j) <= Count(cps, end', n, j) <= Count(cps, end, n, j) + end' - end
    decreases end' - end
  {
    if end < end' {
      CountBounds(cps, end, end' - 1, n, j);
    }
  }

  /** Advancing past the index `j`, whose code point is `n`, inserts one more code point. */
  lemma {:induction false} CountStep(cps: seq<uint32>, end: nat, n: nat, j: nat)
    requires j < end <= |cps| && cps[j] == n
    ensures Count(cps, end, n, j + 1) == Count(cps, end, n, j) + 1
  {
    if end == j + 1 {
      CountSame(cps, j, n, j, n, j + 1);
    } else {
      CountStep(cps, end - 1, n, j);
    }
  }

  /** Nothing is inserted between (`n`, `j`) and the next index. */
  lemma NothingBetween(cps: seq<uint32>, n: nat, j: nat, next: nat)
    requires NextIndex(cps, |cps|, n, j) == Some(next)
    ensures forall x :: 0 <= x < |cps| ==> (Before(cps, x, cps[next], next) <==> Before(cps, x, n, j))
  {
    NextIndexIsLeast(cps, |cps|, n, j);
  }

  /** The next index is the only one that separates what comes before it as (`n`, `j`) does. */
  lemma NextIs(cps: seq<uint32>, n: nat, j: nat, k: nat)
    requires j <= |cps| && k < |cps|
    requires forall x :: 0 <= x < |cps| ==> (Before(cps, x, n, j) <==> Before(cps, x, cps[k], k))
    ensures NextIndex(cps, |cps|, n, j) == Some(k)
  {
    NextIndexIsLeast(cps, |cps|, n, j);
    assert !Before(cps, k, n, j);
  }

  // ----- The encoder -----

  /** The number of states the decoder goes through from (`n`, `j`) to the insertion of `next`. */
  function Delta(cps: seq<uint32>, n: nat, j: nat, next: nat): int
    requires j <= |cps| && next < |cps|
  {
    (cps[next] - n) * (Count(cps, |cps|, n, j) + 1) + Count(cps, next, cps[next], next) - Count(cps, j, n, j)
  }

  lemma NextFacts(cps: seq<uint32>, n: nat, j: nat, next: nat)
    requires j <= |cps| && NextIndex(cps, |cps|, n, j) == Some(next)
    ensures Delta(cps, n, j, next) >= 0
    ensures Count(cps, |cps|, cps[next], next + 1) == Count(cps, |cps|, n, j) + 1 <= |cps|
    ensures Count(cps, next, cps[next], next) <= Count(cps, |cps|, n, j)
    ensures Count(cps, j, n, j) <= Count(cps, |cps|, n, j)
    ensures cps[next] >= n
  {
    NextIndexIsLeast(cps, |cps|, n, j);
    NothingBetween(cps, n, j, next);
    CountSame(cps, |cps|, cps[next], next, n, j);
    CountSame(cps, next, cps[next], next, n, j);
    CountStep(cps, |cps|, cps[next], next);
    CountBounds(cps, 0, |cps|, cps[next], next + 1);
    CountBounds(cps, j, |cps|, n, j);
    CountBounds(cps, next, |cps|, n, j);
    if cps[next] == n {
      CountBounds(cps, j, next, n, j);
    } else {
      MulMonotone(1, cps[next] - n, Count(cps, |cps|, n, j) + 1);
    }
  }

  /** The part of the encoding that inserts everything from (`n`, `j`) on. */
  function EncodeTail(cps: seq<uint32>, flags: CaseFlags, n: nat, j: nat, bias: nat): seq<byte>
    requires j <= |cps| && (flags.Some? ==> |flags.value| == |cps|)
    decreases |cps| - Count(cps, |cps|, n, j)
  {
    var next := NextIndex(cps, |cps|, n, j);
    if next.None? then []
    else
      NextFacts(cps, n, j, next.value);
      var delta := Delta(cps, n, j, next.value);
      VarBytes(delta, BASE, bias, FlagAt(flags, next.value))
      + EncodeTail(cps, flags, cps[next.value], next.value + 1,
                   Adapt(delta, Count(cps, |cps|, n, j) + 1, j == 0))
  }

  lemma EncodeTailStep(cps: seq<uint32>, flags: CaseFlags, n: nat, j: nat, bias: nat, k: nat, delta: nat, bias': nat)
    requires FlagsFor(cps, flags) && j <= |cps|
    requires NextIndex(cps, |cps|, n, j) == Some(k) && delta == Delta(cps, n, j, k)
    requires bias' == Adapt(delta, Count(cps, |cps|, n, j) + 1, j == 0)
    ensures EncodeTail(cps, flags, n, j, bias)
         == VarBytes(delta, BASE, bias, FlagAt(flags, k)) + EncodeTail(cps, flags, cps[k], k + 1, bias')
  {
    hide Adapt, Count, Delta, NextIndex, VarBytes;
  }

  lemma EncodeTailEnd(cps: seq<uint32>, flags: CaseFlags, n: nat, j: nat, bias: nat)
    requires FlagsFor(cps, flags) && j <= |cps| && NextIndex(cps, |cps|, n, j).None?
    ensures EncodeTail(cps, flags, n, j, bias) == []
  {
  }

  /** The basic code points, in the case the flags ask for. */
  function EncodeBasics(cps: seq<uint32>, flags: CaseFlags, end: nat): (r: seq<byte>)
    requires end <= |cps| && (flags.Some? ==> |flags.value| == |cps|)
    ensures forall x :: 0 <= x < |r| ==> r[x] < 0x80
  {
    if end == 0 then []
    else EncodeBasics(cps, flags, end - 1) + (if IsBasic(cps[end - 1]) then [Cased(cps, flags, end - 1)] else [])
  }

  /** The code point that the decoder recovers for index `j`: a basic one has taken the case of its flag. */
  function Cased(cps: seq<uint32>, flags: CaseFlags, j: nat): (r: uint32)
    requires j < |cps| && (flags.Some? ==> |flags.value| == |cps|)
    ensures IsBasic(r) <==> IsBasic(cps[j])
  {
    if flags.Some? && IsBasic(cps[j]) then EncodeBasic(cps[j], flags.value[j]) else cps[j]
  }

  /** The Punycode encoding of `cps`. */
  function Encoding(cps: seq<uint32>, flags: CaseFlags): seq<byte>
    requires flags.Some? ==> |flags.value| == |cps|
  {
    var basics := EncodeBasics(cps, flags, |cps|);
    basics + (if basics != [] then [DELIMITER] else []) + EncodeTail(cps, flags, INITIAL_N, 0, INITIAL_BIAS)
  }

  // ----- The decoder -----

  datatype Decoded = Decoded(status: Status, cps: seq<uint32>, flags: seq<bool>)

  /** The position of the last delimiter below `end`; 0 when there is none. */
  function LastDelimiter(s: seq<byte>, end: nat): (b: nat)
    requires end <= |s|
    ensures b <= end && (b > 0 ==> b < end && s[b] == DELIMITER)
    ensures forall x :: b < x < end ==> s[x] != DELIMITER
  {
    if end == 0 then 0
    else if s[end - 1] == DELIMITER then end - 1 else LastDelimiter(s, end - 1)
  }

  function InsertAt<T>(s: seq<T>, pos: nat, x: T): (r: seq<T>)
    requires pos <= |s|
    ensures |r| == |s| + 1
  {
    s[..pos] + [x] + s[pos..]
  }

  /** `i` counts states: how often it wraps around an output of `size` places, and where it then stands. */
  function WrapAround(i: nat, size: nat): (r: (nat, nat))
    requires size > 0
    ensures r.1 < size
    ensures i < size ==> r == (0, i)
  {
    if i < size then (0, i)
    else
      var (steps, pos) := WrapAround(i - size, size);
      (steps + 1, pos)
  }

  lemma {:induction false} WrapsTo(steps: nat, pos: nat, size: nat)
    requires pos < size
    ensures steps * size >= 0 && WrapAround(steps * size + pos, size) == (steps, pos)
  {
    if steps > 0 {
      MulDistributes(steps - 1, 1, size);
      WrapsTo(steps - 1, pos, size);
    }
  }

  /** The main decoding loop, from position `p` of the input and state `<n, i>`. */
  function DecodeTail(s: seq<byte>, p: nat, n: nat, i: nat, bias: nat, cps: seq<uint32>, flags: seq<bool>,
                      capacity: nat, limit: uint32): (r: Decoded)
    requires p <= |s| && n <= limit && i <= |cps| <= limit && |flags| == |cps|
    requires |s| - p + |cps| <= limit
    ensures r.status.Success? ==> |r.cps| == |r.flags|
    decreases |s| - p
  {
    if p == |s| then Decoded(Success, cps, flags)
    else
      var v := ReadVar(s, p, BASE, bias, i, 1, limit);
      if v.Stop? then Decoded(v.status, cps, flags)
      else
        var (steps, pos) := WrapAround(v.i, |cps| + 1);
        if steps > limit - n then Decoded(Overflow, cps, flags)
        else if |cps| >= capacity then Decoded(BigOutput, cps, flags)
        else
          DecodeTail(s, v.next, n + steps, pos + 1, Adapt(v.i - i, |cps| + 1, i == 0),
                     InsertAt(cps, pos, n + steps), InsertAt(flags, pos, Flagged(CharToUint(s[v.next - 1]))),
                     capacity, limit)
  }

  /** One round of the main decoding loop. */
  lemma DecodeTailStep(s: seq<byte>, p: nat, n: nat, i: nat, bias: nat, cps: seq<uint32>, flags: seq<bool>,
                       capacity: nat, limit: uint32, p': nat, n': uint32, i': nat, pos: nat, bias': nat,
                       cps': seq<uint32>, flags': seq<bool>)
    requires p < |s| && n <= n' <= limit && i <= |cps| <= limit && |flags| == |cps| < capacity
    requires |s| - p + |cps| <= limit
    requires ReadVar(s, p, BASE, bias, i, 1, limit) == Read(i', p') && WrapAround(i', |cps| + 1) == (n' - n, pos)
    requires bias' == Adapt(i' - i, |cps| + 1, i == 0)
    requires cps' == InsertAt(cps, pos, n') && flags' == InsertAt(flags, pos, Flagged(CharToUint(s[p' - 1])))
    ensures DecodeTail(s, p, n, i, bias, cps, flags, capacity, limit)
         == DecodeTail(s, p', n', pos + 1, bias', cps', flags', capacity, limit)
  {
    hide ReadVar, Adapt, WrapAround, Flagged;
  }

  lemma DecodeTailEnd(s: seq<byte>, n: nat, i: nat, bias: nat, cps: seq<uint32>, flags: seq<bool>, capacity: nat,
                      limit: uint32)
    requires n <= limit && i <= |cps| <= limit && |flags| == |cps|
    ensures DecodeTail(s, |s|, n, i, bias, cps, flags, capacity, limit) == Decoded(Success, cps, flags)
  {
  }

  /** The round in which the main decoding loop gives up. */
  lemma DecodeTailStop(s: seq<byte>, p: nat, n: nat, i: nat, bias: nat, cps: seq<uint32>, flags: seq<bool>,
                       capacity: nat, limit: uint32)
    requires p < |s| && n <= limit && i <= |cps| <= limit && |flags| == |cps|
    requires |s| - p + |cps| <= limit
    requires var v := ReadVar(s, p, BASE, bias, i, 1, limit); v.Stop? || |cps| >= capacity
    ensures var v := ReadVar(s, p, BASE, bias, i, 1, limit);
            var status := DecodeTail(s, p, n, i, bias, cps, flags, capacity, limit).status;
            if v.Stop? then status == v.status else status.Overflow? || status.BigOutput?
  {
    hide ReadVar, Adapt, WrapAround, Flagged;
  }

  /** The outcomes of one round, all in one. */
  lemma DecodeTailCase(s: seq<byte>, p: nat, n: nat, i: nat, bias: nat, cps: seq<uint32>, flags: seq<bool>,
                       capacity: nat, limit: uint32)
    requires p < |s| && n <= limit && i <= |cps| <= limit && |flags| == |cps|
    requires |s| - p + |cps| <= limit
    ensures var r, v := DecodeTail(s, p, n, i, bias, cps, flags, capacity, limit),
                        ReadVar(s, p, BASE, bias, i, 1, limit);
            if v.Stop? then r == Decoded(v.status, cps, flags)
            else
              var (steps, pos) := WrapAround(v.i, |cps| + 1);
              if steps > limit - n then r == Decoded(Overflow, cps, flags)
              else if |cps| >= capacity then r == Decoded(BigOutput, cps, flags)
              else r == DecodeTail(s, v.next, n + steps, pos + 1, Adapt(v.i - i, |cps| + 1, i == 0),
                                   InsertAt(cps, pos, n + steps),
                                   InsertAt(flags, pos, Flagged(CharToUint(s[v.next - 1]))), capacity, limit)
  {
    hide ReadVar, Adapt, WrapAround, Flagged;
  }

  /** What decoding the whole of `s` into at most `capacity` code points gives. */
  function Decoding(s: seq<byte>, capacity: nat, limit: uint32): (r: Decoded)
    requires |s| <= limit && INITIAL_N <= limit
    ensures r.status.Success? ==> |r.cps| == |r.flags|
  {
    var b := LastDelimiter(s, |s|);
    if b > capacity then Decoded(BigOutput, [], [])
    else if exists x :: 0 <= x < b && s[x] >= 0x80 then Decoded(BadInput, [], [])
    else
      DecodeTail(s, if b > 0 then b + 1 else 0, INITIAL_N, 0, INITIAL_BIAS,
                 s[..b], seq(b, x requires 0 <= x < b => Flagged(CharToUint(s[x]))), capacity, limit)
  }
}
