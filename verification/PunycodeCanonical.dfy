/**
 Encoding what was decoded: the decoder inserts in the order of the encoder, so the only string that decodes to given
 code points, up to the case of its digits, is their encoding.
 */
module PunycodeCanonical {
  import opened Wrappers
  import opened Words
  import opened Arithmetic
  import opened PunycodeDigits
  import opened PunycodeSpec
  import opened PunycodeRoundTrip
  import opened PunycodeLimits

  /** The decoder's insertions are in order: what it has is at most `n`, and what is `n` is before position `i`. */
  ghost predicate InOrder(n: nat, i: nat, out: seq<uint32>) {
    && i <= |out|
    && (forall x :: 0 <= x < |out| ==> out[x] < n || (out[x] == n && x < i))
    && (if i > 0 then out[i - 1] == n else n == INITIAL_N)
  }

  lemma InsertKeepsOrder(n: nat, i: nat, out: seq<uint32>, n': uint32, pos: nat)
    requires InOrder(n, i, out) && pos <= |out|
    requires n' > n || (n' == n && pos >= i)
    ensures InOrder(n', pos + 1, InsertAt(out, pos, n'))
  {
  }

  function Indices(count: nat): (r: seq<nat>)
    ensures |r| == count
  {
    seq(count, x => x)
  }

  /** The indices that come before (`n`, `j`), in increasing order. */
  function IndicesBefore(cps: seq<uint32>, end: nat, n: nat, j: nat): seq<nat>
    requires end <= |cps|
  {
    Inserted(Indices(|cps|), cps, end, n, j)
  }

  lemma {:induction false} IndicesSorted(cps: seq<uint32>, end: nat, n: nat, j: nat)
    requires end <= |cps|
    ensures var ix := IndicesBefore(cps, end, n, j);
            && (forall x :: 0 <= x < |ix| ==> ix[x] < end && Before(cps, ix[x], n, j))
            && (forall x, y :: 0 <= x < y < |ix| ==> ix[x] < ix[y])
  {
    if end > 0 {
      IndicesSorted(cps, end - 1, n, j);
      var before := IndicesBefore(cps, end - 1, n, j);
      assert IndicesBefore(cps, end, n, j) == if Before(cps, end - 1, n, j) then before + [end - 1] else before;
    }
  }

  lemma {:induction false} IndexOf(cps: seq<uint32>, end: nat, n: nat, j: nat, x: nat)
    requires x < end <= |cps| && Before(cps, x, n, j)
    ensures x in IndicesBefore(cps, end, n, j)
  {
    if x < end - 1 {
      IndexOf(cps, end - 1, n, j, x);
    }
  }

  lemma {:induction false} InsertedIsPick<T>(xs: seq<T>, cps: seq<uint32>, end: nat, n: nat, j: nat)
    requires end <= |cps| == |xs|
    ensures var ix, r := IndicesBefore(cps, end, n, j), Inserted(xs, cps, end, n, j);
            |ix| == |r| && forall x :: 0 <= x < |r| ==> ix[x] < |xs| && r[x] == xs[ix[x]]
  {
    if end > 0 {
      InsertedIsPick(xs, cps, end - 1, n, j);
    }
  }

  /** Just after the `y`-th of those indices, `y + 1` of them have been passed. */
  lemma {:induction false} CountThrough(cps: seq<uint32>, end: nat, n: nat, j: nat, y: nat)
    requires end <= |cps| && y < |IndicesBefore(cps, end, n, j)|
    ensures var x := IndicesBefore(cps, end, n, j)[y]; x < end && Count(cps, x + 1, n, j) == y + 1
  {
    if y < |IndicesBefore(cps, end - 1, n, j)| {
      CountThrough(cps, end - 1, n, j, y);
    }
  }

  /**
   The encoder's scan, wherever the decoder is: when the decoder, in state (`n`, `i`) with `out`, inserts `n'` at `pos`,
   and index `k` of the final code points is the one inserted, then the encoder gets from some (`n`, `j`) to `k`.
   */
  lemma ScanPosition(cps: seq<uint32>, n: nat, i: nat, out: seq<uint32>, n': uint32, pos: nat, k: nat)
    returns (j: nat)
    requires k < |cps| && cps[k] == n' && out == Inserted(cps, cps, |cps|, n', k)
    requires pos == Count(cps, k, n', k) <= |out|
    requires InOrder(n, i, out) && (n' > n || (n' == n && pos >= i))
    ensures j <= |cps| && forall x :: 0 <= x < |cps| ==> (Before(cps, x, n, j) <==> Before(cps, x, n', k))
    ensures i == Count(cps, j, n, j) && (j == 0 <==> i == 0) && (j > 0 ==> cps[j - 1] == n)
  {
    var ix := IndicesBefore(cps, |cps|, n', k);
    IndicesSorted(cps, |cps|, n', k);
    InsertedIsPick(cps, cps, |cps|, n', k);
    if i == 0 {
      j := 0;
    } else {
      j := ix[i - 1] + 1;
      CountThrough(cps, |cps|, n', k, i - 1);
    }
    forall x | 0 <= x < |cps|
      ensures Before(cps, x, n, j) <==> Before(cps, x, n', k)
    {
      if Before(cps, x, n', k) {
        IndexOf(cps, |cps|, n', k, x);
      } else if n == n' && i > 0 {
        BelowK(cps, n', k, i - 1);
      }
    }
    CountSame(cps, j, n, j, n', k);
  }

  /** The indices that come first are below `k`. */
  lemma BelowK(cps: seq<uint32>, n: nat, k: nat, y: nat)
    requires k <= |cps| && y < Count(cps, k, n, k) <= Count(cps, |cps|, n, k)
    ensures IndicesBefore(cps, |cps|, n, k)[y] < k
  {
    IndicesSorted(cps, k, n, k);
    IndicesPrefix(cps, k, |cps|, n, k);
  }

  lemma {:induction false} IndicesPrefix(cps: seq<uint32>, end: nat, end': nat, n: nat, j: nat)
    requires end <= end' <= |cps|
    ensures IndicesBefore(cps, end, n, j) <= IndicesBefore(cps, end', n, j)
  {
    if end < end' {
      IndicesPrefix(cps, end, end' - 1, n, j);
    }
  }

  /** The encoder writes, up to case, the rest of the input that the decoder reads. */
  ghost predicate Rewritten(s: seq<byte>, p: nat, n: nat, j: nat, i: nat, bias: nat, out: seq<uint32>, cps: seq<uint32>,
                            limit: uint32)
    requires p <= |s|
  {
    && j <= |cps| && out == Inserted(cps, cps, |cps|, n, j)
    && i == Count(cps, j, n, j) && (j == 0 <==> i == 0) && (j > 0 ==> cps[j - 1] == n)
    && LowerBytes(s[p..]) == EncodeTail(cps, None, n, j, bias)
    && TailFits(cps, n, j, bias, limit)
  }

  /** One insertion back: from the encoder's scan after index `k` to its scan before. */
  lemma RewriteStep(s: seq<byte>, p: nat, n: nat, i: nat, bias: nat, out: seq<uint32>, cps: seq<uint32>, limit: uint32,
                    p': nat, n': uint32, i': nat, pos: nat, bias': nat, k: nat)
    returns (j: nat)
    requires p <= p' <= |s| && InOrder(n, i, out) && i <= limit && pos <= |out|
    requires n' > n || (n' == n && pos >= i)
    requires ReadVar(s, p, BASE, bias, i, 1, limit) == Read(i', p')
    requires i' == (n' - n) * (|out| + 1) + pos && bias' == Adapt(i' - i, |out| + 1, i == 0)
    requires k < |cps| && cps[k] == n'
    requires Rewritten(s, p', n', k + 1, pos + 1, bias', InsertAt(out, pos, n'), cps, limit)
    ensures Rewritten(s, p, n, j, i, bias, out, cps, limit)
    ensures DELIMITER !in s[p..p']
  {
    hide Adapt, EncodeTail, TailFits, ReadVar, VarDigits, WeightsFit, VarBytes, Inserted;
    CountBounds(cps, k, |cps|, n', k);
    CountStep(cps, k + 1, n', k);
    InsertedStep(cps, cps, |cps|, n', k);
    assert out == Inserted(cps, cps, |cps|, n', k) by { InsertCancels(out, Inserted(cps, cps, |cps|, n', k), pos, n'); }
    j := ScanPosition(cps, n, i, out, n', pos, k);
    InsertedSame(cps, cps, |cps|, n, j, n', k);
    NextIs(cps, n, j, k);
    assert Delta(cps, n, j, k) == i' - i;
    ReadVarCanonical(s, p, bias, i, limit);
    assert s[p..] == s[p..p'] + s[p'..];
    assert LowerBytes(s[p..]) == LowerBytes(s[p..p']) + LowerBytes(s[p'..]);
    EncodeTailStep(cps, None, n, j, bias, k, i' - i, bias');
    TailFitsStep(cps, n, j, bias, limit, k, i' - i, bias');
  }

  lemma InsertCancels<T>(a: seq<T>, b: seq<T>, pos: nat, x: T)
    requires pos <= |a| && pos <= |b| && InsertAt(a, pos, x) == InsertAt(b, pos, x)
    ensures a == b
  {
    assert |InsertAt(a, pos, x)| == |InsertAt(b, pos, x)|;
    assert a[..pos] == InsertAt(a, pos, x)[..pos] == b[..pos];
    assert a[pos..] == InsertAt(a, pos, x)[pos + 1..] == b[pos..];
  }

  lemma {:induction false} WrapAroundMeans(i: nat, size: nat)
    requires size > 0
    ensures var (steps, pos) := WrapAround(i, size); i == steps * size + pos
  {
    if i >= size {
      WrapAroundMeans(i - size, size);
      MulDistributes(WrapAround(i - size, size).0, 1, size);
    }
  }

  lemma {:induction false} TailCanonical(s: seq<byte>, p: nat, n: nat, i: nat, bias: nat, out: seq<uint32>,
                                         flags: seq<bool>, capacity: nat, limit: uint32)
    returns (j: nat)
    requires p <= |s| && n <= limit && InOrder(n, i, out) && |out| <= limit && |flags| == |out|
    requires |s| - p + |out| <= limit
    requires DecodeTail(s, p, n, i, bias, out, flags, capacity, limit).status.Success?
    ensures var cps := DecodeTail(s, p, n, i, bias, out, flags, capacity, limit).cps;
            && Rewritten(s, p, n, j, i, bias, out, cps, limit)
            && |cps| <= |out| + |s| - p && (cps == out || |cps| <= capacity)
    ensures DELIMITER !in s[p..]
    decreases |s| - p
  {
    hide Adapt, EncodeTail, TailFits, ReadVar, VarDigits, WeightsFit, VarBytes, Inserted,
         WrapAround, DecodeTail, InsertAt,
         Count, LowerBytes, NextIndex, Flagged;
    if p == |s| {
      j := i;
      DecodeTailEnd(s, n, i, bias, out, flags, capacity, limit);
      NoneLeft(n, i, bias, out, limit);
    } else {
      var v := ReadVar(s, p, BASE, bias, i, 1, limit);
      DecodeTailCases(s, p, n, i, bias, out, flags, capacity, limit);
      var (steps, pos) := WrapAround(v.i, |out| + 1);
      var n': uint32 := n + steps;
      var bias' := Adapt(v.i - i, |out| + 1, i == 0);
      var out' := InsertAt(out, pos, n');
      var flags' := InsertAt(flags, pos, Flagged(CharToUint(s[v.next - 1])));
      WrapAroundMeans(v.i, |out| + 1);
      InsertKeepsOrder(n, i, out, n', pos);
      DecodeTailStep(s, p, n, i, bias, out, flags, capacity, limit, v.next, n', v.i, pos, bias', out', flags');
      var j' := TailCanonical(s, v.next, n', pos + 1, bias', out', flags', capacity, limit);
      var cps := DecodeTail(s, p, n, i, bias, out, flags, capacity, limit).cps;
      j := RewriteStep(s, p, n, i, bias, out, cps, limit, v.next, n', v.i, pos, bias', j' - 1);
      Undelimited(s, p, v.next);
    }
  }

  lemma Undelimited(s: seq<byte>, p: nat, p': nat)
    requires p <= p' <= |s| && DELIMITER !in s[p..p'] && DELIMITER !in s[p'..]
    ensures DELIMITER !in s[p..]
  {
    assert s[p..] == s[p..p'] + s[p'..];
  }

  lemma NoneLeft(n: nat, i: nat, bias: nat, out: seq<uint32>, limit: nat)
    requires InOrder(n, i, out)
    ensures out == Inserted(out, out, |out|, n, i) && Count(out, i, n, i) == i
    ensures EncodeTail(out, None, n, i, bias) == [] && TailFits(out, n, i, bias, limit)
  {
    NextIndexIsLeast(out, |out|, n, i);
    AllInserted(out, out, |out|, n, i);
    AllInserted(out, out, i, n, i);
  }

  /** A successful round reads an integer, stays within the machine, and has room. */
  lemma DecodeTailCases(s: seq<byte>, p: nat, n: nat, i: nat, bias: nat, cps: seq<uint32>, flags: seq<bool>,
                        capacity: nat, limit: uint32)
    requires p < |s| && n <= limit && i <= |cps| <= limit && |flags| == |cps|
    requires |s| - p + |cps| <= limit
    requires DecodeTail(s, p, n, i, bias, cps, flags, capacity, limit).status.Success?
    ensures var v := ReadVar(s, p, BASE, bias, i, 1, limit);
            v.Read? && n + WrapAround(v.i, |cps| + 1).0 <= limit && |cps| < capacity
  {
    hide Adapt, ReadVar, WrapAround;
  }

  /** The input with the digits, which follow the last delimiter, in lower case. */
  function LowerDigits(s: seq<byte>): seq<byte> {
    var b := LastDelimiter(s, |s|);
    var p := if b > 0 then b + 1 else 0;
    s[..p] + LowerBytes(s[p..])
  }

  /**
   Canonicity: whatever decodes is, up to the case of its digits, the encoding of what it decodes to; encoding that
   with the input's length as capacity succeeds; and there are no more code points than bytes.
   */
  lemma Canonical(s: seq<byte>, capacity: nat, limit: uint32)
    requires |s| <= limit && INITIAL_N <= limit && Decoding(s, capacity, limit).status.Success?
    ensures var cps := Decoding(s, capacity, limit).cps;
            && Encoding(cps, None) == LowerDigits(s)
            && EncodeStatus(cps, |s|, limit).Success?
            && |cps| <= |s| && |cps| <= capacity
  {
    hide DecodeTail, EncodeTail, TailFits, Inserted, EncodeStatus, Encoding, LastDelimiter, LowerDigits, Flagged,
         Decoding;
    var b := LastDelimiter(s, |s|);
    var p := if b > 0 then b + 1 else 0;
    var out, flags := s[..b], seq(b, x requires 0 <= x < b => Flagged(CharToUint(s[x])));
    DecodingSucceeded(s, capacity, limit, b, flags);
    var j := TailCanonical(s, p, INITIAL_N, 0, INITIAL_BIAS, out, flags, capacity, limit);
    EncodedBack(s, b, p, Decoding(s, capacity, limit).cps, limit);
  }

  /** The last step: from the basic code points and the digits behind the delimiter to the whole encoding. */
  lemma EncodedBack(s: seq<byte>, b: nat, p: nat, cps: seq<uint32>, limit: nat)
    requires b == LastDelimiter(s, |s|) && p == (if b > 0 then b + 1 else 0) && p <= |s|
    requires s[..b] == Inserted(cps, cps, |cps|, INITIAL_N, 0)
    requires LowerBytes(s[p..]) == EncodeTail(cps, None, INITIAL_N, 0, INITIAL_BIAS)
    requires TailFits(cps, INITIAL_N, 0, INITIAL_BIAS, limit)
    ensures Encoding(cps, None) == LowerDigits(s) && EncodeStatus(cps, |s|, limit).Success?
  {
    hide DecodeTail, EncodeTail, TailFits, Inserted, EncodeBasics, DeltasFit, EncodeStatus, LastDelimiter;
    BasicsInserted(cps, None, |cps|);
    assert EncodeBasics(cps, None, |cps|) == s[..b];
    assert s[..p] == s[..b] + (if b > 0 then [DELIMITER] else []);
    FitsHaveSmallDeltas(cps, INITIAL_N, 0, INITIAL_BIAS, limit);
    EncodeSucceeds(cps, None, |s|, limit);
  }

  lemma DecodingSucceeded(s: seq<byte>, capacity: nat, limit: uint32, b: nat, flags: seq<bool>)
    requires |s| <= limit && INITIAL_N <= limit && Decoding(s, capacity, limit).status.Success?
    requires b == LastDelimiter(s, |s|) && flags == seq(b, x requires 0 <= x < b => Flagged(CharToUint(s[x])))
    ensures b <= capacity && (forall x :: 0 <= x < b ==> s[x] < 0x80) && (if b > 0 then b + 1 else 0) <= |s|
    ensures b > 0 ==> s[b] == DELIMITER
    ensures Decoding(s, capacity, limit)
         == DecodeTail(s, if b > 0 then b + 1 else 0, INITIAL_N, 0, INITIAL_BIAS, s[..b], flags, capacity, limit)
  {
    hide DecodeTail, Flagged;
  }

  /** Two inputs that decode to the same code points differ at most in the case of their digits. */
  lemma DecodingInjective(s: seq<byte>, t: seq<byte>, capacity: nat, limit: uint32)
    requires |s| <= limit && |t| <= limit && INITIAL_N <= limit
    requires var r, q := Decoding(s, capacity, limit), Decoding(t, capacity, limit);
             r.status.Success? && q.status.Success? && r.cps == q.cps
    ensures LowerDigits(s) == LowerDigits(t)
  {
    Canonical(s, capacity, limit);
    Canonical(t, capacity, limit);
  }

  /** The encoding contains zeros if and only if the input does, as the header promises. */
  lemma EncodingZeroFree(cps: seq<uint32>, flags: CaseFlags)
    requires FlagsFor(cps, flags)
    ensures 0 in Encoding(cps, flags) <==> 0 in cps
  {
    TailShape(cps, flags, INITIAL_N, 0, INITIAL_BIAS);
    ZeroBasics(cps, flags, |cps|);
    assert cps[..|cps|] == cps;
  }

  lemma {:induction false} ZeroBasics(cps: seq<uint32>, flags: CaseFlags, end: nat)
    requires FlagsFor(cps, flags) && end <= |cps|
    ensures 0 in EncodeBasics(cps, flags, end) <==> 0 in cps[..end]
  {
    if end > 0 {
      ZeroBasics(cps, flags, end - 1);
      assert cps[..end] == cps[..end - 1] + [cps[end - 1]];
    }
  }
}
