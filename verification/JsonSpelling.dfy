/** How numbers are spelled in JSON documents. */
module JsonSpelling {
  import opened Wrappers
  import opened JsonNumbers
  import opened JsonStrings
  import opened JsonGrammar
  import opened JsonBlanks

  datatype Exponent = Exponent(mark: char, sign: string, digits: string)

  /** A digit or a minus sign, digits, a fraction and an exponent. */
  datatype Spelling = Spelling(first: char, whole: string, fraction: Option<string>, exponent: Option<Exponent>)

  predicate Decimal(s: string) { forall k :: 0 <= k < |s| ==> s[k] in "0123456789" }

  predicate IsSpelling(n: Spelling) {
    && n.first in "-0123456789" && Decimal(n.whole)
    && (n.fraction.Some? ==> Decimal(n.fraction.value))
    && (n.exponent.Some? ==> IsExponent(n.exponent.value))
  }

  predicate IsExponent(e: Exponent) {
    && (e.mark == 'e' || e.mark == 'E') && (e.sign == "" || e.sign == "+" || e.sign == "-") && Decimal(e.digits)
  }

  function FractionText(f: Option<string>): string { if f.Some? then "." + f.value else "" }

  function ExponentText(e: Option<Exponent>): string {
    if e.Some? then [e.value.mark] + (e.value.sign + e.value.digits) else ""
  }

  function Spelled(n: Spelling): string {
    [n.first] + (n.whole + (FractionText(n.fraction) + ExponentText(n.exponent)))
  }

  /** What is at `p` does not go on with a number. */
  predicate NoMore(doc: string, p: nat) {
    p <= |doc| && (p < |doc| ==> !('0' <= doc[p] <= '9') && doc[p] != '.' && doc[p] != 'e' && doc[p] != 'E'
                                 && doc[p] != '+' && doc[p] != '-')
  }

  // ----- What is spelled is a number -----

  lemma {:induction false} DigitsPassed(doc: string, p: nat, s: string)
    requires PartAt(doc, p, s) && Decimal(s)
    ensures p + |s| <= |doc| && DigitsEnd(doc, p) == DigitsEnd(doc, p + |s|)
    decreases |s|
  {
    if s != "" {
      PartChar(doc, p, s, 0);
      assert s == [s[0]] + s[1..];
      PartSplit(doc, p, [s[0]], s[1..]);
      DigitsPassed(doc, p + 1, s[1..]);
    }
  }

  /** The end of an exponent that may be there. */
  function ExponentEnd(doc: string, b: nat): (r: nat)
    requires b <= |doc|
    ensures b <= r <= |doc|
  {
    if !CharIs(doc, b, "eE") then b
    else DigitsEnd(doc, if CharIs(doc, b + 1, "+-") then b + 2 else b + 1)
  }

  lemma ExponentRead(doc: string, p: nat, e: Option<Exponent>)
    requires PartAt(doc, p, ExponentText(e)) && NoMore(doc, p + |ExponentText(e)|)
    requires e.Some? ==> IsExponent(e.value)
    ensures p + |ExponentText(e)| <= |doc| && ExponentEnd(doc, p) == p + |ExponentText(e)|
    ensures !CharIs(doc, p, ".") && (p < |doc| ==> !IsDigit(doc[p]))
  {
    hide PartAt, DigitsEnd, NoMore, Decimal;
    PartFits(doc, p, ExponentText(e));
    if e.Some? {
      var x := e.value;
      PartSplit(doc, p, [x.mark], x.sign + x.digits);
      FirstOf(doc, p, x.mark);
      assert CharIs(doc, p, "eE") && !CharIs(doc, p, ".") && !IsDigit(doc[p]);
      PartSplit(doc, p + 1, x.sign, x.digits);
      DigitsPassed(doc, p + 1 + |x.sign|, x.digits);
      NothingMore(doc, p + |ExponentText(e)|);
      SignRead(doc, p + 1, x);
    } else {
      NothingMore(doc, p);
    }
  }

  lemma NothingMore(doc: string, p: nat)
    requires NoMore(doc, p)
    ensures p <= |doc| && DigitsEnd(doc, p) == p && (p < |doc| ==> !IsDigit(doc[p]))
    ensures !CharIs(doc, p, "eE") && !CharIs(doc, p, ".") && !CharIs(doc, p, "+-")
  {
  }

  lemma SignRead(doc: string, p: nat, x: Exponent)
    requires IsExponent(x) && PartAt(doc, p, x.sign) && PartAt(doc, p + |x.sign|, x.digits)
    requires NoMore(doc, p + |x.sign| + |x.digits|)
    ensures CharIs(doc, p, "+-") <==> |x.sign| == 1
    ensures |x.sign| <= 1
  {
    hide NoMore;
    if x.sign == "" {
      if x.digits == "" {
        NothingMore(doc, p);
      } else {
        PartChar(doc, p, x.digits, 0);
      }
    } else {
      PartChar(doc, p, x.sign, 0);
    }
  }

  /** A fraction, or none, with no digit behind it. */
  lemma FractionRead(doc: string, a: nat, f: Option<string>)
    requires PartAt(doc, a, FractionText(f)) && (f.Some? ==> Decimal(f.value)) && a + |FractionText(f)| <= |doc|
    requires a + |FractionText(f)| < |doc| ==> !IsDigit(doc[a + |FractionText(f)|])
    requires !CharIs(doc, a + |FractionText(f)|, ".")
    ensures a < |doc| ==> !IsDigit(doc[a])
    ensures (if CharIs(doc, a, ".") then DigitsEnd(doc, a + 1) else a) == a + |FractionText(f)|
  {
    hide PartAt, Decimal, DigitsEnd, IsDigit, CharIs;
    if f.Some? {
      PartSplit(doc, a, ".", f.value);
      FirstOf(doc, a, '.');
      PointIs(doc, a);
      DigitsStop(doc, a + 1 + |f.value|);
      DigitsPassed(doc, a + 1, f.value);
    }
  }

  /** A number that is spelled out, with nothing behind it that could go on, is scanned whole. */
  lemma SpelledEnds(doc: string, p: nat, n: Spelling)
    requires IsSpelling(n) && PartAt(doc, p, Spelled(n)) && NoMore(doc, p + |Spelled(n)|)
    ensures p + |Spelled(n)| <= |doc| && doc[p] == n.first && NumberEnd(doc, p + 1) == p + |Spelled(n)|
  {
    hide PartAt, ExponentEnd, Decimal, ExponentText, FractionText, DigitsEnd, IsDigit, CharIs, NumberEnd, IsExponent,
         NoMore;
    PartFits(doc, p, Spelled(n));
    var f, e := FractionText(n.fraction), ExponentText(n.exponent);
    PartSplit(doc, p, [n.first], n.whole + (f + e));
    FirstOf(doc, p, n.first);
    PartSplit(doc, p + 1, n.whole, f + e);
    var a := p + 1 + |n.whole|;
    PartSplit(doc, a, f, e);
    ExponentRead(doc, a + |f|, n.exponent);
    FractionRead(doc, a, n.fraction);
    DigitsStop(doc, a);
    DigitsPassed(doc, p + 1, n.whole);
    EndInSteps(doc, p + 1);
  }

  lemma PointIs(doc: string, a: nat)
    requires a < |doc| && doc[a] == '.'
    ensures !IsDigit(doc[a]) && CharIs(doc, a, ".")
  {
  }

  lemma DigitsStop(doc: string, p: nat)
    requires p <= |doc| && (p < |doc| ==> !IsDigit(doc[p]))
    ensures DigitsEnd(doc, p) == p
  {
  }

  lemma EndInSteps(doc: string, p: nat)
    requires p <= |doc|
    ensures (var a := DigitsEnd(doc, p);
      NumberEnd(doc, p) == ExponentEnd(doc, if CharIs(doc, a, ".") then DigitsEnd(doc, a + 1) else a))
  {
    hide DigitsEnd;
  }

  // ----- A number is spelled -----

  lemma {:induction false} DigitsBetween(doc: string, p: nat)
    requires p <= |doc|
    ensures Decimal(doc[p..DigitsEnd(doc, p)])
    decreases |doc| - p
  {
    if p < |doc| && IsDigit(doc[p]) {
      DigitsBetween(doc, p + 1);
      Slices(doc, p, p + 1, DigitsEnd(doc, p));
    }
  }

  /** What is scanned as a number is spelled like one. */
  lemma NumberIsSpelled(doc: string, p: nat) returns (n: Spelling)
    requires p < |doc| && (IsDigit(doc[p]) || doc[p] == '-')
    ensures IsSpelling(n) && doc[p..NumberEnd(doc, p + 1)] == Spelled(n)
  {
    hide DigitsEnd, Decimal, NumberEnd, ExponentEnd, CharIs, IsDigit, ExponentText, FractionText, IsExponent;
    var a := DigitsEnd(doc, p + 1);
    DigitsBetween(doc, p + 1);
    EndInSteps(doc, p + 1);
    var fraction, b := FractionIsSpelled(doc, a);
    var e := ExponentIsSpelled(doc, b);
    var c := ExponentEnd(doc, b);
    n := Spelling(doc[p], doc[p + 1..a], fraction, e);
    Slices(doc, p, p + 1, c);
    Slices(doc, p + 1, a, c);
    Slices(doc, a, b, c);
    FirstDigit(doc[p]);
  }

  lemma FractionIsSpelled(doc: string, a: nat) returns (f: Option<string>, b: nat)
    requires a <= |doc|
    ensures b == (if CharIs(doc, a, ".") then DigitsEnd(doc, a + 1) else a) && a <= b <= |doc|
    ensures doc[a..b] == FractionText(f) && (f.Some? ==> Decimal(f.value))
  {
    hide DigitsEnd, Decimal;
    f, b := None, a;
    if CharIs(doc, a, ".") {
      DigitsBetween(doc, a + 1);
      b := DigitsEnd(doc, a + 1);
      f := Some(doc[a + 1..b]);
      Slices(doc, a, a + 1, b);
    }
  }

  lemma FirstDigit(c: char)
    requires IsDigit(c) || c == '-'
    ensures c in "-0123456789"
  {
  }

  lemma ExponentIsSpelled(doc: string, b: nat) returns (e: Option<Exponent>)
    requires b <= |doc|
    ensures doc[b..ExponentEnd(doc, b)] == ExponentText(e) && (e.Some? ==> IsExponent(e.value))
  {
    hide DigitsEnd, Decimal, CharIs;
    e := None;
    if CharIs(doc, b, "eE") {
      MarkIs(doc, b);
      var c := if CharIs(doc, b + 1, "+-") then b + 2 else b + 1;
      SignIs(doc, b + 1);
      DigitsBetween(doc, c);
      var d := DigitsEnd(doc, c);
      e := Some(Exponent(doc[b], doc[b + 1..c], doc[c..d]));
      ExponentParts(doc, b, c, d);
    } else {
      assert doc[b..b] == "";
    }
  }

  lemma ExponentParts(doc: string, b: nat, c: nat, d: nat)
    requires b < c <= d <= |doc|
    ensures doc[b..d] == [doc[b]] + (doc[b + 1..c] + doc[c..d])
  {
    Slices(doc, b, b + 1, d);
    Slices(doc, b + 1, c, d);
  }

  lemma MarkIs(doc: string, b: nat)
    requires CharIs(doc, b, "eE")
    ensures b < |doc| && (doc[b] == 'e' || doc[b] == 'E')
  {
  }

  lemma SignIs(doc: string, b: nat)
    requires b <= |doc|
    ensures CharIs(doc, b, "+-") ==> b < |doc| && (doc[b..b + 1] == "+" || doc[b..b + 1] == "-")
    ensures doc[b..b] == ""
  {
  }
}
