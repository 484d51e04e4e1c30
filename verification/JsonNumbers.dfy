/** Integers in JSON documents: an exact decoder for numbers of any length, and the printer that it undoes. */
module JsonNumbers {
  import opened Arithmetic

  const MAX_UINT64: int := 0xFFFF_FFFF_FFFF_FFFF
  const MIN_INT64_MAGNITUDE: int := 0x8000_0000_0000_0000
  /** The largest `int`, up to which a number is decoded as signed. */
  const MAX_INT: int := 0x7FFF_FFFF

  type uint64 = x: int | 0 <= x <= MAX_UINT64

  predicate IsDigit(c: char) { '0' <= c <= '9' }

  predicate AllDigits(s: string) { forall k :: 0 <= k < |s| ==> IsDigit(s[k]) }

  function DigitOf(c: char): (d: int)
    requires IsDigit(c)
    ensures 0 <= d <= 9
  {
    c as int - '0' as int
  }

  /** The number that a string of digits denotes. */
  function ValueOf(s: string): (v: nat)
    requires AllDigits(s)
  {
    if s == "" then 0 else ValueOf(s[..|s| - 1]) * 10 + DigitOf(s[|s| - 1])
  }

  /** Longer strings denote no smaller numbers. */
  lemma {:induction false} ValueGrows(s: string, k: nat)
    requires k <= |s| && AllDigits(s)
    ensures ValueOf(s[..k]) <= ValueOf(s)
    decreases |s|
  {
    if k == |s| {
      assert s[..k] == s;
    } else {
      assert s[..|s| - 1][..k] == s[..k];
      ValueGrows(s[..|s| - 1], k);
    }
  }

  /** A signed or an unsigned integer, or a text that is left to the decoder of doubles. */
  datatype Decoded = Signed(int) | Unsigned(uint64) | AsDouble(text: string)

  /** The sign and the digits of a number. */
  predicate IsNegative(text: string) { text != "" && text[0] == '-' }

  function Body(text: string): string { if IsNegative(text) then text[1..] else text }

  /** The largest magnitude of an integer. */
  function Limit(negative: bool): int { if negative then MIN_INT64_MAGNITUDE else MAX_UINT64 }

  /** Is the text that of an integer which fits? */
  predicate Fits(text: string) {
    AllDigits(Body(text)) && ValueOf(Body(text)) <= Limit(IsNegative(text))
  }

  /** The integer that a text denotes; a sign alone denotes 0. */
  function Denoted(text: string): int
    requires AllDigits(Body(text))
  {
    if IsNegative(text) then -(ValueOf(Body(text)) as int) else ValueOf(Body(text))
  }

  /** What a number is decoded to. */
  function DecodedOf(text: string): Decoded {
    if !Fits(text) then AsDouble(text)
    else if IsNegative(text) || Denoted(text) <= MAX_INT then Signed(Denoted(text))
    else Unsigned(Denoted(text))
  }

  /**
   `decode_number`: the integer, and no wrap-around on the way, exactly when the text is that of an integer which fits;
   otherwise the text is left to the decoder of doubles.
   */
  method DecodeNumber(text: string) returns (r: Decoded)
    requires text != ""
    ensures r == DecodedOf(text)
  {
    hide ValueOf;
    ghost var s := Body(text);
    var negative := text[0] == '-';
    var current := if negative then 1 else 0;
    var maxInteger: uint64 := Limit(negative);
    var threshold: uint64 := maxInteger / 10;
    var value: uint64 := 0;
    ghost var k: nat := 0;
    EmptyValue(s);
    while current < |text|
      invariant current == k + (if negative then 1 else 0) && k <= |s| && current <= |text|
      invariant AllDigits(s[..k]) && value == ValueOf(s[..k]) <= maxInteger
    {
      var c := text[current];
      assert c == s[k];
      current := current + 1;
      if !IsDigit(c) {
        assert !AllDigits(s);
        return AsDouble(text);
      }
      var digit := DigitOf(c);
      ValueStep(s, k);
      if value >= threshold {
        if value > threshold || current != |text| || digit > maxInteger % 10 {
          if AllDigits(s) { TooLarge(s, k, maxInteger); }
          return AsDouble(text);
        }
      }
      value := value * 10 + digit;
      k := k + 1;
    }
    assert s[..k] == s;
    if negative {
      r := Signed(-(value as int));
    } else if value <= MAX_INT {
      r := Signed(value);
    } else {
      r := Unsigned(value);
    }
  }

  lemma EmptyValue(s: string)
    ensures s[..0] == "" && AllDigits(s[..0]) && ValueOf(s[..0]) == 0
  {
  }

  lemma ValueStep(s: string, k: nat)
    requires k < |s| && AllDigits(s[..k]) && IsDigit(s[k])
    ensures AllDigits(s[..k + 1]) && ValueOf(s[..k + 1]) == ValueOf(s[..k]) * 10 + DigitOf(s[k])
  {
    assert s[..k + 1][..k] == s[..k];
  }

  /** Where the loop gives up, the number is too large. */
  lemma TooLarge(s: string, k: nat, limit: nat)
    requires k < |s| && AllDigits(s) && limit >= 10
    requires ValueOf(s[..k]) > limit / 10
             || (ValueOf(s[..k]) == limit / 10 && (k + 1 != |s| || DigitOf(s[k]) > limit % 10))
    ensures ValueOf(s) > limit
  {
    hide ValueOf;
    ValueStep(s, k);
    ValueGrows(s, k + 1);
    if ValueOf(s[..k]) == limit / 10 && k + 1 != |s| {
      ValueStep(s, k + 1);
      ValueGrows(s, k + 2);
    }
  }

  // ----- The printer -----

  /** The decimal digits of a number. */
  function Digits(v: nat): (s: string)
    ensures s != "" && AllDigits(s)
    decreases v
  {
    var last := [('0' as int + v % 10) as char];
    if v < 10 then last else Digits(v / 10) + last
  }

  /** The digits denote the number. */
  lemma {:induction false} DigitsDenote(v: nat)
    ensures ValueOf(Digits(v)) == v
    decreases v
  {
    var last := [('0' as int + v % 10) as char];
    if v >= 10 {
      DigitsDenote(v / 10);
      assert Digits(v) == Digits(v / 10) + last;
      assert Digits(v)[..|Digits(v)| - 1] == Digits(v / 10);
    }
  }

  lemma DigitsStep(v: nat, tail: string)
    ensures Digits(v) + tail == (if v < 10 then "" else Digits(v / 10)) + ([('0' as int + v % 10) as char] + tail)
  {
  }

  lemma PowStep(v: nat, n: nat)
    requires n > 0 && v < Pow10(n)
    ensures (v >= 10 ==> n > 1) && v / 10 < Pow10(n - 1)
  {
    if n == 1 {
      assert Pow10(1) == 10;
    }
  }

  /** `uint_to_string`: the digits, and the null character behind them, before the position `current`. */
  method UintToString(value0: uint64, buffer: array<char>, current0: nat) returns (current: nat)
    requires 25 <= current0 <= buffer.Length
    modifies buffer
    ensures current0 - 21 <= current < current0
    ensures buffer[current..current0] == Digits(value0) + ['\0']
    ensures buffer[..current] == old(buffer[..current]) && buffer[current0..] == old(buffer[current0..])
  {
    hide Digits, Pow10;
    var value: nat := value0;
    current := current0 - 1;
    buffer[current] := '\0';
    ghost var n: nat := 20;
    Below20();
    assert buffer[current..current0 - 1] == "" && Digits(value) + "" == Digits(value);
    var more := true;
    while more
      invariant current0 - 21 <= current - n <= current < current0 && buffer[current0 - 1] == '\0'
      invariant more ==> n > 0 && value < Pow10(n) && Digits(value) + buffer[current..current0 - 1] == Digits(value0)
      invariant !more ==> buffer[current..current0 - 1] == Digits(value0)
      invariant buffer[..current] == old(buffer[..current]) && buffer[current0..] == old(buffer[current0..])
      decreases more, value
    {
      ghost var tail := buffer[current..current0 - 1];
      PowStep(value, n);
      DigitsStep(value, tail);
      current := current - 1;
      buffer[current] := ('0' as int + value % 10) as char;
      assert buffer[current..current0 - 1] == [buffer[current]] + tail;
      value, n := value / 10, n - 1;
      more := value != 0;
    }
    assert buffer[current..current0] == buffer[current..current0 - 1] + ['\0'];
  }

  lemma Below20()
    ensures MAX_UINT64 < Pow10(20)
  {
    assert Pow10(4) == 10000;
    assert Pow10(8) == 100000000;
    assert Pow10(12) == 1000000000000;
    assert Pow10(16) == 10000000000000000;
  }

  /** What is printed for a 64-bit number is decoded as that number. */
  lemma PrintedIsDecoded(v: uint64)
    ensures Fits(Digits(v)) && !IsNegative(Digits(v)) && Denoted(Digits(v)) == v
    ensures v <= MIN_INT64_MAGNITUDE ==>
              Fits("-" + Digits(v)) && IsNegative("-" + Digits(v)) && Denoted("-" + Digits(v)) == -(v as int)
  {
    DigitsDenote(v);
    assert IsDigit(Digits(v)[0]);
    assert ("-" + Digits(v))[1..] == Digits(v);
  }

  // ----- In numbers -----

  /** Integers of any length: which are decoded as signed, as unsigned, and as neither. */
  lemma DecodedExactly(text: string)
    ensures DecodedOf(text).Signed? <==>
              AllDigits(Body(text)) && -9223372036854775808 <= Denoted(text) <= 2147483647
    ensures DecodedOf(text).Unsigned? <==>
              AllDigits(Body(text)) && 2147483648 <= Denoted(text) <= 18446744073709551615
    ensures DecodedOf(text).Signed? ==> DecodedOf(text) == Signed(Denoted(text))
    ensures DecodedOf(text).Unsigned? ==> DecodedOf(text) == Unsigned(Denoted(text))
    ensures DecodedOf(text).AsDouble? ==> DecodedOf(text) == AsDouble(text)
  {
    hide ValueOf;
  }

  lemma ValueAdd(s: string, t: string)
    requires AllDigits(s) && AllDigits(t) && t != ""
    ensures AllDigits(s + t)
    ensures ValueOf(s + t) == ValueOf(s + t[..|t| - 1]) * 10 + DigitOf(t[|t| - 1])
  {
    assert (s + t)[..|s + t| - 1] == s + t[..|t| - 1];
  }

  /** Four digits behind others. */
  lemma FourMore(s: string, t: string)
    requires AllDigits(s) && AllDigits(t) && |t| == 4
    ensures AllDigits(s + t)
    ensures ValueOf(s + t)
         == (((ValueOf(s) * 10 + DigitOf(t[0])) * 10 + DigitOf(t[1])) * 10 + DigitOf(t[2])) * 10 + DigitOf(t[3])
  {
    hide ValueOf, DigitOf;
    ValueAdd(s, t[..1]);
    ValueAdd(s, t[..2]);
    ValueAdd(s, t[..3]);
    ValueAdd(s, t);
    assert t[..1][..0] == "" && t[..2][..1] == t[..1] && t[..3][..2] == t[..2] && t[..4][..3] == t[..3];
    assert s + "" == s && t[..4] == t;
  }

  lemma Value4(t: string)
    requires AllDigits(t) && |t| == 4
    ensures ValueOf(t) == DigitOf(t[0]) * 1000 + DigitOf(t[1]) * 100 + DigitOf(t[2]) * 10 + DigitOf(t[3])
  {
    hide DigitOf;
    FourMore("", t);
    assert ValueOf("") == 0 && "" + t == t;
  }

  lemma ValueOf4(s: string, t: string)
    requires AllDigits(s) && AllDigits(t) && |t| == 4
    ensures AllDigits(s + t) && ValueOf(s + t) == ValueOf(s) * 10000 + ValueOf(t)
  {
    hide ValueOf, DigitOf;
    FourMore(s, t);
    Value4(t);
  }

  /** Four groups of four digits behind others. */
  lemma ValueOf16(s: string, a: string, b: string, c: string, d: string)
    requires AllDigits(s) && AllDigits(a) && AllDigits(b) && AllDigits(c) && AllDigits(d)
    requires |a| == |b| == |c| == |d| == 4
    ensures AllDigits(s + a + b + c + d)
    ensures ValueOf(s + a + b + c + d)
         == (((ValueOf(s) * 10000 + ValueOf(a)) * 10000 + ValueOf(b)) * 10000 + ValueOf(c)) * 10000 + ValueOf(d)
  {
    hide ValueOf;
    ValueOf4(s, a);
    ValueOf4(s + a, b);
    ValueOf4(s + a + b, c);
    ValueOf4(s + a + b + c, d);
  }

  lemma LargestUnsigned(last: string, v: nat)
    requires (last == "1615" && v == 18446744073709551615) || (last == "1616" && v == 18446744073709551616)
    ensures AllDigits("1844674407370955" + last) && ValueOf("1844674407370955" + last) == v
  {
    hide ValueOf;
    Value4("1844");
    Value4("6744");
    Value4("0737");
    Value4("0955");
    Value4(last);
    ValueOf16("1844", "6744", "0737", "0955", last);
    assert "1844" + "6744" + "0737" + "0955" == "1844674407370955";
  }

  lemma LargestNegative(last: string, v: nat)
    requires (last == "5808" && v == 9223372036854775808) || (last == "5809" && v == 9223372036854775809)
    ensures AllDigits("922337203685477" + last) && ValueOf("922337203685477" + last) == v
  {
    hide ValueOf;
    Value4("3372");
    Value4("0368");
    Value4("5477");
    Value4(last);
    Three("922");
    ValueOf16("922", "3372", "0368", "5477", last);
    assert "922" + "3372" + "0368" + "5477" == "922337203685477";
  }

  lemma Three(t: string)
    requires |t| == 3 && AllDigits(t)
    ensures ValueOf(t) == DigitOf(t[0]) * 100 + DigitOf(t[1]) * 10 + DigitOf(t[2])
  {
    assert t[..2][..1] == t[..1] && t[..1][..0] == "" && AllDigits(t[..1]) && AllDigits(t[..2]);
    assert ValueOf(t[..1]) == DigitOf(t[0]);
    assert ValueOf(t[..2]) == DigitOf(t[0]) * 10 + DigitOf(t[1]);
  }

  lemma LargestInt(last: string, v: nat)
    requires (last == "3647" && v == 2147483647) || (last == "3648" && v == 2147483648)
    ensures AllDigits("214748" + last) && ValueOf("214748" + last) == v
  {
    Value4("4748");
    Value4(last);
    Two("21");
    ValueOf4("21", "4748");
    ValueOf4("21" + "4748", last);
    assert "21" + "4748" == "214748";
  }

  lemma Two(t: string)
    requires |t| == 2 && AllDigits(t)
    ensures ValueOf(t) == DigitOf(t[0]) * 10 + DigitOf(t[1])
  {
    assert t[..1][..0] == "" && AllDigits(t[..1]);
    assert ValueOf(t[..1]) == DigitOf(t[0]);
  }

  /** The largest integers, and those next to them, which are left to the decoder of doubles. */
  lemma LargestIntegers()
    ensures DecodedOf("18446744073709551615") == Unsigned(18446744073709551615)
    ensures DecodedOf("18446744073709551616") == AsDouble("18446744073709551616")
    ensures DecodedOf("-9223372036854775808") == Signed(-9223372036854775808)
    ensures DecodedOf("-9223372036854775809") == AsDouble("-9223372036854775809")
    ensures DecodedOf("2147483647") == Signed(2147483647)
    ensures DecodedOf("2147483648") == Unsigned(2147483648)
  {
    hide ValueOf, AllDigits;
    LargestUnsigned("1615", 18446744073709551615);
    LargestUnsigned("1616", 18446744073709551616);
    assert "1844674407370955" + "1615" == "18446744073709551615";
    assert "1844674407370955" + "1616" == "18446744073709551616";
    LargestNegative("5808", 9223372036854775808);
    LargestNegative("5809", 9223372036854775809);
    assert "-9223372036854775808"[1..] == "922337203685477" + "5808";
    assert "-9223372036854775809"[1..] == "922337203685477" + "5809";
    LargestInt("3647", 2147483647);
    LargestInt("3648", 2147483648);
    assert "214748" + "3647" == "2147483647" && "214748" + "3648" == "2147483648";
  }
}
