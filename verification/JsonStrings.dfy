/** The strings of JSON documents: the decoding of escapes, and how a text is quoted. */
module JsonStrings {
  import opened Wrappers
  import opened Utf8
  import Utf8Text

  // ----- Escapes -----

  /** The value of a hexadecimal digit. */
  function HexDigit(c: char): (r: Option<nat>)
    ensures r.Some? ==> r.value < 16
  {
    if '0' <= c <= '9' then Some(c as int - '0' as int)
    else if 'a' <= c <= 'f' then Some(c as int - 'a' as int + 10)
    else if 'A' <= c <= 'F' then Some(c as int - 'A' as int + 10)
    else None
  }

  function Power16(n: nat): nat { if n == 0 then 1 else 16 * Power16(n - 1) }

  /** The number that `n` hexadecimal digits from `p` on denote. */
  function HexAt(s: string, p: nat, n: nat): (r: Option<nat>)
    requires p + n <= |s|
    ensures r.Some? ==> r.value < Power16(n)
  {
    if n == 0 then Some(0)
    else
      var v, d := HexAt(s, p, n - 1), HexDigit(s[p + n - 1]);
      if v.None? || d.None? then None else Some(v.value * 16 + d.value)
  }

  /** What an escape stands for, and what is behind it. */
  datatype Escape = Escape(cp: nat, next: nat)

  /** `decode_unicode_escape_sequence`. */
  function UnitAt(s: string, p: nat): (r: Option<Escape>)
    requires p <= |s|
    ensures r.Some? ==> r.value.next == p + 4 <= |s| && r.value.cp < 0x10000
  {
    assert Power16(4) == 0x10000;
    if |s| - p < 4 then None
    else
      var v := HexAt(s, p, 4);
      if v.None? then None else Some(Escape(v.value, p + 4))
  }

  /** `decode_unicode_codepoint`: after a high surrogate, any other escape is taken for the second half. */
  function CodepointAt(s: string, p: nat): (r: Option<Escape>)
    requires p <= |s|
    ensures r.Some? ==> p < r.value.next <= |s| && r.value.cp < 0x110000
  {
    var u := UnitAt(s, p);
    if u.None? || !(0xD800 <= u.value.cp <= 0xDBFF) then u
    else if |s| - u.value.next < 6 || s[u.value.next] != '\\' || s[u.value.next + 1] != 'u' then None
    else
      var v := UnitAt(s, u.value.next + 2);
      if v.None? then None
      else Some(Escape(0x10000 + u.value.cp % 0x400 * 0x400 + v.value.cp % 0x400, v.value.next))
  }

  /** The characters of bytes. */
  function Chars(bytes: seq<bv8>): (r: string)
    ensures |r| == |bytes| && forall k :: 0 <= k < |bytes| ==> r[k] as int == bytes[k] as int
  {
    seq(|bytes|, k requires 0 <= k < |bytes| => bytes[k] as char)
  }

  function Utf8Chars(cp: nat): string
    requires cp < 0x110000
  {
    Chars(Encode(cp as bv32))
  }

  /** The character that a letter behind a backslash stands for. */
  function Simple(c: char): Option<char> {
    if c in "\"/\\" then Some(c)
    else if c == 'b' then Some(8 as char)
    else if c == 'f' then Some(12 as char)
    else if c == 'n' then Some('\n')
    else if c == 'r' then Some('\r')
    else if c == 't' then Some('\t')
    else None
  }

  /** The text of a string token from `p` on. A double quote ends it, wherever it stands. */
  function UnescapeFrom(s: string, p: nat): Option<string>
    requires p <= |s|
    decreases |s| - p
  {
    if p == |s| || s[p] == '"' then Some("")
    else if s[p] != '\\' then Then([s[p]], UnescapeFrom(s, p + 1))
    else if p + 1 == |s| then None
    else if s[p + 1] == 'u' then
      var e := CodepointAt(s, p + 2);
      if e.None? then None else Then(Utf8Chars(e.value.cp), UnescapeFrom(s, e.value.next))
    else
      var c := Simple(s[p + 1]);
      if c.None? then None else Then([c.value], UnescapeFrom(s, p + 2))
  }

  function Then(before: string, rest: Option<string>): Option<string> {
    if rest.None? then None else Some(before + rest.value)
  }

  lemma ThenThen(a: string, b: string, rest: Option<string>)
    ensures Then(a, Then(b, rest)) == Then(a + b, rest)
  {
    if rest.Some? {
      assert a + (b + rest.value) == a + b + rest.value;
    }
  }

  lemma ThenNothing(a: string, rest: Option<string>)
    ensures Then("", rest) == rest && Then(a, Some("")) == Some(a)
  {
    assert a + "" == a;
    assert rest.Some? ==> "" + rest.value == rest.value;
  }

  function Unescaped(s: string): Option<string> { UnescapeFrom(s, 0) }

  // ----- The decoder -----

  method DecodeUnit(s: string, at: nat) returns (r: Option<Escape>)
    requires at <= |s|
    ensures r == UnitAt(s, at)
  {
    if |s| - at < 4 { return None; }
    var unicode, current := 0, at;
    for index := 0 to 4
      invariant current == at + index && HexAt(s, at, index) == Some(unicode)
    {
      var d := HexDigit(s[current]);
      if d.None? {
        NoHex(s, at, index + 1, 4);
        return None;
      }
      current := current + 1;
      unicode := unicode * 16 + d.value;
    }
    r := Some(Escape(unicode, current));
  }

  lemma {:induction false} NoHex(s: string, p: nat, m: nat, n: nat)
    requires m <= n && p + n <= |s| && HexAt(s, p, m).None?
    ensures HexAt(s, p, n).None?
    decreases n
  {
    if m < n {
      NoHex(s, p, m, n - 1);
    }
  }

  method DecodeCodepoint(s: string, at: nat) returns (r: Option<Escape>)
    requires at <= |s|
    ensures r == CodepointAt(s, at)
  {
    hide UnitAt;
    var u := DecodeUnit(s, at);
    if u.None? { return None; }
    var current := u.value.next;
    if 0xD800 <= u.value.cp <= 0xDBFF {
      if |s| - current < 6 { return None; }
      if s[current] != '\\' { return None; }
      current := current + 1;
      if s[current] != 'u' { return None; }
      var v := DecodeUnit(s, current + 1);
      if v.None? { return None; }
      return Some(Escape(0x10000 + u.value.cp % 0x400 * 0x400 + v.value.cp % 0x400, v.value.next));
    }
    r := u;
  }

  /** `decode_string`, between the quotes. */
  method DecodeString(s: string) returns (r: Option<string>)
    ensures r == Unescaped(s)
  {
    hide CodepointAt, Simple, Encode;
    var decoded, current := "", 0;
    ThenNothing("", UnescapeFrom(s, 0));
    while current != |s|
      invariant current <= |s| && Unescaped(s) == Then(decoded, UnescapeFrom(s, current))
      decreases |s| - current
    {
      var c := s[current];
      current := current + 1;
      if c == '"' {
        ThenNothing(decoded, None);
        return Some(decoded);
      }
      if c == '\\' {
        if current == |s| { return None; }
        var escape := s[current];
        current := current + 1;
        if escape == 'u' {
          var e := DecodeCodepoint(s, current);
          if e.None? { return None; }
          var bytes := Utf8Text.CodepointToUtf8(e.value.cp as bv32);
          ThenThen(decoded, Utf8Chars(e.value.cp), UnescapeFrom(s, e.value.next));
          decoded, current := decoded + Chars(bytes), e.value.next;
        } else {
          var d := Simple(escape);
          if d.None? { return None; }
          ThenThen(decoded, [d.value], UnescapeFrom(s, current));
          decoded := decoded + [d.value];
        }
      } else {
        ThenThen(decoded, [c], UnescapeFrom(s, current));
        decoded := decoded + [c];
      }
    }
    ThenNothing(decoded, None);
    r := Some(decoded);
  }

  // ----- Quoting -----

  /** A character between quotes: only quotes and backslashes need an escape. */
  function Quoted(c: char): string {
    if c in "\"\\" then ['\\', c] else [c]
  }

  function QuotedAll(text: string): string {
    if text == "" then "" else Quoted(text[0]) + QuotedAll(text[1..])
  }

  /** `s` has `part` at `p`. */
  predicate PartAt(s: string, p: nat, part: string) { p + |part| <= |s| && s[p..p + |part|] == part }

  lemma PartSplit(s: string, p: nat, a: string, b: string)
    requires PartAt(s, p, a + b)
    ensures PartAt(s, p, a) && PartAt(s, p + |a|, b)
  {
    assert s[p..p + |a|] == s[p..p + |a + b|][..|a|] == a;
    assert s[p + |a|..p + |a| + |b|] == s[p..p + |a + b|][|a|..] == b;
  }

  lemma PartChar(s: string, p: nat, part: string, k: nat)
    requires PartAt(s, p, part) && k < |part|
    ensures s[p + k] == part[k]
  {
    assert s[p + k] == s[p..p + |part|][k];
  }

  lemma QuotedOne(s: string, p: nat, c: char)
    requires PartAt(s, p, Quoted(c))
    ensures p + |Quoted(c)| <= |s| && UnescapeFrom(s, p) == Then([c], UnescapeFrom(s, p + |Quoted(c)|))
  {
    hide CodepointAt, PartAt;
    PartBounds(s, p, Quoted(c));
    PartChar(s, p, Quoted(c), 0);
    if c in "\"\\" {
      PartChar(s, p, Quoted(c), 1);
    }
  }

  /** What is quoted is decoded, whatever comes behind it. */
  lemma {:induction false} QuotedThen(s: string, p: nat, text: string)
    requires PartAt(s, p, QuotedAll(text))
    ensures p + |QuotedAll(text)| <= |s|
    ensures UnescapeFrom(s, p) == Then(text, UnescapeFrom(s, p + |QuotedAll(text)|))
    decreases |text|
  {
    hide UnescapeFrom, PartAt, Quoted;
    PartBounds(s, p, QuotedAll(text));
    if text == "" {
      ThenNothing("", UnescapeFrom(s, p));
    } else {
      var q := Quoted(text[0]);
      PartSplit(s, p, q, QuotedAll(text[1..]));
      QuotedOne(s, p, text[0]);
      QuotedThen(s, p + |q|, text[1..]);
      ThenThen([text[0]], text[1..], UnescapeFrom(s, p + |QuotedAll(text)|));
      assert text == [text[0]] + text[1..];
    }
  }

  lemma PartBounds(s: string, p: nat, part: string)
    requires PartAt(s, p, part)
    ensures p + |part| <= |s|
  {
  }

  /** Any text can be quoted. */
  lemma QuotingUndone(text: string)
    ensures Unescaped(QuotedAll(text)) == Some(text)
  {
    hide CodepointAt, Simple;
    assert PartAt(QuotedAll(text), 0, QuotedAll(text));
    QuotedThen(QuotedAll(text), 0, text);
    ThenNothing(text, None);
  }

  // ----- Unicode escapes -----

  function HexChar(d: nat): char
    requires d < 16
  {
    if d < 10 then ('0' as int + d) as char else ('a' as int + d - 10) as char
  }

  /** Four hexadecimal digits. */
  function Hex4(v: nat): (r: string)
    requires v < 0x10000
    ensures |r| == 4
  {
    [HexChar(v / 0x1000), HexChar(v / 0x100 % 16), HexChar(v / 0x10 % 16), HexChar(v % 16)]
  }

  /** A code point as an escape, or as two for the halves of a surrogate pair. */
  function UnicodeEscape(cp: nat): string
    requires cp < 0x110000
  {
    if cp < 0x10000 then "\\u" + Hex4(cp)
    else "\\u" + Hex4(0xD800 + (cp - 0x10000) / 0x400) + "\\u" + Hex4(0xDC00 + (cp - 0x10000) % 0x400)
  }

  lemma HexCharDigit(d: nat)
    requires d < 16
    ensures HexDigit(HexChar(d)) == Some(d)
  {
  }

  lemma Hex4Value(s: string, p: nat, v: nat)
    requires v < 0x10000 && PartAt(s, p, Hex4(v))
    ensures UnitAt(s, p) == Some(Escape(v, p + 4))
  {
    hide HexDigit, HexChar;
    PartChar(s, p, Hex4(v), 0);
    PartChar(s, p, Hex4(v), 1);
    PartChar(s, p, Hex4(v), 2);
    PartChar(s, p, Hex4(v), 3);
    HexCharDigit(v / 0x1000);
    HexCharDigit(v / 0x100 % 16);
    HexCharDigit(v / 0x10 % 16);
    HexCharDigit(v % 16);
    assert HexAt(s, p, 0) == Some(0);
    assert HexAt(s, p, 1) == Some(v / 0x1000);
    assert HexAt(s, p, 2) == Some(v / 0x100);
    assert HexAt(s, p, 3) == Some(v / 0x10);
  }

  /** An escaped code point, surrogates apart, is decoded to its bytes in UTF-8. */
  lemma UnicodeEscapeUndone(cp: nat)
    requires cp < 0x110000 && !(0xD800 <= cp <= 0xDFFF)
    ensures Unescaped(UnicodeEscape(cp)) == Some(Utf8Chars(cp))
  {
    hide Hex4, UnitAt, Utf8Chars, Simple;
    var s := UnicodeEscape(cp);
    if cp < 0x10000 {
      assert s[2..6] == Hex4(cp);
      Hex4Value(s, 2, cp);
    } else {
      var h, l := 0xD800 + (cp - 0x10000) / 0x400, 0xDC00 + (cp - 0x10000) % 0x400;
      assert s[2..6] == Hex4(h) && s[8..12] == Hex4(l);
      Hex4Value(s, 2, h);
      Hex4Value(s, 8, l);
    }
    EscapeAlone(s, cp);
  }

  lemma EscapeAlone(s: string, cp: nat)
    requires |s| > 2 && s[0] == '\\' && s[1] == 'u' && CodepointAt(s, 2) == Some(Escape(cp, |s|))
    ensures cp < 0x110000 && Unescaped(s) == Some(Utf8Chars(cp))
  {
    hide CodepointAt, Utf8Chars, Simple;
    assert UnescapeFrom(s, |s|) == Some("");
    ThenNothing(Utf8Chars(cp), None);
  }

  // ----- Single quotes -----

  /** A character between single quotes, if these and backslashes are escaped. */
  function SingleQuoted(c: char): string {
    if c in "'\\" then ['\\', c] else [c]
  }

  function SingleQuotedAll(text: string): string {
    if text == "" then "" else SingleQuoted(text[0]) + SingleQuotedAll(text[1..])
  }

  lemma {:induction false} SingleQuotedConcat(a: string, b: string)
    ensures SingleQuotedAll(a + b) == SingleQuotedAll(a) + SingleQuotedAll(b)
  {
    if a == "" {
      assert a + b == b;
    } else {
      assert (a + b)[1..] == a[1..] + b;
      SingleQuotedConcat(a[1..], b);
    }
  }

  /** Without quotes in the text, the two ways of quoting agree. */
  lemma {:induction false} QuotedAlike(text: string)
    requires '"' !in text && '\'' !in text
    ensures SingleQuotedAll(text) == QuotedAll(text)
  {
    if text != "" {
      QuotedAlike(text[1..]);
    }
  }

  /** A text with quotes and backslashes escaped is cut at the next double quote. */
  lemma CutAtQuote(text: string, rest: string)
    ensures Unescaped(QuotedAll(text) + "\"" + rest) == Some(text)
  {
    hide CodepointAt, Simple;
    var q := QuotedAll(text);
    var s := q + "\"" + rest;
    assert PartAt(s, 0, q) && s[|q|] == '"';
    QuotedThen(s, 0, text);
    ThenNothing(text, None);
  }

  /** Behind it, an escaped single quote is an error. */
  lemma NoSingleQuote(text: string, rest: string)
    ensures Unescaped(QuotedAll(text) + "\\'" + rest) == None
  {
    hide CodepointAt;
    var q := QuotedAll(text);
    var s := q + "\\'" + rest;
    assert PartAt(s, 0, q) && s[|q|] == '\\' && s[|q| + 1] == '\'';
    QuotedThen(s, 0, text);
  }

  /** Where the first quote of a text is, and what is before it. */
  lemma {:induction false} FirstQuote(text: string) returns (k: nat)
    requires '"' in text || '\'' in text
    ensures k < |text| && (text[k] == '"' || text[k] == '\'') && '"' !in text[..k] && '\'' !in text[..k]
  {
    if text[0] == '"' || text[0] == '\'' {
      k := 0;
    } else {
      var m := FirstQuote(text[1..]);
      k := m + 1;
      assert text[..k] == [text[0]] + text[1..][..m];
    }
  }

  lemma QuoteNext(c: char, rest: string)
    ensures c == '"' ==> SingleQuotedAll([c] + rest) == "\"" + SingleQuotedAll(rest)
    ensures c == '\'' ==> SingleQuotedAll([c] + rest) == "\\'" + SingleQuotedAll(rest)
  {
    assert ([c] + rest)[1..] == rest;
  }

  /** What the first quote of a text makes of it. */
  lemma AtQuote(before: string, c: char, rest: string)
    requires '"' !in before && '\'' !in before && (c == '"' || c == '\'')
    ensures Unescaped(SingleQuotedAll(before + ([c] + rest))) == if c == '"' then Some(before) else None
  {
    hide Unescaped, QuotedAll, SingleQuotedAll;
    SingleQuotedConcat(before, [c] + rest);
    QuotedAlike(before);
    QuoteNext(c, rest);
    var q, r := QuotedAll(before), SingleQuotedAll(rest);
    if c == '"' {
      assert q + ("\"" + r) == q + "\"" + r;
      CutAtQuote(before, r);
    } else {
      assert q + ("\\'" + r) == q + "\\'" + r;
      NoSingleQuote(before, r);
    }
  }

  /**
   Texts in single quotes: with single quotes and backslashes escaped, a text is read back if and only if there is no
   quote in it, of either kind; and it is refused if and only if the first one is a single quote.
   */
  lemma SingleQuotesExact(text: string)
    ensures Unescaped(SingleQuotedAll(text)) == Some(text) <==> '"' !in text && '\'' !in text
    ensures Unescaped(SingleQuotedAll(text)) == None <==>
              exists k :: 0 <= k < |text| && text[k] == '\'' && '"' !in text[..k]
  {
    hide Unescaped, SingleQuotedAll;
    if '"' in text || '\'' in text {
      var k := FirstQuote(text);
      assert text == text[..k] + ([text[k]] + text[k + 1..]);
      AtQuote(text[..k], text[k], text[k + 1..]);
      if text[k] == '"' {
        assert |text[..k]| < |text|;
        assert forall m :: k < m < |text| ==> text[..m][k] == '"';
        assert forall m :: 0 <= m < k ==> text[m] in text[..k];
      }
    } else {
      QuotedAlike(text);
      QuotingUndone(text);
    }
  }

  /** The text before the first double quote. */
  function UpToQuote(s: string): string {
    if s == "" || s[0] == '"' then "" else [s[0]] + UpToQuote(s[1..])
  }

  lemma {:induction false} PlainFrom(s: string, p: nat)
    requires p <= |s| && '\\' !in s[p..]
    ensures UnescapeFrom(s, p) == Some(UpToQuote(s[p..]))
    ensures UpToQuote(s[p..]) == s[p..] <==> '"' !in s[p..]
    decreases |s| - p
  {
    hide CodepointAt, Simple;
    if p < |s| && s[p] != '"' {
      assert s[p..] == [s[p]] + s[p + 1..];
      PlainFrom(s, p + 1);
    }
  }

  /** Without backslashes, a string is cut at its first double quote, and read as it is exactly if it has none. */
  lemma SingleQuotesPlain(s: string)
    requires '\\' !in s
    ensures Unescaped(s) == Some(UpToQuote(s)) && (Unescaped(s) == Some(s) <==> '"' !in s)
  {
    assert s[0..] == s;
    PlainFrom(s, 0);
  }

  /** For example, `a"b` and `a'b`. */
  lemma SingleQuotes()
    ensures Unescaped("a\"b") == Some("a") && Unescaped("a\\'b") == None
  {
    assert UnescapeFrom("a\"b", 1) == Some("");
    ThenNothing("a", None);
    assert UnescapeFrom("a\\'b", 1) == None;
  }
}
