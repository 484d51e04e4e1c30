/** How strings are spelled in JSON documents: characters, and the escapes that stand for characters. */
module JsonGlyphs {
  import opened Wrappers
  import opened JsonStrings
  import opened JsonGrammar
  import opened JsonBlanks

  /** A character as it is, a letter behind a backslash, four hexadecimal digits, or two times four. */
  datatype Glyph = Plain(c: char) | Letter(c: char) | Unit(digits: string) | Pair(high: string, low: string)

  /**
   A string between quotes. What follows a double quote in a string between single quotes is cut off by the decoder.
   */
  datatype Quotation = Quotation(quote: char, glyphs: seq<Glyph>, cut: string)

  function GlyphText(g: Glyph): string {
    match g
    case Plain(c) => [c]
    case Letter(c) => ['\\', c]
    case Unit(digits) => "\\u" + digits
    case Pair(high, low) => "\\u" + high + ("\\u" + low)
  }

  function GlyphsText(gs: seq<Glyph>): string {
    if gs == [] then "" else GlyphText(gs[0]) + GlyphsText(gs[1..])
  }

  function QuotationText(q: Quotation): string { [q.quote] + (GlyphsText(q.glyphs) + q.cut + [q.quote]) }

  predicate IsHex(c: char) { '0' <= c <= '9' || 'a' <= c <= 'f' || 'A' <= c <= 'F' }

  function HexValue(c: char): nat
    requires IsHex(c)
  {
    if c <= '9' then c as int - '0' as int
    else if c >= 'a' then 10 + (c as int - 'a' as int)
    else 10 + (c as int - 'A' as int)
  }

  predicate FourHex(s: string) { |s| == 4 && forall k :: 0 <= k < 4 ==> IsHex(s[k]) }

  function FourValue(s: string): (v: nat)
    requires FourHex(s)
    ensures v < 0x10000
  {
    0x1000 * HexValue(s[0]) + 0x100 * HexValue(s[1]) + 0x10 * HexValue(s[2]) + HexValue(s[3])
  }

  /** The first half of a surrogate pair. */
  predicate IsHigh(v: nat) { 0xD800 <= v <= 0xDBFF }

  /** A double quote ends the text even between single quotes. */
  predicate IsGlyph(g: Glyph, quote: char) {
    match g
    case Plain(c) => c != '"' && c != '\\' && c != quote
    case Letter(c) =>
      c == '"' || c == '/' || c == '\\' || c == 'b' || c == 'f' || c == 'n' || c == 'r' || c == 't'
    case Unit(digits) => FourHex(digits) && !IsHigh(FourValue(digits))
    case Pair(high, low) => FourHex(high) && FourHex(low) && IsHigh(FourValue(high))
  }

  predicate AreGlyphs(gs: seq<Glyph>, quote: char) {
    forall k :: 0 <= k < |gs| ==> IsGlyph(gs[k], quote)
  }

  /** No quote and no backslash stands alone. */
  predicate Paired(s: string, quote: char) {
    if s == "" then true
    else if s[0] == '\\' then |s| > 1 && Paired(s[2..], quote)
    else s[0] != quote && Paired(s[1..], quote)
  }

  predicate IsQuotation(f: Features, q: Quotation) {
    && (q.quote == '"' || (q.quote == '\'' && f.allowSingleQuotes)) && AreGlyphs(q.glyphs, q.quote)
    && (q.cut == "" || (q.quote == '\'' && q.cut[0] == '"' && Paired(q.cut, '\'')))
  }

  /** What a glyph stands for; the low half of a pair need not be one. */
  function GlyphMeaning(g: Glyph, quote: char): string
    requires IsGlyph(g, quote)
  {
    match g
    case Plain(c) => [c]
    case Letter(c) =>
      if c == 'b' then [8 as char]
      else if c == 'f' then [12 as char]
      else if c == 'n' then [10 as char]
      else if c == 'r' then [13 as char]
      else if c == 't' then [9 as char]
      else [c]
    case Unit(digits) => Utf8Chars(FourValue(digits))
    case Pair(high, low) => Utf8Chars(0x10000 + (FourValue(high) - 0xD800) * 0x400 + FourValue(low) % 0x400)
  }

  function GlyphsMeaning(gs: seq<Glyph>, quote: char): string
    requires AreGlyphs(gs, quote)
  {
    if gs == [] then "" else GlyphMeaning(gs[0], quote) + GlyphsMeaning(gs[1..], quote)
  }

  // ----- What is quoted is a string -----

  /** The end of a string is the first quote that stands alone. */
  lemma {:induction false} PairedEnds(doc: string, p: nat, s: string, quote: char)
    requires PartAt(doc, p, s + [quote]) && Paired(s, quote) && quote != '\\'
    ensures StringEnd(doc, p, quote) == Some(p + |s| + 1)
    decreases |s|
  {
    var whole := s + [quote];
    PartFits(doc, p, whole);
    PartChar(doc, p, whole, 0);
    if s != "" {
      if s[0] == '\\' {
        assert whole == s[..2] + (s[2..] + [quote]);
        PartSplit(doc, p, s[..2], s[2..] + [quote]);
        PairedEnds(doc, p + 2, s[2..], quote);
      } else {
        assert whole == [s[0]] + (s[1..] + [quote]);
        PartSplit(doc, p, [s[0]], s[1..] + [quote]);
        PairedEnds(doc, p + 1, s[1..], quote);
      }
    }
  }

  lemma HexUnpaired(s: string, tail: string, quote: char)
    requires FourHex(s) && !IsHex(quote)
    ensures Paired(s + tail, quote) == Paired(tail, quote)
  {
    hide IsHex;
    HexChars(s, quote);
    assert s + tail == [s[0]] + ([s[1]] + ([s[2]] + ([s[3]] + tail)));
    PairedMore(s[0], [s[1]] + ([s[2]] + ([s[3]] + tail)), quote);
    PairedMore(s[1], [s[2]] + ([s[3]] + tail), quote);
    PairedMore(s[2], [s[3]] + tail, quote);
    PairedMore(s[3], tail, quote);
  }

  lemma HexChars(s: string, quote: char)
    requires FourHex(s) && !IsHex(quote)
    ensures forall k :: 0 <= k < 4 ==> s[k] != '\\' && s[k] != quote
  {
  }

  lemma PairedMore(c: char, tail: string, quote: char)
    requires c != '\\' && c != quote
    ensures Paired([c] + tail, quote) == Paired(tail, quote)
  {
    assert ([c] + tail)[1..] == tail;
  }

  lemma PairedEscape(c: char, tail: string, quote: char)
    ensures Paired(['\\', c] + tail, quote) == Paired(tail, quote)
  {
    assert (['\\', c] + tail)[2..] == tail;
  }

  lemma GlyphPaired(g: Glyph, tail: string, quote: char)
    requires IsGlyph(g, quote) && (quote == '"' || quote == '\'')
    ensures Paired(GlyphText(g) + tail, quote) == Paired(tail, quote)
  {
    hide Paired, FourHex, FourValue;
    match g
    case Plain(c) => PairedMore(c, tail, quote);
    case Letter(c) => PairedEscape(c, tail, quote);
    case Unit(digits) =>
      assert GlyphText(g) + tail == ['\\', 'u'] + (digits + tail);
      PairedEscape('u', digits + tail, quote);
      HexUnpaired(digits, tail, quote);
    case Pair(high, low) =>
      assert GlyphText(g) + tail == ['\\', 'u'] + (high + (['\\', 'u'] + (low + tail)));
      PairedEscape('u', high + (['\\', 'u'] + (low + tail)), quote);
      HexUnpaired(high, ['\\', 'u'] + (low + tail), quote);
      PairedEscape('u', low + tail, quote);
      HexUnpaired(low, tail, quote);
  }

  lemma {:induction false} GlyphsPaired(gs: seq<Glyph>, tail: string, quote: char)
    requires AreGlyphs(gs, quote) && Paired(tail, quote) && (quote == '"' || quote == '\'')
    ensures Paired(GlyphsText(gs) + tail, quote)
  {
    hide Paired, GlyphText;
    if gs == [] {
      assert GlyphsText(gs) + tail == tail;
    } else {
      GlyphsPaired(gs[1..], tail, quote);
      GlyphPaired(gs[0], GlyphsText(gs[1..]) + tail, quote);
      assert GlyphsText(gs) + tail == GlyphText(gs[0]) + (GlyphsText(gs[1..]) + tail);
    }
  }

  lemma HexRead(s: string, p: nat, digits: string)
    requires FourHex(digits) && PartAt(s, p, digits)
    ensures UnitAt(s, p) == Some(Escape(FourValue(digits), p + 4))
  {
    hide HexDigit, HexValue;
    PartChar(s, p, digits, 0);
    PartChar(s, p, digits, 1);
    PartChar(s, p, digits, 2);
    PartChar(s, p, digits, 3);
    HexIsDigit(digits[0]);
    HexIsDigit(digits[1]);
    HexIsDigit(digits[2]);
    HexIsDigit(digits[3]);
    assert HexAt(s, p, 0) == Some(0);
    assert HexAt(s, p, 1) == Some(HexValue(digits[0]));
    assert HexAt(s, p, 2) == Some(HexValue(digits[0]) * 16 + HexValue(digits[1]));
    assert HexAt(s, p, 3) == Some((HexValue(digits[0]) * 16 + HexValue(digits[1])) * 16 + HexValue(digits[2]));
  }

  /** The digits that the decoder accepts, and their values. */
  lemma HexIsDigit(c: char)
    ensures HexDigit(c) == if IsHex(c) then Some(HexValue(c)) else None
  {
  }

  lemma UnitRead(s: string, p: nat, digits: string)
    requires FourHex(digits) && PartAt(s, p, "\\u" + digits)
    ensures p + 6 <= |s| && s[p] == '\\' && s[p + 1] == 'u'
    ensures UnitAt(s, p + 2) == Some(Escape(FourValue(digits), p + 6))
  {
    PartFits(s, p, "\\u" + digits);
    PartSplit(s, p, "\\u", digits);
    PartChar(s, p, "\\u", 0);
    PartChar(s, p, "\\u", 1);
    HexRead(s, p + 2, digits);
  }

  lemma GlyphRead(s: string, p: nat, g: Glyph, quote: char)
    requires IsGlyph(g, quote) && PartAt(s, p, GlyphText(g))
    ensures p + |GlyphText(g)| <= |s|
    ensures UnescapeFrom(s, p) == Then(GlyphMeaning(g, quote), UnescapeFrom(s, p + |GlyphText(g)|))
  {
    hide PartAt, UnitAt, Utf8Chars, FourHex, FourValue;
    PartFits(s, p, GlyphText(g));
    match g
    case Plain(c) => PartChar(s, p, GlyphText(g), 0);
    case Letter(c) =>
      PartChar(s, p, GlyphText(g), 0);
      PartChar(s, p, GlyphText(g), 1);
    case Unit(digits) =>
      FourLong(digits);
      UnitRead(s, p, digits);
    case Pair(high, low) =>
      FourLong(high);
      FourLong(low);
      PartSplit(s, p, "\\u" + high, "\\u" + low);
      UnitRead(s, p, high);
      UnitRead(s, p + 6, low);
      HighRest(FourValue(high));
  }

  lemma FourLong(s: string)
    requires FourHex(s)
    ensures |s| == 4
  {
  }

  lemma HighRest(v: nat)
    requires IsHigh(v)
    ensures v % 0x400 == v - 0xD800
  {
  }

  lemma {:induction false} GlyphsRead(s: string, p: nat, gs: seq<Glyph>, quote: char)
    requires AreGlyphs(gs, quote) && PartAt(s, p, GlyphsText(gs))
    ensures p + |GlyphsText(gs)| <= |s|
    ensures UnescapeFrom(s, p) == Then(GlyphsMeaning(gs, quote), UnescapeFrom(s, p + |GlyphsText(gs)|))
    decreases |gs|
  {
    hide UnescapeFrom, PartAt, GlyphText, GlyphMeaning, IsGlyph;
    PartFits(s, p, GlyphsText(gs));
    if gs == [] {
      ThenNothing("", UnescapeFrom(s, p));
    } else {
      var w := GlyphText(gs[0]);
      PartSplit(s, p, w, GlyphsText(gs[1..]));
      GlyphRead(s, p, gs[0], quote);
      GlyphsRead(s, p + |w|, gs[1..], quote);
      ThenThen(GlyphMeaning(gs[0], quote), GlyphsMeaning(gs[1..], quote), UnescapeFrom(s, p + |GlyphsText(gs)|));
    }
  }

  /** Between the quotes. */
  lemma GlyphsUnescaped(f: Features, q: Quotation)
    requires IsQuotation(f, q)
    ensures Unescaped(GlyphsText(q.glyphs) + q.cut) == Some(GlyphsMeaning(q.glyphs, q.quote))
  {
    hide GlyphsText, GlyphsMeaning, AreGlyphs, CodepointAt, Simple;
    var w := GlyphsText(q.glyphs);
    var s := w + q.cut;
    assert s[0..|w|] == w;
    GlyphsRead(s, 0, q.glyphs, q.quote);
    assert UnescapeFrom(s, |w|) == Some("");
    ThenNothing(GlyphsMeaning(q.glyphs, q.quote), None);
  }

  /** A string that is quoted is a token, with the text that its glyphs stand for. */
  lemma QuotationToken(x: Source, p: nat, q: Quotation)
    requires IsQuotation(x.features, q) && PartAt(x.doc, p, QuotationText(q))
    ensures p + |QuotationText(q)| <= |x.doc| && x.doc[p] == q.quote
    ensures TokenFrom(x, p) == Token(Str, p, p + |QuotationText(q)|)
    ensures StringIn(x, TokenFrom(x, p)) == Some(GlyphsMeaning(q.glyphs, q.quote))
  {
    hide StringEnd, GlyphsText, GlyphsMeaning, AreGlyphs, Unescaped, PartAt;
    var inner := GlyphsText(q.glyphs) + q.cut;
    PartFits(x.doc, p, QuotationText(q));
    PartSplit(x.doc, p, [q.quote], inner + [q.quote]);
    FirstOf(x.doc, p, q.quote);
    CutPaired(x.features, q);
    GlyphsPaired(q.glyphs, q.cut, q.quote);
    PairedEnds(x.doc, p + 1, inner, q.quote);
    PartSplit(x.doc, p + 1, inner, [q.quote]);
    PartIs(x.doc, p + 1, inner);
    GlyphsUnescaped(x.features, q);
  }

  lemma CutPaired(f: Features, q: Quotation)
    requires IsQuotation(f, q)
    ensures Paired(q.cut, q.quote)
  {
  }

  lemma PartIs(s: string, p: nat, part: string)
    requires PartAt(s, p, part)
    ensures p + |part| <= |s| && s[p..p + |part|] == part
  {
  }

  // ----- A string is quoted -----

  /** What is between the quotes of a string token. */
  lemma {:induction false} InsideString(doc: string, p: nat, quote: char)
    requires p <= |doc| && quote != '\\' && StringEnd(doc, p, quote).Some?
    ensures (var e := StringEnd(doc, p, quote).value; Paired(doc[p..e - 1], quote) && doc[e - 1] == quote)
    decreases |doc| - p
  {
    var e := StringEnd(doc, p, quote).value;
    if doc[p] == '\\' {
      InsideString(doc, p + 2, quote);
      Slices(doc, p, p + 2, e - 1);
      assert doc[p..e - 1][2..] == doc[p + 2..e - 1];
    } else if doc[p] != quote {
      InsideString(doc, p + 1, quote);
      assert doc[p..e - 1][1..] == doc[p + 1..e - 1];
    } else {
      assert doc[p..e - 1] == "";
    }
  }

  lemma UnitDigits(s: string, p: nat)
    requires p <= |s| && UnitAt(s, p).Some?
    ensures p + 4 <= |s| && FourHex(s[p..p + 4]) && UnitAt(s, p).value == Escape(FourValue(s[p..p + 4]), p + 4)
  {
    hide HexDigit, HexValue;
    HexIsDigit(s[p]);
    HexIsDigit(s[p + 1]);
    HexIsDigit(s[p + 2]);
    HexIsDigit(s[p + 3]);
    assert HexAt(s, p, 4).Some? && HexAt(s, p, 3).Some? && HexAt(s, p, 2).Some? && HexAt(s, p, 1).Some?;
    var d := s[p..p + 4];
    assert d[0] == s[p] && d[1] == s[p + 1] && d[2] == s[p + 2] && d[3] == s[p + 3];
    assert PartAt(s, p, d);
    HexRead(s, p, d);
  }

  /** The glyph of an escape with digits. */
  lemma EscapeGlyph(s: string, p: nat, quote: char) returns (g: Glyph)
    requires p + 2 <= |s| && s[p] == '\\' && s[p + 1] == 'u' && CodepointAt(s, p + 2).Some?
    requires quote == '"' || quote == '\''
    ensures IsGlyph(g, quote) && GlyphMeaning(g, quote) == Utf8Chars(CodepointAt(s, p + 2).value.cp)
    ensures s[p..CodepointAt(s, p + 2).value.next] == GlyphText(g)
  {
    hide UnitAt, Utf8Chars, FourHex, FourValue;
    var u, n := UnitAt(s, p + 2).value, CodepointAt(s, p + 2).value.next;
    UnitDigits(s, p + 2);
    var high := s[p + 2..p + 6];
    assert s[p..p + 6] == "\\u" + high by { Slices(s, p, p + 2, p + 6); }
    if !IsHigh(u.cp) {
      g := Unit(high);
    } else {
      UnitDigits(s, p + 8);
      var low := s[p + 8..p + 12];
      assert s[p + 6..p + 12] == "\\u" + low by { Slices(s, p + 6, p + 8, p + 12); }
      g := Pair(high, low);
      Slices(s, p, p + 6, p + 12);
      HighRest(u.cp);
    }
  }

  lemma LetterGlyph(c: char, quote: char)
    requires Simple(c).Some?
    ensures IsGlyph(Letter(c), quote) && GlyphMeaning(Letter(c), quote) == [Simple(c).value]
  {
  }

  lemma GlyphsCons(g: Glyph, gs: seq<Glyph>, quote: char)
    requires IsGlyph(g, quote) && AreGlyphs(gs, quote)
    ensures AreGlyphs([g] + gs, quote) && GlyphsText([g] + gs) == GlyphText(g) + GlyphsText(gs)
    ensures GlyphsMeaning([g] + gs, quote) == GlyphMeaning(g, quote) + GlyphsMeaning(gs, quote)
  {
    hide IsGlyph, GlyphText, GlyphMeaning;
    assert ([g] + gs)[1..] == gs;
  }

  lemma PlainGlyph(s: string, p: nat, quote: char)
    requires p < |s| && s[p] != '"' && s[p] != '\\' && s[p] != quote
    ensures IsGlyph(Plain(s[p]), quote) && s[p..p + 1] == GlyphText(Plain(s[p]))
    ensures UnescapeFrom(s, p) == Then(GlyphMeaning(Plain(s[p]), quote), UnescapeFrom(s, p + 1))
  {
    hide CodepointAt, Simple;
  }

  lemma LetterThere(s: string, p: nat, quote: char)
    requires p < |s| && s[p] == '\\' && UnescapeFrom(s, p).Some?
    ensures p + 1 < |s|
    ensures s[p + 1] != 'u' ==>
              && IsGlyph(Letter(s[p + 1]), quote) && s[p..p + 2] == GlyphText(Letter(s[p + 1]))
              && UnescapeFrom(s, p) == Then(GlyphMeaning(Letter(s[p + 1]), quote), UnescapeFrom(s, p + 2))
    ensures s[p + 1] == 'u' ==>
              && CodepointAt(s, p + 2).Some?
              && UnescapeFrom(s, p) == Then(Utf8Chars(CodepointAt(s, p + 2).value.cp),
                                            UnescapeFrom(s, CodepointAt(s, p + 2).value.next))
  {
    hide CodepointAt, Simple, Utf8Chars, IsGlyph, GlyphMeaning;
    if s[p + 1] != 'u' { LetterGlyph(s[p + 1], quote); }
  }

  /** The first glyph of a text that is decoded. */
  lemma FirstGlyph(s: string, p: nat, quote: char) returns (g: Glyph)
    requires p < |s| && s[p] != '"' && UnescapeFrom(s, p).Some? && (s[p] != '\\' ==> s[p] != quote)
    requires quote == '"' || quote == '\''
    ensures IsGlyph(g, quote) && p < p + |GlyphText(g)| <= |s| && s[p..p + |GlyphText(g)|] == GlyphText(g)
    ensures UnescapeFrom(s, p) == Then(GlyphMeaning(g, quote), UnescapeFrom(s, p + |GlyphText(g)|))
  {
    hide CodepointAt, Simple, Utf8Chars, UnescapeFrom, IsGlyph, GlyphMeaning;
    if s[p] != '\\' {
      g := Plain(s[p]);
      PlainGlyph(s, p, quote);
    } else {
      LetterThere(s, p, quote);
      if s[p + 1] == 'u' {
        g := EscapeGlyph(s, p, quote);
        FromTo(s, p, CodepointAt(s, p + 2).value.next, g);
      } else {
        g := Letter(s[p + 1]);
      }
    }
  }

  lemma FromTo(s: string, p: nat, q: nat, g: Glyph)
    requires p < q <= |s| && s[p..q] == GlyphText(g)
    ensures p + |GlyphText(g)| == q
  {
  }

  lemma PairedAfter(s: string, p: nat, g: Glyph, quote: char)
    requires IsGlyph(g, quote) && p + |GlyphText(g)| <= |s| && s[p..p + |GlyphText(g)|] == GlyphText(g)
    requires Paired(s[p..], quote) && (quote == '"' || quote == '\'')
    ensures Paired(s[p + |GlyphText(g)|..], quote)
  {
    hide IsGlyph, GlyphText, Paired;
    GlyphPaired(g, s[p + |GlyphText(g)|..], quote);
    assert s[p..] == s[p..p + |GlyphText(g)|] + s[p + |GlyphText(g)|..];
  }

  lemma FirstPaired(s: string, p: nat, quote: char)
    requires p < |s| && Paired(s[p..], quote)
    ensures s[p] != '\\' ==> s[p] != quote
  {
  }

  lemma {:induction false} GlyphsOf(s: string, p: nat, quote: char) returns (gs: seq<Glyph>, cut: string)
    requires p <= |s| && UnescapeFrom(s, p).Some? && Paired(s[p..], quote) && (quote == '"' || quote == '\'')
    ensures AreGlyphs(gs, quote) && s[p..] == GlyphsText(gs) + cut
    ensures UnescapeFrom(s, p) == Some(GlyphsMeaning(gs, quote))
    ensures cut == "" || (quote == '\'' && cut[0] == '"' && Paired(cut, '\''))
    decreases |s| - p
  {
    hide IsGlyph, GlyphText, GlyphMeaning, UnescapeFrom, Paired;
    EndOfText(s, p);
    if p == |s| {
      gs, cut := [], "";
    } else if s[p] == '"' {
      gs, cut := [], s[p..];
      QuoteIsSingle(s, p, quote);
    } else {
      FirstPaired(s, p, quote);
      var g := FirstGlyph(s, p, quote);
      PairedAfter(s, p, g, quote);
      var q := p + |GlyphText(g)|;
      var tail;
      ThenSome(GlyphMeaning(g, quote), UnescapeFrom(s, q));
      tail, cut := GlyphsOf(s, q, quote);
      GlyphsCons(g, tail, quote);
      gs := [g] + tail;
      assert s[p..] == s[p..q] + s[q..];
    }
  }

  lemma EndOfText(s: string, p: nat)
    requires p <= |s|
    ensures p == |s| || s[p] == '"' ==> UnescapeFrom(s, p) == Some("")
  {
  }

  lemma QuoteIsSingle(s: string, p: nat, quote: char)
    requires p < |s| && s[p] == '"' && Paired(s[p..], quote) && (quote == '"' || quote == '\'')
    ensures quote == '\'' && Paired(s[p..], '\'') && s[p..][0] == '"'
  {
  }

  lemma ThenSome(a: string, rest: Option<string>)
    requires Then(a, rest).Some?
    ensures rest.Some? && Then(a, rest).value == a + rest.value
  {
  }

  lemma StringStarts(x: Source, s: nat)
    requires s < |x.doc| && TokenFrom(x, s).kind == Str
    ensures StringEnd(x.doc, s + 1, x.doc[s]) == Some(TokenFrom(x, s).end)
    ensures x.doc[s] == '"' || (x.doc[s] == '\'' && x.features.allowSingleQuotes)
    ensures TokenFrom(x, s).start == s
  {
    hide StringEnd, CommentEnd, NumberEnd, LiteralAt;
  }

  /** A string token that is decoded is quoted. */
  lemma StringIsQuoted(x: Source, s: nat) returns (q: Quotation)
    requires s < |x.doc| && TokenFrom(x, s).kind == Str && StringIn(x, TokenFrom(x, s)).Some?
    ensures IsQuotation(x.features, q) && x.doc[s..TokenFrom(x, s).end] == QuotationText(q)
    ensures StringIn(x, TokenFrom(x, s)) == Some(GlyphsMeaning(q.glyphs, q.quote))
  {
    hide StringEnd, GlyphsText, GlyphsMeaning, AreGlyphs, UnescapeFrom, Paired, TokenFrom, QuotationText;
    var quote, e := x.doc[s], TokenFrom(x, s).end;
    StringStarts(x, s);
    InsideString(x.doc, s + 1, quote);
    var inner := x.doc[s + 1..e - 1];
    assert inner[0..] == inner;
    var gs, cut := GlyphsOf(inner, 0, quote);
    q := Quotation(quote, gs, cut);
    QuotationBetween(x.doc, s, e, q);
  }

  lemma QuotationBetween(doc: string, s: nat, e: nat, q: Quotation)
    requires s + 2 <= e <= |doc| && doc[s] == q.quote == doc[e - 1] && doc[s + 1..e - 1] == GlyphsText(q.glyphs) + q.cut
    ensures doc[s..e] == QuotationText(q)
  {
    hide GlyphsText;
    Slices(doc, s, s + 1, e);
    Slices(doc, s + 1, e - 1, e);
  }
}
