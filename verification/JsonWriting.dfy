/** Every value has a text. */
module JsonWriting {
  import opened Wrappers
  import opened JsonNumbers
  import opened JsonGrammar
  import opened JsonBlanks
  import opened JsonSpelling
  import opened JsonGlyphs
  import opened JsonText

  /** The numbers of a value are in range, or are spelled so that they are scanned as doubles. */
  ghost predicate Writable(env: Env, j: Json) {
    match j
    case JNumber(d) => WritableNumber(env, d)
    case JArray(elements) => forall e :: e in elements ==> Writable(env, e)
    case JObject(members) => forall name :: name in members ==> Writable(env, members[name])
    case _ => true
  }

  ghost predicate WritableNumber(env: Env, d: Decoded) {
    match d
    case Signed(v) => -0x8000_0000_0000_0000 <= v <= 0x7FFF_FFFF
    case Unsigned(v) => v > 0x7FFF_FFFF
    case AsDouble(text) =>
      DecodedOf(text) == d && env.isDouble(text) && exists n :: IsSpelling(n) && Spelled(n) == text
  }

  /** A string between double quotes. */
  function QuotedText(text: string): Quotation { Quotation('"', GlyphsFor(text), "") }

  function GlyphsFor(text: string): seq<Glyph> {
    if text == "" then []
    else [if text[0] == '"' || text[0] == '\\' then Letter(text[0]) else Plain(text[0])] + GlyphsFor(text[1..])
  }

  lemma {:induction false} GlyphsForText(text: string)
    ensures AreGlyphs(GlyphsFor(text), '"') && GlyphsMeaning(GlyphsFor(text), '"') == text
  {
    if text != "" {
      GlyphsForText(text[1..]);
      var g := if text[0] == '"' || text[0] == '\\' then Letter(text[0]) else Plain(text[0]);
      GlyphsCons(g, GlyphsFor(text[1..]), '"');
      assert text == [text[0]] + text[1..];
    }
  }

  lemma QuotedTextIs(f: Features, text: string)
    ensures IsQuotation(f, QuotedText(text)) && TextMeaning(QuotedText(text)) == text
  {
    hide GlyphsFor, AreGlyphs, GlyphsMeaning;
    GlyphsForText(text);
  }

  /** A number that is in range is spelled by its digits. */
  lemma SpellingOf(env: Env, d: Decoded) returns (n: Spelling)
    requires WritableNumber(env, d)
    ensures IsNumber(env, n) && DecodedOf(Spelled(n)) == d
  {
    match d
    case Signed(v) => n := IntegerSpelling(if v < 0 then -v else v, v < 0);
    case Unsigned(v) => n := IntegerSpelling(v, false);
    case AsDouble(text) => n :| IsSpelling(n) && Spelled(n) == text;
  }

  lemma IntegerSpelling(v: uint64, negative: bool) returns (n: Spelling)
    requires negative ==> 0 < v <= 0x8000_0000_0000_0000
    ensures IsSpelling(n) && Spelled(n) == (if negative then "-" + Digits(v) else Digits(v))
    ensures DecodedOf(Spelled(n)) == if negative then Signed(-(v as int))
                                     else if v <= 0x7FFF_FFFF then Signed(v) else Unsigned(v)
  {
    hide Digits, ValueOf;
    PrintedIsDecoded(v);
    var s := Digits(v);
    DigitsDecimal(s);
    if negative {
      n := Spelling('-', s, None, None);
      NoneBehind('-', s);
    } else {
      n := Spelling(s[0], s[1..], None, None);
      NoneBehind(s[0], s[1..]);
      assert [s[0]] + s[1..] == s;
    }
  }

  lemma NoneBehind(c: char, whole: string)
    ensures Spelled(Spelling(c, whole, None, None)) == [c] + whole
  {
    assert whole + ("" + "") == whole;
  }

  lemma DigitsDecimal(s: string)
    requires AllDigits(s) && s != ""
    ensures Decimal(s) && Decimal(s[1..]) && s[0] in "-0123456789"
  {
    forall k | 0 <= k < |s| ensures s[k] in "0123456789" { assert IsDigit(s[k]); }
    assert s[0] in "0123456789";
  }

  /** A text without white space. */
  lemma {:induction false} TextOf(f: Features, env: Env, j: Json) returns (t: Text)
    requires Writable(env, j)
    ensures IsText(f, env, t) && HasCommas(t) && !t.DroppedText? && !Repeats(env, t) && Meaning(env, t) == j
    decreases j, 0
  {
    match j
    case JNull => t := NullText;
    case JBool(b) => t := BoolText(b);
    case JNumber(d) =>
      var n := SpellingOf(env, d);
      t := NumberText(n);
    case JString(text) =>
      QuotedTextIs(f, text);
      t := StringText(QuotedText(text));
    case JArray(elements) =>
      var items := ItemsOf(f, env, elements);
      t := ArrayText(items, []);
      ArrayIs(f, env, items);
    case JObject(members) =>
      ghost var none: map<string, Json> := map[];
      assert none.Keys == {} && none + members == members;
      var ms := MembersOf(f, env, j, members, none);
      t := ObjectText(ms, false, []);
      ObjectIs(f, env, ms);
  }

  ghost predicate NoneDropped(items: seq<Item>) { forall i :: i in items ==> !i.value.DroppedText? }

  lemma ArrayIs(f: Features, env: Env, items: seq<Item>)
    requires AreItems(f, env, items) && ItemsHaveCommas(items) && !RepeatsInItems(env, items) && NoneDropped(items)
    ensures (var t := ArrayText(items, []);
      IsText(f, env, t) && HasCommas(t) && !Repeats(env, t) && Meaning(env, t) == JArray(Meanings(env, items)))
  {
    hide AreItems, RepeatsInItems, Meanings;
    assert items != [] ==> items[0] in items;
  }

  lemma ObjectIs(f: Features, env: Env, ms: seq<Member>)
    requires AreMembers(f, env, ms) && MembersHaveCommas(ms) && !RepeatsInMembers(env, ms, {})
    ensures (var t := ObjectText(ms, false, []);
      && IsText(f, env, t) && HasCommas(t) && !Repeats(env, t)
      && Meaning(env, t) == JObject(Bindings(env, ms, map[])))
  {
    hide AreMembers, RepeatsInMembers, Bindings;
  }

  lemma {:induction false} ItemsOf(f: Features, env: Env, elements: seq<Json>) returns (items: seq<Item>)
    requires forall e :: e in elements ==> Writable(env, e)
    ensures AreItems(f, env, items) && ItemsHaveCommas(items) && !RepeatsInItems(env, items) && NoneDropped(items)
    ensures Meanings(env, items) == elements
    decreases elements, 1
  {
    hide IsText, Meaning, Repeats, HasCommas;
    if elements == [] {
      items := [];
    } else {
      var t := TextOf(f, env, elements[0]);
      var rest := ItemsOf(f, env, elements[1..]);
      items := [Item([], t, [])] + rest;
      assert items[1..] == rest && [elements[0]] + elements[1..] == elements;
    }
  }

  /** The members that are not found yet. */
  lemma {:induction false} MembersOf(f: Features, env: Env, j: Json, rest: map<string, Json>, found: map<string, Json>)
    returns (members: seq<Member>)
    requires j.JObject? && (forall name :: name in rest ==> name in j.members && rest[name] == j.members[name])
    requires Writable(env, j) && rest.Keys !! found.Keys
    ensures AreMembers(f, env, members) && MembersHaveCommas(members) && !RepeatsInMembers(env, members, found.Keys)
    ensures Bindings(env, members, found) == found + rest
    decreases j, 0, |rest|
  {
    hide IsText, Meaning, Repeats, HasCommas, AreMembers, MembersHaveCommas, RepeatsInMembers, Bindings;
    if rest == map[] {
      members := [];
      NoMembers(f, env, found);
      assert found + rest == found;
    } else {
      var name :| name in rest;
      var t := TextOf(f, env, rest[name]);
      var more, less := Moved(found, rest, name);
      var ms := MembersOf(f, env, j, less, more);
      QuotedTextIs(f, name);
      var m := Member([], StringKey(QuotedText(name)), [], [], t, [], ",");
      members := [m] + ms;
      FirstMember(f, env, m, ms, found);
    }
  }

  /** One binding moves from one map to the other. */
  lemma Moved<V>(found: map<string, V>, rest: map<string, V>, name: string)
    returns (more: map<string, V>, less: map<string, V>)
    requires name in rest && rest.Keys !! found.Keys
    ensures more == found[name := rest[name]] && more.Keys == found.Keys + {name} && more + less == found + rest
    ensures less.Keys !! more.Keys && |less| < |rest| && forall n :: n in less ==> n in rest && less[n] == rest[n]
  {
    more, less := found[name := rest[name]], rest - {name};
    Fewer(rest, name);
    SameUnion(found, rest, name, more, less);
  }

  lemma SameUnion<V>(found: map<string, V>, rest: map<string, V>, name: string, more: map<string, V>,
                     less: map<string, V>)
    requires name in rest && rest.Keys !! found.Keys && more == found[name := rest[name]] && less == rest - {name}
    ensures more.Keys == found.Keys + {name} && more + less == found + rest && less.Keys !! more.Keys
  {
    var u, v := more + less, found + rest;
    assert forall n :: n in u <==> n in v;
    forall n | n in u ensures u[n] == v[n] {
      if n in less {
        assert less[n] == rest[n];
      }
    }
  }

  lemma Fewer<V>(rest: map<string, V>, name: string)
    requires name in rest
    ensures |rest - {name}| < |rest|
  {
    var less := rest - {name};
    assert less.Keys == rest.Keys - {name};
    assert |less.Keys| == |less| && |rest.Keys| == |rest|;
  }

  lemma NoMembers(f: Features, env: Env, found: map<string, Json>)
    ensures AreMembers(f, env, []) && MembersHaveCommas([]) && !RepeatsInMembers(env, [], found.Keys)
    ensures Bindings(env, [], found) == found
  {
  }

  lemma FirstMember(f: Features, env: Env, m: Member, ms: seq<Member>, found: map<string, Json>)
    requires m.before == m.colon == m.gap == m.after == [] && m.behind == "," && !m.value.DroppedText?
    requires IsKey(f, env, m.key) && IsText(f, env, m.value) && HasCommas(m.value) && !Repeats(env, m.value)
    requires KeyName(env, m.key) !in found
    requires AreMembers(f, env, ms) && MembersHaveCommas(ms)
    requires !RepeatsInMembers(env, ms, found.Keys + {KeyName(env, m.key)})
    ensures AreMembers(f, env, [m] + ms) && MembersHaveCommas([m] + ms)
    ensures !RepeatsInMembers(env, [m] + ms, found.Keys)
    ensures Bindings(env, [m] + ms, found) == Bindings(env, ms, found[KeyName(env, m.key) := Meaning(env, m.value)])
  {
    hide IsText, Meaning, Repeats, HasCommas, IsKey, KeyName;
    assert ([m] + ms)[1..] == ms;
  }

  /**
   Every value has a text that is read as that value, with any settings but a strict root for a value that is plain.
   */
  lemma EveryValueIsRead(j: Json, beyond: char, features: Features, env: Env) returns (doc: string)
    requires Writable(env, j) && (features.strictRoot ==> j.JArray? || j.JObject?)
    ensures Document(Source(doc, beyond, features, env)) == Some(j)
  {
    hide Document, Written, IsText, Repeats, HasCommas;
    var t := TextOf(features, env, j);
    doc := GapText([]) + (Written(t) + GapText([]));
    TextRoundTrip([], t, [], beyond, features, env);
  }
}
