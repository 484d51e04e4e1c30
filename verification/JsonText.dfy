/**
 Texts of JSON values, with white space, comments, escapes and spellings of numbers as the writer likes: what they mean,
 and that the reader finds it.
 */
module JsonText {
  import opened Wrappers
  import opened JsonNumbers
  import opened JsonStrings
  import opened JsonGrammar
  import opened JsonBlanks
  import opened JsonSpelling
  import opened JsonGlyphs

  /** A value as it is written. A null value may be dropped, where that is allowed. */
  datatype Text =
    | NullText
    | BoolText(b: bool)
    | NumberText(number: Spelling)
    | StringText(text: Quotation)
    | DroppedText
    | ArrayText(items: seq<Item>, inner: Gap)
    | ObjectText(members: seq<Member>, comma: bool, inner: Gap)

  /** An element, with what is before and behind it. */
  datatype Item = Item(before: Gap, value: Text, after: Gap)

  datatype Key = StringKey(text: Quotation) | NumberKey(number: Spelling)

  /** A member; `behind` is what separates it from the next one. */
  datatype Member = Member(before: Gap, key: Key, colon: Gap, gap: Gap, value: Text, after: Gap, behind: string)

  function KeyText(k: Key): string {
    match k
    case StringKey(text) => QuotationText(text)
    case NumberKey(number) => Spelled(number)
  }

  function Written(t: Text): string
    decreases t, 0
  {
    match t
    case NullText => "null"
    case BoolText(b) => if b then "true" else "false"
    case NumberText(number) => Spelled(number)
    case StringText(text) => QuotationText(text)
    case DroppedText => ""
    case ArrayText(items, inner) => "[" + (WrittenItems(items) + (GapText(inner) + "]"))
    case ObjectText(members, comma, inner) => "{" + (WrittenMembers(members, comma) + (GapText(inner) + "}"))
  }

  function ItemText(i: Item): string
    decreases i, 1
  {
    GapText(i.before) + (Written(i.value) + GapText(i.after))
  }

  function WrittenItems(items: seq<Item>): string
    decreases items, 2
  {
    if items == [] then ""
    else ItemText(items[0]) + (if |items| == 1 then "" else "," + WrittenItems(items[1..]))
  }

  function MemberText(m: Member): string
    decreases m, 1
  {
    GapText(m.before)
    + (KeyText(m.key) + (GapText(m.colon) + (":" + (GapText(m.gap) + (Written(m.value) + GapText(m.after))))))
  }

  /** The members, and a separator behind the last one if `comma`. */
  function WrittenMembers(members: seq<Member>, comma: bool): string
    decreases members, 2
  {
    if members == [] then ""
    else
      MemberText(members[0])
      + (if |members| == 1 && !comma then "" else members[0].behind + WrittenMembers(members[1..], comma))
  }

  // ----- Meaning -----

  function Meaning(env: Env, t: Text): Json
    decreases t, 0
  {
    match t
    case NullText => JNull
    case BoolText(b) => JBool(b)
    case NumberText(number) => JNumber(DecodedOf(Spelled(number)))
    case StringText(text) => JString(TextMeaning(text))
    case DroppedText => JNull
    case ArrayText(items, _) => JArray(Meanings(env, items))
    case ObjectText(members, _, _) => JObject(Bindings(env, members, map[]))
  }

  function TextMeaning(q: Quotation): string {
    if AreGlyphs(q.glyphs, q.quote) then GlyphsMeaning(q.glyphs, q.quote) else ""
  }

  function KeyName(env: Env, k: Key): string {
    match k
    case StringKey(text) => TextMeaning(text)
    case NumberKey(number) => env.keyText(DecodedOf(Spelled(number)))
  }

  function Meanings(env: Env, items: seq<Item>): seq<Json>
    decreases items, 1
  {
    if items == [] then [] else [Meaning(env, items[0].value)] + Meanings(env, items[1..])
  }

  /** A name that comes again has its last value. */
  function Bindings(env: Env, members: seq<Member>, found: map<string, Json>): map<string, Json>
    decreases members, 1
  {
    if members == [] then found
    else
      var m := members[0];
      Bindings(env, members[1..], found[KeyName(env, m.key) := Meaning(env, m.value)])
  }

  /** A name comes twice in one object, somewhere. */
  predicate Repeats(env: Env, t: Text)
    decreases t, 0
  {
    match t
    case ArrayText(items, _) => RepeatsInItems(env, items)
    case ObjectText(members, _, _) => RepeatsInMembers(env, members, {})
    case _ => false
  }

  predicate RepeatsInItems(env: Env, items: seq<Item>)
    decreases items, 1
  {
    items != [] && (Repeats(env, items[0].value) || RepeatsInItems(env, items[1..]))
  }

  predicate RepeatsInMembers(env: Env, members: seq<Member>, names: set<string>)
    decreases members, 1
  {
    members != [] &&
    (|| KeyName(env, members[0].key) in names
     || Repeats(env, members[0].value)
     || RepeatsInMembers(env, members[1..], names + {KeyName(env, members[0].key)}))
  }

  // ----- What may be written -----

  predicate IsNumber(env: Env, n: Spelling) {
    IsSpelling(n) && (DecodedOf(Spelled(n)).AsDouble? ==> env.isDouble(Spelled(n)))
  }

  /**
   Does the text belong to the language with these features? Comments may stand in front of a value only where they are
   allowed; between a name and its colon, and in an empty array, there are spaces only.
   */
  predicate IsText(f: Features, env: Env, t: Text)
    decreases t, 0
  {
    match t
    case NumberText(number) => IsNumber(env, number)
    case StringText(text) => IsQuotation(f, text)
    case DroppedText => f.allowDroppedNulls
    case ArrayText(items, inner) =>
      && AreItems(f, env, items) && IsGap(f, inner, false, false) && (items != [] ==> inner == [])
      && !(|items| == 1 && items[0].value.DroppedText? && IsGap(f, items[0].before, false, false))
    case ObjectText(members, comma, inner) =>
      && AreMembers(f, env, members) && IsGap(f, inner, true, false)
      && (if comma then members != [] && KeyName(env, members[|members| - 1].key) == ""
          else members != [] ==> inner == [])
    case _ => true
  }

  predicate AreItems(f: Features, env: Env, items: seq<Item>)
    decreases items, 2
  {
    items != [] ==> IsItem(f, env, items[0]) && AreItems(f, env, items[1..])
  }

  predicate IsItem(f: Features, env: Env, i: Item)
    decreases i, 1
  {
    && IsGap(f, i.before, f.allowComments, false) && IsText(f, env, i.value) && IsGap(f, i.after, true, false)
    && (i.value.DroppedText? ==> i.after == [])
  }

  predicate IsKey(f: Features, env: Env, k: Key) {
    match k
    case StringKey(text) => IsQuotation(f, text)
    case NumberKey(number) => f.allowNumericKeys && IsNumber(env, number)
  }

  /** Behind a comment, something else may stand in place of the comma. */
  predicate IsMember(f: Features, env: Env, m: Member)
    decreases m, 1
  {
    && IsGap(f, m.before, true, false) && IsKey(f, env, m.key) && IsGap(f, m.colon, false, false)
    && IsGap(f, m.gap, f.allowComments, false) && IsText(f, env, m.value) && IsGap(f, m.after, true, false)
    && (m.value.DroppedText? ==> m.after == []) && (m.behind == "," || HasComment(m.after))
  }

  predicate AreMembers(f: Features, env: Env, members: seq<Member>)
    decreases members, 2
  {
    members != [] ==> IsMember(f, env, members[0]) && AreMembers(f, env, members[1..])
  }

  /** Are all members separated by commas? */
  predicate HasCommas(t: Text)
    decreases t, 0
  {
    match t
    case ArrayText(items, _) => forall i :: i in items ==> HasCommas(i.value)
    case ObjectText(members, _, _) => forall m :: m in members ==> m.behind == "," && HasCommas(m.value)
    case _ => true
  }

  // ----- Tokens in their place -----

  /** A token that begins here, and is no comment, is the next one in any case. */
  lemma NextToken(x: Source, p: nat)
    requires p < |x.doc| && !IsSpace(x.doc[p]) && TokenFrom(x, p).kind != Comment
    ensures TokenAt(x, p) == TokenFrom(x, p) && PassedAt(x, p) == TokenFrom(x, p) && FirstAt(x, p) == TokenFrom(x, p)
    ensures SkipFrom(x.doc, p) == p
  {
    hide TokenFrom;
  }

  lemma NumberToken(x: Source, p: nat, n: Spelling)
    requires IsNumber(x.env, n) && PartAt(x.doc, p, Spelled(n)) && NoMore(x.doc, p + |Spelled(n)|)
    ensures p + |Spelled(n)| <= |x.doc| && p < |x.doc| && !IsSpace(x.doc[p]) && x.doc[p] != ']'
    ensures TokenFrom(x, p) == Token(Number, p, p + |Spelled(n)|)
    ensures NumberIn(x, TokenFrom(x, p)) == Some(DecodedOf(Spelled(n)))
  {
    hide NumberEnd, DecodedOf, PartAt, Spelled, NoMore, TokenFrom, IsSpelling;
    SpelledEnds(x.doc, p, n);
    FirstOfNumber(n);
    PartIs(x.doc, p, Spelled(n));
    NumberFrom(x, p);
  }

  lemma NumberFrom(x: Source, p: nat)
    requires p < |x.doc| && (IsDigit(x.doc[p]) || x.doc[p] == '-')
    ensures TokenFrom(x, p) == Token(Number, p, NumberEnd(x.doc, p + 1))
  {
    hide NumberEnd, StringEnd, CommentEnd, LiteralAt;
  }

  lemma FirstOfNumber(n: Spelling)
    requires IsSpelling(n)
    ensures (IsDigit(n.first) || n.first == '-') && !IsSpace(n.first) && n.first != ']'
  {
  }

  lemma StringToken(x: Source, p: nat, q: Quotation)
    requires IsQuotation(x.features, q) && PartAt(x.doc, p, QuotationText(q))
    ensures p + |QuotationText(q)| <= |x.doc| && p < |x.doc| && !IsSpace(x.doc[p]) && x.doc[p] != ']'
    ensures TokenFrom(x, p) == Token(Str, p, p + |QuotationText(q)|)
    ensures StringIn(x, TokenFrom(x, p)) == Some(TextMeaning(q))
  {
    hide GlyphsMeaning, StringIn, TokenFrom, PartAt;
    QuotationToken(x, p, q);
  }

  /** A literal is its own token. */
  lemma LiteralToken(x: Source, p: nat, literal: string)
    requires literal == "true" || literal == "false" || literal == "null"
    requires PartAt(x.doc, p, literal)
    ensures p + |literal| <= |x.doc| && p < |x.doc| && !IsSpace(x.doc[p]) && x.doc[p] != ']'
    ensures TokenFrom(x, p) ==
            Token(if literal[0] == 't' then True else if literal[0] == 'f' then False else Null, p, p + |literal|)
  {
    PartChar(x.doc, p, literal, 0);
    assert x.doc[p + 1..p + |literal|] == x.doc[p..p + |literal|][1..] == literal[1..];
    assert "true"[1..] == "rue" && "false"[1..] == "alse" && "null"[1..] == "ull";
  }

  function KindOf(c: char): Kind {
    if c == '{' then ObjectBegin
    else if c == '}' then ObjectEnd
    else if c == '[' then ArrayBegin
    else if c == ']' then ArrayEnd
    else if c == ',' then ArraySeparator
    else MemberSeparator
  }

  /** A character that is a token. */
  lemma MarkToken(x: Source, p: nat, c: char)
    requires c == '{' || c == '}' || c == '[' || c == ']' || c == ',' || c == ':'
    requires PartAt(x.doc, p, [c])
    ensures p < |x.doc| && x.doc[p] == c && TokenFrom(x, p) == Token(KindOf(c), p, p + 1)
    ensures TokenAt(x, p) == TokenFrom(x, p) && PassedAt(x, p) == TokenFrom(x, p) && FirstAt(x, p) == TokenFrom(x, p)
    ensures SkipFrom(x.doc, p) == p && NoMore(x.doc, p) && !CharIs(x.doc, p, "\n")
  {
    hide TokenAt, PassedAt, FirstAt, SkipFrom;
    PartChar(x.doc, p, [c], 0);
    NextToken(x, p);
  }

  /** Where a value begins: neither white space, nor a comment, nor what closes an array. */
  ghost predicate BeginsValue(x: Source, p: nat) {
    p < |x.doc| && !IsSpace(x.doc[p]) && x.doc[p] != ']' && TokenFrom(x, p).kind != Comment
  }

  lemma ValueBegins(x: Source, p: nat)
    requires BeginsValue(x, p)
    ensures FirstAt(x, p) == TokenFrom(x, p) && SkipFrom(x.doc, p) == p && !CharIs(x.doc, p, "\n")
  {
    hide TokenFrom, PassedAt, TokenAt;
    NextToken(x, p);
  }

  // ----- Reading what was written -----

  ghost predicate ReadAs(x: Source, p: nat, t: Text) {
    && p + |Written(t)| <= |x.doc|
    && ValueAt(x, p) == if x.features.rejectDupKeys && Repeats(x.env, t) then None
                        else Some(Found(Meaning(x.env, t), p + |Written(t)|))
  }

  /** What must be behind a text: nothing that goes on with a number, and behind a dropped null, what stands for it. */
  ghost predicate Stops(x: Source, p: nat, t: Text) {
    && NoMore(x.doc, p + |Written(t)|)
    && (t.DroppedText? ==> CharIs(x.doc, p, ",]}"))
  }

  lemma PlainIs(x: Source, p: nat, t: Token, j: Json)
    requires p < |x.doc| && FirstAt(x, p) == t && t.kind in {Number, Str, True, False, Null} && PlainIn(x, t) == Some(j)
    ensures ValueAt(x, p) == Some(Found(j, t.end))
  {
    hide FirstAt, MembersAt, ArrayAt, PlainIn;
  }

  lemma NestedIs(x: Source, p: nat)
    requires p < |x.doc|
    ensures FirstAt(x, p).kind == ArrayBegin ==> ValueAt(x, p) == ArrayAt(x, FirstAt(x, p).end)
    ensures FirstAt(x, p).kind == ObjectBegin ==> ValueAt(x, p) == MembersAt(x, FirstAt(x, p).end, map[], "")
  {
    hide FirstAt, MembersAt, ArrayAt;
  }

  lemma PlainToken(x: Source, p: nat, t: Text)
    requires t.NullText? || t.BoolText? || t.NumberText? || t.StringText?
    requires IsText(x.features, x.env, t) && PartAt(x.doc, p, Written(t)) && Stops(x, p, t)
    ensures BeginsValue(x, p) && TokenFrom(x, p).kind in {Number, Str, True, False, Null}
    ensures TokenFrom(x, p).start == p && TokenFrom(x, p).end == p + |Written(t)|
    ensures PlainIn(x, TokenFrom(x, p)) == Some(Meaning(x.env, t)) && !Repeats(x.env, t)
  {
    hide TokenFrom, TokenAt, PassedAt, FirstAt, SkipFrom, StringIn, NumberIn, ValueAt, TextMeaning, Spelled;
    hide QuotationText, DecodedOf, IsSpace, IsQuotation, IsNumber, PartAt, NoMore;
    match t
    case NullText => LiteralToken(x, p, "null");
    case BoolText(b) => LiteralToken(x, p, if b then "true" else "false");
    case NumberText(number) => NumberToken(x, p, number);
    case StringText(text) => StringToken(x, p, text);
  }

  /** A value of one token. */
  lemma PlainIsRead(x: Source, p: nat, t: Text)
    requires t.NullText? || t.BoolText? || t.NumberText? || t.StringText?
    requires IsText(x.features, x.env, t) && PartAt(x.doc, p, Written(t)) && Stops(x, p, t)
    ensures ReadAs(x, p, t) && BeginsValue(x, p)
  {
    hide *;
    PlainToken(x, p, t);
    ValueBegins(x, p);
    PartFits(x.doc, p, Written(t));
    PlainIs(x, p, TokenFrom(x, p), Meaning(x.env, t));
    ReadAsIs(x, p, t);
  }

  /** A null value that was dropped takes nothing. */
  lemma DroppedIsRead(x: Source, p: nat)
    requires x.features.allowDroppedNulls && CharIs(x.doc, p, ",]}")
    ensures ReadAs(x, p, DroppedText)
    ensures !IsSpace(x.doc[p]) && TokenFrom(x, p).kind != Comment && FirstAt(x, p) == TokenFrom(x, p)
  {
    hide MembersAt, ArrayAt;
    assert x.doc[p] == ',' || x.doc[p] == ']' || x.doc[p] == '}';
    NextToken(x, p);
  }

  lemma SameFirst(x: Source, p: nat, q: nat)
    requires p <= |x.doc| && q <= |x.doc| && FirstAt(x, p) == FirstAt(x, q)
    ensures ValueAt(x, p) == ValueAt(x, q) && forall found :: ElementsAt(x, p, found) == ElementsAt(x, q, found)
  {
    hide FirstAt, MembersAt, ArrayAt, PassedAt, PlainIn;
    var v := ValueAt(x, p);
    assert v == ValueAt(x, q);
    forall found ensures ElementsAt(x, p, found) == ElementsAt(x, q, found) {
      if v.Some? { ElementsStep(x, p, found, v.value); ElementsStep(x, q, found, v.value); }
    }
  }

  lemma ElementsStep(x: Source, p: nat, found: seq<Json>, v: Found)
    requires p <= |x.doc| && v.next <= |x.doc| && ValueAt(x, p) == Some(v)
    ensures (var t := PassedAt(x, v.next);
      ElementsAt(x, p, found) ==
        if t.kind == ArrayEnd then Some(Found(JArray(found + [v.value]), t.end))
        else if t.kind == ArraySeparator then ElementsAt(x, t.end, found + [v.value])
        else None)
  {
    hide PassedAt, ValueAt;
  }

  lemma NoElements(x: Source, p: nat, found: seq<Json>)
    requires p <= |x.doc| && ValueAt(x, p).None?
    ensures ElementsAt(x, p, found).None?
  {
    hide ValueAt;
  }

  /** The first character of a gap does not go on with a number. */
  lemma GapStops(x: Source, q: nat, bs: Gap, comments: bool, final: bool)
    requires IsGap(x.features, bs, comments, final) && PartAt(x.doc, q, GapText(bs)) && NoMore(x.doc, q + |GapText(bs)|)
    ensures NoMore(x.doc, q)
  {
    if bs != [] {
      assert GapText(bs)[0] == BlankText(bs[0])[0];
      PartChar(x.doc, q, GapText(bs), 0);
    }
  }

  /** Where white space is skipped in a gap: up to its end, if there are spaces only, or to a comment. */
  lemma {:induction false} GapSkipped(x: Source, p: nat, bs: Gap, comments: bool)
    requires IsGap(x.features, bs, comments, false) && PartAt(x.doc, p, GapText(bs))
    ensures p + |GapText(bs)| <= |x.doc|
    ensures (var s := SkipFrom(x.doc, p);
      || (IsGap(x.features, bs, false, false) && s == SkipFrom(x.doc, p + |GapText(bs)|))
      || (s < |x.doc| && (x.doc[s] == '/' || x.doc[s] == '\'')))
    decreases |bs|
  {
    hide PartAt, IsBlank, SkipFrom, BlankText;
    PartFits(x.doc, p, GapText(bs));
    if bs != [] {
      var w := BlankText(bs[0]);
      PartSplit(x.doc, p, w, GapText(bs[1..]));
      BlankStarts(x, p, bs[0], comments);
      if bs[0].Space? {
        GapSkipped(x, p + 1, bs[1..], comments);
      }
    }
  }

  lemma BlankStarts(x: Source, p: nat, b: Blank, comments: bool)
    requires IsBlank(x.features, b, comments) && PartAt(x.doc, p, BlankText(b))
    ensures p < |x.doc|
    ensures if b.Space? then |BlankText(b)| == 1 && SkipFrom(x.doc, p) == SkipFrom(x.doc, p + 1)
                             && IsBlank(x.features, b, false)
            else SkipFrom(x.doc, p) == p && (x.doc[p] == '/' || x.doc[p] == '\'')
  {
    PartChar(x.doc, p, BlankText(b), 0);
  }

  /** A value with what is before and behind it, up to a mark. */
  lemma {:induction false} ValueInGaps(x: Source, p: nat, before: Gap, t: Text, after: Gap, mark: char)
    requires IsGap(x.features, before, x.features.allowComments, false) && IsGap(x.features, after, true, false)
    requires IsText(x.features, x.env, t) && HasCommas(t) && (t.DroppedText? ==> after == [])
    requires PartAt(x.doc, p, GapText(before) + (Written(t) + GapText(after)))
    requires PartAt(x.doc, p + |GapText(before)| + |Written(t)| + |GapText(after)|, [mark])
    requires mark == ',' || mark == ']' || mark == '}'
    ensures (var v, q := p + |GapText(before)|, p + |GapText(before)| + |Written(t)|;
      && v <= q <= |x.doc| && PartAt(x.doc, v, Written(t)) && FirstAt(x, p) == FirstAt(x, v) && Stops(x, v, t)
      && ValueAt(x, p) == (if x.features.rejectDupKeys && Repeats(x.env, t) then None
                           else Some(Found(Meaning(x.env, t), q)))
      && PassedAt(x, q) == Token(KindOf(mark), q + |GapText(after)|, q + |GapText(after)| + 1)
      && (if t.DroppedText? then CharIs(x.doc, v, [mark]) && SkipFrom(x.doc, v) == v else BeginsValue(x, v)))
    decreases t, 1
  {
    hide *;
    var v := p + |GapText(before)|;
    var q := v + |Written(t)|;
    var r := q + |GapText(after)|;
    PartSplit(x.doc, p, GapText(before), Written(t) + GapText(after));
    PartSplit(x.doc, v, Written(t), GapText(after));
    MarkToken(x, r, mark);
    GapStops(x, q, after, true, false);
    GapBehind(x, q, after);
    if t.DroppedText? {
      Dropped(x, v, t, after, mark);
    } else {
      StopsPlain(x, v, t);
      WrittenIsRead(x, v, t);
      ValueBegins(x, v);
    }
    ReadAsMeans(x, v, t);
    GapBefore(x, p, before);
    SameFirst(x, p, v);
  }

  lemma GapBehind(x: Source, q: nat, after: Gap)
    requires IsGap(x.features, after, true, false) && PartAt(x.doc, q, GapText(after))
    requires !CharIs(x.doc, q + |GapText(after)|, "\n")
    ensures q + |GapText(after)| <= |x.doc| && PassedAt(x, q) == PassedAt(x, q + |GapText(after)|)
  {
    hide PassedAt, PartAt, GapText;
    PartFits(x.doc, q, GapText(after));
    GapPassed(x, q, after, true, false);
  }

  lemma Dropped(x: Source, v: nat, t: Text, after: Gap, mark: char)
    requires t.DroppedText? && after == [] && x.doc != "" && IsText(x.features, x.env, t)
    requires PartAt(x.doc, v + |Written(t)| + |GapText(after)|, [mark])
    requires mark == ',' || mark == ']' || mark == '}'
    ensures ReadAs(x, v, t) && CharIs(x.doc, v, [mark]) && SkipFrom(x.doc, v) == v && !CharIs(x.doc, v, "\n")
    ensures Stops(x, v, t)
  {
    hide ReadAs;
    PartChar(x.doc, v, [mark], 0);
    DroppedIsRead(x, v);
    assert x.doc[v] in ",]}";
  }

  lemma StopsPlain(x: Source, v: nat, t: Text)
    requires NoMore(x.doc, v + |Written(t)|) && !t.DroppedText?
    ensures Stops(x, v, t)
  {
  }

  lemma ReadAsMeans(x: Source, p: nat, t: Text)
    requires ReadAs(x, p, t)
    ensures p + |Written(t)| <= |x.doc|
    ensures ValueAt(x, p) == if x.features.rejectDupKeys && Repeats(x.env, t) then None
                             else Some(Found(Meaning(x.env, t), p + |Written(t)|))
  {
    hide ValueAt, Written, Repeats, Meaning;
  }

  /**
   What is written for a value is read as the value; it is refused exactly if a name comes again and that is refused.
   */
  lemma {:induction false} WrittenIsRead(x: Source, p: nat, t: Text)
    requires IsText(x.features, x.env, t) && HasCommas(t) && PartAt(x.doc, p, Written(t)) && Stops(x, p, t)
    ensures ReadAs(x, p, t) && (!t.DroppedText? ==> BeginsValue(x, p))
    decreases t, 0
  {
    hide *;
    Shape(x.features, x.env, t);
    PartFits(x.doc, p, Written(t));
    if t.ArrayText? {
      var rest := WrittenItems(t.items) + (GapText(t.inner) + "]");
      PartSplit(x.doc, p, "[", rest);
      MarkToken(x, p, '[');
      KindIs();
      NestedIs(x, p);
      ArrayIsRead(x, p + 1, t.items, t.inner);
      ReadAsIs(x, p, t);
      MarkBegins(x, p, '[');
    } else if t.ObjectText? {
      var rest := WrittenMembers(t.members, t.comma) + (GapText(t.inner) + "}");
      PartSplit(x.doc, p, "{", rest);
      MarkToken(x, p, '{');
      KindIs();
      NestedIs(x, p);
      ObjectIsRead(x, p + 1, t.members, t.comma, t.inner);
      ReadAsIs(x, p, t);
      MarkBegins(x, p, '{');
    } else if t.DroppedText? {
      DroppedHere(x, p, t);
    } else {
      PlainIsRead(x, p, t);
    }
  }

  lemma DroppedHere(x: Source, p: nat, t: Text)
    requires t.DroppedText? && IsText(x.features, x.env, t) && Stops(x, p, t)
    ensures ReadAs(x, p, t)
  {
    hide ReadAs, CharIs;
    DroppedIsRead(x, p);
  }

  lemma MarkBegins(x: Source, p: nat, c: char)
    requires p < |x.doc| && x.doc[p] == c && (c == '[' || c == '{')
    ensures BeginsValue(x, p)
  {
  }

  lemma ReadAsIs(x: Source, p: nat, t: Text)
    requires p + |Written(t)| <= |x.doc|
    requires ValueAt(x, p) == if x.features.rejectDupKeys && Repeats(x.env, t) then None
                              else Some(Found(Meaning(x.env, t), p + |Written(t)|))
    ensures ReadAs(x, p, t)
  {
    hide ValueAt, Written, Repeats, Meaning;
  }

  /** What arrays and objects are made of. */
  lemma Shape(f: Features, env: Env, t: Text)
    requires IsText(f, env, t) && HasCommas(t)
    ensures t.ArrayText? ==>
              && Written(t) == "[" + (WrittenItems(t.items) + (GapText(t.inner) + "]"))
              && |Written(t)| == |WrittenItems(t.items)| + |GapText(t.inner)| + 2
              && Meaning(env, t) == JArray(Meanings(env, t.items)) && Repeats(env, t) == RepeatsInItems(env, t.items)
              && IsArray(f, env, t.items, t.inner)
    ensures t.ObjectText? ==>
              && Written(t) == "{" + (WrittenMembers(t.members, t.comma) + (GapText(t.inner) + "}"))
              && |Written(t)| == |WrittenMembers(t.members, t.comma)| + |GapText(t.inner)| + 2
              && Meaning(env, t) == JObject(Bindings(env, t.members, map[]))
              && Repeats(env, t) == RepeatsInMembers(env, t.members, {})
              && IsObject(f, env, t.members, t.comma, t.inner)
  {
    hide WrittenItems, WrittenMembers, Meanings, Bindings, AreItems, AreMembers, IsGap, GapText;
  }

  ghost predicate IsArray(f: Features, env: Env, items: seq<Item>, inner: Gap) {
    && AreItems(f, env, items) && ItemsHaveCommas(items) && IsGap(f, inner, false, false)
    && (items != [] ==> inner == [])
    && !(|items| == 1 && items[0].value.DroppedText? && IsGap(f, items[0].before, false, false))
  }

  ghost predicate ItemsHaveCommas(items: seq<Item>) { forall i :: i in items ==> HasCommas(i.value) }

  ghost predicate IsObject(f: Features, env: Env, members: seq<Member>, comma: bool, inner: Gap) {
    && AreMembers(f, env, members) && MembersHaveCommas(members) && IsGap(f, inner, true, false)
    && LastMember(env, members, comma, inner)
  }

  ghost predicate LastMember(env: Env, members: seq<Member>, comma: bool, inner: Gap) {
    if comma then members != [] && KeyName(env, members[|members| - 1].key) == "" else members != [] ==> inner == []
  }

  ghost predicate MembersHaveCommas(members: seq<Member>) {
    forall m :: m in members ==> m.behind == "," && HasCommas(m.value)
  }

  /** The inside of an array, from behind its bracket. */
  lemma {:induction false} ArrayIsRead(x: Source, p: nat, items: seq<Item>, inner: Gap)
    requires IsArray(x.features, x.env, items, inner)
    requires PartAt(x.doc, p, WrittenItems(items) + (GapText(inner) + "]"))
    ensures p <= |x.doc|
    ensures ArrayAt(x, p) == if x.features.rejectDupKeys && RepeatsInItems(x.env, items) then None
                             else Some(Found(JArray(Meanings(x.env, items)),
                                             p + |WrittenItems(items)| + |GapText(inner)| + 1))
    decreases items, 4
  {
    hide *;
    ArrayFacts(x, items, inner);
    PartFits(x.doc, p, WrittenItems(items) + (GapText(inner) + "]"));
    PartSplit(x.doc, p, WrittenItems(items), GapText(inner) + "]");
    if items == [] {
      EmptyArray(x, p, items, inner);
    } else {
      assert WrittenItems(items) + (GapText(inner) + "]") == WrittenItems(items) + "]";
      FirstItem(x, p, items);
      ItemsAreRead(x, p, items, []);
      NoneBefore(Meanings(x.env, items));
    }
  }

  lemma NoneBefore(js: seq<Json>)
    ensures [] + js == js
  {
  }

  lemma ArrayFacts(x: Source, items: seq<Item>, inner: Gap)
    requires IsArray(x.features, x.env, items, inner)
    ensures AreItems(x.features, x.env, items) && ItemsHaveCommas(items) && IsGap(x.features, inner, false, false)
    ensures items != [] ==> inner == [] && GapText(inner) == ""
    ensures |items| == 1 && items[0].value.DroppedText? ==> !IsGap(x.features, items[0].before, false, false)
    ensures items == [] ==>
              WrittenItems(items) == "" && Meanings(x.env, items) == [] && !RepeatsInItems(x.env, items)
  {
    hide AreItems, ItemsHaveCommas, IsGap;
  }

  lemma EmptyArray(x: Source, p: nat, items: seq<Item>, inner: Gap)
    requires items == [] && IsGap(x.features, inner, false, false) && PartAt(x.doc, p, GapText(inner) + "]")
    ensures p + |GapText(inner)| < |x.doc|
    ensures ArrayAt(x, p) == Some(Found(JArray([]), p + |GapText(inner)| + 1))
  {
    hide SkipFrom, TokenAt, TokenFrom, PassedAt, ElementsAt, PartAt, IsGap, GapText;
    PartSplit(x.doc, p, GapText(inner), "]");
    MarkToken(x, p + |GapText(inner)|, ']');
    GapPassed(x, p, inner, false, false);
  }

  lemma ItemsText(items: seq<Item>)
    requires items != []
    ensures WrittenItems(items) + "]" ==
            ItemText(items[0]) + (if |items| == 1 then "]" else "," + (WrittenItems(items[1..]) + "]"))
    ensures |WrittenItems(items)| == |ItemText(items[0])| + (if |items| == 1 then 0 else 1 + |WrittenItems(items[1..])|)
  {
    hide ItemText;
  }

  lemma ItemsFacts(x: Source, items: seq<Item>)
    requires items != [] && AreItems(x.features, x.env, items) && ItemsHaveCommas(items)
    ensures (var i := items[0];
      && IsGap(x.features, i.before, x.features.allowComments, false) && IsGap(x.features, i.after, true, false)
      && IsText(x.features, x.env, i.value) && HasCommas(i.value) && (i.value.DroppedText? ==> i.after == [])
      && ItemText(i) == GapText(i.before) + (Written(i.value) + GapText(i.after))
      && |ItemText(i)| == |GapText(i.before)| + |Written(i.value)| + |GapText(i.after)|)
    ensures AreItems(x.features, x.env, items[1..]) && ItemsHaveCommas(items[1..])
    ensures Meanings(x.env, items) == [Meaning(x.env, items[0].value)] + Meanings(x.env, items[1..])
    ensures RepeatsInItems(x.env, items) == (Repeats(x.env, items[0].value) || RepeatsInItems(x.env, items[1..]))
    ensures |items| == 1 ==> Meanings(x.env, items[1..]) == [] && !RepeatsInItems(x.env, items[1..])
  {
    hide IsGap, GapText, Written, Meaning, Repeats, HasCommas;
    assert items[0] in items;
  }

  /** An item, and the comma or the bracket behind it. */
  lemma {:induction false} ItemIsRead(x: Source, p: nat, items: seq<Item>, mark: char)
    requires items != [] && AreItems(x.features, x.env, items) && ItemsHaveCommas(items)
    requires PartAt(x.doc, p, ItemText(items[0])) && PartAt(x.doc, p + |ItemText(items[0])|, [mark])
    requires mark == ',' || mark == ']'
    ensures (var i, v := items[0], p + |GapText(items[0].before)|;
      var q := v + |Written(i.value)|;
      && v <= q <= |x.doc| && PartAt(x.doc, p, GapText(i.before))
      && PartAt(x.doc, v, Written(i.value)) && FirstAt(x, p) == FirstAt(x, v) && Stops(x, v, i.value)
      && ValueAt(x, p) == (if x.features.rejectDupKeys && Repeats(x.env, i.value) then None
                           else Some(Found(Meaning(x.env, i.value), q)))
      && PassedAt(x, q) == Token(KindOf(mark), p + |ItemText(i)|, p + |ItemText(i)| + 1)
      && (if i.value.DroppedText? then CharIs(x.doc, v, [mark]) && SkipFrom(x.doc, v) == v else BeginsValue(x, v)))
    decreases items, 0
  {
    hide *;
    ItemsFacts(x, items);
    var i := items[0];
    PartSplit(x.doc, p, GapText(i.before), Written(i.value) + GapText(i.after));
    ValueInGaps(x, p, i.before, i.value, i.after, mark);
  }

  /** The first item, the mark behind it, and the rest. */
  lemma ItemsSplit(x: Source, p: nat, items: seq<Item>)
    requires items != [] && PartAt(x.doc, p, WrittenItems(items) + "]")
    ensures (var last, r := |items| == 1, p + |ItemText(items[0])|;
      && PartAt(x.doc, p, ItemText(items[0])) && PartAt(x.doc, r, if last then "]" else ",")
      && (!last ==> PartAt(x.doc, r + 1, WrittenItems(items[1..]) + "]"))
      && |WrittenItems(items)| == |ItemText(items[0])| + (if last then 0 else 1 + |WrittenItems(items[1..])|)
      && p <= |x.doc|)
  {
    hide *;
    ItemsText(items);
    PartFits(x.doc, p, WrittenItems(items) + "]");
    if |items| == 1 {
      PartSplit(x.doc, p, ItemText(items[0]), "]");
    } else {
      var tail := WrittenItems(items[1..]) + "]";
      PartSplit(x.doc, p, ItemText(items[0]), "," + tail);
      PartSplit(x.doc, p + |ItemText(items[0])|, ",", tail);
    }
  }

  /** The first item does not look like the end of an empty array. */
  lemma StartsItem(x: Source, p: nat, items: seq<Item>)
    requires items != [] && AreItems(x.features, x.env, items) && ItemsHaveCommas(items)
    requires |items| == 1 && items[0].value.DroppedText? ==> !IsGap(x.features, items[0].before, false, false)
    requires PartAt(x.doc, p, WrittenItems(items) + "]")
    ensures p <= |x.doc| && (var s := SkipFrom(x.doc, p); s < |x.doc| && x.doc[s] != ']')
    decreases items, 2
  {
    hide *;
    ItemsSplit(x, p, items);
    ItemsFacts(x, items);
    var i := items[0];
    var mark := if |items| == 1 then ']' else ',';
    ItemIsRead(x, p, items, mark);
    GapSkipped(x, p, i.before, x.features.allowComments);
    NotEmpty(x, p, i, mark);
  }

  lemma FirstItem(x: Source, p: nat, items: seq<Item>)
    requires items != [] && AreItems(x.features, x.env, items) && ItemsHaveCommas(items)
    requires |items| == 1 && items[0].value.DroppedText? ==> !IsGap(x.features, items[0].before, false, false)
    requires PartAt(x.doc, p, WrittenItems(items) + "]")
    ensures p <= |x.doc| && ArrayAt(x, p) == ElementsAt(x, p, [])
    decreases items, 3
  {
    hide *;
    StartsItem(x, p, items);
    SkipToFirst(x, p);
  }

  lemma SkipToFirst(x: Source, p: nat)
    requires p <= |x.doc|
    requires (var s := SkipFrom(x.doc, p); s < |x.doc| && x.doc[s] != ']')
    ensures ArrayAt(x, p) == ElementsAt(x, p, [])
  {
    hide ElementsAt, TokenFrom, PassedAt;
    var s := SkipFrom(x.doc, p);
    SkipAgain(x.doc, p);
    SamePassed(x, p, s);
    SameFirst(x, p, s);
  }

  lemma NotEmpty(x: Source, p: nat, i: Item, mark: char)
    requires (var v := p + |GapText(i.before)|;
      && v <= |x.doc|
      && (if i.value.DroppedText? then CharIs(x.doc, v, [mark]) && SkipFrom(x.doc, v) == v else BeginsValue(x, v))
      && (var s := SkipFrom(x.doc, p);
          || (IsGap(x.features, i.before, false, false) && s == SkipFrom(x.doc, v))
          || (s < |x.doc| && (x.doc[s] == '/' || x.doc[s] == '\''))))
    requires i.value.DroppedText? && mark == ']' ==> !IsGap(x.features, i.before, false, false)
    requires mark == ',' || mark == ']'
    ensures (var s := SkipFrom(x.doc, p); s < |x.doc| && x.doc[s] != ']')
  {
    hide IsGap, GapText, TokenFrom, PassedAt;
    var v := p + |GapText(i.before)|;
    if BeginsValue(x, v) { ValueBegins(x, v); }
  }

  lemma SamePassed(x: Source, p: nat, q: nat)
    requires p <= |x.doc| && q <= |x.doc| && TokenAt(x, p) == TokenAt(x, q)
    ensures PassedAt(x, p) == PassedAt(x, q) && FirstAt(x, p) == FirstAt(x, q)
  {
    hide TokenAt;
  }

  lemma {:induction false} SkipAgain(doc: string, p: nat)
    requires p <= |doc|
    ensures SkipFrom(doc, SkipFrom(doc, p)) == SkipFrom(doc, p)
    decreases |doc| - p
  {
    if p < |doc| && IsSpace(doc[p]) { SkipAgain(doc, p + 1); }
  }

  lemma Appended(found: seq<Json>, j: Json, rest: seq<Json>)
    ensures found + ([j] + rest) == found + [j] + rest && (rest == [] ==> found + ([j] + rest) == found + [j])
  {
  }

  lemma {:induction false} ItemsAreRead(x: Source, p: nat, items: seq<Item>, found: seq<Json>)
    requires items != [] && AreItems(x.features, x.env, items) && ItemsHaveCommas(items)
    requires PartAt(x.doc, p, WrittenItems(items) + "]")
    ensures p <= |x.doc|
    ensures ElementsAt(x, p, found) == if x.features.rejectDupKeys && RepeatsInItems(x.env, items) then None
                                       else Some(Found(JArray(found + Meanings(x.env, items)),
                                                       p + |WrittenItems(items)| + 1))
    decreases items, 1
  {
    hide *;
    ItemsSplit(x, p, items);
    ItemsFacts(x, items);
    var i, j, r := items[0], Meaning(x.env, items[0].value), p + |ItemText(items[0])|;
    Appended(found, j, Meanings(x.env, items[1..]));
    ItemIsRead(x, p, items, if |items| == 1 then ']' else ',');
    if |items| > 1 {
      ItemsAreRead(x, r + 1, items[1..], found + [j]);
    }
    if x.features.rejectDupKeys && Repeats(x.env, i.value) {
      NoElements(x, p, found);
    } else {
      ElementsStep(x, p, found, Found(j, p + |GapText(i.before)| + |Written(i.value)|));
      KindIs();
    }
  }

  lemma KindIs()
    ensures KindOf(']') == ArrayEnd && KindOf(',') == ArraySeparator && KindOf('}') == ObjectEnd
    ensures KindOf(':') == MemberSeparator && KindOf('[') == ArrayBegin && KindOf('{') == ObjectBegin
  {
  }

  /** The inside of an object, from behind its brace. */
  lemma {:induction false} ObjectIsRead(x: Source, p: nat, members: seq<Member>, comma: bool, inner: Gap)
    requires IsObject(x.features, x.env, members, comma, inner)
    requires PartAt(x.doc, p, WrittenMembers(members, comma) + (GapText(inner) + "}"))
    ensures p <= |x.doc|
    ensures MembersAt(x, p, map[], "") ==
            if x.features.rejectDupKeys && RepeatsInMembers(x.env, members, {}) then None
            else Some(Found(JObject(Bindings(x.env, members, map[])),
                            p + |WrittenMembers(members, comma)| + |GapText(inner)| + 1))
    decreases members, 4
  {
    hide *;
    ObjectFacts(x, members, comma, inner);
    PartFits(x.doc, p, WrittenMembers(members, comma) + (GapText(inner) + "}"));
    var none: map<string, Json> := map[];
    assert none.Keys == {};
    if members == [] {
      assert WrittenMembers(members, comma) + (GapText(inner) + "}") == GapText(inner) + "}";
      ClosingBrace(x, p, inner, none, "");
    } else {
      MembersAreRead(x, p, members, comma, inner, none, "");
    }
  }

  lemma ObjectFacts(x: Source, members: seq<Member>, comma: bool, inner: Gap)
    requires IsObject(x.features, x.env, members, comma, inner)
    ensures AreMembers(x.features, x.env, members) && MembersHaveCommas(members)
    ensures IsGap(x.features, inner, true, false) && LastMember(x.env, members, comma, inner)
    ensures members == [] ==>
              && !comma && WrittenMembers(members, comma) == "" && !RepeatsInMembers(x.env, members, {})
              && forall found :: Bindings(x.env, members, found) == found
  {
    hide AreMembers, MembersHaveCommas, IsGap;
  }

  /** The brace that closes an object, behind an empty name or none. */
  lemma ClosingBrace(x: Source, p: nat, inner: Gap, found: map<string, Json>, name: string)
    requires IsGap(x.features, inner, true, false) && PartAt(x.doc, p, GapText(inner) + "}") && name == ""
    ensures p + |GapText(inner)| < |x.doc|
    ensures MembersAt(x, p, found, name) == Some(Found(JObject(found), p + |GapText(inner)| + 1))
  {
    hide PassedAt, TokenFrom, TokenAt, FirstAt, SkipFrom, EntryAt, IsGap, GapText, PartAt;
    PartSplit(x.doc, p, GapText(inner), "}");
    MarkToken(x, p + |GapText(inner)|, '}');
    GapBehind(x, p, inner);
  }

  lemma MembersText(members: seq<Member>, comma: bool, end: string)
    requires members != [] && MembersHaveCommas(members)
    ensures (var last := |members| == 1 && !comma;
      && WrittenMembers(members, comma) + end
         == MemberText(members[0]) + (if last then end else "," + (WrittenMembers(members[1..], comma) + end))
      && |WrittenMembers(members, comma)|
         == |MemberText(members[0])| + (if last then 0 else 1 + |WrittenMembers(members[1..], comma)|))
    ensures |members| == 1 ==>
              WrittenMembers(members[1..], comma) + end == end && |WrittenMembers(members[1..], comma)| == 0
  {
    hide MemberText;
    assert members[0] in members;
  }

  lemma MembersFacts(x: Source, members: seq<Member>, names: set<string>)
    requires members != [] && AreMembers(x.features, x.env, members) && MembersHaveCommas(members)
    ensures (var m := members[0];
      && IsMember(x.features, x.env, m) && HasCommas(m.value)
      && MemberText(m) == GapText(m.before) + (KeyText(m.key) + (GapText(m.colon)
                          + (":" + (GapText(m.gap) + (Written(m.value) + GapText(m.after)))))))
    ensures AreMembers(x.features, x.env, members[1..]) && MembersHaveCommas(members[1..])
    ensures (var name := KeyName(x.env, members[0].key);
      RepeatsInMembers(x.env, members, names)
      == (name in names || Repeats(x.env, members[0].value) || RepeatsInMembers(x.env, members[1..], names + {name})))
    ensures |members| == 1 ==> forall ns :: !RepeatsInMembers(x.env, members[1..], ns)
  {
    hide IsMember, GapText, Written, KeyText, KeyName, Repeats, HasCommas;
    assert members[0] in members;
  }

  lemma BindingsMore(env: Env, members: seq<Member>, found: map<string, Json>)
    requires members != []
    ensures (var more := found[KeyName(env, members[0].key) := Meaning(env, members[0].value)];
      && Bindings(env, members, found) == Bindings(env, members[1..], more)
      && more.Keys == found.Keys + {KeyName(env, members[0].key)}
      && (|members| == 1 ==> Bindings(env, members, found) == more))
  {
    hide Meaning, KeyName;
  }

  lemma LastStays(env: Env, members: seq<Member>, comma: bool, inner: Gap)
    requires members != [] && LastMember(env, members, comma, inner)
    ensures |members| > 1 ==> LastMember(env, members[1..], comma, inner)
    ensures |members| == 1 && comma ==> KeyName(env, members[0].key) == ""
    ensures !comma ==> GapText(inner) == ""
  {
  }

  lemma MembersStep(x: Source, p: nat, found: map<string, Json>, name: string)
    requires p <= |x.doc| && (PassedAt(x, p).kind == Str || PassedAt(x, p).kind == Number)
    ensures (var e := EntryAt(x, PassedAt(x, p), found);
      MembersAt(x, p, found, name) ==
        if e.None? then None
        else if e.value.last then Some(Found(JObject(found[e.value.key := e.value.value]), e.value.next))
        else MembersAt(x, e.value.next, found[e.value.key := e.value.value], e.value.key))
  {
    hide PassedAt, EntryAt;
  }

  lemma {:induction false} MembersAreRead(x: Source, p: nat, members: seq<Member>, comma: bool, inner: Gap,
                                          found: map<string, Json>, name: string)
    requires members != [] && AreMembers(x.features, x.env, members) && MembersHaveCommas(members)
    requires IsGap(x.features, inner, true, false) && LastMember(x.env, members, comma, inner)
    requires PartAt(x.doc, p, WrittenMembers(members, comma) + (GapText(inner) + "}"))
    ensures p <= |x.doc|
    ensures MembersAt(x, p, found, name) ==
            if x.features.rejectDupKeys && RepeatsInMembers(x.env, members, found.Keys) then None
            else Some(Found(JObject(Bindings(x.env, members, found)),
                            p + |WrittenMembers(members, comma)| + |GapText(inner)| + 1))
    decreases members, 3
  {
    hide *;
    var m, last := members[0], |members| == 1 && !comma;
    var key, r := KeyName(x.env, m.key), p + |MemberText(m)|;
    MembersSplit(x, p, members, comma, inner);
    MembersFacts(x, members, found.Keys);
    BindingsMore(x.env, members, found);
    LastStays(x.env, members, comma, inner);
    EntryIsRead(x, p, m, found, if last then '}' else ',');
    if !last {
      var more := found[key := Meaning(x.env, m.value)];
      if |members| == 1 {
        ClosingBrace(x, r + 1, inner, more, key);
      } else {
        MembersAreRead(x, r + 1, members[1..], comma, inner, more, key);
      }
    }
    MembersStep(x, p, found, name);
  }

  /** The first member, the mark behind it, and the rest. */
  lemma MembersSplit(x: Source, p: nat, members: seq<Member>, comma: bool, inner: Gap)
    requires members != [] && MembersHaveCommas(members) && LastMember(x.env, members, comma, inner)
    requires PartAt(x.doc, p, WrittenMembers(members, comma) + (GapText(inner) + "}"))
    ensures (var m, last, r := members[0], |members| == 1 && !comma, p + |MemberText(members[0])|;
      && PartAt(x.doc, p, MemberText(m)) && PartAt(x.doc, r, if last then "}" else ",")
      && (!last ==> PartAt(x.doc, r + 1, WrittenMembers(members[1..], comma) + (GapText(inner) + "}")))
      && (|members| == 1 && !last ==> PartAt(x.doc, r + 1, GapText(inner) + "}"))
      && |WrittenMembers(members, comma)| + |GapText(inner)|
         == |MemberText(m)| + (if last then 0 else 1 + |WrittenMembers(members[1..], comma)| + |GapText(inner)|)
      && (|members| == 1 ==> |WrittenMembers(members[1..], comma)| == 0) && p <= |x.doc|)
  {
    hide *;
    var end := GapText(inner) + "}";
    var m, last, r := members[0], |members| == 1 && !comma, p + |MemberText(members[0])|;
    MembersText(members, comma, end);
    LastStays(x.env, members, comma, inner);
    PartFits(x.doc, p, WrittenMembers(members, comma) + end);
    if last {
      assert end == "}";
      PartSplit(x.doc, p, MemberText(m), "}");
    } else {
      var tail := WrittenMembers(members[1..], comma) + end;
      PartSplit(x.doc, p, MemberText(m), "," + tail);
      PartSplit(x.doc, r, ",", tail);
    }
  }

  /** The token of a name. */
  lemma KeyToken(x: Source, k: nat, key: Key, next: nat)
    requires IsKey(x.features, x.env, key) && PartAt(x.doc, k, KeyText(key)) && NoMore(x.doc, k + |KeyText(key)|)
    requires next == k + |KeyText(key)|
    ensures k < |x.doc| && !IsSpace(x.doc[k]) && next <= |x.doc|
    ensures (var t := TokenFrom(x, k);
      && (t.kind == Str || t.kind == Number) && t.end == next && t.start == k && (t.kind == Str ==> t.end >= k + 2)
      && KeyIn(x, t) == Some(KeyName(x.env, key)))
  {
    hide TokenFrom, StringIn, NumberIn, PartAt, QuotationText, Spelled, IsNumber, IsQuotation, TextMeaning, NoMore;
    match key
    case StringKey(text) => StringToken(x, k, text);
    case NumberKey(number) => NumberToken(x, k, number);
  }

  lemma MemberParts(x: Source, m: Member)
    requires IsMember(x.features, x.env, m)
    ensures IsGap(x.features, m.before, true, false) && IsKey(x.features, x.env, m.key)
    ensures IsGap(x.features, m.colon, false, false) && IsGap(x.features, m.gap, x.features.allowComments, false)
    ensures IsText(x.features, x.env, m.value) && IsGap(x.features, m.after, true, false)
    ensures m.value.DroppedText? ==> m.after == []
  {
    hide IsGap, IsKey, IsText;
  }

  /** A gap of spaces, in front of a mark. */
  lemma SpacesTo(x: Source, p: nat, bs: Gap, mark: char)
    requires IsGap(x.features, bs, false, false) && PartAt(x.doc, p, GapText(bs) + [mark]) && mark == ':'
    ensures p + |GapText(bs)| < |x.doc| && NoMore(x.doc, p)
    ensures TokenAt(x, p) == Token(MemberSeparator, p + |GapText(bs)|, p + |GapText(bs)| + 1)
  {
    hide IsGap, GapText, TokenFrom, PassedAt, PartAt, NoMore;
    PartSplit(x.doc, p, GapText(bs), [mark]);
    MarkToken(x, p + |GapText(bs)|, mark);
    GapPassed(x, p, bs, false, false);
    GapStops(x, p, bs, false, false);
    KindIs();
  }

  /** A member, and the comma or the brace behind it. */
  lemma {:induction false} EntryIsRead(x: Source, p: nat, m: Member, found: map<string, Json>, mark: char)
    requires IsMember(x.features, x.env, m) && HasCommas(m.value) && (mark == ',' || mark == '}')
    requires PartAt(x.doc, p, MemberText(m)) && PartAt(x.doc, p + |MemberText(m)|, [mark])
    requires MemberText(m) == GapText(m.before) + (KeyText(m.key) + (GapText(m.colon)
                              + (":" + (GapText(m.gap) + (Written(m.value) + GapText(m.after))))))
    ensures p <= |x.doc| && (PassedAt(x, p).kind == Str || PassedAt(x, p).kind == Number)
    ensures (var key := KeyName(x.env, m.key);
      EntryAt(x, PassedAt(x, p), found) ==
        if x.features.rejectDupKeys && (key in found || Repeats(x.env, m.value)) then None
        else Some(Entry(key, Meaning(x.env, m.value), mark == '}', p + |MemberText(m)| + 1)))
    ensures (var t, d := PassedAt(x, p), p + |GapText(m.before)| + |KeyText(m.key)| + |GapText(m.colon)|;
      var v := d + 1 + |GapText(m.gap)|;
      && t.end <= |x.doc| && t.start < t.end && (t.kind == Str ==> t.end >= t.start + 2)
      && KeyIn(x, t) == Some(KeyName(x.env, m.key)) && TokenAt(x, t.end) == Token(MemberSeparator, d, d + 1)
      && v <= |x.doc| && PartAt(x.doc, v, Written(m.value)) && Stops(x, v, m.value)
      && FirstAt(x, d + 1) == FirstAt(x, v))
    decreases m, 1
  {
    hide *;
    MemberParts(x, m);
    var k := p + |GapText(m.before)|;
    var c := k + |KeyText(m.key)|;
    var d := c + |GapText(m.colon)|;
    MemberSplit(x, p, m);
    SpacesTo(x, c, m.colon, ':');
    KeyToken(x, k, m.key, c);
    NextToken(x, k);
    NoLineFeed(x, k);
    GapBehind(x, p, m.before);
    ValueInGaps(x, d + 1, m.gap, m.value, m.after, mark);
    KindIs();
    EntryStep(x, TokenFrom(x, k), found, KeyName(x.env, m.key), d + 1, d + 1 + |GapText(m.gap)| + |Written(m.value)|);
  }

  /** The parts of a member, one behind the other. */
  lemma MemberSplit(x: Source, p: nat, m: Member)
    requires PartAt(x.doc, p, MemberText(m))
    requires MemberText(m) == GapText(m.before) + (KeyText(m.key) + (GapText(m.colon)
                              + (":" + (GapText(m.gap) + (Written(m.value) + GapText(m.after))))))
    ensures (var k := p + |GapText(m.before)|;
      var c := k + |KeyText(m.key)|;
      var d := c + |GapText(m.colon)|;
      && PartAt(x.doc, p, GapText(m.before)) && PartAt(x.doc, k, KeyText(m.key))
      && PartAt(x.doc, c, GapText(m.colon) + ":")
      && PartAt(x.doc, d + 1, GapText(m.gap) + (Written(m.value) + GapText(m.after)))
      && p + |MemberText(m)| == d + 1 + |GapText(m.gap)| + |Written(m.value)| + |GapText(m.after)| <= |x.doc|)
  {
    hide *;
    var k := p + |GapText(m.before)|;
    var c := k + |KeyText(m.key)|;
    var inside := GapText(m.gap) + (Written(m.value) + GapText(m.after));
    PartFits(x.doc, p, MemberText(m));
    PartSplit(x.doc, p, GapText(m.before), KeyText(m.key) + (GapText(m.colon) + (":" + inside)));
    PartSplit(x.doc, k, KeyText(m.key), GapText(m.colon) + (":" + inside));
    assert GapText(m.colon) + (":" + inside) == (GapText(m.colon) + ":") + inside;
    PartSplit(x.doc, c, GapText(m.colon) + ":", inside);
  }

  lemma NoLineFeed(x: Source, k: nat)
    requires k < |x.doc| && !IsSpace(x.doc[k])
    ensures !CharIs(x.doc, k, "\n")
  {
  }

  lemma EntryStep(x: Source, t: Token, found: map<string, Json>, name: string, v: nat, q: nat)
    requires (t.kind == Str || t.kind == Number) && t.start < t.end <= |x.doc|
    requires t.kind == Str ==> t.end >= t.start + 2
    requires KeyIn(x, t) == Some(name) && TokenAt(x, t.end).kind == MemberSeparator && TokenAt(x, t.end).end == v
    requires v <= |x.doc| && q <= |x.doc| && (ValueAt(x, v).Some? ==> ValueAt(x, v).value.next == q)
    requires PassedAt(x, q).kind == ObjectEnd || PassedAt(x, q).kind == ArraySeparator
    ensures EntryAt(x, t, found) ==
              if (x.features.rejectDupKeys && name in found) || ValueAt(x, v).None? then None
              else Some(Entry(name, ValueAt(x, v).value.value, PassedAt(x, q).kind == ObjectEnd, PassedAt(x, q).end))
  {
    hide TokenAt, PassedAt, ValueAt, KeyIn;
    PassedIs(x, q);
  }

  lemma PassedIs(x: Source, q: nat)
    requires q <= |x.doc|
    ensures (var t := TokenAt(x, q); PassedAt(x, q) == if t.kind == Comment then PassedAt(x, t.end) else t)
  {
    hide TokenAt;
  }

  // ----- Documents -----

  /**
   Whatever is written for a value, between white space and comments, is a document of it. Only a strict root can refuse
   it, or a name that comes again where that is refused.
   */
  lemma TextRoundTrip(before: Gap, t: Text, after: Gap, beyond: char, features: Features, env: Env)
    requires IsText(features, env, t) && HasCommas(t) && !t.DroppedText?
    requires IsGap(features, before, features.allowComments, false)
    requires IsGap(features, after, features.allowComments, true)
    ensures Document(Source(GapText(before) + (Written(t) + GapText(after)), beyond, features, env)) ==
            if features.rejectDupKeys && Repeats(env, t) then None
            else if features.strictRoot && !t.ArrayText? && !t.ObjectText? then None
            else Some(Meaning(env, t))
  {
    hide *;
    var doc := GapText(before) + (Written(t) + GapText(after));
    var x := Source(doc, beyond, features, env);
    WholePart(doc);
    PartSplit(doc, 0, GapText(before), Written(t) + GapText(after));
    PartSplit(doc, |GapText(before)|, Written(t), GapText(after));
    DocumentIsRead(x, before, t, after);
  }

  lemma DocumentIsRead(x: Source, before: Gap, t: Text, after: Gap)
    requires IsText(x.features, x.env, t) && HasCommas(t) && !t.DroppedText?
    requires IsGap(x.features, before, x.features.allowComments, false)
    requires IsGap(x.features, after, x.features.allowComments, true)
    requires PartAt(x.doc, 0, GapText(before)) && PartAt(x.doc, |GapText(before)|, Written(t))
    requires PartAt(x.doc, |GapText(before)| + |Written(t)|, GapText(after))
    requires |x.doc| == |GapText(before)| + |Written(t)| + |GapText(after)|
    ensures Document(x) ==
            if x.features.rejectDupKeys && Repeats(x.env, t) then None
            else if x.features.strictRoot && !t.ArrayText? && !t.ObjectText? then None
            else Some(Meaning(x.env, t))
  {
    hide *;
    var v, q := |GapText(before)|, |GapText(before)| + |Written(t)|;
    AtEnd(x);
    GapStops(x, q, after, x.features.allowComments, true);
    StopsPlain(x, v, t);
    WrittenIsRead(x, v, t);
    ReadAsMeans(x, v, t);
    ValueBegins(x, v);
    GapBefore(x, 0, before);
    SameFirst(x, 0, v);
    GapPassed(x, q, after, x.features.allowComments, true);
    SkippedFirst(x, q, |x.doc|);
    DocumentIs(x, t);
  }

  lemma WholePart(doc: string)
    ensures PartAt(doc, 0, doc)
  {
  }

  lemma AtEnd(x: Source)
    ensures FirstAt(x, |x.doc|) == Token(EndOfStream, |x.doc|, |x.doc|) && NoMore(x.doc, |x.doc|)
    ensures !CharIs(x.doc, |x.doc|, "\n")
  {
  }

  lemma SkippedFirst(x: Source, p: nat, q: nat)
    requires p <= |x.doc| && q <= |x.doc| && PassedAt(x, p) == PassedAt(x, q)
    requires !x.features.allowComments ==> SkipFrom(x.doc, p) == SkipFrom(x.doc, q)
    ensures FirstAt(x, p) == FirstAt(x, q)
  {
    hide PassedAt, SkipFrom, TokenFrom;
  }

  lemma DocumentIs(x: Source, t: Text)
    requires ValueAt(x, 0).Some? ==> FirstAt(x, ValueAt(x, 0).value.next).kind == EndOfStream
    requires ValueAt(x, 0).Some? ==> ValueAt(x, 0).value.value == Meaning(x.env, t)
    requires !t.DroppedText?
    ensures Document(x) ==
            if ValueAt(x, 0).None? || (x.features.strictRoot && !t.ArrayText? && !t.ObjectText?) then None
            else Some(Meaning(x.env, t))
  {
    hide ValueAt, FirstAt, Meanings, Bindings;
  }
}
