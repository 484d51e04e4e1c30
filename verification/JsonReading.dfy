/** Nothing else is read: what the reader finds a value in is a text of that value. */
module JsonReading {
  import opened Wrappers
  import opened JsonNumbers
  import opened JsonStrings
  import opened JsonGrammar
  import opened JsonBlanks
  import opened JsonSpelling
  import opened JsonGlyphs
  import opened JsonText

  // ----- One token -----

  lemma NumberIs(x: Source, s: nat) returns (n: Spelling)
    requires s < |x.doc| && TokenFrom(x, s).kind == Number && NumberIn(x, TokenFrom(x, s)).Some?
    ensures IsNumber(x.env, n) && x.doc[s..TokenFrom(x, s).end] == Spelled(n)
    ensures NumberIn(x, TokenFrom(x, s)) == Some(DecodedOf(Spelled(n)))
  {
    hide TokenFrom, NumberEnd, DecodedOf, IsSpelling, Spelled;
    NumberStarts(x, s);
    n := NumberIsSpelled(x.doc, s);
  }

  lemma NumberStarts(x: Source, s: nat)
    requires s < |x.doc| && TokenFrom(x, s).kind == Number
    ensures IsDigit(x.doc[s]) || x.doc[s] == '-'
    ensures TokenFrom(x, s) == Token(Number, s, NumberEnd(x.doc, s + 1))
  {
    hide NumberEnd, StringEnd, CommentEnd, LiteralAt;
  }

  lemma StringIs(x: Source, s: nat) returns (q: Quotation)
    requires s < |x.doc| && TokenFrom(x, s).kind == Str && StringIn(x, TokenFrom(x, s)).Some?
    ensures IsQuotation(x.features, q) && x.doc[s..TokenFrom(x, s).end] == QuotationText(q)
    ensures StringIn(x, TokenFrom(x, s)) == Some(TextMeaning(q))
  {
    hide TokenFrom, StringIn, GlyphsMeaning, QuotationText;
    q := StringIsQuoted(x, s);
  }

  lemma LiteralIs(x: Source, s: nat)
    requires s < |x.doc| && TokenFrom(x, s).kind in {True, False, Null}
    ensures (var t := TokenFrom(x, s);
      x.doc[s..t.end] == if t.kind == True then "true" else if t.kind == False then "false" else "null")
  {
    hide TokenFrom, LiteralAt;
    LiteralStarts(x, s);
    LiteralSplit(x.doc, s, "true");
    LiteralSplit(x.doc, s, "false");
    LiteralSplit(x.doc, s, "null");
    assert "true"[1..] == "rue" && "false"[1..] == "alse" && "null"[1..] == "ull";
    LiteralThere(x.doc, s);
  }

  lemma LiteralStarts(x: Source, s: nat)
    requires s < |x.doc| && TokenFrom(x, s).kind in {True, False, Null}
    ensures (var t := TokenFrom(x, s);
      && (t.kind == True ==> x.doc[s] == 't' && LiteralAt(x.doc, s + 1, "rue") && t.end == s + 4)
      && (t.kind == False ==> x.doc[s] == 'f' && LiteralAt(x.doc, s + 1, "alse") && t.end == s + 5)
      && (t.kind == Null ==> x.doc[s] == 'n' && LiteralAt(x.doc, s + 1, "ull") && t.end == s + 4))
  {
    hide NumberEnd, StringEnd, CommentEnd, LiteralAt;
  }

  lemma LiteralThere(doc: string, s: nat)
    ensures LiteralAt(doc, s, "true") ==> s + 4 <= |doc| && doc[s..s + 4] == "true"
    ensures LiteralAt(doc, s, "false") ==> s + 5 <= |doc| && doc[s..s + 5] == "false"
    ensures LiteralAt(doc, s, "null") ==> s + 4 <= |doc| && doc[s..s + 4] == "null"
  {
  }

  lemma MarkIs(x: Source, s: nat)
    requires s <= |x.doc|
    requires TokenFrom(x, s).kind in {ObjectBegin, ObjectEnd, ArrayBegin, ArrayEnd, ArraySeparator, MemberSeparator}
    ensures s < |x.doc| && TokenFrom(x, s).end == s + 1 && KindOf(x.doc[s]) == TokenFrom(x, s).kind
    ensures x.doc[s] == '{' || x.doc[s] == '}' || x.doc[s] == '[' || x.doc[s] == ']'
            || x.doc[s] == ',' || x.doc[s] == ':'
  {
    hide NumberEnd, StringEnd, CommentEnd, LiteralAt;
  }

  /** A value of one token. */
  lemma PlainIsText(x: Source, s: nat) returns (t: Text)
    requires s < |x.doc| && PlainIn(x, TokenFrom(x, s)).Some?
    ensures IsText(x.features, x.env, t) && x.doc[s..TokenFrom(x, s).end] == Written(t) && !t.DroppedText?
    ensures PlainIn(x, TokenFrom(x, s)) == Some(Meaning(x.env, t)) && !Repeats(x.env, t)
  {
    hide TokenFrom, StringIn, NumberIn, IsQuotation, IsNumber, QuotationText, Spelled, DecodedOf, TextMeaning;
    var kind := TokenFrom(x, s).kind;
    if kind == Number {
      var n := NumberIs(x, s);
      t := NumberText(n);
    } else if kind == Str {
      var q := StringIs(x, s);
      t := StringText(q);
    } else {
      LiteralIs(x, s);
      t := if kind == Null then NullText else BoolText(kind == True);
    }
  }

  // ----- Values -----

  /** What is found from `p` on is written there, behind a gap. */
  ghost predicate Finds(x: Source, p: nat, v: Found, before: Gap, t: Text)
    requires p <= v.next <= |x.doc|
  {
    && IsGap(x.features, before, x.features.allowComments, false) && IsText(x.features, x.env, t)
    && x.doc[p..v.next] == GapText(before) + Written(t) && Meaning(x.env, t) == v.value
    && (x.features.rejectDupKeys ==> !Repeats(x.env, t))
    && (t.DroppedText? ==> CharIs(x.doc, v.next, ",]}"))
  }

  lemma FirstIs(x: Source, p: nat)
    requires p <= |x.doc|
    ensures FirstAt(x, p) == TokenFrom(x, FirstAt(x, p).start) && p <= FirstAt(x, p).start <= |x.doc|
    ensures PassedAt(x, p) == TokenFrom(x, PassedAt(x, p).start) && p <= PassedAt(x, p).start <= |x.doc|
    ensures FirstAt(x, p).kind != EndOfStream ==> FirstAt(x, p).start < |x.doc|
    ensures PassedAt(x, p).kind != EndOfStream ==> PassedAt(x, p).start < |x.doc|
  {
    hide FirstAt, PassedAt, TokenFrom;
    FirstIsToken(x, p);
  }

  /** What a value is, by its first token. */
  lemma ValueCases(x: Source, p: nat)
    requires p <= |x.doc| && ValueAt(x, p).Some?
    ensures (var t := FirstAt(x, p);
      && t.kind != EndOfStream
      && (t.kind == ObjectBegin ==> ValueAt(x, p) == MembersAt(x, t.end, map[], ""))
      && (t.kind == ArrayBegin ==> ValueAt(x, p) == ArrayAt(x, t.end))
      && (t.kind in {ObjectEnd, ArrayEnd, ArraySeparator} ==>
            x.features.allowDroppedNulls && ValueAt(x, p) == Some(Found(JNull, t.start)))
      && (t.kind !in {ObjectBegin, ArrayBegin, ObjectEnd, ArrayEnd, ArraySeparator} ==>
            PlainIn(x, t).Some? && ValueAt(x, p) == Some(Found(PlainIn(x, t).value, t.end))))
  {
    hide FirstAt, MembersAt, ArrayAt, NumberIn, StringIn;
  }

  /**
   Where a value is found, a text of that value is written, and nothing else, behind white space and comments; and its
   names do not come again where that is refused.
   */
  lemma {:induction false} ReadIsWritten(x: Source, p: nat) returns (before: Gap, t: Text)
    requires p <= |x.doc| && x.beyond != ']' && ValueAt(x, p).Some?
    ensures Finds(x, p, ValueAt(x, p).value, before, t)
    decreases |x.doc| - p, 0
  {
    hide *;
    var v := ValueAt(x, p).value;
    ValueCases(x, p);
    FirstIs(x, p);
    before := GapToFirst(x, p);
    var token := FirstAt(x, p);
    var s := token.start;
    Slices(x.doc, p, s, v.next);
    if token.kind == ArrayBegin {
      MarkIs(x, s);
      KindIs();
      var items, inner := ArrayIsWritten(x, token.end);
      t := ArrayText(items, inner);
      ArrayFound(x, s, v, items, inner);
    } else if token.kind == ObjectBegin {
      MarkIs(x, s);
      KindIs();
      var members, comma, inner := MembersAreWritten(x, token.end, map[], "");
      t := ObjectText(members, comma, inner);
      ObjectFound(x, s, v, members, comma, inner);
    } else if token.kind == ObjectEnd || token.kind == ArrayEnd || token.kind == ArraySeparator {
      MarkIs(x, s);
      KindIs();
      t := DroppedText;
      DroppedFound(x, s);
    } else {
      t := PlainIsText(x, s);
      PlainStays(x.doc, s, t);
    }
    FindsThen(x, p, v, before, t);
  }

  lemma PlainStays(doc: string, s: nat, t: Text)
    requires !t.DroppedText?
    ensures t.DroppedText? ==> CharIs(doc, s, ",]}")
  {
  }

  lemma FindsThen(x: Source, p: nat, v: Found, before: Gap, t: Text)
    requires p <= v.next <= |x.doc|
    requires IsGap(x.features, before, x.features.allowComments, false) && IsText(x.features, x.env, t)
    requires x.doc[p..v.next] == GapText(before) + Written(t) && Meaning(x.env, t) == v.value
    requires x.features.rejectDupKeys ==> !Repeats(x.env, t)
    requires t.DroppedText? ==> CharIs(x.doc, v.next, ",]}")
    ensures Finds(x, p, v, before, t)
  {
    hide IsGap, IsText, Written, Meaning, Repeats;
  }

  lemma FindsFacts(x: Source, p: nat, v: Found, before: Gap, t: Text)
    requires p <= v.next <= |x.doc| && Finds(x, p, v, before, t)
    ensures IsGap(x.features, before, x.features.allowComments, false) && IsText(x.features, x.env, t)
    ensures x.doc[p..v.next] == GapText(before) + Written(t) && Meaning(x.env, t) == v.value
    ensures x.features.rejectDupKeys ==> !Repeats(x.env, t)
    ensures t.DroppedText? ==> CharIs(x.doc, v.next, ",]}")
  {
    hide IsGap, IsText, Written, Meaning, Repeats;
  }

  lemma DroppedFound(x: Source, s: nat)
    requires x.features.allowDroppedNulls && s < |x.doc|
    requires KindOf(x.doc[s]) in {ObjectEnd, ArrayEnd, ArraySeparator}
    ensures IsText(x.features, x.env, DroppedText) && Written(DroppedText) == "" == x.doc[s..s]
    ensures Meaning(x.env, DroppedText) == JNull && !Repeats(x.env, DroppedText) && CharIs(x.doc, s, ",]}")
  {
  }

  lemma ArrayFound(x: Source, s: nat, v: Found, items: seq<Item>, inner: Gap)
    requires s < v.next <= |x.doc| && x.doc[s] == '['
    requires IsItems(x, s + 1, v, items, inner, [])
    requires !(|items| == 1 && items[0].value.DroppedText? && IsGap(x.features, items[0].before, false, false))
    ensures (var t := ArrayText(items, inner);
      && IsText(x.features, x.env, t) && x.doc[s..v.next] == Written(t) && Meaning(x.env, t) == v.value
      && (x.features.rejectDupKeys ==> !Repeats(x.env, t)) && !t.DroppedText?)
  {
    hide IsGap, AreItems, WrittenItems, Meanings, RepeatsInItems, GapText;
    Slices(x.doc, s, s + 1, v.next);
    NoneBefore(Meanings(x.env, items));
  }

  // ----- Arrays -----

  /** The items that are written from `p` to the end of an array, behind those found. */
  ghost predicate IsItems(x: Source, p: nat, v: Found, items: seq<Item>, inner: Gap, found: seq<Json>) {
    && p <= v.next <= |x.doc| && AreItems(x.features, x.env, items) && IsGap(x.features, inner, false, false)
    && (items != [] ==> inner == [])
    && x.doc[p..v.next] == WrittenItems(items) + (GapText(inner) + "]")
    && v.value == JArray(found + Meanings(x.env, items))
    && (x.features.rejectDupKeys ==> !RepeatsInItems(x.env, items))
  }

  lemma {:induction false} ArrayIsWritten(x: Source, p: nat) returns (items: seq<Item>, inner: Gap)
    requires p <= |x.doc| && x.beyond != ']' && ArrayAt(x, p).Some?
    ensures IsItems(x, p, ArrayAt(x, p).value, items, inner, [])
    ensures !(|items| == 1 && items[0].value.DroppedText? && IsGap(x.features, items[0].before, false, false))
    decreases |x.doc| - p, 3
  {
    hide *;
    var s := SkipFrom(x.doc, p);
    ArrayCases(x, p);
    if s < |x.doc| && x.doc[s] == ']' {
      items := [];
      inner := SpacesBefore(x, p, false, false);
      EmptyFound(x, p, inner);
    } else {
      items := ElementsAreWritten(x, p, []);
      inner := [];
      NotOnlyDropped(x, p, ArrayAt(x, p).value, items);
    }
  }

  lemma ArrayCases(x: Source, p: nat)
    requires p <= |x.doc| && x.beyond != ']' && ArrayAt(x, p).Some?
    ensures (var s := SkipFrom(x.doc, p);
      if s < |x.doc| && x.doc[s] == ']' then ArrayAt(x, p) == Some(Found(JArray([]), s + 1))
      else ArrayAt(x, p) == ElementsAt(x, p, []))
  {
    hide ElementsAt, TokenFrom, PassedAt;
    var s := SkipFrom(x.doc, p);
    SkipAgain(x.doc, p);
    if s < |x.doc| && x.doc[s] == ']' {
      assert TokenFrom(x, s).end == s + 1 by { BracketEnds(x, s); }
    } else {
      SamePassed(x, p, s);
      SameFirst(x, p, s);
    }
  }

  lemma BracketEnds(x: Source, s: nat)
    requires s < |x.doc| && x.doc[s] == ']'
    ensures TokenFrom(x, s).end == s + 1
  {
  }

  lemma EmptyFound(x: Source, p: nat, inner: Gap)
    requires p <= |x.doc| && IsGap(x.features, inner, false, false)
    requires (var s := SkipFrom(x.doc, p);
      s < |x.doc| && x.doc[s] == ']' && x.doc[p..s] == GapText(inner))
    ensures IsItems(x, p, Found(JArray([]), SkipFrom(x.doc, p) + 1), [], inner, [])
  {
    hide SkipFrom, IsGap, GapText;
    var s := SkipFrom(x.doc, p);
    Slices(x.doc, p, s, s + 1);
    assert WrittenItems([]) + (GapText(inner) + "]") == GapText(inner) + "]";
  }

  lemma ElementsCases(x: Source, p: nat, found: seq<Json>)
    requires p <= |x.doc| && ElementsAt(x, p, found).Some?
    ensures ValueAt(x, p).Some? && p <= ValueAt(x, p).value.next <= |x.doc|
    ensures (var v := ValueAt(x, p).value;
      var t := PassedAt(x, v.next);
      && (t.kind == ArrayEnd || t.kind == ArraySeparator) && t.end == t.start + 1 <= |x.doc| && v.next <= t.start
      && ElementsAt(x, p, found) == if t.kind == ArrayEnd then Some(Found(JArray(found + [v.value]), t.end))
                                    else ElementsAt(x, t.end, found + [v.value]))
  {
    hide ValueAt, PassedAt;
  }

  lemma {:induction false} ElementsAreWritten(x: Source, p: nat, found: seq<Json>) returns (items: seq<Item>)
    requires p <= |x.doc| && x.beyond != ']' && ElementsAt(x, p, found).Some?
    ensures items != [] && IsItems(x, p, ElementsAt(x, p, found).value, items, [], found)
    ensures FirstDropped(x, p, items)
    decreases |x.doc| - p, 1
  {
    hide *;
    ElementsCases(x, p, found);
    var v := ValueAt(x, p).value;
    var before, t := ReadIsWritten(x, p);
    FindsFacts(x, p, v, before, t);
    var token := PassedAt(x, v.next);
    FirstIs(x, v.next);
    MarkIs(x, token.start);
    KindIs();
    var after := AfterValue(x, v.next, t);
    var item := Item(before, t, after);
    ItemFound(x, p, v.next, token.start, item);
    if token.kind == ArrayEnd {
      items := [item];
      LastFound(x, p, token.start, item, found, v);
    } else {
      var rest := ElementsAreWritten(x, token.end, found + [v.value]);
      items := [item] + rest;
      MoreFound(x, p, token.start, item, rest, found, v);
    }
    DroppedFirst(x, p, items, v.next, token.start);
  }

  /** A null value that was dropped has its mark right behind it. */
  ghost predicate FirstDropped(x: Source, p: nat, items: seq<Item>) {
    items != [] && items[0].value.DroppedText? ==>
      (var q := p + |GapText(items[0].before)|;
       q < |x.doc| && x.doc[p..q] == GapText(items[0].before) && (x.doc[q] == ']' <==> |items| == 1))
  }

  lemma DroppedFirst(x: Source, p: nat, items: seq<Item>, q: nat, r: nat)
    requires items != [] && p <= q <= r < |x.doc| && (x.doc[r] == ']' <==> |items| == 1)
    requires x.doc[p..q] == GapText(items[0].before) + Written(items[0].value)
    requires items[0].value.DroppedText? ==> q == r
    ensures FirstDropped(x, p, items)
  {
    hide GapText;
  }

  /** The gap behind a value, up to the token `PassedAt`. */
  lemma AfterValue(x: Source, q: nat, t: Text) returns (after: Gap)
    requires q <= |x.doc| && PassedAt(x, q).start < |x.doc| && (t.DroppedText? ==> CharIs(x.doc, q, ",]}"))
    ensures q <= PassedAt(x, q).start && x.doc[q..PassedAt(x, q).start] == GapText(after)
    ensures IsGap(x.features, after, true, false)
    ensures t.DroppedText? ==> after == [] && PassedAt(x, q).start == q
    ensures TokenAt(x, q).kind == Comment ==> HasComment(after)
  {
    hide TokenFrom, PassedAt, IsGap, GapText, HasComment;
    after := GapBetween(x, q);
    if t.DroppedText? {
      MarkHere(x, q);
      after := [];
      NothingWritten();
    }
  }

  lemma NothingWritten()
    ensures GapText([]) == "" && forall f, comments, final :: IsGap(f, [], comments, final)
  {
  }

  lemma MarkHere(x: Source, q: nat)
    requires CharIs(x.doc, q, ",]}")
    ensures PassedAt(x, q).start == q && TokenAt(x, q).kind != Comment
  {
    assert x.doc[q] == ',' || x.doc[q] == ']' || x.doc[q] == '}';
    NextToken(x, q);
  }

  lemma ItemFound(x: Source, p: nat, q: nat, r: nat, i: Item)
    requires p <= q <= r <= |x.doc| && x.doc[p..q] == GapText(i.before) + Written(i.value)
    requires x.doc[q..r] == GapText(i.after)
    requires IsGap(x.features, i.before, x.features.allowComments, false) && IsText(x.features, x.env, i.value)
    requires IsGap(x.features, i.after, true, false) && (i.value.DroppedText? ==> i.after == [])
    ensures IsItem(x.features, x.env, i) && x.doc[p..r] == ItemText(i)
  {
    hide IsGap, GapText, IsText, Written;
    Slices(x.doc, p, q, r);
  }

  lemma LastFound(x: Source, p: nat, r: nat, i: Item, found: seq<Json>, v: Found)
    requires p <= r < |x.doc| && x.doc[r] == ']' && x.doc[p..r] == ItemText(i) && IsItem(x.features, x.env, i)
    requires Meaning(x.env, i.value) == v.value && (x.features.rejectDupKeys ==> !Repeats(x.env, i.value))
    ensures IsItems(x, p, Found(JArray(found + [v.value]), r + 1), [i], [], found)
  {
    hide *;
    Slices(x.doc, p, r, r + 1);
    ItemsCons(x, i, []);
    NothingWritten();
    NoItems(x);
    assert ItemText(i) + "" + ("" + "]") == ItemText(i) + "]" && [v.value] + [] == [v.value];
    AreTheItems(x, p, Found(JArray(found + [v.value]), r + 1), [i], found);
  }

  lemma NoItems(x: Source)
    ensures AreItems(x.features, x.env, []) && WrittenItems([]) == "" && Meanings(x.env, []) == []
    ensures !RepeatsInItems(x.env, [])
  {
  }

  lemma AreTheItems(x: Source, p: nat, v: Found, items: seq<Item>, found: seq<Json>)
    requires p <= v.next <= |x.doc| && AreItems(x.features, x.env, items)
    requires x.doc[p..v.next] == WrittenItems(items) + (GapText([]) + "]")
    requires v.value == JArray(found + Meanings(x.env, items))
    requires x.features.rejectDupKeys ==> !RepeatsInItems(x.env, items)
    ensures IsItems(x, p, v, items, [], found)
  {
    hide AreItems, WrittenItems, Meanings, RepeatsInItems;
  }

  lemma ItemsAre(x: Source, p: nat, v: Found, items: seq<Item>, found: seq<Json>)
    requires IsItems(x, p, v, items, [], found)
    ensures p <= v.next <= |x.doc| && AreItems(x.features, x.env, items)
    ensures x.doc[p..v.next] == WrittenItems(items) + (GapText([]) + "]")
    ensures v.value == JArray(found + Meanings(x.env, items))
    ensures x.features.rejectDupKeys ==> !RepeatsInItems(x.env, items)
  {
    hide AreItems, WrittenItems, Meanings, RepeatsInItems;
  }

  /** One item more. */
  lemma ItemsCons(x: Source, i: Item, rest: seq<Item>)
    ensures ([i] + rest)[1..] == rest
    ensures AreItems(x.features, x.env, [i] + rest)
         == (IsItem(x.features, x.env, i) && AreItems(x.features, x.env, rest))
    ensures WrittenItems([i] + rest) == ItemText(i) + (if rest == [] then "" else "," + WrittenItems(rest))
    ensures Meanings(x.env, [i] + rest) == [Meaning(x.env, i.value)] + Meanings(x.env, rest)
    ensures RepeatsInItems(x.env, [i] + rest) == (Repeats(x.env, i.value) || RepeatsInItems(x.env, rest))
    ensures [i] + [] == [i]
  {
    hide ItemText, IsItem, Meaning, Repeats;
    assert ([i] + rest)[1..] == rest;
  }

  lemma MoreFound(x: Source, p: nat, r: nat, i: Item, rest: seq<Item>, found: seq<Json>, v: Found)
    requires p <= r < |x.doc| && x.doc[r] == ',' && x.doc[p..r] == ItemText(i) && IsItem(x.features, x.env, i)
    requires Meaning(x.env, i.value) == v.value && (x.features.rejectDupKeys ==> !Repeats(x.env, i.value))
    requires rest != [] && ElementsAt(x, r + 1, found + [v.value]).Some?
    requires IsItems(x, r + 1, ElementsAt(x, r + 1, found + [v.value]).value, rest, [], found + [v.value])
    ensures IsItems(x, p, ElementsAt(x, r + 1, found + [v.value]).value, [i] + rest, [], found)
  {
    hide *;
    var w := ElementsAt(x, r + 1, found + [v.value]).value;
    ItemsAre(x, r + 1, w, rest, found + [v.value]);
    ItemsCons(x, i, rest);
    Slices(x.doc, p, r, w.next);
    Slices(x.doc, r, r + 1, w.next);
    Appended(found, v.value, Meanings(x.env, rest));
    assert ItemText(i) + ("," + WrittenItems(rest)) + (GapText([]) + "]")
        == ItemText(i) + ("," + (WrittenItems(rest) + (GapText([]) + "]")));
    AreTheItems(x, p, w, [i] + rest, found);
  }

  lemma NotOnlyDropped(x: Source, p: nat, v: Found, items: seq<Item>)
    requires p <= |x.doc| && IsItems(x, p, v, items, [], []) && FirstDropped(x, p, items)
    requires (var s := SkipFrom(x.doc, p); !(s < |x.doc| && x.doc[s] == ']'))
    ensures !(|items| == 1 && items[0].value.DroppedText? && IsGap(x.features, items[0].before, false, false))
  {
    hide IsItems, GapText, IsGap, TokenFrom;
    if |items| == 1 && items[0].value.DroppedText? && IsGap(x.features, items[0].before, false, false) {
      var q := p + |GapText(items[0].before)|;
      assert SkipFrom(x.doc, q) == q;
      GapPassed(x, p, items[0].before, false, false);
    }
  }

  // ----- Objects -----

  /** The members that are written from `p` to the end of an object, behind those found and the last name. */
  ghost predicate IsMembers(x: Source, p: nat, v: Found, members: seq<Member>, comma: bool, inner: Gap,
                            found: map<string, Json>, name: string) {
    && p <= v.next <= |x.doc| && AreMembers(x.features, x.env, members) && IsGap(x.features, inner, true, false)
    && LastMember(x.env, members, comma, inner) && (members == [] ==> name == "")
    && x.doc[p..v.next] == WrittenMembers(members, comma) + (GapText(inner) + "}")
    && v.value == JObject(Bindings(x.env, members, found))
    && (x.features.rejectDupKeys ==> !RepeatsInMembers(x.env, members, found.Keys))
  }

  lemma ObjectFound(x: Source, s: nat, v: Found, members: seq<Member>, comma: bool, inner: Gap)
    requires s < v.next <= |x.doc| && x.doc[s] == '{'
    requires IsMembers(x, s + 1, v, members, comma, inner, map[], "")
    ensures (var t := ObjectText(members, comma, inner);
      && IsText(x.features, x.env, t) && x.doc[s..v.next] == Written(t) && Meaning(x.env, t) == v.value
      && (x.features.rejectDupKeys ==> !Repeats(x.env, t)) && !t.DroppedText?)
  {
    hide IsGap, AreMembers, WrittenMembers, Bindings, RepeatsInMembers, GapText;
    Slices(x.doc, s, s + 1, v.next);
    var none: map<string, Json> := map[];
    assert none.Keys == {};
  }

  lemma MembersCases(x: Source, p: nat, found: map<string, Json>, name: string)
    requires p <= |x.doc| && MembersAt(x, p, found, name).Some?
    ensures (var t := PassedAt(x, p);
      if t.kind == ObjectEnd && name == "" then MembersAt(x, p, found, name) == Some(Found(JObject(found), t.end))
      else
        var e := EntryAt(x, t, found);
        && e.Some? && p <= t.end < e.value.next <= |x.doc|
        && (t.kind == Str || t.kind == Number)
        && MembersAt(x, p, found, name) ==
           if e.value.last then Some(Found(JObject(found[e.value.key := e.value.value]), e.value.next))
           else MembersAt(x, e.value.next, found[e.value.key := e.value.value], e.value.key))
  {
    hide PassedAt, ValueAt, TokenAt, StringIn, NumberIn;
  }

  lemma MembersNeedText(x: Source, found: map<string, Json>, name: string)
    ensures MembersAt(x, |x.doc|, found, name).None?
  {
    assert PassedAt(x, |x.doc|) == Token(EndOfStream, |x.doc|, |x.doc|);
  }

  lemma {:induction false} MembersAreWritten(x: Source, p: nat, found: map<string, Json>, name: string)
    returns (members: seq<Member>, comma: bool, inner: Gap)
    requires p <= |x.doc| && x.beyond != ']' && MembersAt(x, p, found, name).Some?
    ensures IsMembers(x, p, MembersAt(x, p, found, name).value, members, comma, inner, found, name)
    decreases |x.doc| - p, 3
  {
    hide *;
    MembersCases(x, p, found, name);
    var t := PassedAt(x, p);
    FirstIs(x, p);
    if t.kind == ObjectEnd && name == "" {
      MarkIs(x, t.start);
      KindIs();
      inner := GapBetween(x, p);
      members, comma := [], false;
      NoMembersFound(x, p, t.start, inner, found, name);
    } else {
      var e := EntryAt(x, t, found).value;
      var more := found[e.key := e.value];
      if !e.last { MembersNeedText(x, more, e.key); }
      var m := EntryIsWritten(x, p, found);
      if e.last {
        members, comma, inner := [m], false, [];
        LastMemberFound(x, p, m, found, e, name);
      } else {
        members, comma, inner := MembersAreWritten(x, e.next, more, e.key);
        MemberFound(x, p, m, members, comma, inner, found, e, name);
        comma := comma || members == [];
        members := [m] + members;
      }
    }
  }

  lemma NoMembersFound(x: Source, p: nat, s: nat, inner: Gap, found: map<string, Json>, name: string)
    requires p <= s < |x.doc| && x.doc[s] == '}' && x.doc[p..s] == GapText(inner) && name == ""
    requires IsGap(x.features, inner, true, false)
    ensures IsMembers(x, p, Found(JObject(found), s + 1), [], false, inner, found, name)
  {
    hide IsGap, GapText;
    Slices(x.doc, p, s, s + 1);
    assert WrittenMembers([], false) + (GapText(inner) + "}") == GapText(inner) + "}";
  }

  /** The member that is written from `p` on. */
  ghost predicate IsEntry(x: Source, p: nat, e: Entry, m: Member, found: map<string, Json>) {
    && p <= e.next <= |x.doc| && IsMember(x.features, x.env, m)
    && x.doc[p..e.next] == MemberText(m) + (if e.last then "}" else m.behind)
    && KeyName(x.env, m.key) == e.key && Meaning(x.env, m.value) == e.value
    && (x.features.rejectDupKeys ==> e.key !in found && !Repeats(x.env, m.value))
  }

  lemma LastMemberFound(x: Source, p: nat, m: Member, found: map<string, Json>, e: Entry, name: string)
    requires e.last && IsEntry(x, p, e, m, found)
    ensures IsMembers(x, p, Found(JObject(found[e.key := e.value]), e.next), [m], false, [], found, name)
  {
    hide IsMember, MemberText, KeyName, Meaning, Repeats;
    OneMember(x, m, found);
    NothingWritten();
    assert MemberText(m) + ("" + "}") == MemberText(m) + "}";
  }

  lemma OneMember(x: Source, m: Member, found: map<string, Json>)
    ensures AreMembers(x.features, x.env, [m]) == IsMember(x.features, x.env, m)
    ensures WrittenMembers([m], false) == MemberText(m)
    ensures Bindings(x.env, [m], found) == found[KeyName(x.env, m.key) := Meaning(x.env, m.value)]
    ensures RepeatsInMembers(x.env, [m], found.Keys) == (KeyName(x.env, m.key) in found || Repeats(x.env, m.value))
  {
    hide IsMember, MemberText, KeyName, Meaning, Repeats;
    assert [m][1..] == [] && MemberText(m) + "" == MemberText(m);
    var more := found[KeyName(x.env, m.key) := Meaning(x.env, m.value)];
    assert Bindings(x.env, [], more) == more;
  }

  lemma MemberFound(x: Source, p: nat, m: Member, rest: seq<Member>, comma: bool, inner: Gap,
                    found: map<string, Json>, e: Entry, name: string)
    requires !e.last && IsEntry(x, p, e, m, found) && MembersAt(x, e.next, found[e.key := e.value], e.key).Some?
    requires (var v := MembersAt(x, e.next, found[e.key := e.value], e.key).value;
      IsMembers(x, e.next, v, rest, comma, inner, found[e.key := e.value], e.key))
    ensures (var v := MembersAt(x, e.next, found[e.key := e.value], e.key).value;
      IsMembers(x, p, v, [m] + rest, comma || rest == [], inner, found, name))
  {
    hide IsMember, MemberText, KeyName, Meaning, Repeats, MembersAt, IsGap;
    var v := MembersAt(x, e.next, found[e.key := e.value], e.key).value;
    var members, comma' := [m] + rest, comma || rest == [];
    assert members[1..] == rest && found[e.key := e.value].Keys == found.Keys + {e.key};
    Slices(x.doc, p, e.next, v.next);
    EndBehind(m, rest, comma, inner);
  }

  lemma EndBehind(m: Member, rest: seq<Member>, comma: bool, inner: Gap)
    requires rest == [] ==> !comma
    ensures WrittenMembers([m] + rest, comma || rest == []) + (GapText(inner) + "}")
         == MemberText(m) + m.behind + (WrittenMembers(rest, comma) + (GapText(inner) + "}"))
  {
    hide MemberText, GapText;
    var members := [m] + rest;
    assert members[1..] == rest;
    assert WrittenMembers(members, comma || rest == []) == MemberText(m) + (m.behind + WrittenMembers(rest, comma));
  }

  lemma EntryCases(x: Source, t: Token, found: map<string, Json>)
    requires t.end <= |x.doc| && t.start < t.end && (t.kind == Str ==> t.end >= t.start + 2)
    requires EntryAt(x, t, found).Some?
    ensures (var e, colon := EntryAt(x, t, found).value, TokenAt(x, t.end);
      && KeyIn(x, t) == Some(e.key) && colon.kind == MemberSeparator && t.end <= colon.start < colon.end <= |x.doc|
      && (x.features.rejectDupKeys ==> e.key !in found)
      && ValueAt(x, colon.end).Some? && ValueAt(x, colon.end).value.value == e.value
      && (var q := ValueAt(x, colon.end).value.next;
          && colon.end <= q <= |x.doc|
          && TokenAt(x, q).kind in {ObjectEnd, ArraySeparator, Comment}
          && PassedAt(x, q) == (if TokenAt(x, q).kind == Comment then PassedAt(x, TokenAt(x, q).end) else TokenAt(x, q))
          && e.last == (PassedAt(x, q).kind == ObjectEnd) && e.next == PassedAt(x, q).end))
  {
    hide TokenAt, PassedAt, ValueAt, KeyIn;
    PassedIs(x, ValueAt(x, TokenAt(x, t.end).end).value.next);
  }

  lemma {:induction false} EntryIsWritten(x: Source, p: nat, found: map<string, Json>) returns (m: Member)
    requires p <= |x.doc| && x.beyond != ']' && (PassedAt(x, p).kind == Str || PassedAt(x, p).kind == Number)
    requires EntryAt(x, PassedAt(x, p), found).Some?
    requires EntryAt(x, PassedAt(x, p), found).value.last || EntryAt(x, PassedAt(x, p), found).value.next < |x.doc|
    ensures IsEntry(x, p, EntryAt(x, PassedAt(x, p), found).value, m, found)
    decreases |x.doc| - p, 2
  {
    hide *;
    var t := PassedAt(x, p);
    FirstIs(x, p);
    EntryCases(x, t, found);
    var e, colon := EntryAt(x, t, found).value, TokenAt(x, t.end);
    var before := GapBetween(x, p);
    var key := KeyIsWritten(x, t.start);
    var spaces := SpacesBefore(x, t.end, false, false);
    ColonIs(x, t.end);
    var v := ValueAt(x, colon.end).value;
    var gap, value := ReadIsWritten(x, colon.end);
    FindsFacts(x, colon.end, v, gap, value);
    FirstIs(x, v.next);
    var u := PassedAt(x, v.next);
    if u.kind == ObjectEnd { MarkIs(x, u.start); }
    var after := AfterValue(x, v.next, value);
    var behind := if u.kind == ObjectEnd then "," else x.doc[u.start..u.end];
    m := Member(before, key, spaces, gap, value, after, behind);
    BehindIs(x, v.next, after, behind);
    MemberIsFound(x, p, t.start, t.end, colon.start, v.next, u.start, m);
    KindIs();
    EntryFound(x, p, u, m, e, found);
  }

  lemma KeyIsWritten(x: Source, s: nat) returns (key: Key)
    requires s < |x.doc| && KeyIn(x, TokenFrom(x, s)).Some?
    ensures IsKey(x.features, x.env, key) && x.doc[s..TokenFrom(x, s).end] == KeyText(key)
    ensures KeyIn(x, TokenFrom(x, s)) == Some(KeyName(x.env, key))
  {
    hide TokenFrom, StringIn, NumberIn, IsQuotation, IsNumber, QuotationText, Spelled, DecodedOf, TextMeaning;
    if TokenFrom(x, s).kind == Str {
      var q := StringIs(x, s);
      key := StringKey(q);
    } else {
      var n := NumberIs(x, s);
      key := NumberKey(n);
    }
  }

  lemma ColonIs(x: Source, p: nat)
    requires p <= |x.doc| && TokenAt(x, p).kind == MemberSeparator
    ensures (var s := SkipFrom(x.doc, p);
      p <= s < |x.doc| && TokenAt(x, p) == Token(MemberSeparator, s, s + 1) && x.doc[s] == ':')
  {
    hide TokenFrom;
    MarkIs(x, SkipFrom(x.doc, p));
  }

  lemma BehindIs(x: Source, q: nat, after: Gap, behind: string)
    requires q <= |x.doc| && PassedAt(x, q).start < |x.doc| && PassedAt(x, q).end <= |x.doc|
    requires PassedAt(x, q) == TokenFrom(x, PassedAt(x, q).start)
    requires TokenAt(x, q).kind in {ObjectEnd, ArraySeparator, Comment}
    requires TokenAt(x, q).kind != Comment ==> PassedAt(x, q) == TokenAt(x, q)
    requires TokenAt(x, q).kind == Comment ==> HasComment(after)
    requires behind == if PassedAt(x, q).kind == ObjectEnd then "," else x.doc[PassedAt(x, q).start..PassedAt(x, q).end]
    ensures behind == "," || HasComment(after)
  {
    hide TokenAt, PassedAt, TokenFrom, HasComment;
    var u := PassedAt(x, q);
    if TokenAt(x, q).kind == ArraySeparator {
      MarkIs(x, u.start);
      assert x.doc[u.start..u.end] == [x.doc[u.start]];
    }
  }

  /** All the parts of a member, one behind the other. */
  lemma MemberIsFound(x: Source, p: nat, k: nat, c: nat, d: nat, q: nat, r: nat, m: Member)
    requires p <= k <= c <= d < |x.doc| && x.doc[d] == ':' && d + 1 <= q <= r <= |x.doc|
    requires x.doc[p..k] == GapText(m.before) && x.doc[k..c] == KeyText(m.key) && x.doc[c..d] == GapText(m.colon)
    requires x.doc[d + 1..q] == GapText(m.gap) + Written(m.value) && x.doc[q..r] == GapText(m.after)
    ensures x.doc[p..r] == MemberText(m)
  {
    hide GapText, KeyText, Written;
    Slices(x.doc, d + 1, q, r);
    assert x.doc[d + 1..r] == GapText(m.gap) + (Written(m.value) + GapText(m.after));
    InRow(x.doc, p, k, c, d, r);
  }

  lemma InRow(doc: string, p: nat, k: nat, c: nat, d: nat, r: nat)
    requires p <= k <= c <= d < r <= |doc|
    ensures doc[p..r] == doc[p..k] + (doc[k..c] + (doc[c..d] + ([doc[d]] + doc[d + 1..r])))
  {
    Slices(doc, p, k, r);
    Slices(doc, k, c, r);
    Slices(doc, c, d, r);
  }

  lemma EntryFound(x: Source, p: nat, u: Token, m: Member, e: Entry, found: map<string, Json>)
    requires p <= u.start <= u.end <= |x.doc| && x.doc[p..u.start] == MemberText(m) && e.next == u.end
    requires if e.last then u.end == u.start + 1 && x.doc[u.start] == '}' else m.behind == x.doc[u.start..u.end]
    requires IsGap(x.features, m.before, true, false) && IsKey(x.features, x.env, m.key)
    requires IsGap(x.features, m.colon, false, false) && IsGap(x.features, m.gap, x.features.allowComments, false)
    requires IsText(x.features, x.env, m.value) && IsGap(x.features, m.after, true, false)
    requires (m.value.DroppedText? ==> m.after == []) && (m.behind == "," || HasComment(m.after))
    requires KeyName(x.env, m.key) == e.key && Meaning(x.env, m.value) == e.value
    requires x.features.rejectDupKeys ==> e.key !in found && !Repeats(x.env, m.value)
    ensures IsEntry(x, p, e, m, found)
  {
    hide MemberText, IsGap, IsKey, IsText, HasComment, KeyName, Meaning, Repeats;
    Slices(x.doc, p, u.start, u.end);
  }

  // ----- Documents -----

  /** A document that has a value begins with a text of that value. */
  lemma DocumentIsWritten(x: Source) returns (before: Gap, t: Text, rest: string)
    requires x.beyond != ']' && Document(x).Some?
    ensures x.doc == GapText(before) + (Written(t) + rest) && Meaning(x.env, t) == Document(x).value
    ensures IsGap(x.features, before, x.features.allowComments, false) && IsText(x.features, x.env, t)
    ensures x.features.rejectDupKeys ==> !Repeats(x.env, t)
    ensures x.features.strictRoot ==> t.ArrayText? || t.ObjectText?
  {
    hide ValueAt, Written, IsText, IsGap, Repeats, Meanings, Bindings, FirstAt, GapText, TextMeaning;
    before, t := ReadIsWritten(x, 0);
    var q := ValueAt(x, 0).value.next;
    FindsFacts(x, 0, ValueAt(x, 0).value, before, t);
    rest := x.doc[q..];
    assert x.doc == x.doc[0..q] + rest;
  }

  /** The document begins with a text of its value. */
  ghost predicate BeginsWithText(x: Source)
    requires Document(x).Some?
  {
    exists before, t ::
      && GapText(before) + Written(t) <= x.doc && Meaning(x.env, t) == Document(x).value
      && IsGap(x.features, before, x.features.allowComments, false) && IsText(x.features, x.env, t)
      && (x.features.rejectDupKeys ==> !Repeats(x.env, t)) && (x.features.strictRoot ==> t.ArrayText? || t.ObjectText?)
  }

  /** The character behind the document is taken for the closing bracket of an array that is open at its end. */
  lemma OpenArray(features: Features, env: Env)
    ensures Document(Source("[", ']', features, env)) == Some(JArray([]))
  {
    hide FirstAt, TokenFrom;
    var x := Source("[", ']', features, env);
    MarkToken(x, 0, '[');
    KindIs();
    AtEnd(x);
    assert SkipFrom(x.doc, 1) == 1;
    assert ArrayAt(x, 1) == Some(Found(JArray([]), 1));
    assert ValueAt(x, 0) == Some(Found(JArray([]), 1));
  }

  /** Whatever the settings, all documents begin with texts of their values exactly if that character is no bracket. */
  lemma DocumentsAreWritten(beyond: char, features: Features, env: Env)
    ensures (forall doc :: Document(Source(doc, beyond, features, env)).Some? ==>
               BeginsWithText(Source(doc, beyond, features, env))) <==> beyond != ']'
  {
    hide Document, Written, IsText, IsGap, Repeats, GapText, Meaning;
    if beyond != ']' {
      forall doc | Document(Source(doc, beyond, features, env)).Some?
        ensures BeginsWithText(Source(doc, beyond, features, env))
      {
        var before, t, rest := DocumentIsWritten(Source(doc, beyond, features, env));
        assert GapText(before) + (Written(t) + rest) == (GapText(before) + Written(t)) + rest;
      }
    } else {
      OpenArray(features, env);
      var x := Source("[", ']', features, env);
      if BeginsWithText(x) {
        var before, t :| GapText(before) + Written(t) <= x.doc && Meaning(x.env, t) == Document(x).value;
        ArrayTextLonger(x.env, t);
        assert false;
      }
    }
  }

  lemma ArrayTextLonger(env: Env, t: Text)
    requires Meaning(env, t) == JArray([])
    ensures |Written(t)| > 1
  {
  }

  // ----- A comma that is none -----

  /** Behind the comment in it, an at sign stands where a comma should be. */
  const JUNK: string := "{\"a\":1/**/@\"b\":2}"

  lemma LetterName(x: Source, p: nat, c: char)
    requires (c == 'a' || c == 'b') && PartAt(x.doc, p, ['"', c, '"'])
    ensures p + 3 <= |x.doc| && !IsSpace(x.doc[p]) && TokenFrom(x, p) == Token(Str, p, p + 3)
    ensures KeyIn(x, TokenFrom(x, p)) == Some([c])
  {
    hide TokenFrom, StringIn, PartAt;
    var q := Quotation('"', [Plain(c)], "");
    assert [Plain(c)][1..] == [] && GlyphsText([]) == "" && GlyphsMeaning([], '"') == "";
    assert QuotationText(q) == ['"', c, '"'] && IsQuotation(x.features, q) && TextMeaning(q) == [c];
    StringToken(x, p, q);
  }

  lemma DigitValue(x: Source, p: nat, d: nat)
    requires 1 <= d <= 2 && PartAt(x.doc, p, if d == 1 then "1" else "2") && NoMore(x.doc, p + 1)
    ensures p < |x.doc| && ValueAt(x, p) == Some(Found(JNumber(Signed(d)), p + 1))
  {
    hide TokenFrom, ValueAt, PartAt, FirstAt, DecodedOf, Spelled;
    var w := if d == 1 then "1" else "2";
    var n := Spelling(w[0], "", None, None);
    OneDigit(d);
    var t := NumberText(n);
    assert IsText(x.features, x.env, t) && Written(t) == w && Meaning(x.env, t) == JNumber(Signed(d));
    PlainIsRead(x, p, t);
    ReadAsMeans(x, p, t);
  }

  lemma OneDigit(d: nat)
    requires 1 <= d <= 2
    ensures (var w := if d == 1 then "1" else "2";
      DecodedOf(w) == Signed(d) && Spelled(Spelling(w[0], "", None, None)) == w)
  {
    var w := if d == 1 then "1" else "2";
    assert w[..0] == "" && ValueOf(w[..0]) == 0 && Body(w) == w && ValueOf(w) == d;
  }

  lemma JunkMarks(x: Source)
    requires x.doc == JUNK
    ensures FirstAt(x, 0) == Token(ObjectBegin, 0, 1) && TokenAt(x, 4) == Token(MemberSeparator, 4, 5)
    ensures TokenAt(x, 14) == Token(MemberSeparator, 14, 15) && PassedAt(x, 16) == Token(ObjectEnd, 16, 17)
    ensures FirstAt(x, 17) == Token(EndOfStream, 17, 17) && TokenAt(x, 16) == PassedAt(x, 16) && |x.doc| == 17
  {
    hide TokenFrom, TokenAt, PassedAt, FirstAt, SkipFrom, NoMore;
    MarkToken(x, 0, '{');
    MarkToken(x, 4, ':');
    MarkToken(x, 14, ':');
    MarkToken(x, 16, '}');
    KindIs();
    AtEnd(x);
  }

  lemma JunkComment(x: Source)
    requires x.doc == JUNK
    ensures TokenAt(x, 6) == Token(Comment, 6, 10)
  {
    hide TokenAt, TokenFrom;
    var b := Block('/', "");
    assert BlankText(b) == "/**/" && NoEnd("" + "*");
    CommentToken(x, 6, b);
  }

  lemma JunkToken(x: Source)
    requires x.doc == JUNK
    ensures PassedAt(x, 10) == Token(Error, 10, 11)
  {
    hide StringEnd, CommentEnd, NumberEnd, LiteralAt;
    assert x.doc[10] == '@';
    NextToken(x, 10);
  }

  lemma JunkParts(x: Source)
    requires x.doc == JUNK
    ensures PartAt(x.doc, 1, ['"', 'a', '"']) && PartAt(x.doc, 11, ['"', 'b', '"'])
    ensures PartAt(x.doc, 5, "1") && PartAt(x.doc, 15, "2") && NoMore(x.doc, 6) && NoMore(x.doc, 16)
  {
  }

  lemma EntryHere(x: Source, p: nat, d: nat, q: nat, name: string, found: map<string, Json>)
    requires p + 3 <= |x.doc| && TokenFrom(x, p) == Token(Str, p, p + 3) && KeyIn(x, TokenFrom(x, p)) == Some(name)
    requires TokenAt(x, p + 3) == Token(MemberSeparator, p + 3, p + 4) && name !in found && p + 4 < q <= |x.doc|
    requires ValueAt(x, p + 4) == Some(Found(JNumber(Signed(d)), q))
    requires TokenAt(x, q).kind in {Comment, ObjectEnd} && PassedAt(x, p) == TokenFrom(x, p)
    ensures (var u := if TokenAt(x, q).kind == Comment then PassedAt(x, TokenAt(x, q).end) else TokenAt(x, q);
      var more := found[name := JNumber(Signed(d))];
      forall last :: MembersAt(x, p, found, last) ==
        if u.kind == ObjectEnd then Some(Found(JObject(more), u.end)) else MembersAt(x, u.end, more, name))
  {
    hide TokenAt, TokenFrom, ValueAt, KeyIn, PassedAt;
    var u := if TokenAt(x, q).kind == Comment then PassedAt(x, TokenAt(x, q).end) else TokenAt(x, q);
    assert EntryAt(x, TokenFrom(x, p), found) == Some(Entry(name, JNumber(Signed(d)), u.kind == ObjectEnd, u.end));
    forall last
      ensures MembersAt(x, p, found, last) ==
                (var more := found[name := JNumber(Signed(d))];
                 if u.kind == ObjectEnd then Some(Found(JObject(more), u.end)) else MembersAt(x, u.end, more, name))
    {
      MembersStep(x, p, found, last);
    }
  }

  /** Even with all restrictions on, anything is taken for a comma behind a comment. */
  lemma JunkForComma(env: Env)
    ensures (var strict := Features(false, false, false, false, true, true, true, 1000);
      Document(Source(JUNK, '\0', strict, env))
      == Some(JObject(map["a" := JNumber(Signed(1)), "b" := JNumber(Signed(2))])))
  {
    hide *;
    var x := Source(JUNK, '\0', Features(false, false, false, false, true, true, true, 1000), env);
    var none: map<string, Json> := map[];
    var one := none["a" := JNumber(Signed(1))];
    JunkMarks(x);
    JunkComment(x);
    JunkToken(x);
    JunkParts(x);
    LetterName(x, 1, 'a');
    LetterName(x, 11, 'b');
    NextToken(x, 1);
    NextToken(x, 11);
    DigitValue(x, 5, 1);
    DigitValue(x, 15, 2);
    EntryHere(x, 1, 1, 6, "a", none);
    EntryHere(x, 11, 2, 16, "b", one);
    NestedIs(x, 0);
    var two := one["b" := JNumber(Signed(2))];
    JunkDocument(x, two);
    assert two == map["a" := JNumber(Signed(1)), "b" := JNumber(Signed(2))];
  }

  lemma JunkDocument(x: Source, j: map<string, Json>)
    requires ValueAt(x, 0) == Some(Found(JObject(j), |x.doc|)) && FirstAt(x, |x.doc|).kind == EndOfStream
    ensures Document(x) == Some(JObject(j))
  {
    hide ValueAt, FirstAt;
  }
}
