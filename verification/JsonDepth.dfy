/** When the JSON reader throws: values too deep inside values, or names that are too long. */
module JsonDepth {
  import opened Wrappers
  import opened JsonStrings
  import opened JsonGrammar
  import opened JsonBlanks
  import opened JsonText

  // ----- Where reading throws -----

  /** Is an exception thrown on the way through the value at `p`, which is so deep? */
  predicate ThrowsAt(x: Source, p: nat, depth: int)
    requires p <= |x.doc|
    decreases |x.doc| - p, 0
  {
    || depth >= x.features.stackLimit
    || (var t := FirstAt(x, p);
        if t.kind == ObjectBegin then ThrowsInMembers(x, t.end, map[], "", depth + 1)
        else t.kind == ArrayBegin && ThrowsInArray(x, t.end, depth + 1))
  }

  predicate ThrowsInArray(x: Source, p: nat, depth: int)
    requires p <= |x.doc|
    decreases |x.doc| - p, 2
  {
    var s := SkipFrom(x.doc, p);
    (if s < |x.doc| then x.doc[s] else x.beyond) != ']' && ThrowsInElements(x, s, depth)
  }

  predicate ThrowsInElements(x: Source, p: nat, depth: int)
    requires p <= |x.doc|
    decreases |x.doc| - p, 1
  {
    || ThrowsAt(x, p, depth)
    || (var v := ValueAt(x, p);
        && v.Some?
        && PassedAt(x, v.value.next).kind == ArraySeparator
        && ThrowsInElements(x, PassedAt(x, v.value.next).end, depth))
  }

  /** Behind a name. */
  predicate ThrowsInPair(x: Source, t: Token, key: string, found: map<string, Json>, depth: int)
    requires t.start < t.end <= |x.doc|
    decreases |x.doc| - t.end, 1
  {
    var colon := TokenAt(x, t.end);
    && colon.kind == MemberSeparator
    && (|| |key| >= 0x4000_0000
        || (!(x.features.rejectDupKeys && key in found) && ThrowsAt(x, colon.end, depth)))
  }

  predicate ThrowsInMembers(x: Source, p: nat, found: map<string, Json>, name: string, depth: int)
    requires p <= |x.doc|
    decreases |x.doc| - p, 2
  {
    var t := PassedAt(x, p);
    && !(t.kind == ObjectEnd && name == "")
    && KeyIn(x, t).Some?
    && (|| ThrowsInPair(x, t, KeyIn(x, t).value, found, depth)
        || (var e := EntryAt(x, t, found);
            && e.Some? && !e.value.last
            && ThrowsInMembers(x, e.value.next, found[e.value.key := e.value.value], e.value.key, depth)))
  }

  // ----- What that means for texts -----

  /** How deep a text is: a plain value counts one, and an array or an object one more than what is in it. */
  function Height(t: Text): nat
    decreases t, 0
  {
    match t
    case ArrayText(items, _) => 1 + ItemsHeight(items)
    case ObjectText(members, _, _) => 1 + MembersHeight(members)
    case _ => 1
  }

  function Max(a: nat, b: nat): nat { if a >= b then a else b }

  function ItemsHeight(items: seq<Item>): nat
    decreases items, 1
  {
    if items == [] then 0 else Max(Height(items[0].value), ItemsHeight(items[1..]))
  }

  function MembersHeight(members: seq<Member>): nat
    decreases members, 1
  {
    if members == [] then 0 else Max(Height(members[0].value), MembersHeight(members[1..]))
  }

  /** A name is longer than the values can have. */
  predicate LongName(env: Env, t: Text)
    decreases t, 0
  {
    match t
    case ArrayText(items, _) => exists i :: i in items && LongName(env, i.value)
    case ObjectText(members, _, _) =>
      exists m :: m in members && (|KeyName(env, m.key)| >= 0x4000_0000 || LongName(env, m.value))
    case _ => false
  }

  predicate LongInItems(env: Env, items: seq<Item>) { exists i :: i in items && LongName(env, i.value) }

  predicate LongInMembers(env: Env, members: seq<Member>) {
    exists m :: m in members && (|KeyName(env, m.key)| >= 0x4000_0000 || LongName(env, m.value))
  }

  lemma LongItemsMore(env: Env, items: seq<Item>)
    requires items != []
    ensures LongInItems(env, items) == (LongName(env, items[0].value) || LongInItems(env, items[1..]))
    ensures ItemsHeight(items) == Max(Height(items[0].value), ItemsHeight(items[1..]))
    ensures |items| == 1 ==> !LongInItems(env, items[1..]) && ItemsHeight(items[1..]) == 0
  {
    hide LongName, Height;
    assert items == [items[0]] + items[1..];
    assert forall i :: i in items <==> i == items[0] || i in items[1..];
  }

  lemma LongMembersMore(env: Env, members: seq<Member>)
    requires members != []
    ensures (var m := members[0];
      LongInMembers(env, members)
      == (|KeyName(env, m.key)| >= 0x4000_0000 || LongName(env, m.value) || LongInMembers(env, members[1..])))
    ensures MembersHeight(members) == Max(Height(members[0].value), MembersHeight(members[1..]))
    ensures |members| == 1 ==> !LongInMembers(env, members[1..]) && MembersHeight(members[1..]) == 0
  {
    hide LongName, Height, KeyName;
    assert members == [members[0]] + members[1..];
    assert forall m :: m in members <==> m == members[0] || m in members[1..];
  }

  /** Something in a text of this height, which begins so deep, is too deep. */
  predicate TooDeep(x: Source, depth: int, height: nat) { height > 0 && depth + height > x.features.stackLimit }

  lemma SameThrows(x: Source, p: nat, q: nat, depth: int)
    requires p <= |x.doc| && q <= |x.doc| && FirstAt(x, p) == FirstAt(x, q)
    ensures ThrowsAt(x, p, depth) == ThrowsAt(x, q, depth)
  {
    hide FirstAt, ThrowsInMembers, ThrowsInArray;
  }

  /**
   Reading a text throws exactly when it is deeper than the stack may be, or a name in it is too long; unless a name
   comes again before, and that is refused.
   */
  lemma {:induction false} TextThrows(x: Source, p: nat, t: Text, depth: int)
    requires IsText(x.features, x.env, t) && HasCommas(t) && PartAt(x.doc, p, Written(t)) && Stops(x, p, t)
    requires x.features.rejectDupKeys ==> !Repeats(x.env, t)
    ensures p <= |x.doc|
    ensures ThrowsAt(x, p, depth) <==> TooDeep(x, depth, Height(t)) || LongName(x.env, t)
    decreases t, 0
  {
    hide *;
    Shape(x.features, x.env, t);
    PartFits(x.doc, p, Written(t));
    HeightIs(x, depth, t);
    if t.ArrayText? {
      PartSplit(x.doc, p, "[", WrittenItems(t.items) + (GapText(t.inner) + "]"));
      MarkToken(x, p, '[');
      KindIs();
      ArrayThrows(x, p + 1, t.items, t.inner, depth + 1);
      ThrowsFirst(x, p, depth);
    } else if t.ObjectText? {
      PartSplit(x.doc, p, "{", WrittenMembers(t.members, t.comma) + (GapText(t.inner) + "}"));
      MarkToken(x, p, '{');
      KindIs();
      ObjectThrows(x, p + 1, t.members, t.comma, t.inner, depth + 1);
      ThrowsFirst(x, p, depth);
    } else {
      PlainThrows(x, p, t, depth);
    }
  }

  lemma HeightIs(x: Source, depth: int, t: Text)
    ensures Height(t) > 0
    ensures t.ArrayText? ==>
              && LongName(x.env, t) == LongInItems(x.env, t.items)
              && (TooDeep(x, depth, Height(t)) <==>
                    depth >= x.features.stackLimit || TooDeep(x, depth + 1, ItemsHeight(t.items)))
    ensures t.ObjectText? ==>
              && LongName(x.env, t) == LongInMembers(x.env, t.members)
              && (TooDeep(x, depth, Height(t)) <==>
                    depth >= x.features.stackLimit || TooDeep(x, depth + 1, MembersHeight(t.members)))
    ensures !t.ArrayText? && !t.ObjectText? ==>
              && Height(t) == 1 && !LongName(x.env, t)
              && (TooDeep(x, depth, Height(t)) <==> depth >= x.features.stackLimit)
  {
    hide ItemsHeight, MembersHeight, KeyName;
  }

  lemma ThrowsFirst(x: Source, p: nat, depth: int)
    requires p < |x.doc|
    ensures FirstAt(x, p).kind == ArrayBegin ==>
              (ThrowsAt(x, p, depth) <==>
                 depth >= x.features.stackLimit || ThrowsInArray(x, FirstAt(x, p).end, depth + 1))
    ensures FirstAt(x, p).kind == ObjectBegin ==>
              (ThrowsAt(x, p, depth) <==>
                 depth >= x.features.stackLimit || ThrowsInMembers(x, FirstAt(x, p).end, map[], "", depth + 1))
  {
    hide FirstAt, ThrowsInMembers, ThrowsInArray;
  }

  lemma PlainThrows(x: Source, p: nat, t: Text, depth: int)
    requires !t.ArrayText? && !t.ObjectText? && IsText(x.features, x.env, t)
    requires PartAt(x.doc, p, Written(t)) && Stops(x, p, t)
    ensures p <= |x.doc| && (ThrowsAt(x, p, depth) <==> depth >= x.features.stackLimit)
  {
    hide ThrowsInArray, ThrowsInMembers, TokenFrom, FirstAt, PartAt, Written, IsText, BeginsValue;
    if t.DroppedText? {
      MarkThere(x, p);
    } else {
      PlainToken(x, p, t);
      ValueBegins(x, p);
    }
  }

  lemma MarkThere(x: Source, p: nat)
    requires CharIs(x.doc, p, ",]}")
    ensures FirstAt(x, p).kind != ObjectBegin && FirstAt(x, p).kind != ArrayBegin
  {
    assert x.doc[p] == ',' || x.doc[p] == ']' || x.doc[p] == '}';
    NextToken(x, p);
  }

  lemma {:induction false} ArrayThrows(x: Source, p: nat, items: seq<Item>, inner: Gap, depth: int)
    requires IsArray(x.features, x.env, items, inner)
    requires PartAt(x.doc, p, WrittenItems(items) + (GapText(inner) + "]"))
    requires x.features.rejectDupKeys ==> !RepeatsInItems(x.env, items)
    ensures p <= |x.doc|
    ensures ThrowsInArray(x, p, depth) <==> TooDeep(x, depth, ItemsHeight(items)) || LongInItems(x.env, items)
    decreases items, 4
  {
    hide *;
    ArrayFacts(x, items, inner);
    PartFits(x.doc, p, WrittenItems(items) + (GapText(inner) + "]"));
    PartSplit(x.doc, p, WrittenItems(items), GapText(inner) + "]");
    if items == [] {
      NothingThrows(x, p, items, inner, depth);
    } else {
      assert WrittenItems(items) + (GapText(inner) + "]") == WrittenItems(items) + "]";
      StartsItem(x, p, items);
      ItemsThrow(x, p, items, depth);
      SkipsToFirst(x, p, depth);
    }
  }

  lemma NothingThrows(x: Source, p: nat, items: seq<Item>, inner: Gap, depth: int)
    requires items == [] && IsGap(x.features, inner, false, false) && PartAt(x.doc, p, GapText(inner) + "]")
    ensures p <= |x.doc| && !ThrowsInArray(x, p, depth)
    ensures !TooDeep(x, depth, ItemsHeight(items)) && !LongInItems(x.env, items)
  {
    hide SkipFrom, TokenAt, TokenFrom, PassedAt, ThrowsInElements, PartAt, IsGap, GapText, LongName;
    PartSplit(x.doc, p, GapText(inner), "]");
    MarkToken(x, p + |GapText(inner)|, ']');
    GapPassed(x, p, inner, false, false);
  }

  lemma SkipsToFirst(x: Source, p: nat, depth: int)
    requires p <= |x.doc|
    requires (var s := SkipFrom(x.doc, p); s < |x.doc| && x.doc[s] != ']')
    ensures ThrowsInArray(x, p, depth) == ThrowsInElements(x, p, depth)
  {
    hide ThrowsAt, ValueAt, TokenFrom, PassedAt;
    var s := SkipFrom(x.doc, p);
    SkipAgain(x.doc, p);
    SamePassed(x, p, s);
    SameFirst(x, p, s);
    SameThrows(x, p, s, depth);
  }

  lemma {:induction false} ItemsThrow(x: Source, p: nat, items: seq<Item>, depth: int)
    requires items != [] && AreItems(x.features, x.env, items) && ItemsHaveCommas(items)
    requires PartAt(x.doc, p, WrittenItems(items) + "]")
    requires x.features.rejectDupKeys ==> !RepeatsInItems(x.env, items)
    ensures p <= |x.doc|
    ensures ThrowsInElements(x, p, depth) <==> TooDeep(x, depth, ItemsHeight(items)) || LongInItems(x.env, items)
    decreases items, 1
  {
    hide *;
    ItemsSplit(x, p, items);
    ItemsFacts(x, items);
    LongItemsMore(x.env, items);
    var i, last := items[0], |items| == 1;
    var r, v := p + |ItemText(i)|, p + |GapText(i.before)|;
    ItemIsRead(x, p, items, if last then ']' else ',');
    KindIs();
    TextThrows(x, v, i.value, depth);
    SameThrows(x, p, v, depth);
    ThrowsNext(x, p, depth);
    if !last {
      ItemsThrow(x, r + 1, items[1..], depth);
    }
    DeepOf(x, depth, Height(i.value), ItemsHeight(items[1..]));
  }

  lemma DeepOf(x: Source, depth: int, a: nat, b: nat)
    ensures TooDeep(x, depth, Max(a, b)) <==> TooDeep(x, depth, a) || TooDeep(x, depth, b)
    ensures !TooDeep(x, depth, 0)
  {
  }

  lemma ThrowsNext(x: Source, p: nat, depth: int)
    requires p <= |x.doc| && ValueAt(x, p).Some?
    ensures (var t := PassedAt(x, ValueAt(x, p).value.next);
      ThrowsInElements(x, p, depth) <==>
        ThrowsAt(x, p, depth) || (t.kind == ArraySeparator && ThrowsInElements(x, t.end, depth)))
  {
    hide ThrowsAt, ValueAt, PassedAt;
  }

  lemma {:induction false} ObjectThrows(x: Source, p: nat, members: seq<Member>, comma: bool, inner: Gap, depth: int)
    requires IsObject(x.features, x.env, members, comma, inner)
    requires PartAt(x.doc, p, WrittenMembers(members, comma) + (GapText(inner) + "}"))
    requires x.features.rejectDupKeys ==> !RepeatsInMembers(x.env, members, {})
    ensures p <= |x.doc|
    ensures ThrowsInMembers(x, p, map[], "", depth) <==>
              TooDeep(x, depth, MembersHeight(members)) || LongInMembers(x.env, members)
    decreases members, 4
  {
    hide *;
    ObjectFacts(x, members, comma, inner);
    PartFits(x.doc, p, WrittenMembers(members, comma) + (GapText(inner) + "}"));
    var none: map<string, Json> := map[];
    assert none.Keys == {};
    if members == [] {
      assert WrittenMembers(members, comma) + (GapText(inner) + "}") == GapText(inner) + "}";
      BraceThrows(x, p, inner, none, "", depth);
      NoMembersThrow(x, members, depth);
    } else {
      MembersThrow(x, p, members, comma, inner, none, "", depth);
    }
  }

  lemma NoMembersThrow(x: Source, members: seq<Member>, depth: int)
    requires members == []
    ensures !TooDeep(x, depth, MembersHeight(members)) && !LongInMembers(x.env, members)
  {
  }

  lemma BraceThrows(x: Source, p: nat, inner: Gap, found: map<string, Json>, name: string, depth: int)
    requires IsGap(x.features, inner, true, false) && PartAt(x.doc, p, GapText(inner) + "}") && name == ""
    ensures p <= |x.doc| && !ThrowsInMembers(x, p, found, name, depth)
  {
    hide PassedAt, TokenFrom, TokenAt, FirstAt, SkipFrom, EntryAt, IsGap, GapText, PartAt, KeyIn;
    PartSplit(x.doc, p, GapText(inner), "}");
    MarkToken(x, p + |GapText(inner)|, '}');
    GapBehind(x, p, inner);
  }

  lemma {:induction false} MembersThrow(x: Source, p: nat, members: seq<Member>, comma: bool, inner: Gap,
                                        found: map<string, Json>, name: string, depth: int)
    requires members != [] && AreMembers(x.features, x.env, members) && MembersHaveCommas(members)
    requires IsGap(x.features, inner, true, false) && LastMember(x.env, members, comma, inner)
    requires PartAt(x.doc, p, WrittenMembers(members, comma) + (GapText(inner) + "}"))
    requires x.features.rejectDupKeys ==> !RepeatsInMembers(x.env, members, found.Keys)
    ensures p <= |x.doc|
    ensures ThrowsInMembers(x, p, found, name, depth) <==>
              TooDeep(x, depth, MembersHeight(members)) || LongInMembers(x.env, members)
    decreases members, 3
  {
    hide *;
    var m, last := members[0], |members| == 1 && !comma;
    var key, r := KeyName(x.env, m.key), p + |MemberText(m)|;
    MembersSplit(x, p, members, comma, inner);
    MembersFacts(x, members, found.Keys);
    LongMembersMore(x.env, members);
    LastStays(x.env, members, comma, inner);
    BindingsMore(x.env, members, found);
    EntryIsRead(x, p, m, found, if last then '}' else ',');
    var d := p + |GapText(m.before)| + |KeyText(m.key)| + |GapText(m.colon)|;
    var v := d + 1 + |GapText(m.gap)|;
    MemberParts(x, m);
    TextThrows(x, v, m.value, depth);
    SameThrows(x, d + 1, v, depth);
    PairThrows(x, PassedAt(x, p), key, found, depth);
    var more := found[key := Meaning(x.env, m.value)];
    MembersThrowFirst(x, p, found, name, key, depth);
    if !last {
      if |members| == 1 {
        BraceThrows(x, r + 1, inner, more, key, depth);
      } else {
        MembersThrow(x, r + 1, members[1..], comma, inner, more, key, depth);
      }
    }
    DeepOf(x, depth, Height(m.value), MembersHeight(members[1..]));
  }

  lemma PairThrows(x: Source, t: Token, key: string, found: map<string, Json>, depth: int)
    requires t.start < t.end <= |x.doc| && TokenAt(x, t.end).kind == MemberSeparator
    requires !(x.features.rejectDupKeys && key in found)
    ensures ThrowsInPair(x, t, key, found, depth) <==>
              |key| >= 0x4000_0000 || ThrowsAt(x, TokenAt(x, t.end).end, depth)
  {
    hide ThrowsAt, TokenAt;
  }

  lemma MembersThrowFirst(x: Source, p: nat, found: map<string, Json>, name: string, key: string, depth: int)
    requires p <= |x.doc| && (PassedAt(x, p).kind == Str || PassedAt(x, p).kind == Number)
    requires KeyIn(x, PassedAt(x, p)) == Some(key) && EntryAt(x, PassedAt(x, p), found).Some?
    ensures (var t, e := PassedAt(x, p), EntryAt(x, PassedAt(x, p), found).value;
      ThrowsInMembers(x, p, found, name, depth) <==>
        || ThrowsInPair(x, t, key, found, depth)
        || (!e.last && ThrowsInMembers(x, e.next, found[e.key := e.value], e.key, depth)))
  {
    hide PassedAt, EntryAt, KeyIn, ThrowsInPair;
  }

  /** The same for a whole document, from the depth where the reader begins. */
  lemma DocumentThrows(before: Gap, t: Text, after: Gap, beyond: char, features: Features, env: Env)
    requires IsText(features, env, t) && HasCommas(t) && !t.DroppedText?
    requires IsGap(features, before, features.allowComments, false)
    requires IsGap(features, after, features.allowComments, true)
    requires features.rejectDupKeys ==> !Repeats(env, t)
    ensures ThrowsAt(Source(GapText(before) + (Written(t) + GapText(after)), beyond, features, env), 0, 0) <==>
              Height(t) > features.stackLimit || LongName(env, t)
  {
    hide *;
    var doc := GapText(before) + (Written(t) + GapText(after));
    var x := Source(doc, beyond, features, env);
    WholePart(doc);
    PartSplit(doc, 0, GapText(before), Written(t) + GapText(after));
    PartSplit(doc, |GapText(before)|, Written(t), GapText(after));
    PartsThrow(x, before, t, after);
  }

  lemma PartsThrow(x: Source, before: Gap, t: Text, after: Gap)
    requires IsText(x.features, x.env, t) && HasCommas(t) && !t.DroppedText?
    requires IsGap(x.features, before, x.features.allowComments, false)
    requires IsGap(x.features, after, x.features.allowComments, true)
    requires x.features.rejectDupKeys ==> !Repeats(x.env, t)
    requires PartAt(x.doc, 0, GapText(before)) && PartAt(x.doc, |GapText(before)|, Written(t))
    requires PartAt(x.doc, |GapText(before)| + |Written(t)|, GapText(after))
    requires |x.doc| == |GapText(before)| + |Written(t)| + |GapText(after)|
    ensures ThrowsAt(x, 0, 0) <==> Height(t) > x.features.stackLimit || LongName(x.env, t)
  {
    hide *;
    var v, q := |GapText(before)|, |GapText(before)| + |Written(t)|;
    AtEnd(x);
    GapStops(x, q, after, x.features.allowComments, true);
    StopsPlain(x, v, t);
    WrittenIsRead(x, v, t);
    ValueBegins(x, v);
    GapBefore(x, 0, before);
    SameThrows(x, 0, v, 0);
    TextThrows(x, v, t, 0);
    HeightIs(x, 0, t);
    DeepFromStart(x, t);
  }

  lemma DeepFromStart(x: Source, t: Text)
    requires Height(t) > 0
    ensures TooDeep(x, 0, Height(t)) <==> Height(t) > x.features.stackLimit
  {
    hide Height;
  }
}
