/**
 The language of the JSON reader, with its feature settings: tokens and values as functions of positions in a document.
 There is no store, no stack and no recovery here; a document that is in error has no value.
 */
module JsonGrammar {
  import opened Wrappers
  import opened JsonNumbers
  import opened JsonStrings

  datatype Features = Features(allowComments: bool, allowSingleQuotes: bool, allowDroppedNulls: bool,
                               allowNumericKeys: bool,
                               rejectDupKeys: bool, failIfExtra: bool, strictRoot: bool, stackLimit: int)

  datatype Kind =
    | ObjectBegin | ObjectEnd | ArrayBegin | ArrayEnd | Str | Number | True | False | Null
    | ArraySeparator | MemberSeparator | Comment | EndOfStream | Error

  datatype Token = Token(kind: Kind, start: nat, end: nat)

  /** What the reader calls: the scan of a double, and the text of a number as a key. */
  datatype Env = Env(isDouble: string -> bool, keyText: Decoded -> string)

  /** A document, the character behind it, which the reader looks at, and the settings. */
  datatype Source = Source(doc: string, beyond: char, features: Features, env: Env)

  datatype Json =
    | JNull
    | JBool(b: bool)
    | JNumber(number: Decoded)
    | JString(text: string)
    | JArray(elements: seq<Json>)
    | JObject(members: map<string, Json>)

  // ----- Tokens -----

  predicate IsSpace(c: char) { c in " \t\r\n" }

  function SkipFrom(doc: string, p: nat): (r: nat)
    requires p <= |doc|
    ensures p <= r <= |doc|
    decreases |doc| - p
  {
    if p < |doc| && IsSpace(doc[p]) then SkipFrom(doc, p + 1) else p
  }

  function DigitsEnd(doc: string, p: nat): (r: nat)
    requires p <= |doc|
    ensures p <= r <= |doc|
    decreases |doc| - p
  {
    if p < |doc| && IsDigit(doc[p]) then DigitsEnd(doc, p + 1) else p
  }

  predicate CharIs(doc: string, p: nat, cs: string) { p < |doc| && doc[p] in cs }

  /** The end of a number: digits, a fraction, an exponent, each as far as it goes. */
  function NumberEnd(doc: string, p: nat): (r: nat)
    requires p <= |doc|
    ensures p <= r <= |doc|
  {
    var a := DigitsEnd(doc, p);
    var b := if CharIs(doc, a, ".") then DigitsEnd(doc, a + 1) else a;
    if !CharIs(doc, b, "eE") then b
    else DigitsEnd(doc, if CharIs(doc, b + 1, "+-") then b + 2 else b + 1)
  }

  /** The end of a string, behind the quote that closes it. */
  function StringEnd(doc: string, p: nat, quote: char): (r: Option<nat>)
    requires p <= |doc|
    ensures r.Some? ==> p < r.value <= |doc|
    decreases |doc| - p
  {
    if p == |doc| then None
    else if doc[p] == '\\' then (if p + 1 < |doc| then StringEnd(doc, p + 2, quote) else None)
    else if doc[p] == quote then Some(p + 1)
    else StringEnd(doc, p + 1, quote)
  }

  function CStyleEnd(doc: string, beyond: char, p: nat): (r: Option<nat>)
    requires p <= |doc|
    ensures r.Some? ==> p < r.value <= |doc|
    decreases |doc| - p
  {
    if p == |doc| then None
    else if doc[p] == '*' && (if p + 1 < |doc| then doc[p + 1] else beyond) == '/' then
      (if p + 1 < |doc| then Some(p + 2) else None)
    else CStyleEnd(doc, beyond, p + 1)
  }

  function CppStyleEnd(doc: string, p: nat): (r: nat)
    requires p <= |doc|
    ensures p <= r <= |doc|
    decreases |doc| - p
  {
    if p == |doc| then p
    else if doc[p] == '\n' then p + 1
    else if doc[p] == '\r' then (if CharIs(doc, p + 1, "\n") then p + 2 else p + 1)
    else CppStyleEnd(doc, p + 1)
  }

  /** The end of a comment, from behind its first character. */
  function CommentEnd(doc: string, beyond: char, p: nat): (r: Option<nat>)
    requires p <= |doc|
    ensures r.Some? ==> p < r.value <= |doc|
  {
    if CharIs(doc, p, "*") then CStyleEnd(doc, beyond, p + 1)
    else if CharIs(doc, p, "/") then Some(CppStyleEnd(doc, p + 1))
    else None
  }

  predicate LiteralAt(doc: string, p: nat, s: string) { p + |s| <= |doc| && doc[p..p + |s|] == s }

  /** A token, or an error that ends at `stop`. */
  function TokenIf(kind: Kind, start: nat, end: Option<nat>, stop: nat): Token {
    if end.Some? then Token(kind, start, end.value) else Token(Error, start, stop)
  }

  /** Where the scanner stops in a comment that does not end: at the end, or behind a character that begins none. */
  function CommentStop(doc: string, p: nat): (r: nat)
    requires p <= |doc|
    ensures p <= r <= |doc|
  {
    if p == |doc| || doc[p] == '*' then |doc| else p + 1
  }

  /** The token whose first character is at `s`. */
  function TokenFrom(x: Source, s: nat): (t: Token)
    requires s <= |x.doc|
    ensures t.start == s <= t.end <= |x.doc| && (t.kind != EndOfStream ==> s < t.end)
    ensures t.kind in {ObjectEnd, ArrayEnd, ArraySeparator} ==> t.end == s + 1
    ensures t.kind == Str ==> t.end >= s + 2
  {
    if s == |x.doc| then Token(EndOfStream, s, s)
    else
      var c := x.doc[s];
      if c == '{' then Token(ObjectBegin, s, s + 1)
      else if c == '}' then Token(ObjectEnd, s, s + 1)
      else if c == '[' then Token(ArrayBegin, s, s + 1)
      else if c == ']' then Token(ArrayEnd, s, s + 1)
      else if c == '"' || (c == '\'' && x.features.allowSingleQuotes) then
        TokenIf(Str, s, StringEnd(x.doc, s + 1, c), |x.doc|)
      else if c == '\'' || c == '/' then
        TokenIf(Comment, s, CommentEnd(x.doc, x.beyond, s + 1), CommentStop(x.doc, s + 1))
      else if IsDigit(c) || c == '-' then Token(Number, s, NumberEnd(x.doc, s + 1))
      else if c == 't' then TokenIf(True, s, if LiteralAt(x.doc, s + 1, "rue") then Some(s + 4) else None, s + 1)
      else if c == 'f' then TokenIf(False, s, if LiteralAt(x.doc, s + 1, "alse") then Some(s + 5) else None, s + 1)
      else if c == 'n' then TokenIf(Null, s, if LiteralAt(x.doc, s + 1, "ull") then Some(s + 4) else None, s + 1)
      else if c == ',' then Token(ArraySeparator, s, s + 1)
      else if c == ':' then Token(MemberSeparator, s, s + 1)
      else if c == '\0' then Token(EndOfStream, s, s + 1)
      else Token(Error, s, s + 1)
  }

  /** The next token. */
  function TokenAt(x: Source, p: nat): (t: Token)
    requires p <= |x.doc|
    ensures p <= t.start <= t.end <= |x.doc| && (t.kind != EndOfStream ==> t.start < t.end)
    ensures t.kind in {ObjectEnd, ArrayEnd, ArraySeparator} ==> t.end == t.start + 1
    ensures t.kind == Str ==> t.end >= t.start + 2
  {
    TokenFrom(x, SkipFrom(x.doc, p))
  }

  /** The next token that is no comment. */
  function PassedAt(x: Source, p: nat): (t: Token)
    requires p <= |x.doc|
    ensures p <= t.start <= t.end <= |x.doc| && (t.kind != EndOfStream ==> t.start < t.end)
    ensures t.kind in {ObjectEnd, ArrayEnd, ArraySeparator} ==> t.end == t.start + 1
    ensures t.kind == Str ==> t.end >= t.start + 2
    ensures t.kind != Comment
    decreases |x.doc| - p
  {
    var t := TokenAt(x, p);
    if t.kind == Comment then PassedAt(x, t.end) else t
  }

  /** The first token of a value: behind comments, if there may be comments. */
  function FirstAt(x: Source, p: nat): (t: Token)
    requires p <= |x.doc|
    ensures p <= t.start <= t.end <= |x.doc| && (t.kind != EndOfStream ==> t.start < t.end)
    ensures t.kind in {ObjectEnd, ArrayEnd, ArraySeparator} ==> t.end == t.start + 1
    ensures t.kind == Str ==> t.end >= t.start + 2
  {
    if x.features.allowComments then PassedAt(x, p) else TokenAt(x, p)
  }

  /** Where recovery from an error ends: behind a token of that kind, or of the end. */
  function RecoveredAt(x: Source, p: nat, kind: Kind): (r: nat)
    requires p <= |x.doc|
    ensures p <= r <= |x.doc|
    decreases |x.doc| - p
  {
    var t := TokenAt(x, p);
    if t.kind == kind || t.kind == EndOfStream then t.end else RecoveredAt(x, t.end, kind)
  }

  /** Tokens one behind the other, from `p` on. */
  ghost predicate InRow(x: Source, p: nat, ts: seq<Token>)
    requires p <= |x.doc|
    decreases |ts|
  {
    ts != [] ==> ts[0] == TokenAt(x, p) && InRow(x, ts[0].end, ts[1..])
  }

  /** Recovery passes over tokens, of which only the last one is of the kind that is looked for, or of the end. */
  lemma {:induction false} RecoveredIs(x: Source, p: nat, kind: Kind) returns (ts: seq<Token>)
    requires p <= |x.doc|
    ensures ts != [] && InRow(x, p, ts) && RecoveredAt(x, p, kind) == ts[|ts| - 1].end
    ensures forall k :: 0 <= k < |ts| ==> ((ts[k].kind == kind || ts[k].kind == EndOfStream) <==> k == |ts| - 1)
    decreases |x.doc| - p
  {
    hide TokenAt;
    var t := TokenAt(x, p);
    if t.kind == kind || t.kind == EndOfStream {
      ts := [t];
    } else {
      var tail := RecoveredIs(x, t.end, kind);
      ts := [t] + tail;
      assert ts[1..] == tail;
    }
  }

  // ----- Values -----

  /** A value, and the position behind it. */
  datatype Found = Found(value: Json, next: nat)

  function NumberIn(x: Source, t: Token): Option<Decoded>
    requires t.start < t.end <= |x.doc|
  {
    var text := x.doc[t.start..t.end];
    var d := DecodedOf(text);
    if d.AsDouble? && !x.env.isDouble(text) then None else Some(d)
  }

  function StringIn(x: Source, t: Token): Option<string>
    requires t.start + 2 <= t.end <= |x.doc|
  {
    Unescaped(x.doc[t.start + 1..t.end - 1])
  }

  /** The name of a member. */
  function KeyIn(x: Source, t: Token): Option<string>
    requires t.end <= |x.doc| && (t.kind != EndOfStream ==> t.start < t.end) && (t.kind == Str ==> t.end >= t.start + 2)
  {
    if t.kind == Str then StringIn(x, t)
    else if t.kind == Number && x.features.allowNumericKeys then
      var n := NumberIn(x, t);
      if n.Some? then Some(x.env.keyText(n.value)) else None
    else None
  }

  /** A value of one token. */
  function PlainIn(x: Source, t: Token): Option<Json>
    requires t.end <= |x.doc| && (t.kind != EndOfStream ==> t.start < t.end) && (t.kind == Str ==> t.end >= t.start + 2)
  {
    match t.kind
    case Number => (var n := NumberIn(x, t); if n.Some? then Some(JNumber(n.value)) else None)
    case Str => (var s := StringIn(x, t); if s.Some? then Some(JString(s.value)) else None)
    case True => Some(JBool(true))
    case False => Some(JBool(false))
    case Null => Some(JNull)
    case _ => None
  }

  /** The value at a position. A separator or a closing bracket may stand for a null value, which takes nothing. */
  function ValueAt(x: Source, p: nat): (r: Option<Found>)
    requires p <= |x.doc|
    ensures r.Some? ==> p <= r.value.next <= |x.doc|
    decreases |x.doc| - p, 0
  {
    var t := FirstAt(x, p);
    if t.kind == ObjectBegin then MembersAt(x, t.end, map[], "")
    else if t.kind == ArrayBegin then ArrayAt(x, t.end)
    else if t.kind in {ObjectEnd, ArrayEnd, ArraySeparator} then
      (if x.features.allowDroppedNulls then Some(Found(JNull, t.end - 1)) else None)
    else
      var v := PlainIn(x, t);
      if v.Some? then Some(Found(v.value, t.end)) else None
  }

  /** An array, from behind its bracket. */
  function ArrayAt(x: Source, p: nat): (r: Option<Found>)
    requires p <= |x.doc|
    ensures r.Some? ==> p <= r.value.next <= |x.doc|
    decreases |x.doc| - p, 2
  {
    var s := SkipFrom(x.doc, p);
    if (if s < |x.doc| then x.doc[s] else x.beyond) == ']' then Some(Found(JArray([]), TokenAt(x, s).end))
    else ElementsAt(x, s, [])
  }

  /** The elements of an array, after those found. */
  function ElementsAt(x: Source, p: nat, found: seq<Json>): (r: Option<Found>)
    requires p <= |x.doc|
    ensures r.Some? ==> p <= r.value.next <= |x.doc|
    decreases |x.doc| - p, 1
  {
    var v := ValueAt(x, p);
    if v.None? then None
    else
      var t := PassedAt(x, v.value.next);
      if t.kind == ArrayEnd then Some(Found(JArray(found + [v.value.value]), t.end))
      else if t.kind == ArraySeparator then ElementsAt(x, t.end, found + [v.value.value])
      else None
  }

  /** A member of an object, and what is behind it. */
  datatype Entry = Entry(key: string, value: Json, last: bool, next: nat)

  /**
   The entry with this name token: a separator, the value, and a comma, a closing brace, or anything behind a comment.
   */
  function EntryAt(x: Source, t: Token, found: map<string, Json>): (r: Option<Entry>)
    requires t.end <= |x.doc| && (t.kind != EndOfStream ==> t.start < t.end) && (t.kind == Str ==> t.end >= t.start + 2)
    ensures r.Some? ==> t.end < r.value.next <= |x.doc|
    decreases |x.doc| - t.end, 1
  {
    var key := KeyIn(x, t);
    var colon := TokenAt(x, t.end);
    if key.None? || colon.kind != MemberSeparator || (x.features.rejectDupKeys && key.value in found) then None
    else
      var v := ValueAt(x, colon.end);
      if v.None? then None
      else
        var comma := TokenAt(x, v.value.next);
        if comma.kind !in {ObjectEnd, ArraySeparator, Comment} then None
        else
          var u := if comma.kind == Comment then PassedAt(x, comma.end) else comma;
          Some(Entry(key.value, v.value.value, u.kind == ObjectEnd, u.end))
  }

  /**
   The members of an object, after those found; `name` is the last name, and an object may end behind an empty one.
   */
  function MembersAt(x: Source, p: nat, found: map<string, Json>, name: string): (r: Option<Found>)
    requires p <= |x.doc|
    ensures r.Some? ==> p <= r.value.next <= |x.doc|
    decreases |x.doc| - p, 2
  {
    var t := PassedAt(x, p);
    if t.kind == ObjectEnd && name == "" then Some(Found(JObject(found), t.end))
    else
      var e := EntryAt(x, t, found);
      if e.None? then None
      else
        var more := found[e.value.key := e.value.value];
        if e.value.last then Some(Found(JObject(more), e.value.next)) else MembersAt(x, e.value.next, more, e.value.key)
  }

  /** The value of a document. */
  function Document(x: Source): Option<Json> {
    var v := ValueAt(x, 0);
    if v.None? then None
    else if x.features.failIfExtra && FirstAt(x, v.value.next).kind !in {Error, EndOfStream} then None
    else if x.features.strictRoot && !v.value.value.JArray? && !v.value.value.JObject? then None
    else Some(v.value.value)
  }

  // ----- Text behind the value -----

  /** Does the character at `s` begin something that is complete? */
  predicate Begins(x: Source, s: nat)
    requires s < |x.doc|
  {
    var c := x.doc[s];
    || c in "{}[],:-" || IsDigit(c)
    || ((c == '"' || (c == '\'' && x.features.allowSingleQuotes)) && StringEnd(x.doc, s + 1, c).Some?)
    || ((c == '/' || (c == '\'' && !x.features.allowSingleQuotes)) && CommentEnd(x.doc, x.beyond, s + 1).Some?)
    || LiteralAt(x.doc, s, "true") || LiteralAt(x.doc, s, "false") || LiteralAt(x.doc, s, "null")
  }

  lemma TokenBegins(x: Source, s: nat)
    requires s <= |x.doc|
    ensures TokenFrom(x, s).kind !in {Error, EndOfStream} <==> s < |x.doc| && Begins(x, s)
  {
    hide StringEnd, CommentEnd, NumberEnd;
    if s < |x.doc| {
      LiteralSplit(x.doc, s, "true");
      LiteralSplit(x.doc, s, "false");
      LiteralSplit(x.doc, s, "null");
      assert "true"[1..] == "rue" && "false"[1..] == "alse" && "null"[1..] == "ull";
    }
  }

  lemma LiteralSplit(doc: string, s: nat, literal: string)
    requires s < |doc| && literal != ""
    ensures LiteralAt(doc, s, literal) <==> doc[s] == literal[0] && LiteralAt(doc, s + 1, literal[1..])
  {
    if s + |literal| <= |doc| {
      assert doc[s..s + |literal|] == [doc[s]] + doc[s + 1..s + |literal|];
      assert literal == [literal[0]] + literal[1..];
    }
  }

  lemma {:induction false} FirstIsToken(x: Source, p: nat)
    requires p <= |x.doc|
    ensures PassedAt(x, p) == TokenFrom(x, PassedAt(x, p).start) && FirstAt(x, p) == TokenFrom(x, FirstAt(x, p).start)
    decreases |x.doc| - p
  {
    hide TokenFrom, SkipFrom;
    var t := TokenAt(x, p);
    if t.kind == Comment {
      FirstIsToken(x, t.end);
    }
  }

  /**
   Extra text behind the value is to be refused, and is exactly when the first character that is no space, nor in a
   comment where there may be comments, begins a complete token.
   */
  lemma ExtraRefusedExactly(x: Source)
    requires x.features.failIfExtra && ValueAt(x, 0).Some?
    requires x.features.strictRoot ==> ValueAt(x, 0).value.value.JArray? || ValueAt(x, 0).value.value.JObject?
    ensures var s := FirstAt(x, ValueAt(x, 0).value.next).start;
            Document(x).None? <==> s < |x.doc| && Begins(x, s)
  {
    hide ValueAt, FirstAt, TokenFrom, Begins;
    FirstIsToken(x, ValueAt(x, 0).value.next);
    TokenBegins(x, FirstAt(x, ValueAt(x, 0).value.next).start);
  }

  /** With all restrictions on, and text behind the value: it is accepted where the scanner finds no token in it. */
  lemma GarbageAccepted(env: Env)
    ensures (var strict := Features(false, false, false, false, true, true, true, 1000);
      Document(Source("[]@", '\0', strict, env)) == Some(JArray([])))
  {
    var x := Source("[]@", '\0', Features(false, false, false, false, true, true, true, 1000), env);
    assert SkipFrom(x.doc, 0) == 0 && SkipFrom(x.doc, 1) == 1 && SkipFrom(x.doc, 2) == 2;
    assert FirstAt(x, 0) == Token(ArrayBegin, 0, 1);
    assert TokenAt(x, 1) == Token(ArrayEnd, 1, 2);
    assert ArrayAt(x, 1) == Some(Found(JArray([]), 2));
    assert ValueAt(x, 0) == Some(Found(JArray([]), 2));
    assert FirstAt(x, 2) == Token(Error, 2, 3);
  }
}
