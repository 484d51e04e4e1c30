/**
 The JSON reader: a scanner with a cursor, and a parser with a stack of values that calls itself for the values inside
 values. Comments are passed over, not collected; positions in the values and texts of errors are not modelled.
 */
module JsonReader {
  import opened Wrappers
  import opened JsonNumbers
  import opened JsonStrings
  import opened JsonGrammar
  import opened JsonStore
  import opened JsonDepth

  /** A result, or an exception: too many values inside values, or a key that is too long. */
  datatype Outcome = Returned(ok: bool) | Thrown

  /** The state of the reader: the cursor, the stack, the values, the errors and the depth. */
  datatype State = State(current: nat, nodes: seq<nat>, values: seq<Payload>, errors: seq<Token>, depth: int)

  /** The stack goes from values to values in them. */
  ghost predicate Ascending(nodes: seq<nat>, count: nat) {
    && (forall k :: 0 <= k < |nodes| ==> nodes[k] < count)
    && (forall k, m :: 0 <= k < m < |nodes| ==> nodes[k] < nodes[m])
  }

  ghost predicate Sound(w: State, end: nat) {
    w.current <= end && w.nodes != [] && Ascending(w.nodes, |w.values|) && IsStore(w.values)
  }

  /** The value that is being read. */
  ghost function Last(w: State): nat
    requires w.nodes != []
  {
    w.nodes[|w.nodes| - 1]
  }

  /**
   What reading promises. The cursor stays in the document and does not go back; without an exception, the stack is as
   before, below `base` only the value that is being read has changed, and reading has succeeded exactly when no error
   was reported. The depth is as before, except that a syntax error leaves it one too high.
   */
  ghost predicate Done(w: State, w': State, end: nat, base: nat, r: Outcome) {
    && w.current <= w'.current <= end
    && (r.Returned? ==>
          && Sound(w', end) && w'.nodes == w.nodes && w.nodes != [] && Kept(w.values, w'.values, Last(w), base)
          && w.errors <= w'.errors && (r.ok <==> w'.errors == w.errors)
          && w.depth <= w'.depth <= (if r.ok then w.depth else w.depth + 1))
    && (r.Thrown? ==> w.nodes <= w'.nodes)
  }

  /** Something is read inside, then the rest: the promises add up. */
  lemma DoneThen(w: State, w1: State, w2: State, end: nat, base: nat, base1: nat, r: Outcome)
    requires Sound(w, end) && Done(w, w1, end, base, Returned(true)) && Done(w1, w2, end, base1, r)
    requires base <= base1 || base1 == |w1.values|
    ensures Done(w, w2, end, base, r)
  {
    hide Ordered, Apart;
  }

  /** The value that the grammar finds is the one that was read; where nothing is found, reading has failed. */
  ghost predicate Gives(found: Option<Found>, w: State, end: nat, top: nat, r: Outcome) {
    r.Returned? ==>
      if r.ok then Sound(w, end) && top < |w.values| && found == Some(Found(TreeOf(w.values, top), w.current))
      else found == None
  }

  /** What was read behind a token, one level deeper. */
  lemma Around(w: State, w1: State, w2: State, end: nat, r: Outcome)
    requires Sound(w, end) && w.current <= w1.current && w1 == w.(current := w1.current, depth := w.depth + 1)
    requires Done(w1, w2, end, |w.values|, r)
    ensures r.Thrown? ==> Done(w, w2, end, |w.values|, r)
    ensures r.Returned? ==> Done(w, w2.(depth := w2.depth - 1), end, |w.values|, r)
    ensures forall found :: r.Returned? && Gives(found, w2, end, Last(w), r) ==>
              Gives(found, w2.(depth := w2.depth - 1), end, Last(w), r)
  {
    hide Ordered, Apart, Kept, Ascending, TreeOf;
  }

  lemma NothingGiven(w: State, end: nat, top: nat)
    ensures Gives(None, w, end, top, Returned(false))
    ensures forall found :: Gives(found, w, end, top, Thrown)
  {
  }

  class Reader {
    const doc: string
    /** The character behind the document, which the reader looks at. */
    const beyond: char
    const features: Features
    const env: Env
    var current: nat
    var nodes: seq<nat>
    var values: seq<Payload>
    /** The tokens that errors were reported for. */
    var errors: seq<Token>
    var stackDepth: int

    constructor (doc: string, beyond: char, features: Features, env: Env)
      ensures this.doc == doc && this.beyond == beyond && this.features == features && this.env == env
    {
      this.doc, this.beyond, this.features, this.env := doc, beyond, features, env;
      current, nodes, values, errors, stackDepth := 0, [], [], [], 0;
    }

    ghost function Src(): Source { Source(doc, beyond, features, env) }

    // ----- The scanner: the cursor only -----

    function Peek(): char
      reads this`current
    {
      if current < |doc| then doc[current] else beyond
    }

    method GetNextChar() returns (c: char)
      requires current <= |doc|
      modifies this`current
      ensures if old(current) == |doc| then c == '\0' && current == |doc|
              else c == doc[old(current)] && current == old(current) + 1
    {
      if current == |doc| { return '\0'; }
      c := doc[current];
      current := current + 1;
    }

    method SkipSpaces()
      requires current <= |doc|
      modifies this`current
      ensures current == SkipFrom(doc, old(current)) <= |doc|
    {
      while current != |doc| && IsSpace(doc[current])
        invariant old(current) <= current <= |doc| && SkipFrom(doc, current) == SkipFrom(doc, old(current))
        decreases |doc| - current
      {
        current := current + 1;
      }
    }

    method Match(pattern: string) returns (ok: bool)
      requires current <= |doc|
      modifies this`current
      ensures ok <==> LiteralAt(doc, old(current), pattern)
      ensures current == if ok then old(current) + |pattern| else old(current)
    {
      if |doc| - current < |pattern| { return false; }
      var index := |pattern|;
      while index > 0
        invariant 0 <= index <= |pattern| && current == old(current)
        invariant doc[current + index..current + |pattern|] == pattern[index..]
      {
        index := index - 1;
        if doc[current + index] != pattern[index] {
          assert doc[current..current + |pattern|][index] != pattern[index];
          return false;
        }
      }
      current := current + |pattern|;
      ok := true;
    }

    /** The cursor is at the end of something that may be missing, or else where the scanner stops. */
    ghost predicate Ends(ok: bool, end: Option<nat>, stop: nat)
      reads this`current
    {
      current <= |doc| && (ok <==> end.Some?) && current == if ok then end.value else stop
    }

    method ReadCStyleComment() returns (ok: bool)
      requires current <= |doc|
      modifies this`current
      ensures old(current) <= current && Ends(ok, CStyleEnd(doc, beyond, old(current)), |doc|)
    {
      var searching := true;
      while searching && current != |doc|
        invariant old(current) <= current <= |doc|
        invariant searching ==> CStyleEnd(doc, beyond, current) == CStyleEnd(doc, beyond, old(current))
        invariant !searching ==> Peek() == '/'
        invariant !searching ==>
                    CStyleEnd(doc, beyond, old(current)) == if current < |doc| then Some(current + 1) else None
        decreases |doc| - current
      {
        var c := GetNextChar();
        if c == '*' && Peek() == '/' { searching := false; }
      }
      var c := GetNextChar();
      ok := c == '/';
    }

    method ReadCppStyleComment() returns (ok: bool)
      requires current <= |doc|
      modifies this`current
      ensures ok && current == CppStyleEnd(doc, old(current))
    {
      var searching := true;
      while searching && current != |doc|
        invariant old(current) <= current <= |doc|
        invariant CppStyleEnd(doc, old(current)) == if searching then CppStyleEnd(doc, current) else current
        decreases |doc| - current
      {
        var c := GetNextChar();
        if c == '\n' {
          searching := false;
        } else if c == '\r' {
          if current != |doc| && doc[current] == '\n' { var _ := GetNextChar(); }
          searching := false;
        }
      }
      ok := true;
    }

    method ReadComment() returns (ok: bool)
      requires current <= |doc|
      modifies this`current
      ensures old(current) <= current && Ends(ok, CommentEnd(doc, beyond, old(current)), CommentStop(doc, old(current)))
    {
      var c := GetNextChar();
      ok := false;
      if c == '*' {
        ok := ReadCStyleComment();
      } else if c == '/' {
        ok := ReadCppStyleComment();
      }
    }

    /** The next character of a number, or 0 behind the document; `current` stays on it. */
    method NumberChar(p: nat) returns (c: char, next: nat)
      requires p <= |doc|
      modifies this`current
      ensures current == p && p <= next <= |doc|
      ensures if p < |doc| then c == doc[p] && next == p + 1 else c == '\0' && next == p
    {
      current := p;
      if current < |doc| { return doc[p], p + 1; }
      return '\0', p;
    }

    /** The characters `c` at `current`, and from `p` on, up to one that is no digit. */
    ghost predicate AtChar(c: char, p: nat)
      reads this`current
    {
      current <= p <= |doc|
      && if current < |doc| then c == doc[current] && p == current + 1 else c == '\0' && p == current
    }

    method DigitsOfNumber(c0: char, p0: nat) returns (c: char, p: nat)
      requires p0 <= |doc| && (AtChar(c0, p0) || (c0 == '0' && p0 == current))
      modifies this`current
      ensures current == DigitsEnd(doc, old(current)) && AtChar(c, p) && !IsDigit(c)
    {
      c, p := c0, p0;
      while IsDigit(c)
        invariant old(current) <= current <= |doc| && p <= |doc| && (AtChar(c, p) || (IsDigit(c) && p == current))
        invariant DigitsEnd(doc, current) == DigitsEnd(doc, old(current))
        decreases |doc| - p, IsDigit(c)
      {
        c, p := NumberChar(p);
      }
    }

    method ReadNumber()
      requires current <= |doc|
      modifies this`current
      ensures current == NumberEnd(doc, old(current))
    {
      var c, p := '0', current;
      c, p := DigitsOfNumber(c, p);
      if c == '.' {
        c, p := NumberChar(p);
        c, p := DigitsOfNumber(c, p);
      }
      if c == 'e' || c == 'E' {
        c, p := NumberChar(p);
        if c == '+' || c == '-' { c, p := NumberChar(p); }
        c, p := DigitsOfNumber(c, p);
      }
    }

    /** A string up to the quote that ends it; behind a backslash, any character is passed over. */
    method ReadString(quote: char) returns (ok: bool)
      requires current <= |doc| && quote != '\\' && quote != '\0'
      modifies this`current
      ensures old(current) <= current && Ends(ok, StringEnd(doc, old(current), quote), |doc|)
    {
      var c := '\0';
      while current != |doc| && c != quote
        invariant old(current) <= current <= |doc|
        invariant StringEnd(doc, old(current), quote) ==
                  if c == quote then Some(current) else StringEnd(doc, current, quote)
        decreases |doc| - current
      {
        c := GetNextChar();
        if c == '\\' { var _ := GetNextChar(); }
      }
      ok := c == quote;
    }

    /** The token that the grammar finds, with the cursor behind it. */
    ghost predicate Same(token: Token, t: Token)
      reads this`current
    {
      token == t && current == t.end <= |doc|
    }

    /** `read_token`; it always succeeds. */
    method ReadToken() returns (token: Token)
      requires current <= |doc|
      modifies this`current
      ensures Same(token, TokenAt(Src(), old(current)))
    {
      SkipSpaces();
      var start := current;
      token := ReadTokenHere();
      assert TokenAt(Src(), old(current)) == TokenFrom(Src(), start);
    }

    method ReadTokenHere() returns (token: Token)
      requires current <= |doc|
      modifies this`current
      ensures Same(token, TokenFrom(Src(), old(current)))
    {
      hide StringEnd, CommentEnd, NumberEnd, LiteralAt;
      var start := current;
      var c := GetNextChar();
      var kind, ok := Error, true;
      if c == '{' {
        kind := ObjectBegin;
      } else if c == '}' {
        kind := ObjectEnd;
      } else if c == '[' {
        kind := ArrayBegin;
      } else if c == ']' {
        kind := ArrayEnd;
      } else if c == '"' {
        kind := Str;
        ok := ReadString('"');
      } else if c == '\'' && features.allowSingleQuotes {
        kind := Str;
        ok := ReadString('\'');
      } else if c == '\'' || c == '/' {
        kind := Comment;
        ok := ReadComment();
      } else if IsDigit(c) || c == '-' {
        kind := Number;
        ReadNumber();
      } else if c == 't' {
        kind := True;
        ok := Match("rue");
      } else if c == 'f' {
        kind := False;
        ok := Match("alse");
      } else if c == 'n' {
        kind := Null;
        ok := Match("ull");
      } else if c == ',' {
        kind := ArraySeparator;
      } else if c == ':' {
        kind := MemberSeparator;
      } else if c == '\0' {
        kind := EndOfStream;
      } else {
        ok := false;
      }
      token := Token(if ok then kind else Error, start, current);
    }

    method SkipCommentTokens() returns (token: Token)
      requires current <= |doc|
      modifies this`current
      ensures Same(token, FirstAt(Src(), old(current)))
    {
      token := ReadToken();
      if features.allowComments { token := PassComments(token, old(current)); }
    }

    /** Reads on while tokens are comments. */
    method PassComments(token0: Token, ghost from_: nat) returns (token: Token)
      requires from_ <= |doc| && Same(token0, TokenAt(Src(), from_))
      modifies this`current
      ensures Same(token, PassedAt(Src(), from_)) && current >= old(current)
      ensures token0.kind != Comment ==> token == token0 && current == old(current)
    {
      hide TokenAt;
      token := token0;
      ghost var p := from_;
      while token.kind == Comment
        invariant p <= |doc| && Same(token, TokenAt(Src(), p)) && PassedAt(Src(), p) == PassedAt(Src(), from_)
        invariant current >= old(current) && (token0.kind != Comment ==> token == token0 && current == old(current))
        decreases |doc| - p
      {
        p := current;
        token := ReadToken();
      }
    }

    // ----- The parser -----

    ghost function Now(): State
      reads this
    {
      State(current, nodes, values, errors, stackDepth)
    }

    ghost predicate Valid()
      reads this
    {
      Sound(Now(), |doc|)
    }

    /** The value that is being read. */
    function Top(): nat
      requires nodes != []
      reads this`nodes
    {
      nodes[|nodes| - 1]
    }

    method AddError(token: Token) returns (ok: bool)
      modifies this`errors
      ensures errors == old(errors) + [token] && !ok
    {
      errors := errors + [token];
      ok := false;
    }

    /** `recover_from_error`: passes over everything up to a token of some kind, or the end. */
    method RecoverFromError(kind: Kind) returns (ok: bool)
      requires current <= |doc|
      modifies this`current, this`errors
      ensures !ok && current == RecoveredAt(Src(), old(current), kind) && errors == old(errors)
    {
      hide TokenAt;
      var errorCount := |errors|;
      var skip := ReadToken();
      while skip.kind != kind && skip.kind != EndOfStream
        invariant current <= |doc| && errors == old(errors)
        invariant RecoveredAt(Src(), old(current), kind) ==
                  if skip.kind == kind || skip.kind == EndOfStream then current else RecoveredAt(Src(), current, kind)
        decreases |doc| - current, skip.kind != EndOfStream
      {
        skip := ReadToken();
      }
      errors := errors[..errorCount];
      ok := false;
    }

    method AddErrorAndRecover(token: Token, kind: Kind) returns (ok: bool)
      requires current <= |doc|
      modifies this`current, this`errors
      ensures !ok && current == RecoveredAt(Src(), old(current), kind) && errors == old(errors) + [token]
    {
      ok := AddError(token);
      ok := RecoverFromError(kind);
    }

    lemma ValidFacts()
      requires Valid()
      ensures current <= |doc| && nodes != [] && Top() < |values| && IsStore(values)
      ensures Done(Now(), Now(), |doc|, |values|, Returned(true))
    {
      hide Ordered, Apart;
    }

    /** `swap_payload` on the current value, with nothing in it. */
    method SetTop(p: Payload)
      requires Valid() && IsPlain(p)
      modifies this`values
      ensures Valid() && Top() < |values| == |old(values)| && values == old(values)[Top() := p] && values[Top()] == p
      ensures Done(old(Now()), Now(), |doc|, |old(values)|, Returned(true)) && TreeOf(values, Top()) == PlainTree(p)
    {
      hide Ordered, Apart, TreeOf, PlainTree;
      PlainSet(values, Top(), p);
      values := values[Top() := p];
    }

    /** `decode_number`, into a payload or a key. */
    method NumberOf(token: Token) returns (r: Option<Decoded>)
      requires token.start < token.end <= |doc|
      modifies this`errors
      ensures r == NumberIn(Src(), token)
      ensures if r.Some? then errors == old(errors) else errors == old(errors) + [token]
    {
      var text := doc[token.start..token.end];
      var decoded := DecodeNumber(text);
      if decoded.AsDouble? && !env.isDouble(text) {
        var _ := AddError(token);
        return None;
      }
      r := Some(decoded);
    }

    method StringOf(token: Token) returns (r: Option<string>)
      requires token.start + 2 <= token.end <= |doc|
      modifies this`errors
      ensures r == StringIn(Src(), token)
      ensures if r.Some? then errors == old(errors) else errors == old(errors) + [token]
    {
      r := DecodeString(doc[token.start + 1..token.end - 1]);
      if r.None? { var _ := AddError(token); }
    }

    /** The values that are one token. */
    method ReadPlain(token: Token) returns (ok: bool)
      requires Valid() && token.start < token.end <= |doc| && token.kind in {Number, Str, True, False, Null}
      requires token.kind == Str ==> token.start + 2 <= token.end
      modifies this`values, this`errors
      ensures Done(old(Now()), Now(), |doc|, |old(values)|, Returned(ok)) && Top() < |values|
      ensures PlainIn(Src(), token) == if ok then Some(TreeOf(values, Top())) else None
    {
      hide Ordered, Apart, TreeOf, NumberIn, StringIn, Kept;
      ValidFacts();
      ok := true;
      if token.kind == Number {
        var n := NumberOf(token);
        ok := n.Some?;
        if n.Some? { SetTop(NumberValue(n.value)); }
      } else if token.kind == Str {
        var text := StringOf(token);
        ok := text.Some?;
        if text.Some? { SetTop(StringValue(text.value)); }
      } else if token.kind == True {
        SetTop(BoolValue(true));
      } else if token.kind == False {
        SetTop(BoolValue(false));
      } else {
        SetTop(NullValue);
      }
    }

    /** `read_value`: the value that the grammar finds, or an error where there is none. */
    method ReadValue() returns (r: Outcome)
      requires Valid()
      modifies this
      ensures Done(old(Now()), Now(), |doc|, |old(values)|, r)
      ensures Gives(ValueAt(Src(), old(current)), Now(), |doc|, old(Top()), r)
      ensures r.Thrown? <==> ThrowsAt(Src(), old(current), old(stackDepth))
      decreases |doc| - current, 0
    {
      hide Sound, TreeOf, FirstAt, Done, Gives, ValueAt, KnownAt, Same, ThrowsInMembers, ThrowsInArray;
      ghost var w := Now();
      ValidFacts();
      ValueIs(current);
      if stackDepth >= features.stackLimit {
        NothingRead(w, Thrown);
        NothingGiven(w, |doc|, Last(w));
        return Thrown;
      }
      stackDepth := stackDepth + 1;
      var token := SkipCommentTokens();
      ghost var w1 := Now();
      FirstRead(token, w);
      if token.kind in {ObjectBegin, ArrayBegin, Number, Str, True, False, Null} {
        r := ReadKnown(token);
      } else if features.allowDroppedNulls && token.kind in {ArraySeparator, ObjectEnd, ArrayEnd} {
        current := current - 1;
        w1 := Now();
        SetTop(NullValue);
        r := Returned(true);
        NullRead();
      } else {
        var ok := AddError(token);
        NothingRead(w, Returned(false));
        NothingGiven(Now(), |doc|, Last(w));
        return Returned(ok);
      }
      Around(w, w1, Now(), |doc|, r);
      NothingGiven(Now(), |doc|, Last(w));
      if r.Thrown? { return; }
      stackDepth := stackDepth - 1;
    }

    /** Nothing but the cursor, the errors and the depth has changed. */
    lemma NothingRead(w: State, r: Outcome)
      requires Sound(w, |doc|) && w.current <= current <= |doc| && nodes == w.nodes && values == w.values
      requires r.Returned? ==> !r.ok && w.errors < errors && stackDepth == w.depth + 1
      ensures Done(w, Now(), |doc|, |w.values|, r)
    {
      hide Ordered, Apart;
    }

    /** A value that begins with this token. */
    ghost function KnownAt(token: Token): Option<Found>
      requires token.start < token.end <= |doc| && (token.kind == Str ==> token.end >= token.start + 2)
    {
      if token.kind == ObjectBegin then MembersAt(Src(), token.end, map[], "")
      else if token.kind == ArrayBegin then ArrayAt(Src(), token.end)
      else
        var v := PlainIn(Src(), token);
        if v.Some? then Some(Found(v.value, token.end)) else None
    }

    method ReadKnown(token: Token) returns (r: Outcome)
      requires Valid() && token.start < token.end == current && (token.kind == Str ==> current >= token.start + 2)
      requires token.kind in {ObjectBegin, ArrayBegin, Number, Str, True, False, Null}
      modifies this
      ensures Done(old(Now()), Now(), |doc|, |old(values)|, r)
      ensures Gives(KnownAt(token), Now(), |doc|, old(Top()), r)
      ensures r.Thrown? <==>
                || (token.kind == ObjectBegin && ThrowsInMembers(Src(), token.end, map[], "", old(stackDepth)))
                || (token.kind == ArrayBegin && ThrowsInArray(Src(), token.end, old(stackDepth)))
      decreases |doc| - current, 6
    {
      hide Ordered, Apart, TreeOf, Kept, Ascending, PlainIn, MembersAt, ArrayAt, ThrowsInMembers, ThrowsInArray;
      if token.kind == ObjectBegin {
        r := ReadObject();
      } else if token.kind == ArrayBegin {
        r := ReadArray();
      } else {
        var ok := ReadPlain(token);
        r := Returned(ok);
      }
    }

    /** What is at a position, by its first token. */
    lemma ValueIs(p: nat)
      requires p <= |doc|
      ensures (var t := FirstAt(Src(), p);
        if t.kind in {ObjectBegin, ArrayBegin, Number, Str, True, False, Null} then ValueAt(Src(), p) == KnownAt(t)
        else if t.kind in {ArraySeparator, ObjectEnd, ArrayEnd} && features.allowDroppedNulls then
          ValueAt(Src(), p) == Some(Found(JNull, t.end - 1))
        else ValueAt(Src(), p) == None)
    {
      hide FirstAt, MembersAt, ArrayAt;
    }

    /** The state behind the first token. */
    lemma FirstRead(token: Token, w: State)
      requires w.current <= |doc| && Same(token, FirstAt(Src(), w.current))
      ensures token == FirstAt(Src(), w.current) && w.current <= token.start && token.end == current <= |doc|
      ensures Sound(w, |doc|) && nodes == w.nodes && values == w.values ==> Valid()
      ensures (token.kind in {ArraySeparator, ObjectEnd, ArrayEnd} && Sound(w, |doc|)
               && nodes == w.nodes && values == w.values) ==>
                Sound(Now().(current := current - 1), |doc|) && token.end == token.start + 1
    {
      hide Ordered, Apart, Ascending, FirstAt;
    }

    lemma NullRead()
      requires Valid() && Top() < |values| && TreeOf(values, Top()) == JNull
      ensures Gives(Some(Found(JNull, current)), Now(), |doc|, Top(), Returned(true))
    {
    }

    /** The current value is the array of what was found. */
    ghost predicate HoldsArray(found: seq<Json>)
      reads this
    {
      Valid() && Top() < |values| && values[Top()].ArrayValue? && TreeOf(values, Top()) == JArray(found)
    }

    /** `read_array`, behind the bracket. */
    method ReadArray() returns (r: Outcome)
      requires Valid()
      modifies this
      ensures Done(old(Now()), Now(), |doc|, |old(values)|, r)
      ensures Gives(ArrayAt(Src(), old(current)), Now(), |doc|, old(Top()), r)
      ensures r.Thrown? <==> ThrowsInArray(Src(), old(current), old(stackDepth))
      decreases |doc| - current, 5
    {
      hide Ordered, Apart, TreeOf, Kept, Ascending, TokenAt, ElementsAt, SkipFrom, ThrowsInElements;
      ghost var w := Now();
      SetTop(ArrayValue([]));
      SkipSpaces();
      if Peek() == ']' {
        var _ := ReadToken();
        EmptyArrayToken(old(current));
        return Returned(true);
      }
      ghost var found: seq<Json> := [];
      var reading := true;
      while reading
        invariant Valid() && Done(w, Now(), |doc|, |w.values|, Returned(true)) && HoldsArray(found)
        invariant ArrayAt(Src(), w.current)
               == if reading then ElementsAt(Src(), current, found) else Some(Found(JArray(found), current))
        invariant ThrowsInArray(Src(), w.current, w.depth)
               == (reading && ThrowsInElements(Src(), current, w.depth))
        decreases |doc| - current, reading
      {
        ghost var w1 := Now();
        r, reading, found := ReadItem(found);
        DoneThen(w, w1, Now(), |doc|, |w.values|, |w1.values|, r);
        if r.Thrown? || !r.ok { return; }
      }
      r := Returned(true);
    }

    /** The bracket that closes an empty array is a token. */
    lemma EmptyArrayToken(p: nat)
      requires p <= |doc|
      ensures (var s := SkipFrom(doc, p);
        (if s < |doc| then doc[s] else beyond) == ']' ==> TokenAt(Src(), s).kind != Error)
    {
      SkipTwice(p);
    }

    lemma {:induction false} SkipTwice(p: nat)
      requires p <= |doc|
      ensures SkipFrom(doc, SkipFrom(doc, p)) == SkipFrom(doc, p)
      decreases |doc| - p
    {
      if p < |doc| && IsSpace(doc[p]) { SkipTwice(p + 1); }
    }

    /** One turn of the loop over the elements. */
    method ReadItem(ghost found: seq<Json>) returns (r: Outcome, more: bool, ghost found': seq<Json>)
      requires HoldsArray(found)
      modifies this
      ensures Done(old(Now()), Now(), |doc|, |old(values)|, r)
      ensures r.Returned? ==> (ElementsAt(Src(), old(current), found) ==
                if !r.ok then None else if more then ElementsAt(Src(), current, found')
                else Some(Found(JArray(found'), current)))
      ensures r.Returned? && r.ok ==> HoldsArray(found') && current > old(current)
      ensures ThrowsInElements(Src(), old(current), old(stackDepth)) ==
              (r.Thrown? || (r.ok && more && ThrowsInElements(Src(), current, old(stackDepth))))
      decreases |doc| - current, 4
    {
      hide Ordered, Apart, TreeOf, Kept, Ascending, TokenAt, PassedAt, ValueAt, ThrowsAt;
      ghost var w := Now();
      more, found' := false, found;
      ghost var j: Json;
      r, j := ReadElement(found);
      if r.Thrown? { return; }
      if !r.ok {
        r := Recover(w, ArrayEnd);
        return;
      }
      ghost var p := current;
      var token := ReadToken();
      token := PassComments(token, p);
      if token.kind != ArraySeparator && token.kind != ArrayEnd {
        r := Fail(w, token, ArrayEnd);
        return;
      }
      found' := found + [j];
      more := token.kind == ArraySeparator;
    }

    /** After an error inside: recovery keeps what was promised. */
    method Recover(ghost w: State, kind: Kind, ghost base: nat := |w.values|) returns (r: Outcome)
      requires Done(w, Now(), |doc|, base, Returned(false))
      modifies this`current, this`errors
      ensures r == Returned(false) && Done(w, Now(), |doc|, base, r)
    {
      hide Ordered, Apart, Kept, Ascending;
      var ok := RecoverFromError(kind);
      r := Returned(ok);
    }

    /** An error here. */
    method Fail(ghost w: State, token: Token, kind: Kind, ghost base: nat := |w.values|) returns (r: Outcome)
      requires Done(w, Now(), |doc|, base, Returned(true))
      modifies this`current, this`errors
      ensures r == Returned(false) && Done(w, Now(), |doc|, base, r)
    {
      hide Ordered, Apart, Kept, Ascending;
      var ok := AddErrorAndRecover(token, kind);
      r := Returned(ok);
    }

    /** The next element of the current array: made, pushed, read and popped. */
    method ReadElement(ghost found: seq<Json>) returns (r: Outcome, ghost j: Json)
      requires HoldsArray(found)
      modifies this
      ensures Done(old(Now()), Now(), |doc|, |old(values)|, r)
      ensures r.Returned? ==> ValueAt(Src(), old(current)) == if r.ok then Some(Found(j, current)) else None
      ensures r.Returned? && r.ok ==> HoldsArray(found + [j])
      ensures r.Thrown? <==> ThrowsAt(Src(), old(current), old(stackDepth))
      decreases |doc| - current, 2
    {
      hide Ordered, Apart, TreeOf, ValueAt, Ascending, ThrowsAt;
      j := JNull;
      ghost var v := values;
      ValidFacts();
      ElementMade(values, Top());
      var id := |values|;
      values := WithElement(values, Top());
      ghost var made := values;
      StillAscending(nodes, |v|, |values|);
      r := ReadInside(id);
      if r.Returned? && r.ok {
        ValidFacts();
        ArrayGrows(v, made, values, Top());
        j := TreeOf(values, id);
      }
    }

    lemma StillAscending(nodes: seq<nat>, m: nat, n: nat)
      requires Ascending(nodes, m) && m <= n
      ensures Ascending(nodes, n)
    {
    }

    /** A value in the current one: pushed, read and popped. Nothing else that was there has changed. */
    method ReadInside(id: nat) returns (r: Outcome)
      requires Valid() && Top() < id < |values|
      modifies this
      ensures Done(old(Now()), Now(), |doc|, old(Top()), r)
      ensures r.Returned? ==>
                |old(values)| <= |values|
                && forall k :: 0 <= k < |old(values)| && k != id ==> values[k] == old(values)[k]
      ensures Gives(ValueAt(Src(), old(current)), Now(), |doc|, id, r)
      ensures r.Thrown? <==> ThrowsAt(Src(), old(current), old(stackDepth))
      decreases |doc| - current, 1
    {
      hide Ordered, Apart, TreeOf, ValueAt, ThrowsAt;
      nodes := nodes + [id];
      r := ReadValue();
      if r.Returned? { nodes := nodes[..|nodes| - 1]; }
    }

    /** The current value is the object of what was found; its members were made from `base` on. */
    ghost predicate HoldsObject(found: map<string, Json>, base: nat)
      reads this
    {
      && Valid() && Top() < |values| && values[Top()].ObjectValue? && TreeOf(values, Top()) == JObject(found)
      && Top() < base <= |values|
      && forall name :: name in values[Top()].members ==> values[Top()].members[name] >= base
    }

    lemma ObjectFacts(found: map<string, Json>, base: nat)
      requires HoldsObject(found, base)
      ensures Valid() && Top() < |values| && values[Top()].ObjectValue? && values[Top()].members.Keys == found.Keys
    {
      ObjectTree(values, Top());
    }

    /** `current_value()[name]`, made if there is none, then pushed, read and popped. */
    method ReadMember(name: string, ghost found: map<string, Json>, ghost base: nat) returns (r: Outcome, ghost j: Json)
      requires HoldsObject(found, base)
      modifies this
      ensures Done(old(Now()), Now(), |doc|, base, r)
      ensures r.Returned? ==> ValueAt(Src(), old(current)) == if r.ok then Some(Found(j, current)) else None
      ensures r.Returned? && r.ok ==> HoldsObject(found[name := j], base)
      ensures r.Thrown? <==> ThrowsAt(Src(), old(current), old(stackDepth))
      decreases |doc| - current, 2
    {
      hide Ordered, Apart, TreeOf, ValueAt, Ascending, Done, ThrowsAt;
      j := JNull;
      ghost var v, w := values, Now();
      var id;
      id := Member(name, base);
      ghost var made := values;
      r := ReadInside(id);
      MemberDone(w, made, id, name, base, r);
      if r.Returned? && r.ok {
        ObjectGrows(v, made, values, Top(), name, id);
        j := TreeOf(values, id);
      }
    }

    /** The member of the current object, or a new null value. */
    method Member(name: string, ghost base: nat) returns (id: nat)
      requires Valid() && Top() < |values| && values[Top()].ObjectValue?
      requires Top() < base <= |values| && forall name :: name in values[Top()].members ==>
                 values[Top()].members[name] >= base
      modifies this`values
      ensures Valid() && |old(values)| <= |values| && Top() < |values| && base <= id < |values|
      ensures id == if name in old(values[Top()].members) then old(values[Top()].members[name]) else |old(values)|
      ensures values == if name in old(values[Top()].members) then old(values) else WithMember(old(values), Top(), name)
    {
      hide Ordered, Apart;
      ValidFacts();
      var members := values[Top()].members;
      if name in members {
        id := members[name];
        MemberInside(name);
      } else {
        MemberMade(values, Top(), name);
        id := |values|;
        values := WithMember(values, Top(), name);
        StillAscending(nodes, |old(values)|, |values|);
      }
    }

    lemma MemberInside(name: string)
      requires Valid() && Top() < |values| && values[Top()].ObjectValue? && name in values[Top()].members
      ensures Top() < values[Top()].members[name] < |values|
    {
      InsideAt(values, Top());
    }

    /** What was promised for the value inside is promised for the object around it. */
    lemma MemberDone(w: State, made: seq<Payload>, id: nat, name: string, base: nat, r: Outcome)
      requires Sound(w, |doc|) && Last(w) < |w.values| && w.values[Last(w)].ObjectValue? && Last(w) < base <= |w.values|
      requires made == if name in w.values[Last(w)].members then w.values else WithMember(w.values, Last(w), name)
      requires Last(w) < base <= id < |made| && Done(w.(values := made), Now(), |doc|, Last(w), r)
      requires id == if name in w.values[Last(w)].members then w.values[Last(w)].members[name] else |w.values|
      requires r.Returned? ==> |made| <= |values| && forall k :: 0 <= k < |made| && k != id ==> values[k] == made[k]
      requires forall m :: m in w.values[Last(w)].members ==> w.values[Last(w)].members[m] >= base
      ensures Done(w, Now(), |doc|, base, r)
      ensures r.Returned? ==>
                nodes == w.nodes && |made| <= |values| && IsStore(values) && values[Last(w)] == made[Last(w)]
      ensures r.Returned? ==> Top() < |values| && values[Top()].ObjectValue? && base <= |values|
      ensures r.Returned? ==> forall m :: m in values[Top()].members ==> values[Top()].members[m] >= base
    {
      hide Ordered, Apart;
    }

    /** `read_object`, behind the brace. */
    method ReadObject() returns (r: Outcome)
      requires Valid()
      modifies this
      ensures Done(old(Now()), Now(), |doc|, |old(values)|, r)
      ensures Gives(MembersAt(Src(), old(current), map[], ""), Now(), |doc|, old(Top()), r)
      ensures r.Thrown? <==> ThrowsInMembers(Src(), old(current), map[], "", old(stackDepth))
      decreases |doc| - current, 5
    {
      hide Ordered, Apart, TreeOf, Kept, Ascending, MembersAt, ThrowsInMembers;
      ghost var w := Now();
      SetTop(ObjectValue(map[]));
      ghost var found: map<string, Json> := map[];
      var name := "";
      var reading := true;
      while reading
        invariant Valid() && Done(w, Now(), |doc|, |w.values|, Returned(true)) && HoldsObject(found, |w.values|)
        invariant MembersAt(Src(), w.current, map[], "")
               == if reading then MembersAt(Src(), current, found, name) else Some(Found(JObject(found), current))
        invariant ThrowsInMembers(Src(), w.current, map[], "", w.depth)
               == (reading && ThrowsInMembers(Src(), current, found, name, w.depth))
        decreases |doc| - current, reading
      {
        ghost var w1 := Now();
        r, name, reading, found := ReadEntry(name, found, |w.values|);
        DoneThen(w, w1, Now(), |doc|, |w.values|, |w.values|, r);
        if r.Thrown? || !r.ok { return; }
      }
      r := Returned(true);
    }

    /** One turn of the loop over the members. */
    method ReadEntry(name0: string, ghost found: map<string, Json>, ghost base: nat)
      returns (r: Outcome, name: string, more: bool, ghost found': map<string, Json>)
      requires HoldsObject(found, base)
      modifies this
      ensures Done(old(Now()), Now(), |doc|, base, r)
      ensures r.Returned? ==> (MembersAt(Src(), old(current), found, name0) ==
                if !r.ok then None
                else if more then MembersAt(Src(), current, found', name) else Some(Found(JObject(found'), current)))
      ensures r.Returned? && r.ok ==> HoldsObject(found', base) && (more ==> current > old(current))
      ensures ThrowsInMembers(Src(), old(current), found, name0, old(stackDepth)) ==
              (r.Thrown? || (r.ok && more && ThrowsInMembers(Src(), current, found', name, old(stackDepth))))
      decreases |doc| - current, 4
    {
      hide Ordered, Apart, TreeOf, Kept, Ascending, TokenAt, PassedAt, EntryAt, KeyIn, ThrowsInPair;
      ghost var w := Now();
      SameDone(base);
      more, name, found' := true, name0, found;
      ghost var p := current;
      var tokenName := ReadToken();
      tokenName := PassComments(tokenName, p);
      if tokenName.kind == ObjectEnd && name == "" { return Returned(true), name, false, found; }
      var key, failed := ReadKey(w, tokenName, base);
      NoKeyNoEntry(tokenName, found);
      if key.None? {
        r := failed;
        return;
      }
      name := key.value;
      ghost var w1 := Now();
      ghost var j: Json;
      r, more, j := ReadPair(name, tokenName, found, base);
      DoneThen(w, w1, Now(), |doc|, base, base, r);
      found' := found[name := j];
    }

    lemma SameDone(base: nat)
      requires Valid() && base <= |values|
      ensures Done(Now(), Now(), |doc|, base, Returned(true))
    {
      hide Ordered, Apart;
    }

    lemma NoKeyNoEntry(t: Token, found: map<string, Json>)
      requires t.end <= |doc| && (t.kind != EndOfStream ==> t.start < t.end) && (t.kind == Str ==> t.end >= t.start + 2)
      ensures KeyIn(Src(), t).None? ==> EntryAt(Src(), t, found).None?
      ensures KeyIn(Src(), t).Some? ==> t.start < t.end
    {
      hide ValueAt, TokenAt, PassedAt;
    }

    /** The name of a member, or recovery from an error. */
    method ReadKey(ghost w: State, token: Token, ghost base: nat) returns (key: Option<string>, r: Outcome)
      requires Done(w, Now(), |doc|, base, Returned(true)) && token.end <= |doc|
      requires (token.kind != EndOfStream ==> token.start < token.end)
      requires (token.kind == Str ==> token.end >= token.start + 2)
      modifies this`current, this`errors
      ensures key == KeyIn(Src(), token)
      ensures Done(w, Now(), |doc|, base, if key.Some? then Returned(true) else r)
      ensures (key.None? ==> r == Returned(false))
      ensures key.Some? ==> current == old(current) && errors == old(errors)
    {
      hide Ordered, Apart, Kept, Ascending;
      r := Returned(false);
      if token.kind == Str {
        key := StringOf(token);
        if key.None? { r := Recover(w, ObjectEnd, base); }
      } else if token.kind == Number && features.allowNumericKeys {
        var n := NumberOf(token);
        if n.None? {
          r := Recover(w, ObjectEnd, base);
          return None, r;
        }
        key := Some(env.keyText(n.value));
      } else {
        r := Fail(w, token, ObjectEnd, base);
        key := None;
      }
    }

    /** What is behind the name of a member. */
    method ReadPair(name: string, tokenName: Token, ghost found: map<string, Json>, ghost base: nat)
      returns (r: Outcome, more: bool, ghost j: Json)
      requires HoldsObject(found, base)
      requires tokenName.start < tokenName.end == current && (tokenName.kind == Str ==> current >= tokenName.start + 2)
      requires KeyIn(Src(), tokenName) == Some(name)
      modifies this
      ensures Done(old(Now()), Now(), |doc|, base, r)
      ensures r.Returned? ==>
                EntryAt(Src(), tokenName, found) == if r.ok then Some(Entry(name, j, !more, current)) else None
      ensures r.Returned? && r.ok ==> HoldsObject(found[name := j], base) && current > old(current)
      ensures r.Thrown? <==> ThrowsInPair(Src(), tokenName, name, found, old(stackDepth))
      decreases |doc| - current, 3
    {
      hide Ordered, Apart, TreeOf, Kept, Ascending, TokenAt, PassedAt, ValueAt, KeyIn, ThrowsAt;
      ghost var w := Now();
      SameDone(base);
      ObjectFacts(found, base);
      more, j := false, JNull;
      var colon := ReadToken();
      if colon.kind != MemberSeparator {
        r := Fail(w, colon, ObjectEnd, base);
        return;
      }
      if |name| >= 0x4000_0000 { return Thrown, false, j; }
      if features.rejectDupKeys && name in values[Top()].members {
        r := Fail(w, tokenName, ObjectEnd, base);
        return;
      }
      ghost var w1 := Now();
      r, j := ReadMember(name, found, base);
      DoneThen(w, w1, Now(), |doc|, base, base, r);
      if r.Thrown? { return; }
      if !r.ok {
        r := Recover(w, ObjectEnd, base);
        return;
      }
      r, more := ReadComma(w, base);
    }

    /** What is between members: a comma, the closing brace, or a comment and any token. */
    method ReadComma(ghost w: State, ghost base: nat) returns (r: Outcome, more: bool)
      requires Done(w, Now(), |doc|, base, Returned(true))
      modifies this`current, this`errors
      ensures Done(w, Now(), |doc|, base, r) && r.Returned?
      ensures (var comma := TokenAt(Src(), old(current));
        var u := if comma.kind == Comment then PassedAt(Src(), comma.end) else comma;
        && (r.ok <==> comma.kind in {ObjectEnd, ArraySeparator, Comment})
        && (r.ok ==> errors == old(errors) && more == (u.kind != ObjectEnd) && current >= old(current)
                     && current == u.end))
    {
      hide Ordered, Apart, Kept, Ascending, TokenAt;
      more := false;
      ghost var p := current;
      var comma := ReadToken();
      if comma.kind != ObjectEnd && comma.kind != ArraySeparator && comma.kind != Comment {
        r := Fail(w, comma, ObjectEnd, base);
        return;
      }
      comma := PassComments(comma, p);
      r, more := Returned(true), comma.kind != ObjectEnd;
    }

    /** `parse`: the document's value, or errors exactly where it has none. */
    method Parse() returns (r: Outcome)
      modifies this
      ensures current <= |doc|
      ensures r.Returned? ==> Valid() && nodes == [0] && 0 < |values|
      ensures r.Returned? ==> Document(Src()) == if errors == [] then Some(TreeOf(values, 0)) else None
      ensures r.Returned? ==> (r.ok <==> errors == [])
      ensures r.Returned? && errors == [] ==> RootIs(Document(Src()).value)
      ensures r.Thrown? <==> ThrowsAt(Src(), 0, 0)
    {
      hide ValueAt, FirstAt, TreeOf, ThrowsAt;
      current, errors, nodes, values, stackDepth := 0, [], [0], [NullValue], 0;
      r := ReadValue();
      if r.Thrown? { return; }
      var token := SkipCommentTokens();
      RootKind();
      if features.failIfExtra && token.kind != Error && token.kind != EndOfStream {
        var ok := AddError(token);
        return Returned(ok);
      }
      if features.strictRoot && !values[0].ArrayValue? && !values[0].ObjectValue? {
        var ok := AddError(Token(Error, 0, |doc|));
        return Returned(ok);
      }
    }

    /** What the value at the bottom of the stack is. */
    ghost predicate RootIs(j: Json)
      reads this
    {
      && 0 < |values|
      && match j
         case JNull => values[0].NullValue?
         case JBool(b) => values[0] == BoolValue(b)
         case JNumber(number) => values[0] == NumberValue(number)
         case JString(text) => values[0] == StringValue(text)
         case JArray(elements) => values[0].ArrayValue? && |values[0].elements| == |elements|
         case JObject(members) => values[0].ObjectValue? && values[0].members.Keys == members.Keys
    }

    lemma RootKind()
      requires Valid() && 0 < |values|
      ensures RootIs(TreeOf(values, 0))
      ensures TreeOf(values, 0).JArray? <==> values[0].ArrayValue?
      ensures TreeOf(values, 0).JObject? <==> values[0].ObjectValue?
    {
    }
  }
}
