/** What the body of a macro with arguments is made of, and what its parts come to. */
module MacroParts {
  import opened Wrappers

  datatype Kind = Identifier | StringLiteral | Other

  datatype Token = Token(kind: Kind, text: string)

  /** Identifiers look like identifiers. */
  predicate Lexical(body: seq<Token>) {
    forall k :: 0 <= k < |body| && body[k].kind.Identifier? ==> body[k].text !in ["#", "##", ","]
  }

  /** Position of the first occurrence. */
  function IndexOf(names: seq<string>, name: string): (r: nat)
    requires name in names
    ensures r < |names| && names[r] == name && name !in names[..r]
  {
    if names[0] == name then 0 else
      var r := IndexOf(names[1..], name);
      assert names[..r + 1] == [names[0]] + names[1..][..r];
      r + 1
  }

  predicate IsParameter(arglist: seq<string>, t: Token) { t.kind.Identifier? && t.text in arglist }

  // ----- What a body is made of -----

  /**
   A token that stays, a parameter to be quoted, pasted or expanded, or a comma that an empty variadic argument removes.
   */
  datatype Part =
    | Keep(token: Token)
    | Quoted(token: Token, arg: nat)
    | Pasted(token: Token, arg: nat)
    | Expanded(token: Token, arg: nat)
    | Comma(token: Token)

  /** The parts `done` and the first token of `rest`: an operator before a parameter disappears. */
  function With(arglist: seq<string>, variadic: bool, done: seq<Part>, rest: seq<Token>): seq<Part>
    requires rest != [] && (variadic ==> arglist != [])
  {
    var t := rest[0];
    var last := if done == [] then "" else done[|done| - 1].token.text;
    var next := if |rest| > 1 then rest[1].text else "";
    if IsParameter(arglist, t) then
      var arg := IndexOf(arglist, t.text);
      if last == "#" then Front(done) + [Quoted(t.(kind := StringLiteral), arg)]
      else if last == "##" then Front(done) + [Pasted(t, arg)]
      else if next == "##" then done + [Pasted(t, arg)]
      else done + [Expanded(t, arg)]
    else if t.text == "##" && variadic && last == "," && |rest| > 1 && rest[1].kind.Identifier?
            && next == arglist[|arglist| - 1] then
      Front(done) + [Comma(done[|done| - 1].token)] + [Keep(t)]
    else
      done + [Keep(t)]
  }

  /** The parts of a body, after the parts `done`. */
  function PartsFrom(arglist: seq<string>, variadic: bool, done: seq<Part>, rest: seq<Token>): seq<Part>
    requires variadic ==> arglist != []
    decreases |rest|
  {
    if rest == [] then done else PartsFrom(arglist, variadic, With(arglist, variadic, done, rest), rest[1..])
  }

  function Front<T>(s: seq<T>): seq<T> { if s == [] then [] else s[..|s| - 1] }

  function Parts(arglist: seq<string>, variadic: bool, body: seq<Token>): seq<Part>
    requires variadic ==> arglist != []
  {
    PartsFrom(arglist, variadic, [], body)
  }

  // ----- Substitution -----

  /** The text of an argument as a string literal; backslashes are doubled, quotes are not escaped. */
  function Quote(ts: seq<Token>): string { Doubled("\"" + Joined(ts) + "\"") }

  function Joined(ts: seq<Token>): string {
    if ts == [] then "" else ts[0].text + Joined(ts[1..])
  }

  function Doubled(s: string): string {
    if s == "" then "" else (if s[0] == '\\' then "\\\\" else [s[0]]) + Doubled(s[1..])
  }

  /** Arguments for all parameters. */
  predicate Fits(parts: seq<Part>, args: seq<seq<Token>>) {
    forall k :: 0 <= k < |parts| ==>
      (parts[k].Quoted? || parts[k].Pasted? || parts[k].Expanded?) ==> parts[k].arg < |args|
  }

  /** What a part stands for. */
  function Piece(part: Part, args: seq<seq<Token>>, expand: seq<Token> -> seq<Token>, drop: bool): seq<Token>
    requires Fits([part], args)
  {
    assert part == [part][0];
    match part
    case Keep(t) => [t]
    case Quoted(t, arg) => [t.(text := Quote(args[arg]))]
    case Pasted(_, arg) => args[arg]
    case Expanded(_, arg) => expand(args[arg])
    case Comma(t) => if drop then [] else [t]
  }

  /** Simultaneous substitution: every part is replaced by what it stands for. */
  function Substituted(parts: seq<Part>, args: seq<seq<Token>>, expand: seq<Token> -> seq<Token>,
                       drop: bool): seq<Token>
    requires Fits(parts, args)
  {
    if parts == [] then []
    else
      assert Fits([parts[0]], args) && Fits(parts[1..], args) by { FitsParts(parts, args); }
      Piece(parts[0], args, expand, drop) + Substituted(parts[1..], args, expand, drop)
  }

  lemma FitsParts(parts: seq<Part>, args: seq<seq<Token>>)
    requires Fits(parts, args) && parts != []
    ensures Fits([parts[0]], args) && Fits(parts[1..], args)
  {
  }

  /** Is parameter `arg` expanded in `parts`? */
  predicate ExpandedIn(parts: seq<Part>, arg: nat) {
    exists k :: 0 <= k < |parts| && parts[k].Expanded? && parts[k].arg == arg
  }

  /** Some parameter is pasted, and expanded further on. */
  ghost predicate PastedBeforeExpanded(parts: seq<Part>) {
    exists k :: 0 <= k < |parts| && parts[k].Pasted? && ExpandedIn(parts[k + 1..], parts[k].arg)
  }

  /**
   What the patches make of the parts: expansion changes the argument itself, so where a parameter is pasted before a
   place where it is expanded, the expanded argument is pasted.
   */
  function Patched(parts: seq<Part>, args: seq<seq<Token>>, expand: seq<Token> -> seq<Token>, drop: bool): seq<Token>
    requires Fits(parts, args)
  {
    if parts == [] then []
    else
      assert Fits([parts[0]], args) && Fits(parts[1..], args) by { FitsParts(parts, args); }
      var part := parts[0];
      var piece := if part.Pasted? && ExpandedIn(parts[1..], part.arg) then expand(args[part.arg])
                   else Piece(part, args, expand, drop);
      piece + Patched(parts[1..], args, expand, drop)
  }

  lemma PastedLater(parts: seq<Part>)
    requires parts != [] && PastedBeforeExpanded(parts[1..])
    ensures PastedBeforeExpanded(parts)
  {
    var k :| 0 <= k < |parts[1..]| && parts[1..][k].Pasted? && ExpandedIn(parts[1..][k + 1..], parts[1..][k].arg);
    assert parts[1..][k + 1..] == parts[k + 1 + 1..] && parts[k + 1].Pasted?;
  }

  lemma {:induction false} PatchedIsSubstituted(parts: seq<Part>, args: seq<seq<Token>>,
                                                expand: seq<Token> -> seq<Token>, drop: bool)
    requires Fits(parts, args) && !PastedBeforeExpanded(parts)
    ensures Patched(parts, args, expand, drop) == Substituted(parts, args, expand, drop)
  {
    if parts != [] {
      FitsParts(parts, args);
      assert parts[0].Pasted? ==> !ExpandedIn(parts[0 + 1..], parts[0].arg);
      if PastedBeforeExpanded(parts[1..]) { PastedLater(parts); }
      PatchedIsSubstituted(parts[1..], args, expand, drop);
    }
  }

  /** Expansion of one argument, the others being empty: how the lengths differ. */
  lemma {:induction false} PatchedLength(parts: seq<Part>, args: seq<seq<Token>>, expand: seq<Token> -> seq<Token>,
                                         n: nat)
    requires Fits(parts, args) && n < |args|
    requires forall m :: 0 <= m < |args| && m != n ==> |expand(args[m])| == |args[m]|
    ensures (var d, e := |Patched(parts, args, expand, false)|, |Substituted(parts, args, expand, false)|;
      && (|expand(args[n])| >= |args[n]| ==> d >= e)
      && (|expand(args[n])| <= |args[n]| ==> d <= e)
      && (|expand(args[n])| != |args[n]| && PastedBeforeOf(parts, n) ==> d != e))
  {
    if parts != [] {
      FitsParts(parts, args);
      PatchedLength(parts[1..], args, expand, n);
      if PastedBeforeOf(parts, n) && !(parts[0].Pasted? && parts[0].arg == n && ExpandedIn(parts[1..], n)) {
        PastedBeforeLater(parts, n);
      }
    }
  }

  /** Parameter `n` is pasted, and expanded further on. */
  ghost predicate PastedBeforeOf(parts: seq<Part>, n: nat) {
    exists k :: 0 <= k < |parts| && parts[k].Pasted? && parts[k].arg == n && ExpandedIn(parts[k + 1..], n)
  }

  lemma PastedBeforeLater(parts: seq<Part>, n: nat)
    requires PastedBeforeOf(parts, n) && !(parts[0].Pasted? && parts[0].arg == n && ExpandedIn(parts[1..], n))
    ensures PastedBeforeOf(parts[1..], n)
  {
    var k :| 0 <= k < |parts| && parts[k].Pasted? && parts[k].arg == n && ExpandedIn(parts[k + 1..], n);
    assert parts[0 + 1..] == parts[1..];
    assert k > 0 && parts[1..][k - 1] == parts[k] && parts[1..][k - 1 + 1..] == parts[k + 1..];
  }

  /**
   The patches make the simultaneous substitution, for all arguments, exactly when no parameter is pasted before a place
   where it is expanded. (The empty list expands to itself, and some list changes its length when it is expanded.)
   */
  lemma PatchingExact(parts: seq<Part>, count: nat, expand: seq<Token> -> seq<Token>, some: seq<Token>)
    requires forall args :: |args| == count ==> Fits(parts, args)
    requires expand([]) == [] && |expand(some)| != |some|
    ensures (forall args, drop :: |args| == count ==>
              Patched(parts, args, expand, drop) == Substituted(parts, args, expand, drop))
            <==> !PastedBeforeExpanded(parts)
  {
    if !PastedBeforeExpanded(parts) {
      forall args, drop | |args| == count
        ensures Patched(parts, args, expand, drop) == Substituted(parts, args, expand, drop)
      {
        PatchedIsSubstituted(parts, args, expand, drop);
      }
    } else {
      var k :| 0 <= k < |parts| && parts[k].Pasted? && ExpandedIn(parts[k + 1..], parts[k].arg);
      var n := parts[k].arg;
      var none: seq<seq<Token>> := seq(count, _ => []);
      assert Fits(parts, none) && n < count;
      var args := none[n := some];
      assert PastedBeforeOf(parts, n);
      PatchedLength(parts, args, expand, n);
      assert Patched(parts, args, expand, false) != Substituted(parts, args, expand, false);
    }
  }

  /** The parameter `x`, the names `a` and `y`, and two operators. */
  const NAME_X := Token(Identifier, "x")
  const NAME_A := Token(Identifier, "a")
  const NAME_Y := Token(Identifier, "y")
  const PASTE := Token(Other, "##")
  const PLUS := Token(Other, "+")

  /** The expansion of `y`, when it is defined as `y+y`. */
  function DoubleY(ts: seq<Token>): seq<Token> { if ts == [NAME_Y] then [NAME_Y, PLUS, NAME_Y] else ts }

  /**
   For example, the body `x##a+x` with the argument `y`: what is pasted to `a` is not `y`, but the expansion of `y`.
   */
  lemma PastedThenExpanded()
    ensures (var parts := Parts(["x"], false, [NAME_X, PASTE, NAME_A, PLUS, NAME_X]);
      && Fits(parts, [[NAME_Y]]) && PastedBeforeExpanded(parts)
      && Substituted(parts, [[NAME_Y]], DoubleY, false) == [NAME_Y, PASTE, NAME_A, PLUS, NAME_Y, PLUS, NAME_Y]
      && Patched(parts, [[NAME_Y]], DoubleY, false)
         == [NAME_Y, PLUS, NAME_Y, PASTE, NAME_A, PLUS, NAME_Y, PLUS, NAME_Y])
  {
    hide Substituted, Patched, Fits, Parts;
    var p0, p1, p2, p3, p4 := Pasted(NAME_X, 0), Keep(PASTE), Keep(NAME_A), Keep(PLUS), Expanded(NAME_X, 0);
    PartsOfBody(p0, p1, p2, p3, p4);
    var args := [[NAME_Y]];
    BehindPaste(p1, p2, p3, p4, args);
    assert [p0] + [p1, p2, p3, p4] == [p0, p1, p2, p3, p4];
    assert Fits([p0], args) by { OnePart(p0, args); }
    PieceFirst(p0, [p1, p2, p3, p4], args, DoubleY);
    assert [p1, p2, p3, p4][3] == p4 && ExpandedIn([p1, p2, p3, p4], 0);
    var parts := [p0, p1, p2, p3, p4];
    assert parts[0 + 1..] == [p1, p2, p3, p4] && parts[0].Pasted?;
  }

  lemma BehindPaste(p1: Part, p2: Part, p3: Part, p4: Part, args: seq<seq<Token>>)
    requires p1 == Keep(PASTE) && p2 == Keep(NAME_A) && p3 == Keep(PLUS) && p4 == Expanded(NAME_X, 0)
    requires args == [[NAME_Y]]
    ensures Fits([p1, p2, p3, p4], args)
    ensures Substituted([p1, p2, p3, p4], args, DoubleY, false) == [PASTE, NAME_A, PLUS, NAME_Y, PLUS, NAME_Y]
    ensures Patched([p1, p2, p3, p4], args, DoubleY, false) == [PASTE, NAME_A, PLUS, NAME_Y, PLUS, NAME_Y]
  {
    hide Substituted, Patched, Fits;
    assert [p4] + [] == [p4] && [p3] + [p4] == [p3, p4] && [p2] + [p3, p4] == [p2, p3, p4];
    assert [p1] + [p2, p3, p4] == [p1, p2, p3, p4];
    OnePart(p1, args);
    OnePart(p2, args);
    OnePart(p3, args);
    OnePart(p4, args);
    NoParts(args);
    PieceFirst(p4, [], args, DoubleY);
    PieceFirst(p3, [p4], args, DoubleY);
    PieceFirst(p2, [p3, p4], args, DoubleY);
    PieceFirst(p1, [p2, p3, p4], args, DoubleY);
  }

  lemma OnePart(p: Part, args: seq<seq<Token>>)
    requires p.Keep? || ((p.Pasted? || p.Expanded?) && p.arg < |args|)
    ensures Fits([p], args)
  {
  }

  lemma NoParts(args: seq<seq<Token>>)
    ensures Fits([], args) && Substituted([], args, DoubleY, false) == [] && Patched([], args, DoubleY, false) == []
  {
  }

  lemma PieceFirst(p: Part, rest: seq<Part>, args: seq<seq<Token>>, expand: seq<Token> -> seq<Token>)
    requires Fits([p], args) && Fits(rest, args)
    ensures Fits([p] + rest, args)
    ensures Substituted([p] + rest, args, expand, false)
         == Piece(p, args, expand, false) + Substituted(rest, args, expand, false)
    ensures Patched([p] + rest, args, expand, false)
         == (if p.Pasted? && ExpandedIn(rest, p.arg) then expand(args[p.arg]) else Piece(p, args, expand, false))
            + Patched(rest, args, expand, false)
  {
    assert ([p] + rest)[1..] == rest && p == [p][0];
  }

  lemma PartsOfBody(p0: Part, p1: Part, p2: Part, p3: Part, p4: Part)
    requires p0 == Pasted(NAME_X, 0) && p1 == Keep(PASTE) && p2 == Keep(NAME_A) && p3 == Keep(PLUS)
    requires p4 == Expanded(NAME_X, 0)
    ensures Parts(["x"], false, [NAME_X, PASTE, NAME_A, PLUS, NAME_X]) == [p0, p1, p2, p3, p4]
  {
    hide With, PartsFrom;
    PartsDone([p0, p1, p2, p3, p4]);
    PartNext([], NAME_X, [PASTE, NAME_A, PLUS, NAME_X], p0);
    PartNext([p0], PASTE, [NAME_A, PLUS, NAME_X], p1);
    PartNext([p0, p1], NAME_A, [PLUS, NAME_X], p2);
    PartNext([p0, p1, p2], PLUS, [NAME_X], p3);
    PartNext([p0, p1, p2, p3], NAME_X, [], p4);
    assert [NAME_X] + [PASTE, NAME_A, PLUS, NAME_X] == [NAME_X, PASTE, NAME_A, PLUS, NAME_X];
    assert [PASTE] + [NAME_A, PLUS, NAME_X] == [PASTE, NAME_A, PLUS, NAME_X];
    assert [NAME_A] + [PLUS, NAME_X] == [NAME_A, PLUS, NAME_X] && [PLUS] + [NAME_X] == [PLUS, NAME_X];
    assert [NAME_X] + [] == [NAME_X] && [] + [p0] == [p0] && [p0] + [p1] == [p0, p1];
    assert [p0, p1] + [p2] == [p0, p1, p2] && [p0, p1, p2] + [p3] == [p0, p1, p2, p3];
    assert [p0, p1, p2, p3] + [p4] == [p0, p1, p2, p3, p4];
  }

  lemma PartsDone(parts: seq<Part>)
    ensures PartsFrom(["x"], false, parts, []) == parts
  {
  }

  /** The next part of a body in which `x` is the parameter, if no operator stands before it. */
  lemma PartNext(done: seq<Part>, t: Token, rest: seq<Token>, p: Part)
    requires t == NAME_X && done != [] ==>
               done[|done| - 1].token.text != "#" && done[|done| - 1].token.text != "##"
    requires p == if t != NAME_X then Keep(t)
                  else if rest != [] && rest[0] == PASTE then Pasted(t, 0) else Expanded(t, 0)
    requires t == NAME_X || t.text != "x"
    requires forall k :: 0 <= k < |rest| && rest[k].text == "##" ==> rest[k] == PASTE
    ensures PartsFrom(["x"], false, done, [t] + rest) == PartsFrom(["x"], false, done + [p], rest)
  {
    assert ([t] + rest)[1..] == rest && (rest != [] ==> ([t] + rest)[1] == rest[0]);
    assert With(["x"], false, done, [t] + rest) == done + [p];
  }

  // ----- What the parts come to, by positions -----

  /** The tokens of every position, one list after the other. */
  function Flat(pieces: seq<seq<Token>>): seq<Token> {
    if pieces == [] then [] else pieces[0] + Flat(pieces[1..])
  }

  predicate TextAt(body: seq<Token>, k: int, text: string) { 0 <= k < |body| && body[k].text == text }

  /** The token at `k` names parameter `n`, which is the first of that name. */
  ghost predicate Names(arglist: seq<string>, body: seq<Token>, k: int, n: nat) {
    && 0 <= k < |body| && body[k].kind.Identifier? && n < |arglist| && body[k].text == arglist[n]
    && forall m :: 0 <= m < n ==> arglist[m] != body[k].text
  }

  ghost predicate IsName(arglist: seq<string>, body: seq<Token>, k: int) { exists n: nat :: Names(arglist, body, k, n) }

  /** Parameter `n` stands behind position `k`, away from every operator. */
  ghost predicate FreeBehind(arglist: seq<string>, body: seq<Token>, k: int, n: nat) {
    exists m :: k < m && FreeAt(arglist, body, m, n)
  }

  ghost predicate FreeAt(arglist: seq<string>, body: seq<Token>, m: int, n: nat) {
    Names(arglist, body, m, n) && !TextAt(body, m - 1, "#") && !TextAt(body, m - 1, "##") && !TextAt(body, m + 1, "##")
  }

  /** Every backslash comes twice; the string with each pair read as one. */
  function ReadPairs(s: string): Option<string> {
    if s == "" then Some("")
    else if s[0] == '\\' then
      if |s| == 1 || s[1] != '\\' then None
      else match ReadPairs(s[2..]) case None => None case Some(u) => Some(['\\'] + u)
    else match ReadPairs(s[1..]) case None => None case Some(u) => Some([s[0]] + u)
  }

  /** `u` is the texts of the tokens, one after the other. */
  predicate IsTexts(u: string, ts: seq<Token>) {
    if ts == [] then u == "" else ts[0].text <= u && IsTexts(u[|ts[0].text|..], ts[1..])
  }

  /** A double quote, the texts of the tokens one after the other with every backslash doubled, and a double quote. */
  ghost predicate IsQuotation(text: string, ts: seq<Token>) {
    && |text| >= 2 && text[0] == '"' && text[|text| - 1] == '"'
    && exists u :: ReadPairs(text[1..|text| - 1]) == Some(u) && IsTexts(u, ts)
  }

  /** What the token at position `k` of a body becomes. */
  ghost predicate Becomes(arglist: seq<string>, variadic: bool, body: seq<Token>, args: seq<seq<Token>>,
                          expand: seq<Token> -> seq<Token>, k: nat, piece: seq<Token>)
  {
    && k < |body|
    && (forall n: nat :: Names(arglist, body, k, n) ==>
          && n < |args|
          && if TextAt(body, k - 1, "#") then
               |piece| == 1 && piece[0].kind.StringLiteral? && IsQuotation(piece[0].text, args[n])
             else if TextAt(body, k - 1, "##") || TextAt(body, k + 1, "##") then
               piece == if FreeBehind(arglist, body, k, n) then expand(args[n]) else args[n]
             else
               piece == expand(args[n]))
    && (!IsName(arglist, body, k) ==>
          if (body[k].text == "#" || body[k].text == "##") && IsName(arglist, body, k + 1) then
            piece == []
          else if variadic && args != [] && args[|args| - 1] == [] && body[k].text == "," && TextAt(body, k + 1, "##")
                  && k + 2 < |body| && body[k + 2].kind.Identifier? && arglist != []
                  && body[k + 2].text == arglist[|arglist| - 1] then
            piece == []
          else
            piece == [body[k]])
  }

  /** The tokens of the body, each replaced by what it becomes. */
  ghost predicate Expands(arglist: seq<string>, variadic: bool, body: seq<Token>, args: seq<seq<Token>>,
                          expand: seq<Token> -> seq<Token>, result: seq<Token>)
  {
    exists pieces :: |pieces| == |body| && result == Flat(pieces)
      && forall k :: 0 <= k < |body| ==> Becomes(arglist, variadic, body, args, expand, k, pieces[k])
  }

  // ----- The text of a quotation -----

  lemma {:induction false} DoubledConcat(s: string, t: string)
    ensures Doubled(s + t) == Doubled(s) + Doubled(t)
  {
    if s == "" {
      assert s + t == t;
    } else {
      assert (s + t)[1..] == s[1..] + t;
      DoubledConcat(s[1..], t);
    }
  }

  lemma {:induction false} PairsRead(s: string)
    ensures ReadPairs(Doubled(s)) == Some(s)
  {
    if s != "" {
      PairsRead(s[1..]);
      assert [s[0]] + s[1..] == s;
      if s[0] == '\\' {
        assert Doubled(s)[2..] == Doubled(s[1..]);
      } else {
        assert Doubled(s)[1..] == Doubled(s[1..]);
      }
    }
  }

  lemma {:induction false} JoinedTexts(ts: seq<Token>)
    ensures IsTexts(Joined(ts), ts)
  {
    if ts != [] {
      JoinedTexts(ts[1..]);
      assert Joined(ts)[|ts[0].text|..] == Joined(ts[1..]);
    }
  }

  lemma QuoteIsQuotation(ts: seq<Token>)
    ensures IsQuotation(Quote(ts), ts)
  {
    var u := Joined(ts);
    DoubledConcat("\"" + u, "\"");
    DoubledConcat("\"", u);
    assert Doubled("\"") == "\"";
    assert Quote(ts) == "\"" + Doubled(u) + "\"";
    assert Quote(ts)[1..|Quote(ts)| - 1] == Doubled(u);
    PairsRead(u);
    JoinedTexts(ts);
  }

  // ----- The parts, by positions -----

  /** The part of token `k`, before the next token is seen. */
  function RawPart(arglist: seq<string>, body: seq<Token>, k: nat): Part
    requires k < |body|
  {
    var t := body[k];
    if IsParameter(arglist, t) then
      var arg := IndexOf(arglist, t.text);
      if TextAt(body, k - 1, "#") then Quoted(t.(kind := StringLiteral), arg)
      else if TextAt(body, k - 1, "##") || TextAt(body, k + 1, "##") then Pasted(t, arg)
      else Expanded(t, arg)
    else Keep(t)
  }

  /** Does the next token remove this operator? */
  predicate Removed(arglist: seq<string>, body: seq<Token>, k: nat)
    requires k < |body|
  {
    (body[k].text == "#" || body[k].text == "##") && k + 1 < |body| && IsParameter(arglist, body[k + 1])
  }

  predicate CommaAt(arglist: seq<string>, variadic: bool, body: seq<Token>, k: nat)
    requires k < |body|
  {
    && variadic && arglist != [] && body[k].text == "," && k + 2 < |body| && body[k + 1].text == "##"
    && !IsParameter(arglist, body[k + 1]) && body[k + 2].kind.Identifier?
    && body[k + 2].text == arglist[|arglist| - 1]
  }

  function FinalPart(arglist: seq<string>, variadic: bool, body: seq<Token>, k: nat): seq<Part>
    requires k < |body|
  {
    if Removed(arglist, body, k) then []
    else if CommaAt(arglist, variadic, body, k) then [Comma(body[k])]
    else [RawPart(arglist, body, k)]
  }

  function FinalTo(arglist: seq<string>, variadic: bool, body: seq<Token>, k: nat): seq<Part>
    requires k <= |body|
  {
    if k == 0 then [] else FinalTo(arglist, variadic, body, k - 1) + FinalPart(arglist, variadic, body, k - 1)
  }

  function FinalFrom(arglist: seq<string>, variadic: bool, body: seq<Token>, k: nat): seq<Part>
    requires k <= |body|
    decreases |body| - k
  {
    if k == |body| then [] else FinalPart(arglist, variadic, body, k) + FinalFrom(arglist, variadic, body, k + 1)
  }

  /** The parts when `j` tokens have been seen. */
  function Seen(arglist: seq<string>, variadic: bool, body: seq<Token>, j: nat): seq<Part>
    requires j <= |body|
  {
    if j == 0 then [] else FinalTo(arglist, variadic, body, j - 1) + [RawPart(arglist, body, j - 1)]
  }

  lemma SeenNext(arglist: seq<string>, variadic: bool, body: seq<Token>, j: nat)
    requires j < |body| && Lexical(body) && (variadic ==> arglist != [])
    ensures With(arglist, variadic, Seen(arglist, variadic, body, j), body[j..])
         == Seen(arglist, variadic, body, j + 1)
  {
    hide IndexOf, FinalTo;
    var done := Seen(arglist, variadic, body, j);
    assert |body[j..]| > 1 ==> body[j..][1] == body[j + 1];
    if j > 0 {
      FinalNext(arglist, variadic, body, j - 1);
      assert done[|done| - 1] == RawPart(arglist, body, j - 1);
      assert Front(done) == FinalTo(arglist, variadic, body, j - 1);
    } else {
      FinalNone(arglist, variadic, body);
    }
  }

  lemma FinalNone(arglist: seq<string>, variadic: bool, body: seq<Token>)
    ensures FinalTo(arglist, variadic, body, 0) == []
  {
  }

  lemma FinalNext(arglist: seq<string>, variadic: bool, body: seq<Token>, k: nat)
    requires k < |body|
    ensures FinalTo(arglist, variadic, body, k + 1)
         == FinalTo(arglist, variadic, body, k) + FinalPart(arglist, variadic, body, k)
  {
  }

  lemma {:induction false} PartsSeen(arglist: seq<string>, variadic: bool, body: seq<Token>, j: nat)
    requires j <= |body| && Lexical(body) && (variadic ==> arglist != [])
    ensures PartsFrom(arglist, variadic, Seen(arglist, variadic, body, j), body[j..])
         == Seen(arglist, variadic, body, |body|)
    decreases |body| - j
  {
    hide With, Seen;
    if j < |body| {
      SeenNext(arglist, variadic, body, j);
      assert body[j..][1..] == body[j + 1..];
      PartsSeen(arglist, variadic, body, j + 1);
    }
  }

  lemma {:induction false} FinalSplit(arglist: seq<string>, variadic: bool, body: seq<Token>, k: nat)
    requires k <= |body|
    ensures FinalTo(arglist, variadic, body, k) + FinalFrom(arglist, variadic, body, k)
         == FinalFrom(arglist, variadic, body, 0)
  {
    hide FinalPart;
    if k > 0 {
      FinalSplit(arglist, variadic, body, k - 1);
    }
  }

  lemma PartsAreFinal(arglist: seq<string>, variadic: bool, body: seq<Token>)
    requires Lexical(body) && (variadic ==> arglist != [])
    ensures Parts(arglist, variadic, body) == FinalFrom(arglist, variadic, body, 0)
  {
    hide PartsFrom, FinalFrom;
    PartsSeen(arglist, variadic, body, 0);
    assert body[0..] == body;
    FinalSplit(arglist, variadic, body, |body|);
    FinalEnd(arglist, variadic, body);
    if body != [] { FinalNext(arglist, variadic, body, |body| - 1); }
  }

  lemma FinalEnd(arglist: seq<string>, variadic: bool, body: seq<Token>)
    ensures FinalFrom(arglist, variadic, body, |body|) == []
  {
  }

  /** What is expanded further on. */
  lemma {:induction false} FreeIsExpanded(arglist: seq<string>, variadic: bool, body: seq<Token>, k: nat, n: nat)
    requires k <= |body| && Lexical(body)
    ensures ExpandedIn(FinalFrom(arglist, variadic, body, k), n) <==> FreeBehind(arglist, body, k - 1, n)
    decreases |body| - k
  {
    hide IndexOf, FreeAt, FinalPart, ExpandedIn;
    if k == |body| {
      NothingExpanded(n);
      forall m | k - 1 < m ensures !FreeAt(arglist, body, m, n) { NotFree(arglist, body, m, n); }
    } else {
      FreeIsExpanded(arglist, variadic, body, k + 1, n);
      var part, tail := FinalPart(arglist, variadic, body, k), FinalFrom(arglist, variadic, body, k + 1);
      ExpandedEither(part, tail, n);
      FinalFree(arglist, variadic, body, k, n);
      if FreeBehind(arglist, body, k - 1, n) && !FreeAt(arglist, body, k, n) {
        var m :| k - 1 < m && FreeAt(arglist, body, m, n);
        assert k < m;
      }
    }
  }

  lemma NothingExpanded(n: nat)
    ensures !ExpandedIn([], n)
  {
  }

  lemma NotFree(arglist: seq<string>, body: seq<Token>, m: int, n: nat)
    requires m >= |body|
    ensures !FreeAt(arglist, body, m, n)
  {
  }

  lemma ExpandedEither(u: seq<Part>, v: seq<Part>, n: nat)
    ensures ExpandedIn(u + v, n) <==> ExpandedIn(u, n) || ExpandedIn(v, n)
  {
    if k :| 0 <= k < |u + v| && (u + v)[k].Expanded? && (u + v)[k].arg == n {
      if k < |u| { assert u[k] == (u + v)[k]; } else { assert v[k - |u|] == (u + v)[k]; }
    }
    if k :| 0 <= k < |u| && u[k].Expanded? && u[k].arg == n {
      assert (u + v)[k] == u[k];
    }
    if k :| 0 <= k < |v| && v[k].Expanded? && v[k].arg == n {
      assert (u + v)[|u| + k] == v[k];
    }
  }

  /** The number that the source looks up is that of the first parameter of the name. */
  lemma NamesParameter(arglist: seq<string>, body: seq<Token>, k: nat)
    requires k < |body|
    ensures IsParameter(arglist, body[k]) <==> IsName(arglist, body, k)
    ensures forall n: nat :: Names(arglist, body, k, n) ==>
              IsParameter(arglist, body[k]) && IndexOf(arglist, body[k].text) == n
    ensures IsParameter(arglist, body[k]) ==> Names(arglist, body, k, IndexOf(arglist, body[k].text))
  {
    if IsParameter(arglist, body[k]) {
      var r := IndexOf(arglist, body[k].text);
      forall m | 0 <= m < r ensures arglist[m] != body[k].text { assert arglist[m] == arglist[..r][m]; }
      assert Names(arglist, body, k, r);
    }
  }

  lemma FinalFree(arglist: seq<string>, variadic: bool, body: seq<Token>, k: nat, n: nat)
    requires k < |body| && Lexical(body)
    ensures ExpandedIn(FinalPart(arglist, variadic, body, k), n) <==> FreeAt(arglist, body, k, n)
  {
    hide IndexOf;
    NamesParameter(arglist, body, k);
    var part := FinalPart(arglist, variadic, body, k);
    assert part != [] && part[0].Expanded? && part[0].arg == n ==> ExpandedIn(part, n);
  }

  /** The patched parts of a body, token by token. */
  lemma {:induction false} PatchedPieces(arglist: seq<string>, variadic: bool, body: seq<Token>, args: seq<seq<Token>>,
                                         expand: seq<Token> -> seq<Token>, k: nat)
    returns (pieces: seq<seq<Token>>)
    requires k <= |body| && Lexical(body) && (variadic ==> args != [] && arglist != [])
    requires Fits(FinalFrom(arglist, variadic, body, k), args)
    ensures |pieces| == |body| - k
    ensures forall m: nat :: m < |pieces| ==> Becomes(arglist, variadic, body, args, expand, k + m, pieces[m])
    ensures Patched(FinalFrom(arglist, variadic, body, k), args, expand, variadic && args[|args| - 1] == [])
         == Flat(pieces)
    decreases |body| - k
  {
    hide Becomes, Fits, FinalPart, Patched;
    if k == |body| {
      pieces := [];
      NothingPatched(args, expand, variadic && args[|args| - 1] == []);
    } else {
      var drop := variadic && args[|args| - 1] == [];
      var part, tail := FinalPart(arglist, variadic, body, k), FinalFrom(arglist, variadic, body, k + 1);
      FitsBoth(part, tail, args);
      var rest := PatchedPieces(arglist, variadic, body, args, expand, k + 1);
      var piece := PieceAt(arglist, variadic, body, args, expand, k, part, tail);
      pieces := [piece] + rest;
      assert pieces[1..] == rest;
      forall m: nat | m < |pieces| ensures Becomes(arglist, variadic, body, args, expand, k + m, pieces[m]) {
        if m > 0 { assert Becomes(arglist, variadic, body, args, expand, k + 1 + (m - 1), rest[m - 1]); }
      }
    }
  }

  lemma NothingPatched(args: seq<seq<Token>>, expand: seq<Token> -> seq<Token>, drop: bool)
    requires Fits([], args)
    ensures Patched([], args, expand, drop) == []
  {
  }

  lemma FitsBoth(u: seq<Part>, v: seq<Part>, args: seq<seq<Token>>)
    requires Fits(u + v, args)
    ensures Fits(u, args) && Fits(v, args)
  {
    assert forall k :: 0 <= k < |u| ==> u[k] == (u + v)[k];
    assert forall k :: 0 <= k < |v| ==> v[k] == (u + v)[|u| + k];
  }

  lemma PieceAt(arglist: seq<string>, variadic: bool, body: seq<Token>, args: seq<seq<Token>>,
                expand: seq<Token> -> seq<Token>, k: nat, part: seq<Part>, tail: seq<Part>)
    returns (piece: seq<Token>)
    requires k < |body| && Lexical(body) && (variadic ==> args != [] && arglist != [])
    requires part == FinalPart(arglist, variadic, body, k) && tail == FinalFrom(arglist, variadic, body, k + 1)
    requires Fits(part, args) && Fits(tail, args) && Fits(part + tail, args)
    ensures (var drop := variadic && args[|args| - 1] == [];
      Patched(part + tail, args, expand, drop) == piece + Patched(tail, args, expand, drop))
    ensures Becomes(arglist, variadic, body, args, expand, k, piece)
  {
    hide Quote, IsQuotation, Names, FinalFrom, ExpandedIn, FreeBehind, Patched, IndexOf;
    var drop := variadic && args[|args| - 1] == [];
    NamesParameter(arglist, body, k);
    if k + 1 < |body| { NamesParameter(arglist, body, k + 1); } else { NoName(arglist, body, k + 1); }
    if part == [] {
      piece := [];
      assert part + tail == tail;
    } else {
      PatchedFirst(part[0], tail, args, expand, drop);
      assert part == [part[0]];
      if part[0].Pasted? && ExpandedIn(tail, part[0].arg) {
        piece := expand(args[part[0].arg]);
      } else {
        piece := Piece(part[0], args, expand, drop);
      }
      if part[0].Quoted? { QuoteIsQuotation(args[part[0].arg]); }
      if part[0].Pasted? { FreeIsExpanded(arglist, variadic, body, k + 1, part[0].arg); }
    }
  }

  lemma NoName(arglist: seq<string>, body: seq<Token>, k: nat)
    requires k >= |body|
    ensures !IsName(arglist, body, k)
  {
  }

  lemma PatchedFirst(p: Part, rest: seq<Part>, args: seq<seq<Token>>, expand: seq<Token> -> seq<Token>, drop: bool)
    requires Fits([p], args) && Fits(rest, args) && Fits([p] + rest, args)
    ensures Patched([p] + rest, args, expand, drop)
         == (if p.Pasted? && ExpandedIn(rest, p.arg) then expand(args[p.arg]) else Piece(p, args, expand, drop))
            + Patched(rest, args, expand, drop)
  {
    assert ([p] + rest)[1..] == rest && p == [p][0];
  }

  /** What the patches make of the parts of a body is the body with every token replaced by what it becomes. */
  lemma PatchedExpands(arglist: seq<string>, variadic: bool, body: seq<Token>, args: seq<seq<Token>>,
                       expand: seq<Token> -> seq<Token>)
    requires Lexical(body) && (variadic ==> args != [] && arglist != []) && Fits(Parts(arglist, variadic, body), args)
    ensures Expands(arglist, variadic, body, args, expand,
                    Patched(Parts(arglist, variadic, body), args, expand, variadic && args[|args| - 1] == []))
  {
    hide Becomes, Fits, Patched, Parts, FinalFrom, Flat;
    PartsAreFinal(arglist, variadic, body);
    var pieces := PatchedPieces(arglist, variadic, body, args, expand, 0);
    forall k | 0 <= k < |body| ensures Becomes(arglist, variadic, body, args, expand, k, pieces[k]) {
      assert Becomes(arglist, variadic, body, args, expand, 0 + k, pieces[k]);
    }
  }

  /** For example, the body `#x`: the quotation of the argument, whatever it is. */
  lemma QuotedBody(hash: Token, arg: seq<Token>, expand: seq<Token> -> seq<Token>, result: seq<Token>)
    requires hash.text == "#" && !hash.kind.Identifier?
    requires Expands(["x"], false, [hash, NAME_X], [arg], expand, result)
    ensures |result| == 1 && result[0].kind.StringLiteral? && IsQuotation(result[0].text, arg)
  {
    hide IsQuotation;
    var body := [hash, NAME_X];
    var pieces :| |pieces| == 2 && result == Flat(pieces)
      && forall k :: 0 <= k < 2 ==> Becomes(["x"], false, body, [arg], expand, k, pieces[k]);
    assert Names(["x"], body, 1, 0);
    assert Becomes(["x"], false, body, [arg], expand, 0, pieces[0]);
    assert Becomes(["x"], false, body, [arg], expand, 1, pieces[1]);
    assert pieces[1..][1..] == [] && Flat(pieces[1..]) == pieces[1] + Flat([]) && Flat([]) == [];
  }
}
