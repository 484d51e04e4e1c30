/** What the JSON scanner passes over: white space and comments, written out. */
module JsonBlanks {
  import opened Wrappers
  import opened JsonStrings
  import opened JsonGrammar

  /** A space, a comment between `/*` and `*/`, or a comment up to the end of its line. */
  datatype Blank = Space(c: char) | Block(opener: char, body: string) | Line(opener: char, body: string, end: string)

  type Gap = seq<Blank>

  function BlankText(b: Blank): string {
    match b
    case Space(c) => [c]
    case Block(opener, body) => [opener] + "*" + body + "*/"
    case Line(opener, body, end) => [opener] + "/" + body + end
  }

  function GapText(bs: Gap): string {
    if bs == [] then "" else BlankText(bs[0]) + GapText(bs[1..])
  }

  /** A comment begins with a slash, or with a single quote where that does not begin a string. */
  predicate IsOpener(f: Features, c: char) { c == '/' || (c == '\'' && !f.allowSingleQuotes) }

  /** The body of a comment does not end it. */
  predicate NoEnd(s: string) { forall k :: 0 <= k < |s| - 1 ==> !(s[k] == '*' && s[k + 1] == '/') }

  predicate IsBlank(f: Features, b: Blank, comments: bool) {
    match b
    case Space(c) => c == ' ' || c == '\t' || c == '\r' || c == '\n'
    case Block(opener, body) => comments && IsOpener(f, opener) && NoEnd(body + "*")
    case Line(opener, body, end) =>
      && comments && IsOpener(f, opener) && '\n' !in body && '\r' !in body
      && (end == "" || end == "\n" || end == "\r" || end == "\r\n")
  }

  /** The end of a line is as long as it can be; only the last line of a document may have none. */
  predicate EndsLine(b: Blank, rest: Gap, final: bool) {
    b.Line? ==> (b.end == "" ==> final && rest == []) && (b.end == "\r" && rest != [] ==> rest[0] != Space('\n'))
  }

  predicate IsGap(f: Features, bs: Gap, comments: bool, final: bool) {
    bs != [] ==>
      IsBlank(f, bs[0], comments) && EndsLine(bs[0], bs[1..], final) && IsGap(f, bs[1..], comments, final)
  }

  predicate HasComment(bs: Gap) { exists k :: 0 <= k < |bs| && !bs[k].Space? }

  // ----- What is written is passed over -----

  lemma {:induction false} BlockEnds(doc: string, beyond: char, p: nat, body: string)
    requires PartAt(doc, p, body + "*/") && NoEnd(body + "*")
    ensures CStyleEnd(doc, beyond, p) == Some(p + |body| + 2)
    decreases |body|
  {
    var whole := body + "*/";
    PartChar(doc, p, whole, 0);
    PartChar(doc, p, whole, 1);
    PartFits(doc, p, whole);
    if body != "" {
      assert (body + "*")[0] == whole[0] && (body + "*")[1] == whole[1];
      assert whole == [body[0]] + (body[1..] + "*/");
      PartSplit(doc, p, [body[0]], body[1..] + "*/");
      NoEndTail(body);
      BlockEnds(doc, beyond, p + 1, body[1..]);
    }
  }

  lemma NoEndTail(body: string)
    requires body != "" && NoEnd(body + "*")
    ensures NoEnd(body[1..] + "*")
  {
    var tail, whole := body[1..] + "*", body + "*";
    forall k | 0 <= k < |tail| - 1 ensures !(tail[k] == '*' && tail[k + 1] == '/') {
      assert tail[k] == whole[k + 1] && tail[k + 1] == whole[k + 1 + 1];
    }
  }

  lemma PartFits(s: string, p: nat, part: string)
    requires PartAt(s, p, part)
    ensures p + |part| <= |s|
  {
  }

  lemma {:induction false} LineEnds(doc: string, p: nat, body: string, end: string)
    requires PartAt(doc, p, body + end) && '\n' !in body && '\r' !in body
    requires end == "" || end == "\n" || end == "\r" || end == "\r\n"
    requires end == "" ==> p + |body| == |doc|
    requires end == "\r" ==> !CharIs(doc, p + |body| + 1, "\n")
    ensures CppStyleEnd(doc, p) == p + |body| + |end|
    decreases |body|
  {
    if body != "" {
      assert body + end == [body[0]] + (body[1..] + end);
      PartSplit(doc, p, [body[0]], body[1..] + end);
      PartChar(doc, p, [body[0]], 0);
      LineEnds(doc, p + 1, body[1..], end);
    } else if end != "" {
      PartChar(doc, p, body + end, 0);
      if end == "\r\n" { PartChar(doc, p, body + end, 1); }
    }
  }

  lemma BlockComment(x: Source, p: nat, b: Blank)
    requires b.Block? && IsBlank(x.features, b, true) && PartAt(x.doc, p, BlankText(b))
    ensures p + 1 < |x.doc| && x.doc[p] == b.opener
    ensures CommentEnd(x.doc, x.beyond, p + 1) == Some(p + |BlankText(b)|)
  {
    hide CommentEnd, PartAt, IsBlank, BlankText;
    BlockTextIs(b);
    PartSplit(x.doc, p, [b.opener], "*" + (b.body + "*/"));
    PartSplit(x.doc, p + 1, "*", b.body + "*/");
    FirstOf(x.doc, p, b.opener);
    FirstOf(x.doc, p + 1, '*');
    BlockFrom(x, p, b);
  }

  lemma BlockTextIs(b: Blank)
    requires b.Block?
    ensures BlankText(b) == [b.opener] + ("*" + (b.body + "*/")) && |BlankText(b)| == |b.body| + 4
  {
  }

  lemma BlockFrom(x: Source, p: nat, b: Blank)
    requires b.Block? && IsBlank(x.features, b, true) && PartAt(x.doc, p + 2, b.body + "*/")
    requires p + 1 < |x.doc| && x.doc[p + 1] == '*'
    ensures CommentEnd(x.doc, x.beyond, p + 1) == Some(p + 4 + |b.body|)
  {
    hide CStyleEnd, CppStyleEnd, PartAt;
    BlockEnds(x.doc, x.beyond, p + 2, b.body);
  }

  lemma FirstOf(doc: string, p: nat, c: char)
    requires PartAt(doc, p, [c])
    ensures p < |doc| && doc[p] == c
  {
    PartChar(doc, p, [c], 0);
  }

  lemma LineComment(x: Source, p: nat, b: Blank)
    requires b.Line? && IsBlank(x.features, b, true) && PartAt(x.doc, p, BlankText(b))
    requires b.end == "" ==> p + |BlankText(b)| == |x.doc|
    requires b.end == "\r" ==> !CharIs(x.doc, p + |BlankText(b)|, "\n")
    ensures p + 1 < |x.doc| && x.doc[p] == b.opener
    ensures CommentEnd(x.doc, x.beyond, p + 1) == Some(p + |BlankText(b)|)
  {
    hide CommentEnd, PartAt, IsBlank;
    assert BlankText(b) == [b.opener] + ("/" + (b.body + b.end));
    PartSplit(x.doc, p, [b.opener], "/" + (b.body + b.end));
    PartSplit(x.doc, p + 1, "/", b.body + b.end);
    FirstOf(x.doc, p, b.opener);
    FirstOf(x.doc, p + 1, '/');
    LineFrom(x, p, b);
  }

  lemma LineFrom(x: Source, p: nat, b: Blank)
    requires b.Line? && IsBlank(x.features, b, true) && PartAt(x.doc, p + 2, b.body + b.end)
    requires p + 1 < |x.doc| && x.doc[p + 1] == '/'
    requires b.end == "" ==> p + 2 + |b.body| == |x.doc|
    requires b.end == "\r" ==> !CharIs(x.doc, p + 2 + |b.body + b.end|, "\n")
    ensures CommentEnd(x.doc, x.beyond, p + 1) == Some(p + 2 + |b.body + b.end|)
  {
    hide CStyleEnd, CppStyleEnd, PartAt;
    LineEnds(x.doc, p + 2, b.body, b.end);
  }

  /** A comment is a token. */
  lemma CommentToken(x: Source, p: nat, b: Blank)
    requires !b.Space? && IsBlank(x.features, b, true) && PartAt(x.doc, p, BlankText(b))
    requires b.Line? ==>
               && (b.end == "" ==> p + |BlankText(b)| == |x.doc|)
               && (b.end == "\r" ==> !CharIs(x.doc, p + |BlankText(b)|, "\n"))
    ensures p + |BlankText(b)| <= |x.doc| && TokenAt(x, p) == Token(Comment, p, p + |BlankText(b)|)
  {
    hide CommentEnd, StringEnd, NumberEnd, PartAt, BlankText;
    PartFits(x.doc, p, BlankText(b));
    if b.Block? { BlockComment(x, p, b); } else { LineComment(x, p, b); }
    assert SkipFrom(x.doc, p) == p;
  }

  lemma CommentPassed(x: Source, p: nat, q: nat)
    requires p < q <= |x.doc| && TokenAt(x, p) == Token(Comment, p, q)
    ensures PassedAt(x, p) == PassedAt(x, q)
  {
    hide TokenFrom;
  }

  /** What is written in a gap is passed over; spaces alone are passed over everywhere. */
  lemma {:induction false} GapPassed(x: Source, p: nat, bs: Gap, comments: bool, final: bool)
    requires IsGap(x.features, bs, comments, final) && PartAt(x.doc, p, GapText(bs))
    requires final ==> p + |GapText(bs)| == |x.doc|
    requires !CharIs(x.doc, p + |GapText(bs)|, "\n")
    ensures PassedAt(x, p) == PassedAt(x, p + |GapText(bs)|)
    ensures !comments ==> SkipFrom(x.doc, p) == SkipFrom(x.doc, p + |GapText(bs)|)
    decreases |bs|
  {
    hide TokenFrom, TokenAt, PassedAt, SkipFrom, BlankText, IsBlank, PartAt, EndsLine;
    PartFits(x.doc, p, GapText(bs));
    if bs != [] {
      var b, w := bs[0], BlankText(bs[0]);
      PartSplit(x.doc, p, w, GapText(bs[1..]));
      GapPassed(x, p + |w|, bs[1..], comments, final);
      if b.Space? {
        SpaceSkipped(x, p, b, comments);
      } else {
        BlankIs(x.features, b, comments);
        AfterReturn(x, p + |w|, b, bs[1..], comments, final);
        CommentToken(x, p, b);
        CommentPassed(x, p, p + |w|);
      }
    }
  }

  lemma BlankIs(f: Features, b: Blank, comments: bool)
    requires IsBlank(f, b, comments) && !b.Space?
    ensures comments && IsBlank(f, b, true)
  {
  }

  lemma SpaceSkipped(x: Source, p: nat, b: Blank, comments: bool)
    requires b.Space? && IsBlank(x.features, b, comments) && PartAt(x.doc, p, BlankText(b))
    ensures |BlankText(b)| == 1 && p < |x.doc| && SkipFrom(x.doc, p) == SkipFrom(x.doc, p + 1)
    ensures PassedAt(x, p) == PassedAt(x, p + 1)
  {
    hide TokenFrom;
    PartChar(x.doc, p, BlankText(b), 0);
  }

  /** Behind a carriage return that ends a line, there is no line feed. */
  lemma AfterReturn(x: Source, q: nat, b: Blank, rest: Gap, comments: bool, final: bool)
    requires EndsLine(b, rest, final) && IsGap(x.features, rest, comments, final) && PartAt(x.doc, q, GapText(rest))
    requires !CharIs(x.doc, q + |GapText(rest)|, "\n") && (final ==> q + |GapText(rest)| == |x.doc|)
    ensures b.Line? ==>
              && (b.end == "" ==> q == |x.doc|)
              && (b.end == "\r" ==> !CharIs(x.doc, q, "\n"))
  {
    if rest != [] {
      assert GapText(rest)[0] == BlankText(rest[0])[0];
      PartChar(x.doc, q, GapText(rest), 0);
    }
  }

  /** In front of a value, where there may be comments or not. */
  lemma GapBefore(x: Source, p: nat, bs: Gap)
    requires IsGap(x.features, bs, x.features.allowComments, false) && PartAt(x.doc, p, GapText(bs))
    requires !CharIs(x.doc, p + |GapText(bs)|, "\n")
    ensures p + |GapText(bs)| <= |x.doc| && FirstAt(x, p) == FirstAt(x, p + |GapText(bs)|)
  {
    hide TokenFrom, PassedAt;
    PartFits(x.doc, p, GapText(bs));
    GapPassed(x, p, bs, x.features.allowComments, false);
  }

  // ----- What is passed over is written -----

  lemma Slices(doc: string, a: nat, b: nat, c: nat)
    requires a <= b <= c <= |doc|
    ensures doc[a..c] == doc[a..b] + doc[b..c]
  {
  }

  lemma {:induction false} BlockBody(doc: string, beyond: char, p: nat) returns (body: string)
    requires p <= |doc| && CStyleEnd(doc, beyond, p).Some?
    ensures doc[p..CStyleEnd(doc, beyond, p).value] == body + "*/" && NoEnd(body + "*")
    decreases |doc| - p
  {
    var e := CStyleEnd(doc, beyond, p).value;
    if doc[p] == '*' && p + 1 < |doc| && doc[p + 1] == '/' {
      body := "";
    } else {
      var tail := BlockBody(doc, beyond, p + 1);
      body := [doc[p]] + tail;
      Slices(doc, p, p + 1, e);
      assert doc[p + 1..e][0] == (tail + "*/")[0];
      forall k | 0 <= k < |body + "*"| - 1 ensures !((body + "*")[k] == '*' && (body + "*")[k + 1] == '/') {
        if k == 0 {
          assert (body + "*")[1] == (tail + "*/")[0] == doc[p + 1];
        } else {
          assert (body + "*")[k] == (tail + "*")[k - 1] && (body + "*")[k + 1] == (tail + "*")[k - 1 + 1];
        }
      }
    }
  }

  lemma {:induction false} LineBody(doc: string, p: nat) returns (body: string, end: string)
    requires p <= |doc|
    ensures doc[p..CppStyleEnd(doc, p)] == body + end && '\n' !in body && '\r' !in body
    ensures end == "" || end == "\n" || end == "\r" || end == "\r\n"
    ensures end == "" ==> CppStyleEnd(doc, p) == |doc|
    ensures end == "\r" ==> !CharIs(doc, CppStyleEnd(doc, p), "\n")
    decreases |doc| - p
  {
    var e := CppStyleEnd(doc, p);
    if p == |doc| || doc[p] == '\n' || doc[p] == '\r' {
      body, end := "", doc[p..e];
    } else {
      body, end := LineBody(doc, p + 1);
      Slices(doc, p, p + 1, e);
      body := [doc[p]] + body;
    }
  }

  /** Any comment that the scanner finds. */
  lemma CommentBlank(x: Source, s: nat) returns (b: Blank)
    requires s <= |x.doc| && TokenFrom(x, s).kind == Comment
    ensures !b.Space? && IsBlank(x.features, b, true) && x.doc[s..TokenFrom(x, s).end] == BlankText(b)
    ensures b.Line? ==>
              && (b.end == "" ==> TokenFrom(x, s).end == |x.doc|)
              && (b.end == "\r" ==> !CharIs(x.doc, TokenFrom(x, s).end, "\n"))
  {
    hide CStyleEnd, CppStyleEnd, StringEnd, NumberEnd;
    var e := TokenFrom(x, s).end;
    assert e == CommentEnd(x.doc, x.beyond, s + 1).value;
    Slices(x.doc, s, s + 2, e);
    if x.doc[s + 1] == '*' {
      var body := BlockBody(x.doc, x.beyond, s + 2);
      b := Block(x.doc[s], body);
      assert x.doc[s..s + 2] == [b.opener] + "*";
      assert BlankText(b) == ([b.opener] + "*") + (body + "*/");
    } else {
      var body, end := LineBody(x.doc, s + 2);
      b := Line(x.doc[s], body, end);
      assert x.doc[s..s + 2] == [b.opener] + "/";
      assert BlankText(b) == ([b.opener] + "/") + (body + end);
    }
  }

  /** In front of a token there are spaces, and nothing else. */
  lemma {:induction false} SpacesBefore(x: Source, p: nat, comments: bool, final: bool) returns (bs: Gap)
    requires p <= |x.doc|
    ensures x.doc[p..SkipFrom(x.doc, p)] == GapText(bs) && IsGap(x.features, bs, comments, final)
    ensures IsGap(x.features, bs, false, false)
    decreases |x.doc| - p
  {
    if p < |x.doc| && IsSpace(x.doc[p]) {
      var tail := SpacesBefore(x, p + 1, comments, final);
      bs := [Space(x.doc[p])] + tail;
      assert bs[1..] == tail;
      Slices(x.doc, p, p + 1, SkipFrom(x.doc, p));
    } else {
      bs := [];
    }
  }

  lemma {:induction false} GapJoin(f: Features, u: Gap, v: Gap, final: bool)
    requires IsGap(f, u, false, false) && IsGap(f, v, true, final)
    ensures IsGap(f, u + v, true, final) && GapText(u + v) == GapText(u) + GapText(v)
    decreases |u|
  {
    hide BlankText, GapText, IsGap, IsBlank;
    if u == [] {
      assert u + v == v;
      NoGap(v);
    } else {
      assert u + v == [u[0]] + (u[1..] + v);
      SpaceFirst(f, u);
      GapJoin(f, u[1..], v, final);
      GapCons(f, u[0], u[1..] + v, final);
      assert BlankText(u[0]) + (GapText(u[1..]) + GapText(v)) == BlankText(u[0]) + GapText(u[1..]) + GapText(v);
    }
  }

  lemma NoGap(v: Gap)
    ensures GapText([]) + GapText(v) == GapText(v)
  {
  }

  lemma SpaceFirst(f: Features, u: Gap)
    requires u != [] && IsGap(f, u, false, false)
    ensures u[0].Space? && IsBlank(f, u[0], true) && IsGap(f, u[1..], false, false)
    ensures GapText(u) == BlankText(u[0]) + GapText(u[1..])
  {
  }

  lemma GapCons(f: Features, b: Blank, v: Gap, final: bool)
    requires IsBlank(f, b, true) && IsGap(f, v, true, final) && EndsLine(b, v, final)
    ensures IsGap(f, [b] + v, true, final) && GapText([b] + v) == BlankText(b) + GapText(v)
  {
    assert ([b] + v)[1..] == v;
  }

  /** In front of the next token that is no comment there are spaces and complete comments, and nothing else. */
  lemma {:induction false} GapBetween(x: Source, p: nat) returns (bs: Gap)
    requires p <= |x.doc|
    ensures x.doc[p..PassedAt(x, p).start] == GapText(bs)
    ensures IsGap(x.features, bs, true, PassedAt(x, p).start == |x.doc|)
    ensures TokenAt(x, p).kind == Comment ==> HasComment(bs)
    decreases |x.doc| - p
  {
    hide TokenFrom, GapText, IsGap, IsBlank, BlankText;
    var s := SkipFrom(x.doc, p);
    var t, end := TokenAt(x, p), PassedAt(x, p).start;
    assert t == TokenFrom(x, s) && t.start == s;
    bs := SpacesBefore(x, p, true, end == |x.doc|);
    if t.kind == Comment {
      var b := CommentBlank(x, s);
      var tail := GapBetween(x, t.end);
      LineContinues(x, t.end, b, tail, end);
      GapCons(x.features, b, tail, end == |x.doc|);
      GapJoin(x.features, bs, [b] + tail, end == |x.doc|);
      Slices(x.doc, p, s, end);
      Slices(x.doc, s, t.end, end);
      var whole := bs + ([b] + tail);
      assert whole[|bs|] == b;
      bs := whole;
    }
  }

  lemma LineContinues(x: Source, q: nat, b: Blank, tail: Gap, end: nat)
    requires q <= end <= |x.doc| && x.doc[q..end] == GapText(tail)
    requires b.Line? ==> (b.end == "" ==> q == |x.doc|) && (b.end == "\r" ==> !CharIs(x.doc, q, "\n"))
    ensures EndsLine(b, tail, end == |x.doc|)
  {
    if tail != [] {
      assert |BlankText(tail[0])| > 0 && GapText(tail)[0] == BlankText(tail[0])[0];
      assert x.doc[q] == x.doc[q..end][0];
    }
  }

  /** The same in front of a value. */
  lemma GapToFirst(x: Source, p: nat) returns (bs: Gap)
    requires p <= |x.doc|
    ensures x.doc[p..FirstAt(x, p).start] == GapText(bs)
    ensures IsGap(x.features, bs, x.features.allowComments, FirstAt(x, p).start == |x.doc|)
  {
    hide TokenFrom, GapText, IsGap, PassedAt;
    if x.features.allowComments {
      bs := GapBetween(x, p);
    } else {
      bs := SpacesBefore(x, p, false, FirstAt(x, p).start == |x.doc|);
    }
  }
}
