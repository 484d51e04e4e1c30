/**
 Macros with arguments: a prescan of the body that records where it is to be patched, and an expansion that applies the
 patches in place, from the last to the first.
 */
module MacroPatches {
  import opened Wrappers
  import opened MacroParts

  /** Parts carry the texts that their kinds say. */
  ghost predicate Formed(parts: seq<Part>) {
    forall k :: 0 <= k < |parts| ==>
      match parts[k]
      case Keep(_) => true
      case Comma(t) => t.text == ","
      case Quoted(t, _) => t.text !in ["#", "##", ","]
      case Pasted(t, _) => t.text !in ["#", "##", ","]
      case Expanded(t, _) => t.text !in ["#", "##", ","]
  }

  // ----- What the prescan records -----

  /** A patch: is the argument expanded, or pasted as it is; which argument; and where. */
  datatype Patch = Patch(expand: bool, arg: nat, at: nat)

  function Values(parts: seq<Part>): (r: seq<Token>)
    ensures |r| == |parts| && forall k :: 0 <= k < |parts| ==> r[k] == parts[k].token
  {
    seq(|parts|, k requires 0 <= k < |parts| => parts[k].token)
  }

  function Patches(parts: seq<Part>): (r: seq<Patch>)
    ensures forall p :: p in r ==> p.at < |parts|
  {
    if parts == [] then []
    else
      var n := |parts| - 1;
      Patches(parts[..n]) + PatchOf(parts[n], n)
  }

  function QuotePatches(parts: seq<Part>): (r: seq<(nat, nat)>)
    ensures forall p :: p in r ==> p.1 < |parts|
  {
    if parts == [] then []
    else
      var n := |parts| - 1;
      QuotePatches(parts[..n]) + (if parts[n].Quoted? then [(parts[n].arg, n)] else [])
  }

  function CommaPatches(parts: seq<Part>): (r: seq<nat>)
    ensures forall p :: p in r ==> p < |parts|
  {
    if parts == [] then []
    else
      var n := |parts| - 1;
      CommaPatches(parts[..n]) + (if parts[n].Comma? then [n] else [])
  }

  function PatchOf(p: Part, n: nat): seq<Patch> {
    match p
    case Pasted(_, arg) => [Patch(false, arg, n)]
    case Expanded(_, arg) => [Patch(true, arg, n)]
    case _ => []
  }

  lemma PatchesMore(parts: seq<Part>, p: Part)
    ensures Patches(parts + [p]) == Patches(parts) + PatchOf(p, |parts|)
  {
    assert (parts + [p])[..|parts|] == parts;
  }

  lemma QuotesMore(parts: seq<Part>, p: Part)
    ensures QuotePatches(parts + [p]) == QuotePatches(parts) + (if p.Quoted? then [(p.arg, |parts|)] else [])
  {
    assert (parts + [p])[..|parts|] == parts;
  }

  lemma CommasMore(parts: seq<Part>, p: Part)
    ensures CommaPatches(parts + [p]) == CommaPatches(parts) + (if p.Comma? then [|parts|] else [])
  {
    assert (parts + [p])[..|parts|] == parts;
  }

  lemma ValuesMore(parts: seq<Part>, p: Part)
    ensures Values(parts + [p]) == Values(parts) + [p.token]
  {
  }

  /** The records with one more part. */
  lemma RecordsMore(parts: seq<Part>, p: Part)
    ensures Values(parts + [p]) == Values(parts) + [p.token]
    ensures Patches(parts + [p]) == Patches(parts) + PatchOf(p, |parts|)
    ensures QuotePatches(parts + [p]) == QuotePatches(parts) + (if p.Quoted? then [(p.arg, |parts|)] else [])
    ensures CommaPatches(parts + [p]) == CommaPatches(parts) + (if p.Comma? then [|parts|] else [])
  {
    hide Values, Patches, QuotePatches, CommaPatches, PatchOf;
    ValuesMore(parts, p);
    PatchesMore(parts, p);
    QuotesMore(parts, p);
    CommasMore(parts, p);
  }

  lemma AndNothing<T>(s: seq<T>)
    ensures s + [] == s
  {
  }

  /** A token that stays is not recorded. */
  lemma RecordsKeep(front: seq<Part>, t: Token)
    ensures Values(front + [Keep(t)]) == Values(front) + [t]
    ensures Patches(front + [Keep(t)]) == Patches(front) && QuotePatches(front + [Keep(t)]) == QuotePatches(front)
    ensures CommaPatches(front + [Keep(t)]) == CommaPatches(front)
  {
    hide Values, Patches, QuotePatches, CommaPatches;
    RecordsMore(front, Keep(t));
    AndNothing(Patches(front));
    AndNothing(QuotePatches(front));
    AndNothing(CommaPatches(front));
  }

  lemma RecordsFront(parts: seq<Part>)
    requires parts != [] && parts[|parts| - 1].Keep?
    ensures Values(parts) == Values(Front(parts)) + [parts[|parts| - 1].token]
    ensures Patches(Front(parts)) == Patches(parts) && QuotePatches(Front(parts)) == QuotePatches(parts)
    ensures CommaPatches(Front(parts)) == CommaPatches(parts)
  {
    hide Patches, QuotePatches, CommaPatches, Values;
    var front, last := Front(parts), parts[|parts| - 1];
    assert parts == front + [Keep(last.token)];
    RecordsKeep(front, last.token);
  }

  /** `list.sort` with the position as key, in reverse. */
  function Descending(ps: seq<Patch>): seq<Patch> {
    if ps == [] then [] else Place(Descending(ps[..|ps| - 1]), ps[|ps| - 1])
  }

  /** Places an element before the first that has a lower position. */
  function Place(ps: seq<Patch>, p: Patch): (r: seq<Patch>)
    ensures |r| == |ps| + 1
  {
    if ps == [] then [p] else if ps[0].at < p.at then [p] + ps else [ps[0]] + Place(ps[1..], p)
  }

  /** The patches of the parts, the last first. */
  function LastFirst(parts: seq<Part>): seq<Patch> {
    if parts == [] then []
    else
      var n := |parts| - 1;
      PatchOf(parts[n], n) + LastFirst(parts[..n])
  }

  lemma {:induction false} LastFirstBelow(parts: seq<Part>)
    ensures forall p :: p in LastFirst(parts) ==> p.at < |parts|
  {
    if parts != [] {
      LastFirstBelow(parts[..|parts| - 1]);
    }
  }

  lemma DescendingMore(ps: seq<Patch>, p: Patch)
    requires forall q :: q in Descending(ps) ==> q.at < p.at
    ensures Descending(ps + [p]) == [p] + Descending(ps)
  {
    assert (ps + [p])[..|ps|] == ps;
    var sorted := Descending(ps);
    assert sorted != [] ==> sorted[0] in sorted;
  }

  lemma LastFirstMore(parts: seq<Part>, p: Part)
    ensures LastFirst(parts + [p]) == PatchOf(p, |parts|) + LastFirst(parts)
  {
    assert (parts + [p])[..|parts|] == parts;
  }

  /** Positions are recorded once and in order, so sorting turns the list around. */
  lemma {:induction false} SortedIsLastFirst(parts: seq<Part>)
    ensures Descending(Patches(parts)) == LastFirst(parts)
    decreases |parts|
  {
    hide Descending, Patches, LastFirst;
    if parts == [] {
      NothingSorted();
    } else {
      var n := |parts| - 1;
      var front, last := parts[..n], parts[n];
      SortedIsLastFirst(front);
      LastFirstBelow(front);
      assert parts == front + [last];
      PatchesMore(front, last);
      LastFirstMore(front, last);
      AndNothing(Patches(front));
      if IsPatched(last) { DescendingMore(Patches(front), PatchOf(last, n)[0]); }
    }
  }

  lemma NothingSorted()
    ensures Descending(Patches([])) == LastFirst([])
  {
  }

  // ----- The replacement list while it is patched -----

  /** A replacement list; a removed comma leaves a hole until the end. */
  type Slots = seq<Option<Token>>

  function Filled(ts: seq<Token>): (r: Slots)
    ensures |r| == |ts| && forall k :: 0 <= k < |ts| ==> r[k] == Some(ts[k])
  {
    seq(|ts|, k requires 0 <= k < |ts| => Some(ts[k]))
  }

  /** The list without its holes. */
  function Present(slots: Slots): seq<Token> {
    if slots == [] then [] else (if slots[0].Some? then [slots[0].value] else []) + Present(slots[1..])
  }

  lemma {:induction false} PresentConcat(u: Slots, v: Slots)
    ensures Present(u + v) == Present(u) + Present(v)
  {
    if u == [] {
      assert u + v == v;
    } else {
      assert (u + v)[1..] == u[1..] + v && (u + v)[0] == u[0];
      PresentConcat(u[1..], v);
      PresentStep(u);
      PresentStep(u + v);
      hide Present;
    }
  }

  lemma PresentStep(u: Slots)
    requires u != []
    ensures Present(u) == (if u[0].Some? then [u[0].value] else []) + Present(u[1..])
  {
  }

  lemma {:induction false} PresentFilled(ts: seq<Token>)
    ensures Present(Filled(ts)) == ts
  {
    if ts != [] {
      PresentFilled(ts[1..]);
      assert Filled(ts)[1..] == Filled(ts[1..]);
    }
  }

  /** A part before its patch is applied. */
  function Slot(part: Part, args: seq<seq<Token>>, drop: bool): Option<Token>
    requires Fits([part], args)
  {
    assert part == [part][0];
    match part
    case Quoted(t, arg) => Some(t.(text := Quote(args[arg])))
    case Comma(t) => if drop then None else Some(t)
    case _ => Some(part.token)
  }

  /** The parts before any patch is applied, except quotations and commas. */
  ghost predicate IsBase(parts: seq<Part>, args: seq<seq<Token>>, drop: bool, slots: Slots) {
    && Fits(parts, args) && |slots| == |parts|
    && forall k :: 0 <= k < |parts| ==> Fits([parts[k]], args) && slots[k] == Slot(parts[k], args, drop)
  }

  predicate IsPatched(part: Part) { part.Pasted? || part.Expanded? }

  /** The parts with all patches applied. */
  function Patching(parts: seq<Part>, args: seq<seq<Token>>, expand: seq<Token> -> seq<Token>, drop: bool): Slots
    requires Fits(parts, args)
  {
    if parts == [] then []
    else
      assert Fits([parts[0]], args) && Fits(parts[1..], args) by { FitsParts(parts, args); }
      PatchedSlots(parts, args, expand, drop) + Patching(parts[1..], args, expand, drop)
  }

  function PatchedSlots(parts: seq<Part>, args: seq<seq<Token>>, expand: seq<Token> -> seq<Token>, drop: bool): Slots
    requires Fits(parts, args) && parts != []
  {
    assert Fits([parts[0]], args) by { FitsParts(parts, args); }
    var part := parts[0];
    if part.Pasted? then Filled(if ExpandedIn(parts[1..], part.arg) then expand(args[part.arg]) else args[part.arg])
    else if part.Expanded? then Filled(expand(args[part.arg]))
    else [Slot(part, args, drop)]
  }

  lemma {:induction false} PatchingIsPatched(parts: seq<Part>, args: seq<seq<Token>>, expand: seq<Token> -> seq<Token>,
                                             drop: bool)
    requires Fits(parts, args)
    ensures Present(Patching(parts, args, expand, drop)) == Patched(parts, args, expand, drop)
  {
    if parts != [] {
      hide Present, Patching, Patched, ExpandedIn;
      FitsParts(parts, args);
      PatchingIsPatched(parts[1..], args, expand, drop);
      PresentConcat(PatchedSlots(parts, args, expand, drop), Patching(parts[1..], args, expand, drop));
      PatchingStep(parts, args, expand, drop);
      PresentSlots(parts, args, expand, drop);
    } else {
      assert Patching(parts, args, expand, drop) == [] && Patched(parts, args, expand, drop) == [];
    }
  }

  /** What stands in place of the first part. */
  function FirstPatched(parts: seq<Part>, args: seq<seq<Token>>, expand: seq<Token> -> seq<Token>,
                        drop: bool): seq<Token>
    requires Fits(parts, args) && parts != []
  {
    assert Fits([parts[0]], args) by { FitsParts(parts, args); }
    var part := parts[0];
    if part.Pasted? && ExpandedIn(parts[1..], part.arg) then expand(args[part.arg]) else Piece(part, args, expand, drop)
  }

  lemma PatchingStep(parts: seq<Part>, args: seq<seq<Token>>, expand: seq<Token> -> seq<Token>, drop: bool)
    requires Fits(parts, args) && parts != [] && Fits(parts[1..], args)
    ensures Patching(parts, args, expand, drop)
            == PatchedSlots(parts, args, expand, drop) + Patching(parts[1..], args, expand, drop)
    ensures Patched(parts, args, expand, drop)
            == FirstPatched(parts, args, expand, drop) + Patched(parts[1..], args, expand, drop)
  {
  }

  lemma PresentSlots(parts: seq<Part>, args: seq<seq<Token>>, expand: seq<Token> -> seq<Token>, drop: bool)
    requires Fits(parts, args) && parts != []
    ensures Present(PatchedSlots(parts, args, expand, drop)) == FirstPatched(parts, args, expand, drop)
  {
    hide ExpandedIn;
    var slots := PatchedSlots(parts, args, expand, drop);
    if IsPatched(parts[0]) {
      PresentFilled(FirstPatched(parts, args, expand, drop));
    } else {
      assert slots[1..] == [];
    }
  }

  /** Parts that are not patched may be passed over. */
  lemma {:induction false} SkipKept(parts: seq<Part>, p: nat, args: seq<seq<Token>>, expand: seq<Token> -> seq<Token>,
                                    drop: bool, base: Slots)
    returns (q: nat)
    requires IsBase(parts, args, drop, base) && p <= |parts|
    ensures q <= p && LastFirst(parts[..q]) == LastFirst(parts[..p])
    ensures q == 0 || IsPatched(parts[q - 1])
    ensures Fits(parts[p..], args) && Fits(parts[q..], args)
    ensures base[..q] + Patching(parts[q..], args, expand, drop) == base[..p] + Patching(parts[p..], args, expand, drop)
    ensures forall n :: ExpandedIn(parts[q..], n) <==> ExpandedIn(parts[p..], n)
  {
    hide Patching, LastFirst, ExpandedIn, Fits, IsBase;
    FitsFrom(parts, p, args, drop, base);
    if p == 0 || IsPatched(parts[p - 1]) {
      q := p;
    } else {
      assert parts[..p] == parts[..p - 1] + [parts[p - 1]];
      LastFirstMore(parts[..p - 1], parts[p - 1]);
      AndNothing(LastFirst(parts[..p - 1]));
      FitsFrom(parts, p - 1, args, drop, base);
      PatchingKept(parts, p, args, expand, drop, base);
      assert base[..p] == base[..p - 1] + [base[p - 1]];
      ExpandedMore(parts, p);
      q := SkipKept(parts, p - 1, args, expand, drop, base);
    }
  }

  lemma FitsFrom(parts: seq<Part>, p: nat, args: seq<seq<Token>>, drop: bool, base: Slots)
    requires IsBase(parts, args, drop, base) && p <= |parts|
    ensures Fits(parts[p..], args) && |base| == |parts|
  {
  }

  lemma PatchingKept(parts: seq<Part>, p: nat, args: seq<seq<Token>>, expand: seq<Token> -> seq<Token>, drop: bool,
                     base: Slots)
    requires IsBase(parts, args, drop, base) && 0 < p <= |parts| && !IsPatched(parts[p - 1])
    requires Fits(parts[p..], args) && Fits(parts[p - 1..], args)
    ensures Patching(parts[p - 1..], args, expand, drop) == [base[p - 1]] + Patching(parts[p..], args, expand, drop)
  {
    assert parts[p - 1..][1..] == parts[p..];
  }

  lemma ExpandedMore(parts: seq<Part>, p: nat)
    requires 0 < p <= |parts|
    ensures forall n :: ExpandedIn(parts[p - 1..], n) <==>
              ExpandedIn(parts[p..], n) || (parts[p - 1].Expanded? && parts[p - 1].arg == n)
  {
    var tail, all := parts[p..], parts[p - 1..];
    assert all == [parts[p - 1]] + tail;
    forall n ensures ExpandedIn(all, n) <==> ExpandedIn(tail, n) || (parts[p - 1].Expanded? && parts[p - 1].arg == n) {
      if k :| 0 <= k < |tail| && tail[k].Expanded? && tail[k].arg == n {
        assert all[k + 1] == tail[k];
      }
      if k :| 0 <= k < |all| && all[k].Expanded? && all[k].arg == n {
        assert k > 0 ==> all[k] == tail[k - 1];
      }
      assert all[0] == parts[p - 1];
    }
  }

  lemma {:induction false} QuotesExact(parts: seq<Part>)
    ensures forall e :: e in QuotePatches(parts) <==> e.1 < |parts| && parts[e.1].Quoted? && parts[e.1].arg == e.0
  {
    if parts != [] {
      var n := |parts| - 1;
      QuotesExact(parts[..n]);
    }
  }

  lemma {:induction false} CommasExact(parts: seq<Part>)
    ensures forall k: nat :: k in CommaPatches(parts) <==> k < |parts| && parts[k].Comma?
  {
    if parts != [] {
      var n := |parts| - 1;
      CommasExact(parts[..n]);
    }
  }

  // ----- The macro -----

  datatype Scan = Scan(value: seq<Token>, patch: seq<Patch>, quotes: seq<(nat, nat)>, commas: seq<nat>)

  function ScanOf(done: seq<Part>, rest: seq<Token>): Scan {
    Scan(Values(done) + rest, Patches(done), QuotePatches(done), CommaPatches(done))
  }

  ghost predicate Scannable(done: seq<Part>, rest: seq<Token>) {
    Lexical(rest) && Formed(done) && (done == [] || !done[|done| - 1].Comma?)
  }

  /** One more part, for the first token that is left. */
  function ScanMore(w: Scan, i: nat, part: Part): Scan
    requires i < |w.value|
  {
    Scan(w.value[i := part.token],
         w.patch + PatchOf(part, i),
         w.quotes + (if part.Quoted? then [(part.arg, i)] else []),
         w.commas + (if part.Comma? then [i] else []))
  }

  lemma ScannedMore(done: seq<Part>, rest: seq<Token>, part: Part)
    requires rest != []
    ensures ScanOf(done + [part], rest[1..]) == ScanMore(ScanOf(done, rest), |done|, part)
  {
    RecordsMore(done, part);
    hide Patches, QuotePatches, CommaPatches;
    assert Values(done) + [part.token] + rest[1..] == (Values(done) + rest)[|done| := part.token];
    assert forall s: seq<nat> :: s + [] == s;
    assert forall s: seq<(nat, nat)> :: s + [] == s;
    assert forall s: seq<Patch> :: s + [] == s;
  }

  /** An operator is deleted. */
  lemma ScannedWithout(done: seq<Part>, rest: seq<Token>)
    requires done != [] && done[|done| - 1].Keep?
    ensures (var w, i := ScanOf(done, rest), |done|;
      ScanOf(Front(done), rest) == w.(value := w.value[..i - 1] + w.value[i..]))
  {
    RecordsFront(done);
    hide Patches, QuotePatches, CommaPatches;
    assert (Values(done) + rest)[..|done| - 1] == Values(Front(done)) && (Values(done) + rest)[|done|..] == rest;
  }

  /** A comma is marked. */
  lemma ScannedComma(done: seq<Part>, rest: seq<Token>)
    requires done != [] && done[|done| - 1].Keep?
    ensures (var w, i := ScanOf(done, rest), |done|;
      ScanOf(Front(done) + [Comma(done[i - 1].token)], rest) == w.(commas := w.commas + [i - 1]))
  {
    var comma := Comma(done[|done| - 1].token);
    RecordsFront(done);
    RecordsMore(Front(done), comma);
    hide Patches, QuotePatches, CommaPatches;
    assert forall s: seq<(nat, nat)> :: s + [] == s;
    assert forall s: seq<Patch> :: s + [] == s;
  }

  lemma ScannableNext(arglist: seq<string>, variadic: bool, done: seq<Part>, rest: seq<Token>)
    requires Scannable(done, rest) && rest != [] && (variadic ==> arglist != [])
    ensures Scannable(With(arglist, variadic, done, rest), rest[1..])
    ensures done != [] && done[|done| - 1].token.text in ["#", "##", ","] ==> done[|done| - 1].Keep?
  {
    assert done != [] ==> done[|done| - 1] == done[|done| - 1];
  }

  class Macro {
    var value: seq<Token>
    const arglist: seq<string>
    const variadic: bool
    var patch: seq<Patch>
    var strPatch: seq<(nat, nat)>
    var varCommaPatch: seq<nat>

    constructor (value: seq<Token>, arglist: seq<string>, variadic: bool)
      ensures this.value == value && this.arglist == arglist && this.variadic == variadic
    {
      this.value, this.arglist, this.variadic := value, arglist, variadic;
      patch, strPatch, varCommaPatch := [], [], [];
    }

    /** The records are those of the parts. */
    ghost predicate Records(parts: seq<Part>)
      reads this
    {
      value == Values(parts) && patch == LastFirst(parts)
      && strPatch == QuotePatches(parts) && varCommaPatch == CommaPatches(parts)
    }

    ghost function Now(): Scan
      reads this
    {
      Scan(value, patch, strPatch, varCommaPatch)
    }

    /** The prescan has done the parts `done`, `i` tokens, and the tokens `rest` are left. */
    ghost predicate Scanning(done: seq<Part>, rest: seq<Token>, i: nat)
      reads this
    {
      i == |done| && Now() == ScanOf(done, rest) && Scannable(done, rest)
    }

    /** `macro_prescan`: the deletions leave every recorded position valid. */
    method Prescan()
      requires Lexical(value) && (variadic ==> arglist != [])
      modifies this
      ensures Records(Parts(arglist, variadic, old(value)))
    {
      hide Values, Patches, QuotePatches, CommaPatches, PartsFrom;
      patch, strPatch, varCommaPatch := [], [], [];
      ghost var done: seq<Part>, rest := [], value;
      NothingScanned();
      var i: nat := 0;
      while i < |value|
        invariant Scanning(done, rest, i)
        invariant PartsFrom(arglist, variadic, done, rest) == Parts(arglist, variadic, old(value))
        decreases |rest|
      {
        done, rest, i := ScanOne(done, rest, i);
      }
      Scanned(done, rest);
      SortedIsLastFirst(done);
      patch := Descending(patch);
    }

    lemma NothingScanned()
      requires Lexical(value) && patch == [] && strPatch == [] && varCommaPatch == []
      ensures Scanning([], value, 0)
    {
      assert Values([]) + value == value;
    }

    lemma Scanned(done: seq<Part>, rest: seq<Token>)
      requires Scanning(done, rest, |done|) && |value| <= |done| && (variadic ==> arglist != [])
      ensures value == Values(done) && PartsFrom(arglist, variadic, done, rest) == done
    {
      assert rest == [] && Values(done) + [] == Values(done);
    }

    /** A parameter after `#`: it becomes a string literal, and the operator is deleted. */
    method Stringize(ghost done: seq<Part>, ghost rest: seq<Token>, i: nat, argnum: nat)
      requires Scanning(done, rest, i) && 0 < i < |value| && done[i - 1].Keep?
      modifies this
      ensures Now() == ScanOf(Front(done) + [Quoted(rest[0].(kind := StringLiteral), argnum)], rest[1..])
    {
      hide Scannable, Values, Patches, QuotePatches, CommaPatches;
      assert value[i] == rest[0] by { ValueAt(done, rest); }
      ScannedWithout(done, rest);
      ScannedMore(Front(done), rest, Quoted(rest[0].(kind := StringLiteral), argnum));
      value := value[i := value[i].(kind := StringLiteral)];
      value := value[..i - 1] + value[i..];
      strPatch := strPatch + [(argnum, i - 1)];
    }

    /** A parameter after `##`: the operator is deleted. */
    method Paste(ghost done: seq<Part>, ghost rest: seq<Token>, i: nat, argnum: nat)
      requires Scanning(done, rest, i) && 0 < i < |value| && done[i - 1].Keep?
      modifies this
      ensures Now() == ScanOf(Front(done) + [Pasted(rest[0], argnum)], rest[1..])
    {
      hide Scannable, Values, Patches, QuotePatches, CommaPatches;
      assert value[i] == rest[0] by { ValueAt(done, rest); }
      ScannedWithout(done, rest);
      ScannedMore(Front(done), rest, Pasted(rest[0], argnum));
      patch := patch + [Patch(false, argnum, i - 1)];
      value := value[..i - 1] + value[i..];
    }

    lemma ValueAt(done: seq<Part>, rest: seq<Token>)
      requires Scanning(done, rest, |done|) && |done| < |value|
      ensures rest != [] && value[|done|] == rest[0] && |value| == |done| + |rest|
      ensures (|done| > 0 ==> value[|done| - 1] == done[|done| - 1].token)
      ensures (|rest| > 1 ==> value[|done| + 1] == rest[1])
    {
    }

    /** A token that is no parameter; the comma before `##` and the variadic parameter is recorded. */
    method Pass(ghost done: seq<Part>, ghost rest: seq<Token>, i: nat)
      requires Scanning(done, rest, i) && i < |value| && (variadic ==> arglist != []) && !IsParameter(arglist, value[i])
      modifies this`varCommaPatch
      ensures Now() == ScanOf(With(arglist, variadic, done, rest), rest[1..])
    {
      hide Scannable, Values, Patches, QuotePatches, CommaPatches;
      ValueAt(done, rest);
      ScannableNext(arglist, variadic, done, rest);
      ghost var marked := done;
      if value[i].text == "##" {
        if variadic && i > 0 && value[i - 1].text == "," && i + 1 < |value| && value[i + 1].kind.Identifier?
           && value[i + 1].text == arglist[|arglist| - 1] {
          ScannedComma(done, rest);
          marked := Front(done) + [Comma(done[i - 1].token)];
          varCommaPatch := varCommaPatch + [i - 1];
        }
      }
      ScannedMore(marked, rest, Keep(rest[0]));
    }

    /** One turn of the loop: one token of the body. */
    method ScanOne(ghost done: seq<Part>, ghost rest: seq<Token>, i: nat)
      returns (ghost done': seq<Part>, ghost rest': seq<Token>, i': nat)
      requires Scanning(done, rest, i) && i < |value| && (variadic ==> arglist != [])
      modifies this
      ensures Scanning(done', rest', i') && |rest'| < |rest|
      ensures PartsFrom(arglist, variadic, done', rest') == PartsFrom(arglist, variadic, done, rest)
    {
      hide Scannable, Values, Patches, QuotePatches, CommaPatches;
      ValueAt(done, rest);
      ScannableNext(arglist, variadic, done, rest);
      rest', i' := rest[1..], i;
      done' := With(arglist, variadic, done, rest);
      if value[i].kind.Identifier? && value[i].text in arglist {
        var argnum := IndexOf(arglist, value[i].text);
        if i > 0 && value[i - 1].text == "#" {
          Stringize(done, rest, i, argnum);
        } else if i > 0 && value[i - 1].text == "##" {
          Paste(done, rest, i, argnum);
        } else if i + 1 < |value| && value[i + 1].text == "##" {
          ScannedMore(done, rest, Pasted(rest[0], argnum));
          patch := patch + [Patch(false, argnum, i)];
          i' := i + 1;
        } else {
          ScannedMore(done, rest, Expanded(rest[0], argnum));
          patch := patch + [Patch(true, argnum, i)];
          i' := i + 1;
        }
      } else {
        Pass(done, rest, i);
        i' := i + 1;
      }
    }

    /** The slots after the first `k` quotations. */
    static ghost predicate QuotedTo(parts: seq<Part>, args: seq<seq<Token>>, rep: Slots, k: nat)
      requires Fits(parts, args) && k <= |QuotePatches(parts)|
    {
      && |rep| == |parts|
      && forall j :: 0 <= j < |parts| ==>
           rep[j] == if parts[j].Quoted? && (parts[j].arg, j) in QuotePatches(parts)[..k]
                     then Some(parts[j].token.(text := Quote(args[parts[j].arg]))) else Some(parts[j].token)
    }

    /** The string conversions. */
    method Stringizations(ghost parts: seq<Part>, args: seq<seq<Token>>) returns (rep: Slots)
      requires Records(parts) && Fits(parts, args)
      ensures QuotedTo(parts, args, rep, |strPatch|)
    {
      hide Quote;
      rep := Filled(value);
      var strExpansion: map<nat, string> := map[];
      for k := 0 to |strPatch|
        invariant QuotedTo(parts, args, rep, k)
        invariant forall n :: n in strExpansion ==> n < |args| && strExpansion[n] == Quote(args[n])
      {
        var argnum, i := strPatch[k].0, strPatch[k].1;
        QuotedAt(parts, args, rep, k);
        if argnum !in strExpansion { strExpansion := strExpansion[argnum := Quote(args[argnum])]; }
        QuotedNext(parts, args, rep, k);
        rep := rep[i := Some(rep[i].value.(text := strExpansion[argnum]))];
      }
    }

    static lemma QuotedAt(parts: seq<Part>, args: seq<seq<Token>>, rep: Slots, k: nat)
      requires Fits(parts, args) && k < |QuotePatches(parts)| && QuotedTo(parts, args, rep, k)
      ensures (var p := QuotePatches(parts)[k];
        p.0 < |args| && p.1 < |parts| == |rep| && parts[p.1].Quoted? && parts[p.1].arg == p.0 && rep[p.1].Some?)
    {
      hide Quote;
      QuotesExact(parts);
      assert QuotePatches(parts)[k] in QuotePatches(parts);
    }

    /** One more quotation; the text of the token that it replaces is not looked at. */
    static lemma QuotedNext(parts: seq<Part>, args: seq<seq<Token>>, rep: Slots, k: nat)
      requires Fits(parts, args) && k < |QuotePatches(parts)| && QuotedTo(parts, args, rep, k)
      requires (var p := QuotePatches(parts)[k]; p.0 < |args| && p.1 < |parts| == |rep| && rep[p.1].Some?)
      ensures (var p := QuotePatches(parts)[k];
        QuotedTo(parts, args, rep[p.1 := Some(rep[p.1].value.(text := Quote(args[p.0])))], k + 1))
    {
      hide Quote;
      QuotedAt(parts, args, rep, k);
      var all := QuotePatches(parts);
      assert all[..k + 1] == all[..k] + [all[k]];
    }

    /** The commas before an empty variadic argument are removed. */
    method RemoveCommas(ghost parts: seq<Part>, ghost args: seq<seq<Token>>, rep0: Slots, drop: bool)
      returns (rep: Slots)
      requires Records(parts) && Fits(parts, args) && QuotedTo(parts, args, rep0, |strPatch|)
      ensures IsBase(parts, args, drop, rep)
    {
      CommasExact(parts);
      assert forall k :: 0 <= k < |varCommaPatch| ==> varCommaPatch[k] in CommaPatches(parts);
      rep := rep0;
      if drop { rep := WithHoles(rep0); }
      BaseDone(parts, args, rep0, drop, rep);
    }

    /** All quotations are made, and the commas are removed or stay. */
    static lemma BaseDone(parts: seq<Part>, args: seq<seq<Token>>, rep0: Slots, drop: bool, rep: Slots)
      requires Fits(parts, args) && QuotedTo(parts, args, rep0, |QuotePatches(parts)|) && |rep| == |rep0|
      requires forall j: nat :: j < |rep| ==> rep[j] == if drop && j in CommaPatches(parts) then None else rep0[j]
      ensures IsBase(parts, args, drop, rep)
    {
      hide Quote;
      QuotesExact(parts);
      CommasExact(parts);
      assert QuotePatches(parts)[..|QuotePatches(parts)|] == QuotePatches(parts);
      forall k | 0 <= k < |parts| ensures Fits([parts[k]], args) && rep[k] == Slot(parts[k], args, drop) {
        assert Fits([parts[k]], args) by { assert [parts[k]][0] == parts[k]; }
      }
    }

    /** The slots without the commas. */
    method WithHoles(rep0: Slots) returns (rep: Slots)
      requires forall k :: 0 <= k < |varCommaPatch| ==> varCommaPatch[k] < |rep0|
      ensures |rep| == |rep0| && forall j: nat :: j < |rep| ==> rep[j] == if j in varCommaPatch then None else rep0[j]
    {
      rep := rep0;
      for k := 0 to |varCommaPatch|
        invariant |rep| == |rep0| && forall j: nat :: j < |rep| ==>
                    rep[j] == if j in varCommaPatch[..k] then None else rep0[j]
      {
        assert varCommaPatch[..k + 1] == varCommaPatch[..k] + [varCommaPatch[k]];
        rep := rep[varCommaPatch[k] := None];
      }
      assert varCommaPatch[..|varCommaPatch|] == varCommaPatch;
    }

    lemma FitsAt(parts: seq<Part>, args: seq<seq<Token>>, k: nat)
      requires Fits(parts, args) && k < |parts|
      ensures Fits([parts[k]], args) && Fits(parts[k..], args)
    {
    }

    /**
     `macro_expand_args`: exactly the parts of the body, each replaced by what it stands for, except that an argument
     that was expanded already is pasted in its expanded form.
     */
    method ExpandArgs(ghost parts: seq<Part>, args0: seq<seq<Token>>, expand: seq<Token> -> seq<Token>)
      returns (result: seq<Token>)
      requires Records(parts) && Fits(parts, args0) && (variadic ==> args0 != [])
      ensures result == Patched(parts, args0, expand, variadic && args0[|args0| - 1] == [])
      ensures !PastedBeforeExpanded(parts) ==>
                result == Substituted(parts, args0, expand, variadic && args0[|args0| - 1] == [])
      ensures forall body ::
                Lexical(body) && (variadic ==> arglist != []) && parts == Parts(arglist, variadic, body) ==>
                  Expands(arglist, variadic, body, args0, expand, result)
    {
      var drop := variadic && args0[|args0| - 1] == [];
      var rep := Stringizations(parts, args0);
      rep := RemoveCommas(parts, args0, rep, drop);
      rep := ApplyPatches(parts, args0, expand, drop, rep);
      PatchingIsPatched(parts, args0, expand, drop);
      if !PastedBeforeExpanded(parts) { PatchedIsSubstituted(parts, args0, expand, drop); }
      result := Present(rep);
      forall body | Lexical(body) && (variadic ==> arglist != []) && parts == Parts(arglist, variadic, body)
        ensures Expands(arglist, variadic, body, args0, expand, result)
      {
        PatchedExpands(arglist, variadic, body, args0, expand);
      }
    }

    /** What was expanded so far, when the patches from part `p` on are applied: it replaced the argument itself. */
    ghost predicate ExpandedFrom(parts: seq<Part>, p: nat, args0: seq<seq<Token>>, args: seq<seq<Token>>,
                                 expanded: map<nat, seq<Token>>, expand: seq<Token> -> seq<Token>) {
      && p <= |parts| && |args| == |args0|
      && (forall n :: n in expanded <==> ExpandedIn(parts[p..], n))
      && (forall n :: n in expanded ==> n < |args0| && expanded[n] == expand(args0[n]))
      && (forall n: nat :: n < |args| ==> args[n] == if n in expanded then expand(args0[n]) else args0[n])
    }

    /** The patches, from the last to the first, in place. */
    method ApplyPatches(ghost parts: seq<Part>, args0: seq<seq<Token>>, expand: seq<Token> -> seq<Token>, drop: bool,
                        base: Slots)
      returns (rep: Slots)
      requires Records(parts) && IsBase(parts, args0, drop, base)
      ensures rep == Patching(parts, args0, expand, drop)
    {
      hide Patching, LastFirst, IsBase, ExpandedFrom, ExpandedIn, Fits;
      rep := base;
      var args, expanded: map<nat, seq<Token>> := args0, map[];
      ghost var p: nat := |parts|;
      StartOfPatches(parts, args0, expand, drop, base);
      for k := 0 to |patch|
        invariant p <= |parts| && Fits(parts[p..], args0) && patch[k..] == LastFirst(parts[..p])
        invariant ExpandedFrom(parts, p, args0, args, expanded, expand)
        invariant rep == base[..p] + Patching(parts[p..], args0, expand, drop)
      {
        ghost var q := SkipKept(parts, p, args0, expand, drop, base);
        if q == 0 { EmptyLastFirst(); }
        TopPatch(parts, q, patch[k..]);
        SkipExpanded(parts, p, q, args0, args, expanded, expand);
        assert patch[k..][0] == patch[k] && patch[k..][1..] == patch[k + 1..];
        rep, args, expanded := ApplyOne(parts, q, args0, expand, drop, base, patch[k], rep, args, expanded);
        p := q - 1;
      }
      ghost var q := SkipKept(parts, p, args0, expand, drop, base);
      NoPatch(parts, q);
      assert parts[0..] == parts && base[..0] == [];
    }

    lemma SkipExpanded(parts: seq<Part>, p: nat, q: nat, args0: seq<seq<Token>>, args: seq<seq<Token>>,
                       expanded: map<nat, seq<Token>>, expand: seq<Token> -> seq<Token>)
      requires ExpandedFrom(parts, p, args0, args, expanded, expand) && q <= p
      requires forall n :: ExpandedIn(parts[q..], n) <==> ExpandedIn(parts[p..], n)
      ensures ExpandedFrom(parts, q, args0, args, expanded, expand)
    {
      hide ExpandedIn;
    }

    lemma EmptyLastFirst()
      ensures LastFirst([]) == []
    {
    }

    lemma NoPatch(parts: seq<Part>, q: nat)
      requires q <= |parts| && LastFirst(parts[..q]) == [] && (q == 0 || IsPatched(parts[q - 1]))
      ensures q == 0
    {
      if q > 0 { TopPatch(parts, q, LastFirst(parts[..q])); }
    }

    /** One patch. */
    method ApplyOne(ghost parts: seq<Part>, ghost q: nat, ghost args0: seq<seq<Token>>,
                    expand: seq<Token> -> seq<Token>, ghost drop: bool, ghost base: Slots, ps: Patch, rep0: Slots,
                    args1: seq<seq<Token>>, expanded1: map<nat, seq<Token>>)
      returns (rep: Slots, args: seq<seq<Token>>, expanded: map<nat, seq<Token>>)
      requires IsBase(parts, args0, drop, base) && 0 < q <= |parts| && IsPatched(parts[q - 1])
      requires Fits(parts[q..], args0)
      requires ps == Patch(parts[q - 1].Expanded?, parts[q - 1].arg, q - 1)
      requires ExpandedFrom(parts, q, args0, args1, expanded1, expand)
      requires rep0 == base[..q] + Patching(parts[q..], args0, expand, drop)
      ensures ExpandedFrom(parts, q - 1, args0, args, expanded, expand) && Fits(parts[q - 1..], args0)
      ensures rep == base[..q - 1] + Patching(parts[q - 1..], args0, expand, drop)
    {
      hide Patching, IsBase, ExpandedIn, Fits, Filled;
      PatchedPart(parts, q, args0, expand, drop, base);
      ExpandedMore(parts, q);
      args, expanded := args1, expanded1;
      var argnum, i := ps.arg, ps.at;
      assert rep0[..i] == base[..i] && rep0[i + 1..] == Patching(parts[q..], args0, expand, drop);
      if !ps.expand {
        rep := rep0[..i] + Filled(args[argnum]) + rep0[i + 1..];
      } else {
        if argnum !in expanded {
          args := args[argnum := expand(args[argnum])];
          expanded := expanded[argnum := args[argnum]];
        }
        rep := rep0[..i] + Filled(expanded[argnum]) + rep0[i + 1..];
      }
    }

    /** The slots of the last part that is patched. */
    lemma PatchedPart(parts: seq<Part>, q: nat, args: seq<seq<Token>>, expand: seq<Token> -> seq<Token>, drop: bool,
                      base: Slots)
      requires IsBase(parts, args, drop, base) && 0 < q <= |parts| && IsPatched(parts[q - 1])
      ensures |base| == |parts| && parts[q - 1].arg < |args| && Fits(parts[q..], args) && Fits(parts[q - 1..], args)
      ensures (var arg := parts[q - 1].arg;
        var ts := if parts[q - 1].Expanded? || ExpandedIn(parts[q..], arg) then expand(args[arg]) else args[arg];
        Patching(parts[q - 1..], args, expand, drop) == Filled(ts) + Patching(parts[q..], args, expand, drop))
    {
      assert parts[q - 1..][1..] == parts[q..];
      FitsAt(parts, args, q - 1);
    }

    lemma StartOfPatches(parts: seq<Part>, args: seq<seq<Token>>, expand: seq<Token> -> seq<Token>, drop: bool,
                         base: Slots)
      requires IsBase(parts, args, drop, base)
      ensures parts[|parts|..] == [] && parts[..|parts|] == parts && Patching([], args, expand, drop) == []
      ensures |base| == |parts|
      ensures LastFirst([]) == [] && Fits([], args)
      ensures ExpandedFrom(parts, |parts|, args, args, map[], expand)
    {
    }

    /** The first of the remaining patches is that of the last part that is patched. */
    lemma TopPatch(parts: seq<Part>, q: nat, ps: seq<Patch>)
      requires 0 < q <= |parts| && IsPatched(parts[q - 1]) && ps == LastFirst(parts[..q])
      ensures ps != [] && ps[0] == Patch(parts[q - 1].Expanded?, parts[q - 1].arg, q - 1)
      ensures ps[1..] == LastFirst(parts[..q - 1])
    {
      assert parts[..q][..q - 1] == parts[..q - 1];
    }
  }
}
