/**
 What the lookaheads are, without the relations: those of canonical LR(1), where all that ends in one state of the LR(0)
 automaton is put together. The relations of DeRemer and Pennello give exactly these; `includes`, as the source computes
 it, gives these and possibly more.
 */
module LalrExactness {
  import opened Wrappers
  import opened Grammars
  import opened FirstSets
  import opened FollowSets
  import opened LR0Items
  import opened LR0Paths
  import opened Digraph
  import opened Trees
  import opened LRParser
  import opened LalrRelations
  import opened LalrGenerator
  import opened LRTables
  import opened LRCompleteness
  import opened LRAcyclic
  import opened GrammarAnalysis

  // ----- Canonical LR(1) -----

  /** How an item and its lookahead come about along a path of the automaton. */
  datatype Lr1 = Begin | Move(before: Lr1) | Predict(before: Lr1, number: nat, ahead: Symbol)

  function ItemOf(v: Lr1): Item {
    match v
    case Begin => Item(0, 0)
    case Move(before) => Item(ItemOf(before).number, ItemOf(before).dot + 1)
    case Predict(_, number, _) => Item(number, 0)
  }

  function AheadOf(v: Lr1): Symbol {
    match v
    case Begin => END
    case Move(before) => AheadOf(before)
    case Predict(_, _, ahead) => ahead
  }

  /** The symbol after the dot, if there is one. */
  function SymbolAt(g: Grammar, i: Item): Symbol {
    if i.number < |g.productions| && i.dot < |g.productions[i.number].prod| then g.productions[i.number].prod[i.dot]
    else EMPTY
  }

  /** The end of the path. */
  function StateOf(g: Grammar, a: Automaton, v: Lr1): nat {
    match v
    case Begin => 0
    case Move(before) =>
      var t := (StateOf(g, a, before), SymbolAt(g, ItemOf(before)));
      if t in a.goto then a.goto[t] else 0
    case Predict(before, _, _) => StateOf(g, a, before)
  }

  /** A sentence of terminals of the grammar that begins with `x`. */
  predicate Leads(g: Grammar, x: Symbol, w: seq<Symbol>) {
    w != [] && w[0] == x && forall k :: 0 <= k < |w| ==> w[k] in g.terminals
  }

  /** What `gamma` derives begins with `x`; or `gamma` vanishes, and `x` is what follows. */
  ghost predicate NextIs(g: Grammar, gamma: seq<Symbol>, follows: Symbol, x: Symbol) {
    (x == follows && Derives(g, gamma, [])) || exists w :: Leads(g, x, w) && Derives(g, gamma, w)
  }

  ghost predicate IsLr1(g: Grammar, a: Automaton, v: Lr1) {
    match v
    case Begin => true
    case Move(before) =>
      IsLr1(g, a, before) && SymbolAt(g, ItemOf(before)) != EMPTY
      && (StateOf(g, a, before), SymbolAt(g, ItemOf(before))) in a.goto
    case Predict(before, number, ahead) =>
      && IsLr1(g, a, before) && 1 <= number < |g.productions|
      && DotBefore(g, ItemOf(before), g.productions[number].name)
      && NextIs(g, Rest(g, ItemOf(before))[1..], AheadOf(before), ahead)
  }

  /** `x` is an LALR(1) lookahead of the item in the state. */
  ghost predicate IsLalr1(g: Grammar, a: Automaton, s: nat, i: Item, x: Symbol) {
    exists v :: IsLr1(g, a, v) && StateOf(g, a, v) == s && ItemOf(v) == i && AheadOf(v) == x
  }

  // ----- The relation `includes`, from the beginning of productions -----

  /** `includes` as DeRemer and Pennello define it: the production begins where the larger transition does. */
  ghost predicate Includes0(g: Grammar, a: Automaton, nullable: set<Symbol>, y: Trans, z: Trans) {
    exists i: Item, k: nat :: i.dot == 0 && IncludedAt(g, a, nullable, y, z, i, k)
  }

  ghost predicate Followed0By(k: Parser, p: seq<Trans>, x: Symbol)
    requires WellFormed(k.g)
  {
    && p != [] && (forall i :: 0 <= i < |p| ==> p[i] in k.f.trans)
    && (forall i :: 0 <= i < |p| - 1 ==> Includes0(k.g, k.a, k.f.nullable, p[i], p[i + 1]))
    && Collected(Reads(k), p[|p| - 1], x)
  }

  /** What follows a transition through chains of that relation. */
  ghost predicate Followed0(k: Parser, t: Trans, x: Symbol)
    requires WellFormed(k.g)
  {
    exists p :: p != [] && p[0] == t && Followed0By(k, p, x)
  }

  lemma ReadIsFollowed0(k: Parser, t: Trans, x: Symbol)
    requires WellFormed(k.g) && t in k.f.trans && Collected(Reads(k), t, x)
    ensures Followed0(k, t, x)
  {
    hide Collected, Reads;
    assert Followed0By(k, [t], x);
  }

  lemma IncludedIsFollowed0(k: Parser, t: Trans, z: Trans, x: Symbol)
    requires WellFormed(k.g) && t in k.f.trans && Includes0(k.g, k.a, k.f.nullable, t, z) && Followed0(k, z, x)
    ensures Followed0(k, t, x)
  {
    hide Collected, Reads, Includes0;
    var p :| p != [] && p[0] == z && Followed0By(k, p, x);
    var p' := [t] + p;
    forall i | 0 <= i < |p'| - 1 ensures Includes0(k.g, k.a, k.f.nullable, p'[i], p'[i + 1]) {
      if i > 0 {
        assert Includes0(k.g, k.a, k.f.nullable, p[i - 1], p[i - 1 + 1]);
      }
    }
    assert Followed0By(k, p', x);
  }

  // ----- What is valid is followed -----

  /** Where the production of an item began. */
  ghost predicate BeganAt(k: Parser, v: Lr1, s0: nat)
    requires WellFormed(k.g)
  {
    var i := ItemOf(v);
    && s0 < |k.a.states| && 1 <= i.number < |k.g.productions| && i.dot <= |k.g.productions[i.number].prod|
    && Item(i.number, 0) in k.a.states[s0]
    && Arrival(k.a, s0, k.g.productions[i.number].prod[..i.dot]) == Some(StateOf(k.g, k.a, v))
    && (s0, k.g.productions[i.number].name) in k.f.trans
    && Followed0(k, (s0, k.g.productions[i.number].name), AheadOf(v))
  }

  lemma SymbolIs(g: Grammar, i: Item)
    requires WellFormed(g) && SymbolAt(g, i) != EMPTY
    ensures IsItem(g, i) && DotBefore(g, i, SymbolAt(g, i))
  {
  }

  /** A forest without tokens over what derives the empty form. */
  lemma VanishingForest(k: Parser, xs: seq<Symbol>)
    requires Known(k) && Derives(k.g, xs, [])
    ensures AllNullable(k.f.nullable, xs)
  {
    hide WellFormed, IsAutomaton, AllTransitions, AreNullable, IsTree;
    var n: nat :| DerivesIn(k.g, xs, [], n);
    var none: seq<Token> := [];
    assert Kinds(none) == [];
    var ts := ForestOf(k.g, xs, none, n);
    EmptyForest(k, ts, xs);
  }

  lemma LeadingForest(g: Grammar, xs: seq<Symbol>, x: Symbol, w: seq<Symbol>) returns (ts: seq<Tree>)
    requires Leads(g, x, w) && Derives(g, xs, w)
    ensures AreTrees(g, ts) && Roots(g, ts) == xs && Yields(ts) != [] && Yields(ts)[0].kind == x
  {
    hide IsTree;
    var n: nat :| DerivesIn(g, xs, w, n);
    var tokens := seq(|w|, m requires 0 <= m < |w| => Token(w[m], ""));
    assert Kinds(tokens) == w;
    ts := ForestOf(g, xs, tokens, n);
  }

  /** Every item with a lookahead is in its state, and what comes after its production follows where that began. */
  lemma {:induction false} ValidIsFollowed(k: Parser, v: Lr1) returns (s0: nat)
    requires Known(k) && END !in k.g.terminals && IsLr1(k.g, k.a, v)
    ensures StateOf(k.g, k.a, v) < |k.a.states| && ItemOf(v) in k.a.states[StateOf(k.g, k.a, v)]
    ensures ItemOf(v).number > 0 ==> BeganAt(k, v, s0)
    ensures ItemOf(v).number == 0 ==> AheadOf(v) == END && (ItemOf(v).dot == 0 ==> StateOf(k.g, k.a, v) == 0)
    decreases v
  {
    hide IsAutomaton, WellFormed, AllTransitions, AreNullable, Arrival, Followed0, NextIs;
    match v
    case Begin =>
      s0 := 0;
      StartInState(k);
    case Move(before) =>
      s0 := ValidIsFollowed(k, before);
      var i, x := ItemOf(before), SymbolAt(k.g, ItemOf(before));
      SymbolIs(k.g, i);
      ItemMoves(k.g, k.a, StateOf(k.g, k.a, before), i, x);
      var prod := k.g.productions[i.number].prod;
      assert prod[..i.dot + 1] == prod[..i.dot] + [x];
      if i.number > 0 {
        ArrivalStep(k.a, s0, prod[..i.dot], x);
      }
    case Predict(before, number, ahead) =>
      var s1 := ValidIsFollowed(k, before);
      s0 := StateOf(k.g, k.a, before);
      PredictedIsFollowed(k, before, number, ahead, s1);
  }

  lemma StartInState(k: Parser)
    requires Known(k)
    ensures 0 < |k.a.states| && Item(0, 0) in k.a.states[0]
  {
    hide IsClosure, EnteredFromBelow;
    ClosureHasKernel(k.g, [Item(0, 0)], k.a.states[0], Item(0, 0));
  }

  lemma TransitionHere(k: Parser, s: nat, i: Item, q: nat)
    requires Known(k) && s < |k.a.states| && i in k.a.states[s] && 1 <= q < |k.g.productions|
    requires DotBefore(k.g, i, k.g.productions[q].name)
    ensures (s, k.g.productions[q].name) in k.f.trans && (s, k.g.productions[q].name) in k.a.goto
    ensures k.a.goto[(s, k.g.productions[q].name)] < |k.a.states|
    ensures Item(i.number, i.dot + 1) in k.a.states[k.a.goto[(s, k.g.productions[q].name)]]
    ensures Item(q, 0) in k.a.states[s]
  {
    hide IsAutomaton, WellFormed;
    ItemMoves(k.g, k.a, s, i, k.g.productions[q].name);
    NameIsNonterminal(k.g, q);
    ChildPredicted(k.g, k.a, s, i, q);
  }

  lemma PredictedIsFollowed(k: Parser, before: Lr1, q: nat, x: Symbol, s1: nat)
    requires Known(k) && END !in k.g.terminals && IsLr1(k.g, k.a, Predict(before, q, x))
    requires StateOf(k.g, k.a, before) < |k.a.states| && ItemOf(before) in k.a.states[StateOf(k.g, k.a, before)]
    requires ItemOf(before).number > 0 ==> BeganAt(k, before, s1)
    requires ItemOf(before).number == 0 ==>
               AheadOf(before) == END && (ItemOf(before).dot == 0 ==> StateOf(k.g, k.a, before) == 0)
    ensures BeganAt(k, Predict(before, q, x), StateOf(k.g, k.a, before))
    ensures Item(q, 0) in k.a.states[StateOf(k.g, k.a, before)]
  {
    hide IsAutomaton, WellFormed, AllTransitions, AreNullable, Arrival, Followed0, Collected;
    var s, i := StateOf(k.g, k.a, before), ItemOf(before);
    var z: Trans := (s, k.g.productions[q].name);
    var gamma := Rest(k.g, i)[1..];
    TransitionHere(k, s, i, q);
    assert gamma == k.g.productions[i.number].prod[i.dot + 1..];
    assert k.g.productions[q].prod[..0] == [];
    ArrivalNone(k.a, s);
    if w :| Leads(k.g, x, w) && Derives(k.g, gamma, w) {
      var ts := LeadingForest(k.g, gamma, x, w);
      ForestReads(k, z, i.number, i.dot + 1, ts);
      ReadIsFollowed0(k, z, x);
    } else {
      VanishingForest(k, gamma);
      if i.number == 0 {
        EndAfterStart(k, i, z);
        ReadIsFollowed0(k, z, x);
      } else {
        NameIsNonterminal(k.g, q);
        var z': Trans := (s1, k.g.productions[i.number].name);
        assert IncludedAt(k.g, k.a, k.f.nullable, z, z', Item(i.number, 0), i.dot) by {
          assert k.g.productions[i.number].prod[0..i.dot] == k.g.productions[i.number].prod[..i.dot];
        }
        IncludedIsFollowed0(k, z, z', x);
      }
    }
  }

  lemma ArrivalNone(a: Automaton, s: nat)
    ensures Arrival(a, s, []) == Some(s)
  {
  }

  lemma EndAfterStart(k: Parser, i: Item, z: Trans)
    requires Known(k) && i.number == 0 && DotBefore(k.g, i, z.1) && (i.dot == 0 ==> z.0 == 0)
    ensures Collected(Reads(k), z, END)
  {
    hide Collected, IsAutomaton;
    assert z == (0, StartSymbol(k.g));
    assert END in Direct(k.g, k.a, z);
    ReachesSelf(Reads(k), z);
    CollectedIn(Reads(k), z, z, END);
  }

  // ----- What is followed is valid -----

  lemma RestDerives(g: Grammar, q: nat, d: nat) returns (w: seq<Symbol>)
    requires Productive(g) && q < |g.productions| && d <= |g.productions[q].prod|
    ensures Derives(g, g.productions[q].prod[d..], w) && forall m :: 0 <= m < |w| ==> w[m] in g.terminals
    decreases |g.productions[q].prod| - d
  {
    hide Derives;
    var prod := g.productions[q].prod;
    if d == |prod| {
      w := [];
      assert prod[d..] == [];
      DerivesSelf(g, []);
    } else {
      var tail := RestDerives(g, q, d + 1);
      assert Ends(g, prod[d]);
      var v :| Derives(g, [prod[d]], v) && forall i :: 0 <= i < |v| ==> v[i] in g.terminals;
      DerivesBoth(g, [prod[d]], v, prod[d + 1..], tail);
      w := v + tail;
      assert prod[d..] == [prod[d]] + prod[d + 1..];
    }
  }

  /** What can be predicted is valid with some lookahead. */
  lemma SomePredict(k: Parser, v: Lr1, q: nat) returns (v': Lr1)
    requires Known(k) && Productive(k.g) && IsLr1(k.g, k.a, v) && 1 <= q < |k.g.productions|
    requires DotBefore(k.g, ItemOf(v), k.g.productions[q].name)
    ensures IsLr1(k.g, k.a, v') && StateOf(k.g, k.a, v') == StateOf(k.g, k.a, v) && ItemOf(v') == Item(q, 0)
  {
    hide Derives, Productive, WellFormed, IsAutomaton;
    var i := ItemOf(v);
    var w := RestDerives(k.g, i.number, i.dot + 1);
    assert Rest(k.g, i)[1..] == k.g.productions[i.number].prod[i.dot + 1..];
    if w == [] {
      v' := Predict(v, q, AheadOf(v));
    } else {
      v' := Predict(v, q, w[0]);
      assert Leads(k.g, w[0], w);
    }
  }

  lemma {:induction false} SomePredicts(k: Parser, v: Lr1, p: seq<nat>) returns (v': Lr1)
    requires Known(k) && Productive(k.g) && IsLr1(k.g, k.a, v)
    requires IsPath(Predictions(k.g), p) && p[0] in After(k.g, ItemOf(v))
    ensures IsLr1(k.g, k.a, v') && StateOf(k.g, k.a, v') == StateOf(k.g, k.a, v) && ItemOf(v') == Item(p[|p| - 1], 0)
    decreases |p|
  {
    hide Known, Productive;
    var u := SomePredict(k, v, p[0]);
    if |p| == 1 {
      v' := u;
    } else {
      assert p[1] in Predictions(k.g).related(p[0]);
      assert PathBetween(Predictions(k.g), p, p[0], p[|p| - 1]);
      PathTail(Predictions(k.g), p, p[0], p[|p| - 1]);
      v' := SomePredicts(k, u, p[1..]);
    }
  }

  /** Where an item with its dot in front comes from. */
  lemma HeadOrigin(k: Parser, s: nat, q: nat) returns (i: Item, p: seq<nat>)
    requires Known(k) && s < |k.a.states| && Item(q, 0) in k.a.states[s] && q > 0
    ensures i in k.a.states[s] && (i.dot > 0 || (i.number == 0 && s == 0)) && IsPath(Predictions(k.g), p)
    ensures p[0] in After(k.g, i) && p[|p| - 1] == q
  {
    hide IsClosure, Kernel, IsItemSet;
    StatesAreItemSets(k.g, k.a, s);
    if s == 0 {
      i, p := OriginIn(k.g, [Item(0, 0)], k.a.states[0], q);
    } else {
      assert EnteredFromBelow(k.a, s);
      var s', x :| s' < s && (s', x) in k.a.goto && k.a.goto[(s', x)] == s;
      i, p := OriginIn(k.g, Kernel(k.g, k.a.states[s'], x), k.a.states[s], q);
    }
  }

  lemma EnteredLower(k: Parser, s: nat, i: Item) returns (s': nat)
    requires Known(k) && s < |k.a.states| && i in k.a.states[s] && i.dot > 0
    ensures s' < s && Item(i.number, i.dot - 1) in k.a.states[s'] && SymbolAt(k.g, Item(i.number, i.dot - 1)) != EMPTY
    ensures (s', SymbolAt(k.g, Item(i.number, i.dot - 1))) in k.a.goto
    ensures k.a.goto[(s', SymbolAt(k.g, Item(i.number, i.dot - 1)))] == s
  {
    hide IsAutomaton, AllTransitions, AreNullable;
    var x;
    s', x := ItemEntered(k.g, k.a, s, i);
    SymbolNotEmpty(k.g, Item(i.number, i.dot - 1));
  }

  lemma SymbolNotEmpty(g: Grammar, i: Item)
    requires WellFormed(g) && IsItem(g, i) && !IsComplete(g, i)
    ensures SymbolAt(g, i) != EMPTY
  {
    var p := g.productions[i.number];
    if i.number > 0 { assert IsRule(g, p); }
    assert IsForm(g, p.prod);
    assert IsSymbol(g, p.prod[i.dot]);
  }

  /** Every item of every state is valid with some lookahead. */
  lemma {:induction false} SomeValid(k: Parser, s: nat, i: Item) returns (v: Lr1)
    requires Known(k) && Productive(k.g) && s < |k.a.states| && i in k.a.states[s]
    ensures IsLr1(k.g, k.a, v) && StateOf(k.g, k.a, v) == s && ItemOf(v) == i
    decreases s, if i.dot > 0 || i.number == 0 then 0 else 1
  {
    hide Known, Productive, After;
    if i.dot > 0 {
      var s' := EnteredLower(k, s, i);
      var u := SomeValid(k, s', Item(i.number, i.dot - 1));
      v := Move(u);
    } else if i.number == 0 {
      OnlyInStart(k, s);
      v := Begin;
    } else {
      var j, p := HeadOrigin(k, s, i.number);
      var u := SomeValid(k, s, j);
      v := SomePredicts(k, u, p);
    }
  }

  lemma OnlyInStart(k: Parser, s: nat)
    requires Known(k) && s < |k.a.states| && Item(0, 0) in k.a.states[s]
    ensures s == 0
  {
    hide IsAutomaton;
    StatesAreItemSets(k.g, k.a, s);
  }

  /** The symbols of a form that a right side derives end too. */
  lemma {:induction false} FormsEnd(g: Grammar, a: seq<Symbol>, b: seq<Symbol>, n: nat)
    requires Productive(g) && DerivesIn(g, a, b, n) && forall x :: x in a ==> Ends(g, x)
    ensures forall x :: x in b ==> Ends(g, x)
    decreases n
  {
    hide Ends;
    if n > 0 {
      var c :| Step(g, a, c) && DerivesIn(g, c, b, n - 1);
      var u, p, v :| StepAt(g, a, c, u, p, v);
      var q :| 1 <= q < |g.productions| && g.productions[q] == p;
      forall x | x in c ensures Ends(g, x) {
        if x in p.prod {
          var d :| 0 <= d < |p.prod| && p.prod[d] == x;
          assert Ends(g, g.productions[q].prod[d]);
        } else {
          assert x in u || x in v;
          assert x in a;
        }
      }
      FormsEnd(g, c, b, n - 1);
    }
  }

  lemma {:induction false} FormDerives(g: Grammar, xs: seq<Symbol>) returns (w: seq<Symbol>)
    requires forall x :: x in xs ==> Ends(g, x)
    ensures Derives(g, xs, w) && forall m :: 0 <= m < |w| ==> w[m] in g.terminals
    decreases |xs|
  {
    hide Derives;
    if xs == [] {
      w := [];
      DerivesSelf(g, []);
    } else {
      var tail := FormDerives(g, xs[1..]);
      assert Ends(g, xs[0]);
      var v :| Derives(g, [xs[0]], v) && forall i :: 0 <= i < |v| ==> v[i] in g.terminals;
      DerivesBoth(g, [xs[0]], v, xs[1..], tail);
      w := v + tail;
      assert [xs[0]] + xs[1..] == xs;
    }
  }

  /** What a rest of a right side begins with, a sentence from it begins with. */
  lemma BeginsLeads(g: Grammar, q: nat, d: nat, x: Symbol) returns (w: seq<Symbol>)
    requires WellFormed(g) && Productive(g) && q < |g.productions| && d <= |g.productions[q].prod|
    requires x != EMPTY && Begins(g, g.productions[q].prod[d..], x)
    ensures Leads(g, x, w) && Derives(g, g.productions[q].prod[d..], w)
  {
    hide Derives, Ends;
    var gamma := g.productions[q].prod[d..];
    var rest :| Derives(g, gamma, [x] + rest);
    forall y | y in gamma ensures Ends(g, y) {
      var m :| 0 <= m < |gamma| && gamma[m] == y;
      assert Ends(g, g.productions[q].prod[d + m]);
    }
    var n: nat := StepsOf(g, gamma, [x] + rest);
    FormsEnd(g, gamma, [x] + rest, n);
    assert ([x] + rest)[0] == x && Ends(g, x);
    assert forall y :: y in rest ==> y in [x] + rest;
    var tail := FormDerives(g, rest);
    TerminalEnds(g, x);
    DerivesSelf(g, [x]);
    DerivesBoth(g, [x], [x], rest, tail);
    DerivesTransitive(g, gamma, [x] + rest, [x] + tail);
    w := [x] + tail;
  }

  lemma StepsOf(g: Grammar, a: seq<Symbol>, b: seq<Symbol>) returns (n: nat)
    requires Derives(g, a, b)
    ensures DerivesIn(g, a, b, n)
  {
    n :| DerivesIn(g, a, b, n);
  }

  /** A terminal derives itself only, so one that ends is a terminal of the grammar. */
  lemma TerminalEnds(g: Grammar, x: Symbol)
    requires WellFormed(g) && IsTerminal(g, x) && Ends(g, x)
    ensures x in g.terminals
  {
    var w :| Derives(g, [x], w) && forall i :: 0 <= i < |w| ==> w[i] in g.terminals;
    var n: nat :| DerivesIn(g, [x], w, n);
    NoStepFrom(g, x);
    assert n == 0 && w[0] == x;
  }

  lemma NoStepFrom(g: Grammar, x: Symbol)
    requires WellFormed(g) && IsTerminal(g, x)
    ensures forall c :: !Step(g, [x], c)
  {
    forall c, u, p, v ensures !StepAt(g, [x], c, u, p, v) {
      if StepAt(g, [x], c, u, p, v) { OnlyElement(x, u, p.name, v); }
    }
  }

  lemma OnlyElement(x: Symbol, u: seq<Symbol>, y: Symbol, v: seq<Symbol>)
    requires [x] == u + [y] + v
    ensures y == x
  {
    assert (u + [y] + v)[|u|] == y && |u| + 1 + |v| == 1;
  }

  /** The tables of the analyses, for the grammar of `k`. */
  ghost predicate HasTables(k: Parser, first: Table, follow: Table) {
    Context(k.g, k.a, first, follow, k.f.nullable) && FirstSets.Sound(k.g, first)
  }

  /** What is read behind a transition comes next in some item that moves over it. */
  lemma ReadIsValid(k: Parser, first: Table, follow: Table, z: Trans, x: Symbol, q: nat) returns (v: Lr1)
    requires Known(k) && Productive(k.g) && HasTables(k, first, follow) && z in k.f.trans && Collected(Reads(k), z, x)
    requires 1 <= q < |k.g.productions| && k.g.productions[q].name == z.1
    ensures IsLr1(k.g, k.a, v) && StateOf(k.g, k.a, v) == z.0 && ItemOf(v) == Item(q, 0) && AheadOf(v) == x
  {
    hide WellFormed, IsAutomaton, FollowClosed, FirstReady, CanRead, Direct, Productive, Derives, FirstSets.Sound,
         AreNullable, Reads, NextIs;
    var j := ReadItem(k, first, follow, z, x);
    var u := SomeValid(k, z.0, j);
    v := Predict(u, q, x);
  }

  lemma ReadItem(k: Parser, first: Table, follow: Table, z: Trans, x: Symbol) returns (j: Item)
    requires Known(k) && Productive(k.g) && HasTables(k, first, follow) && z in k.f.trans && Collected(Reads(k), z, x)
    ensures z.0 < |k.a.states| && j in k.a.states[z.0] && DotBefore(k.g, j, z.1)
    ensures forall follows :: (j == Item(0, 0) ==> follows == END) ==> NextIs(k.g, Rest(k.g, j)[1..], follows, x)
  {
    hide IsAutomaton, FollowClosed, FirstReady, CanRead, Direct, Productive, Derives, FirstSets.Sound, AreNullable,
         IsClosure, Kernel, IsItemSet, ItemReads, Begins;
    var y :| Reaches(Reads(k), z, y) && x in Direct(k.g, k.a, y);
    var p :| PathBetween(Reads(k), p, z, y);
    ReadsPath(k.g, k.a, first, follow, k.f.nullable, k.f.trans, p, x);
    AcrossTransition(k.g, k.a, z);
    if k.a.goto[z] < |k.a.states| && CanRead(k.g, k.a.states[k.a.goto[z]], first, x) {
      KernelReads(k.g, first, Kernel(k.g, k.a.states[z.0], z.1), k.a.states[k.a.goto[z]], x);
      var m :| m in Kernel(k.g, k.a.states[z.0], z.1) && ItemReads(k.g, first, m, x);
      j := Item(m.number, m.dot - 1);
      ItemBegins(k.g, first, m, x, k.a.states[k.a.goto[z]]);
      var w := BeginsLeads(k.g, m.number, m.dot, x);
      assert Rest(k.g, j)[1..] == k.g.productions[m.number].prod[m.dot..];
    } else {
      StartInState(k);
      j := Item(0, 0);
      assert Rest(k.g, j)[1..] == [];
      DerivesSelf(k.g, []);
    }
  }

  lemma ItemBegins(g: Grammar, first: Table, m: Item, x: Symbol, items: seq<Item>)
    requires WellFormed(g) && FirstSets.Sound(g, first) && ItemReads(g, first, m, x) && CanRead(g, items, first, x)
    ensures IsItem(g, m) && x != EMPTY && Begins(g, g.productions[m.number].prod[m.dot..], x)
  {
    hide FirstSets.Sound, InFirst, Begins;
    InFirstSound(g, first, Rest(g, m), x);
  }

  /** An item moves along its production. */
  lemma {:induction false} MovesAlong(k: Parser, v: Lr1, d: nat) returns (v': Lr1)
    requires Known(k) && IsLr1(k.g, k.a, v) && StateOf(k.g, k.a, v) < |k.a.states|
    requires ItemOf(v) in k.a.states[StateOf(k.g, k.a, v)] && ItemOf(v).dot == 0 && IsItem(k.g, ItemOf(v))
    requires d <= |k.g.productions[ItemOf(v).number].prod|
    ensures IsLr1(k.g, k.a, v') && ItemOf(v') == Item(ItemOf(v).number, d) && AheadOf(v') == AheadOf(v)
    ensures Arrival(k.a, StateOf(k.g, k.a, v), k.g.productions[ItemOf(v).number].prod[..d])
         == Some(StateOf(k.g, k.a, v'))
    ensures StateOf(k.g, k.a, v') < |k.a.states| && ItemOf(v') in k.a.states[StateOf(k.g, k.a, v')]
    decreases d
  {
    hide WellFormed, IsAutomaton, AllTransitions, AreNullable;
    var s, i := StateOf(k.g, k.a, v), ItemOf(v);
    var prod := k.g.productions[i.number].prod;
    if d == 0 {
      v' := v;
      assert prod[..0] == [];
    } else {
      var u := MovesAlong(k, v, d - 1);
      var before := Item(i.number, d - 1);
      SymbolNotEmpty(k.g, before);
      ItemMoves(k.g, k.a, StateOf(k.g, k.a, u), before, prod[d - 1]);
      v' := Move(u);
      assert prod[..d] == prod[..d - 1] + [prod[d - 1]];
      ArrivalStep(k.a, s, prod[..d - 1], prod[d - 1]);
    }
  }

  lemma {:induction false} FollowedIsValid(k: Parser, first: Table, follow: Table, p: seq<Trans>, x: Symbol, q: nat)
    returns (v: Lr1)
    requires Known(k) && Productive(k.g) && HasTables(k, first, follow) && Followed0By(k, p, x)
    requires 1 <= q < |k.g.productions| && k.g.productions[q].name == p[0].1
    ensures IsLr1(k.g, k.a, v) && StateOf(k.g, k.a, v) == p[0].0 && ItemOf(v) == Item(q, 0) && AheadOf(v) == x
    decreases |p|
  {
    hide WellFormed, IsAutomaton, Productive, Context, FirstSets.Sound, Collected, Reads, AreNullable, AllTransitions,
         Includes0, Arrival, Derives;
    if |p| == 1 {
      v := ReadIsValid(k, first, follow, p[0], x, q);
    } else {
      assert Includes0(k.g, k.a, k.f.nullable, p[0], p[1]) by { assert 0 < |p| - 1; }
      Followed0Tail(k, p, x);
      v := IncludedIsValid(k, first, follow, p, x, q);
    }
  }

  lemma Followed0Tail(k: Parser, p: seq<Trans>, x: Symbol)
    requires WellFormed(k.g) && Followed0By(k, p, x) && |p| > 1
    ensures Followed0By(k, p[1..], x)
  {
    hide Includes0, Collected, Reads;
    forall i | 0 <= i < |p[1..]| - 1 ensures Includes0(k.g, k.a, k.f.nullable, p[1..][i], p[1..][i + 1]) {
      assert Includes0(k.g, k.a, k.f.nullable, p[i + 1], p[i + 1 + 1]);
    }
  }

  lemma {:induction false} IncludedIsValid(k: Parser, first: Table, follow: Table, p: seq<Trans>, x: Symbol, q: nat)
    returns (v: Lr1)
    requires Known(k) && Productive(k.g) && HasTables(k, first, follow) && |p| > 1 && Followed0By(k, p[1..], x)
    requires Includes0(k.g, k.a, k.f.nullable, p[0], p[1])
    requires 1 <= q < |k.g.productions| && k.g.productions[q].name == p[0].1
    ensures IsLr1(k.g, k.a, v) && StateOf(k.g, k.a, v) == p[0].0 && ItemOf(v) == Item(q, 0) && AheadOf(v) == x
    decreases |p|, 0
  {
    hide WellFormed, IsAutomaton, Productive, Context, FirstSets.Sound, Collected, Reads, AreNullable, AllTransitions,
         Arrival, Derives, Followed0By;
    var i: Item, d: nat :| i.dot == 0 && IncludedAt(k.g, k.a, k.f.nullable, p[0], p[1], i, d);
    var prod := k.g.productions[i.number].prod;
    assert prod[0..d] == prod[..d];
    NotAugmented(k, i, p[1], p[1..], x);
    var u := FollowedIsValid(k, first, follow, p[1..], x, i.number);
    var m := MovesAlong(k, u, d);
    NullableDerives(k, first, follow, prod[d + 1..]);
    assert Rest(k.g, ItemOf(m))[1..] == prod[d + 1..];
    v := Predict(m, q, x);
  }

  lemma NotAugmented(k: Parser, i: Item, z: Trans, p: seq<Trans>, x: Symbol)
    requires Known(k) && IsItem(k.g, i) && Name(k.g, i) == z.1 && Followed0By(k, p, x) && p[0] == z
    ensures 1 <= i.number
  {
    hide IsAutomaton, Collected, Reads;
    assert z in k.f.trans && z.1 in k.g.nonterminals;
  }

  lemma NullableDerives(k: Parser, first: Table, follow: Table, xs: seq<Symbol>)
    requires Known(k) && HasTables(k, first, follow) && AllNullable(k.f.nullable, xs)
    ensures Derives(k.g, xs, [])
  {
    hide IsAutomaton, FollowClosed, FirstReady, FirstSets.Sound, Derives, InFirst;
    NullableFirst(k.g, first, k.f.nullable, xs);
    InFirstSound(k.g, first, xs, EMPTY);
  }

  // ----- Lookaheads -----

  /** No production has the symbol that the source marks the dot with. */
  ghost predicate NoDotSymbol(g: Grammar) {
    forall q, d :: 0 <= q < |g.productions| && 0 <= d < |g.productions[q].prod| ==> g.productions[q].prod[d] != "."
  }

  /**
   A state in which no production goes on, other than those that begin there, for a symbol that is expected there: then
   there are no additional pairs.
   */
  ghost predicate NoneInside(g: Grammar, a: Automaton) {
    forall s, i :: 0 <= s < |a.states| && i in a.states[s] && IsItem(g, i) && i.dot > 0 ==> (s, Name(g, i)) !in a.goto
  }

  /** A dot that stands inside a production cannot be taken for a symbol. */
  ghost predicate DotsApart(g: Grammar, a: Automaton) {
    NoDotSymbol(g) || NoneInside(g, a)
  }

  /** The transition `z` is over the name of the complete item `r` of `j`, where its production begins on the way. */
  ghost predicate BeginsAt(k: Parser, j: nat, r: Item, z: Trans)
    requires WellFormed(k.g)
  {
    && 1 <= r.number < |k.g.productions| && z.0 < |k.a.states| && k.g.productions[r.number].name == z.1
    && Item(r.number, 0) in k.a.states[z.0] && Arrival(k.a, z.0, k.g.productions[r.number].prod) == Some(j)
    && j < |k.a.states| && r in k.a.states[j]
  }

  /** A lookahead, going by the relations `lookback` and `includes` of DeRemer and Pennello. */
  ghost predicate IsLookahead0(k: Parser, j: nat, r: Item, x: Symbol)
    requires WellFormed(k.g)
  {
    exists z :: z in k.f.trans && BeginsAt(k, j, r, z) && Followed0(k, z, x)
  }

  /** The source looks back to the beginning of a production, and to no other place if dots are apart from symbols. */
  lemma LooksToBeginning(k: Parser, j: nat, r: Item, z: Trans)
    requires Known(k) && z in k.f.trans && IsItem(k.g, r) && IsComplete(k.g, r)
    ensures BeginsAt(k, j, r, z) ==> LooksBack(k.g, k.a, j, r, z)
    ensures DotsApart(k.g, k.a) && LooksBack(k.g, k.a, j, r, z) ==> BeginsAt(k, j, r, z)
  {
    hide IsAutomaton, Arrival, AreNullable, NoDotSymbol, NoneInside;
    if BeginsAt(k, j, r, z) {
      var prod := k.g.productions[r.number].prod;
      assert prod[0..] == prod;
      BeginningCompares(k.g, r);
      assert LooksBackAt(k.g, k.a, j, r, z, Item(r.number, 0));
    }
    if DotsApart(k.g, k.a) && LooksBack(k.g, k.a, j, r, z) { LooksBackOnly(k, j, r, z); }
  }

  lemma LooksBackOnly(k: Parser, j: nat, r: Item, z: Trans)
    requires Known(k) && z in k.f.trans && IsItem(k.g, r) && IsComplete(k.g, r)
    requires DotsApart(k.g, k.a) && LooksBack(k.g, k.a, j, r, z)
    ensures BeginsAt(k, j, r, z)
  {
    hide IsAutomaton, Arrival, AreNullable;
    var i :| LooksBackAt(k.g, k.a, j, r, z, i);
    var p, p' := k.g.productions[r.number].prod, k.g.productions[i.number].prod;
    assert i.dot == 0 by {
      if i.dot > 0 {
        DotAmong(k.g, i, r);
        assert false;
      }
    }
    assert p == p' by {
      forall d | 0 <= d < |p| ensures p[d] == p'[d] {
        assert Dotted(k.g, r)[d] == Dotted(k.g, i)[d + 1];
      }
    }
    assert p'[0..] == p';
    var over := ItemOver(k.g, k.a, z.0, z.1);
    NamedByRule(k.g, r.number, z.1);
    ChildPredicted(k.g, k.a, z.0, over, r.number);
  }

  /** The dot of an item inside its production is compared with a symbol. */
  lemma DotAmong(g: Grammar, i: Item, r: Item)
    requires Compares(g, i, r) && IsComplete(g, r) && i.dot > 0
    ensures g.productions[r.number].prod[i.dot - 1] == "."
  {
    assert Dotted(g, r)[i.dot - 1] == Dotted(g, i)[i.dot - 1 + 1];
  }

  lemma NamedByRule(g: Grammar, q: nat, n: Symbol)
    requires WellFormed(g) && q < |g.productions| && g.productions[q].name == n && n in g.nonterminals
    ensures 1 <= q
  {
  }

  /**
   DeRemer and Pennello's theorem: the relations give a complete item exactly the lookaheads that canonical LR(1) gives
   it somewhere on the way to its state.
   */
  lemma RelationsExact(k: Parser, first: Table, follow: Table, j: nat, r: Item, x: Symbol)
    requires Known(k) && Productive(k.g) && HasTables(k, first, follow) && END !in k.g.terminals
    requires IsItem(k.g, r) && IsComplete(k.g, r) && r.number > 0
    ensures IsLookahead0(k, j, r, x) <==> IsLalr1(k.g, k.a, j, r, x)
  {
    hide Known, Productive, HasTables, Followed0By, Arrival, IsLr1, StateOf, ItemOf, AheadOf;
    assert WellFormed(k.g) by { KnownIs(k); }
    if IsLookahead0(k, j, r, x) {
      var z :| z in k.f.trans && BeginsAt(k, j, r, z) && Followed0(k, z, x);
      var p :| p != [] && p[0] == z && Followed0By(k, p, x);
      var v := FollowedIsValid(k, first, follow, p, x, r.number);
      var prod := k.g.productions[r.number].prod;
      ItemIs(k.g, r.number);
      var v' := MovesAlong(k, v, |prod|);
      assert prod[..|prod|] == prod && r == Item(r.number, |prod|);
    }
    if IsLalr1(k.g, k.a, j, r, x) { ValidBegins(k, j, r, x); }
  }

  lemma KnownIs(k: Parser)
    requires Known(k)
    ensures WellFormed(k.g)
  {
  }

  lemma ItemIs(g: Grammar, q: nat)
    requires q < |g.productions|
    ensures IsItem(g, Item(q, 0)) && Item(q, 0).dot == 0
  {
  }

  /** The production of a valid complete item began somewhere, where it is followed by the lookahead. */
  lemma ValidBegins(k: Parser, j: nat, r: Item, x: Symbol)
    requires Known(k) && END !in k.g.terminals && IsItem(k.g, r) && IsComplete(k.g, r) && r.number > 0
    requires IsLalr1(k.g, k.a, j, r, x)
    ensures IsLookahead0(k, j, r, x)
  {
    hide IsAutomaton, AllTransitions, AreNullable, Arrival, Followed0, IsLr1, StateOf, ItemOf, AheadOf;
    var v :| IsLr1(k.g, k.a, v) && StateOf(k.g, k.a, v) == j && ItemOf(v) == r && AheadOf(v) == x;
    var s0 := ValidIsFollowed(k, v);
    var prod := k.g.productions[r.number].prod;
    assert prod[..|prod|] == prod;
    assert BeginsAt(k, j, r, (s0, k.g.productions[r.number].name));
  }

  lemma BeginningCompares(g: Grammar, r: Item)
    requires IsItem(g, r) && IsComplete(g, r)
    ensures Compares(g, Item(r.number, 0), r)
  {
  }

  // ----- The relation as the source computes it -----

  /** What the source takes for `includes` on top of it changes nothing. */
  ghost predicate HarmlessInside(k: Parser)
    requires WellFormed(k.g)
  {
    forall y, z, x ::
      y in k.f.trans && z in k.f.trans && Includes(k.g, k.a, k.f.nullable, y, z) && Followed0(k, z, x) ==>
        Followed0(k, y, x)
  }

  lemma Includes0IsIncludes(k: Parser, y: Trans, z: Trans)
    requires Includes0(k.g, k.a, k.f.nullable, y, z)
    ensures Includes(k.g, k.a, k.f.nullable, y, z)
  {
    hide IncludedAt;
  }

  /** Nothing is missed. */
  lemma FollowedAnyway(k: Parser, t: Trans, x: Symbol)
    requires WellFormed(k.g) && Followed0(k, t, x)
    ensures FollowedBySymbol(k, t, x)
  {
    hide Includes0, Includes, Collected;
    var p :| p != [] && p[0] == t && Followed0By(k, p, x);
    forall i | 0 <= i < |p| - 1 ensures Includes(k.g, k.a, k.f.nullable, p[i], p[i + 1]) {
      Includes0IsIncludes(k, p[i], p[i + 1]);
    }
    assert FollowedBy(k.g, k.a, k.f.nullable, k.f.trans, t, x, p);
  }

  lemma {:induction false} HarmlessPath(k: Parser, t: Trans, x: Symbol, p: seq<Trans>)
    requires WellFormed(k.g) && HarmlessInside(k) && FollowedBy(k.g, k.a, k.f.nullable, k.f.trans, t, x, p)
    ensures Followed0(k, t, x)
    decreases |p|
  {
    hide Includes, Collected, Followed0;
    assert p[0] in k.f.trans;
    if |p| == 1 {
      ReadIsFollowed0(k, t, x);
    } else {
      assert p[1] in k.f.trans && Includes(k.g, k.a, k.f.nullable, p[0], p[0 + 1]);
      FollowedTail(k.g, k.a, k.f.nullable, k.f.trans, t, x, p);
      HarmlessPath(k, p[1], x, p[1..]);
    }
  }

  /** The follow sets are those of DeRemer and Pennello exactly when the additional pairs are harmless. */
  lemma FollowsExactly(k: Parser)
    requires WellFormed(k.g)
    ensures (forall t, x :: t in k.f.trans ==> (FollowedBySymbol(k, t, x) <==> Followed0(k, t, x))) <==>
            HarmlessInside(k)
  {
    hide Includes, Followed0, FollowedBySymbol;
    if HarmlessInside(k) {
      forall t, x | t in k.f.trans ensures FollowedBySymbol(k, t, x) <==> Followed0(k, t, x) {
        if Followed0(k, t, x) { FollowedAnyway(k, t, x); }
        if FollowedBySymbol(k, t, x) { FollowedHarmless(k, t, x); }
      }
    }
    if forall t, x :: t in k.f.trans ==> (FollowedBySymbol(k, t, x) <==> Followed0(k, t, x)) {
      forall y, z, x |
        y in k.f.trans && z in k.f.trans && Includes(k.g, k.a, k.f.nullable, y, z) && Followed0(k, z, x)
        ensures Followed0(k, y, x)
      {
        FollowedAnyway(k, z, x);
        IncludedIsFollowed(k, y, z, x);
      }
    }
  }

  lemma FollowedHarmless(k: Parser, t: Trans, x: Symbol)
    requires WellFormed(k.g) && HarmlessInside(k) && FollowedBySymbol(k, t, x)
    ensures Followed0(k, t, x)
  {
    hide HarmlessInside, Followed0;
    var p :| FollowedBy(k.g, k.a, k.f.nullable, k.f.trans, t, x, p);
    HarmlessPath(k, t, x, p);
  }

  lemma NoneInsideHarmless(k: Parser)
    requires Known(k) && NoneInside(k.g, k.a)
    ensures HarmlessInside(k)
  {
    hide IsAutomaton, Followed0, Arrival, AreNullable;
    forall y, z, x |
      y in k.f.trans && z in k.f.trans && Includes(k.g, k.a, k.f.nullable, y, z) && Followed0(k, z, x)
      ensures Followed0(k, y, x)
    {
      var i, d :| IncludedAt(k.g, k.a, k.f.nullable, y, z, i, d);
      assert (z.0, Name(k.g, i)) in k.a.goto;
      assert i.dot == 0;
      IncludedIsFollowed0(k, y, z, x);
    }
  }

  /**
   All LALR(1) lookaheads are found, whatever the grammar; and no others, where the additional pairs are harmless and
   dots are apart from symbols.
   */
  lemma LookaheadsExact(k: Parser, first: Table, follow: Table, j: nat, r: Item, x: Symbol)
    requires Known(k) && Productive(k.g) && HasTables(k, first, follow) && END !in k.g.terminals
    requires IsItem(k.g, r) && IsComplete(k.g, r) && r.number > 0
    ensures IsLalr1(k.g, k.a, j, r, x) ==> IsLookahead(k.g, k.a, k.f.nullable, k.f.trans, j, r, x)
    ensures HarmlessInside(k) && DotsApart(k.g, k.a) && IsLookahead(k.g, k.a, k.f.nullable, k.f.trans, j, r, x) ==>
              IsLalr1(k.g, k.a, j, r, x)
  {
    hide Productive, HasTables, IsLalr1, LooksBack, BeginsAt, HarmlessInside, Followed0, IsAutomaton, AreNullable,
         DotsApart;
    RelationsExact(k, first, follow, j, r, x);
    if IsLookahead0(k, j, r, x) {
      var z :| z in k.f.trans && BeginsAt(k, j, r, z) && Followed0(k, z, x);
      LooksToBeginning(k, j, r, z);
      FollowedAnyway(k, z, x);
    }
    if HarmlessInside(k) && DotsApart(k.g, k.a) && IsLookahead(k.g, k.a, k.f.nullable, k.f.trans, j, r, x) {
      var z :| z in k.f.trans && LooksBack(k.g, k.a, j, r, z)
               && Followed(k.g, k.a, k.f.nullable, k.f.trans, z, x);
      LooksToBeginning(k, j, r, z);
      FollowedHarmless(k, z, x);
    }
  }

  // ----- What the generator finds -----

  lemma TablesOf(k: Parser, an: Analysis)
    requires Known(k) && an.g == k.g && an.FirstDone() && |k.g.productions| > 1
    requires FollowClosed(k.g, an.First, an.Follow, k.g.productions[1].name)
    ensures HasTables(k, an.First, an.Follow)
  {
    hide IsAutomaton, FollowClosed, AllTransitions;
    forall x | x in k.f.nullable ensures x in k.g.nonterminals && EMPTY in an.First[x] {
      FirstExact(k.g, an.First, [x], EMPTY);
      assert [x][1..] == [];
    }
  }

  /** The lookaheads in `la` of the complete items include those of LALR(1). */
  ghost predicate HasLalr1(g: Grammar, a: Automaton, la: map<(nat, Item), seq<Symbol>>) {
    forall j, r, x :: IsItem(g, r) && IsComplete(g, r) && r.number > 0 && IsLalr1(g, a, j, r, x) ==> Has(la, (j, r), x)
  }

  /** They are no others. */
  ghost predicate OnlyLalr1(g: Grammar, a: Automaton, la: map<(nat, Item), seq<Symbol>>) {
    forall j, r, x :: IsItem(g, r) && IsComplete(g, r) && r.number > 0 && Has(la, (j, r), x) ==> IsLalr1(g, a, j, r, x)
  }

  /**
   The generator finds all LALR(1) lookaheads; and no others, if its lists and the additional pairs are harmless and
   dots are apart from symbols.
   */
  lemma FoundExactly(k: Parser, an: Analysis)
    requires Known(k) && an.g == k.g && an.FirstDone() && |k.g.productions| > 1
    requires FollowClosed(k.g, an.First, an.Follow, k.g.productions[1].name)
    requires Productive(k.g) && END !in k.g.terminals && Enough(k.g, k.a, k.f)
    ensures HasLalr1(k.g, k.a, k.f.la)
    ensures Exact(k.g, k.a, k.f) && HarmlessInside(k) && DotsApart(k.g, k.a) ==> OnlyLalr1(k.g, k.a, k.f.la)
  {
    hide Known, Productive, DotsApart, IsLalr1, HarmlessInside, HasTables, IsLookahead, FollowClosed;
    assert WellFormed(k.g) by { KnownIs(k); }
    TablesOf(k, an);
    forall j, r, x | IsItem(k.g, r) && IsComplete(k.g, r) && r.number > 0
      ensures IsLalr1(k.g, k.a, j, r, x) ==> Has(k.f.la, (j, r), x)
      ensures Exact(k.g, k.a, k.f) && HarmlessInside(k) && DotsApart(k.g, k.a) && Has(k.f.la, (j, r), x) ==>
                IsLalr1(k.g, k.a, j, r, x)
    {
      LookaheadsExact(k, an.First, an.Follow, j, r, x);
    }
  }
}
