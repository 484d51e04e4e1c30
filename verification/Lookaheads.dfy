/**
 The LALR lookaheads: the relations of DeRemer and Pennello over the LR(0) automaton, and why what they attach to an
 item is in FOLLOW of the item's name.
 */
module LalrRelations {
  import opened Wrappers
  import opened Grammars
  import opened FirstSets
  import opened FollowSets
  import opened LR0Items
  import opened Digraph
  import opened LR0Paths

  /** A transition over a nonterminal: the state it leaves, and the nonterminal. */
  type Trans = (nat, Symbol)

  // ----- The relations -----

  /** The terminals after the dots. */
  function DotTerminals(g: Grammar, items: seq<Item>): (r: seq<Symbol>)
    ensures forall x :: x in r <==> x in g.terminals && exists i :: i in items && DotBefore(g, i, x)
  {
    if items == [] then []
    else
      var last := items[|items| - 1];
      var r := DotTerminals(g, items[..|items| - 1]);
      var x := if IsItem(g, last) && !IsComplete(g, last) then g.productions[last.number].prod[last.dot] else EMPTY;
      assert forall i :: i in items <==> i == last || i in items[..|items| - 1];
      if DotBefore(g, last, x) && x in g.terminals && x !in r then r + [x] else r
  }

  /** The right side of the augmented production. */
  function StartSymbol(g: Grammar): Symbol
    requires WellFormed(g)
  {
    g.productions[0].prod[0]
  }

  /** `dr_relation`: what can be read directly after the transition. */
  function Direct(g: Grammar, a: Automaton, t: Trans): seq<Symbol>
    requires WellFormed(g)
  {
    (if t in a.goto && a.goto[t] < |a.states| then DotTerminals(g, a.states[a.goto[t]]) else [])
    + (if t == (0, StartSymbol(g)) then [END] else [])
  }

  function NullableFrom(g: Grammar, items: seq<Item>, j: nat, nullable: set<Symbol>): (r: seq<Trans>)
    ensures forall y :: y in r <==> y.0 == j && y.1 in nullable && exists i :: i in items && DotBefore(g, i, y.1)
  {
    if items == [] then []
    else
      var last := items[|items| - 1];
      var x := if IsItem(g, last) && !IsComplete(g, last) then g.productions[last.number].prod[last.dot] else EMPTY;
      assert forall i :: i in items <==> i == last || i in items[..|items| - 1];
      NullableFrom(g, items[..|items| - 1], j, nullable)
      + (if DotBefore(g, last, x) && x in nullable then [(j, x)] else [])
  }

  /** `reads_relation`: the transitions over nullable nonterminals that come next. */
  function ReadsNext(g: Grammar, a: Automaton, nullable: set<Symbol>, t: Trans): seq<Trans> {
    if t in a.goto && a.goto[t] < |a.states| then NullableFrom(g, a.states[a.goto[t]], a.goto[t], nullable) else []
  }

  function ReadGraph(g: Grammar, a: Automaton, nullable: set<Symbol>, trans: seq<Trans>): Graph<Trans, Symbol>
    requires WellFormed(g)
  {
    Graph<Trans, Symbol>.Graph(trans, t => ReadsNext(g, a, nullable, t), t => Direct(g, a, t))
  }

  /** The state that the symbols lead to. */
  function Arrival(a: Automaton, s: nat, xs: seq<Symbol>): Option<nat>
    decreases |xs|
  {
    if xs == [] then Some(s) else if (s, xs[0]) in a.goto then Arrival(a, a.goto[(s, xs[0])], xs[1..]) else None
  }

  predicate AllNullable(nullable: set<Symbol>, xs: seq<Symbol>) {
    forall k :: 0 <= k < |xs| ==> xs[k] in nullable
  }

  /**
   The transition `y` is met on the way from item `i` of state `z.0`, `k` symbols into its production, with nullable
   ones left.
   */
  ghost predicate IncludedAt(g: Grammar, a: Automaton, nullable: set<Symbol>, y: Trans, z: Trans, i: Item, k: nat) {
    && z.0 < |a.states| && i in a.states[z.0] && IsItem(g, i) && Name(g, i) == z.1
    && i.dot <= k < |g.productions[i.number].prod| && g.productions[i.number].prod[k] == y.1 && y.1 in g.nonterminals
    && Arrival(a, z.0, g.productions[i.number].prod[i.dot..k]) == Some(y.0)
    && AllNullable(nullable, g.productions[i.number].prod[k + 1..])
  }

  /** `(p, A) INCLUDES (p', B)`, as the source computes it. */
  ghost predicate Includes(g: Grammar, a: Automaton, nullable: set<Symbol>, y: Trans, z: Trans) {
    exists i, k :: IncludedAt(g, a, nullable, y, z, i, k)
  }

  /** The symbols of an item, with the dot among them. */
  function Dotted(g: Grammar, i: Item): (r: seq<Symbol>)
    requires IsItem(g, i)
    ensures |r| == |g.productions[i.number].prod| + 1
  {
    g.productions[i.number].prod[..i.dot] + ["."] + g.productions[i.number].prod[i.dot..]
  }

  /** Item `r` passes the source's comparison with item `i`. */
  predicate Compares(g: Grammar, i: Item, r: Item) {
    && IsItem(g, i) && IsItem(g, r)
    && Name(g, r) == Name(g, i) && |g.productions[r.number].prod| == |g.productions[i.number].prod|
    && forall d :: 0 <= d < r.dot ==> Dotted(g, r)[d] == Dotted(g, i)[d + 1]
  }

  ghost predicate LooksBackAt(g: Grammar, a: Automaton, j: nat, r: Item, z: Trans, i: Item) {
    && z.0 < |a.states| && i in a.states[z.0] && IsItem(g, i) && Name(g, i) == z.1
    && Arrival(a, z.0, g.productions[i.number].prod[i.dot..]) == Some(j)
    && j < |a.states| && r in a.states[j] && Compares(g, i, r)
  }

  /** Item `r` of state `j` looks back at the transition `z`, as the source computes it. */
  ghost predicate LooksBack(g: Grammar, a: Automaton, j: nat, r: Item, z: Trans) {
    exists i :: LooksBackAt(g, a, j, r, z, i)
  }

  // ----- What can be read in a state -----

  /** Some item of the state has, after its dot, symbols that begin with `x`. */
  ghost predicate CanRead(g: Grammar, items: seq<Item>, first: Table, x: Symbol) {
    x != EMPTY && exists i :: i in items && ItemReads(g, first, i, x)
  }

  ghost predicate ItemReads(g: Grammar, first: Table, i: Item, x: Symbol) {
    IsItem(g, i) && (forall k :: 0 <= k < |Rest(g, i)| ==> Rest(g, i)[k] in first) && InFirst(first, Rest(g, i), x)
  }

  ghost predicate FirstReady(g: Grammar, first: Table) {
    WellFormed(g) && HasAll(g, first) && ClosedUnderRules(g, first) && TerminalLists(g, first)
  }

  lemma RestIsForm(g: Grammar, first: Table, i: Item)
    requires WellFormed(g) && HasAll(g, first) && IsItem(g, i)
    ensures forall k :: 0 <= k < |Rest(g, i)| ==> Rest(g, i)[k] in first
  {
    var p := g.productions[i.number];
    if i.number > 0 {
      assert IsRule(g, p);
    }
    assert IsForm(g, p.prod);
    assert forall k :: 0 <= k < |Rest(g, i)| ==> Rest(g, i)[k] == p.prod[i.dot + k];
  }

  /** What a predicted production begins with, the item that predicts it can read. */
  lemma ReadsThroughHead(g: Grammar, first: Table, i: Item, q: nat, x: Symbol)
    requires FirstReady(g, first) && IsItem(g, i) && q in After(g, i) && x != EMPTY
    requires ItemReads(g, first, Item(q, 0), x)
    ensures ItemReads(g, first, i, x)
  {
    var p := g.productions[q];
    assert IsRule(g, p) && RuleAdded(first, p);
    assert Rest(g, Item(q, 0)) == p.prod;
    RestIsForm(g, first, i);
    assert Rest(g, i)[0] == p.name;
  }

  lemma {:induction false} ReadsThroughPath(g: Grammar, first: Table, p: seq<nat>, x: Symbol)
    requires FirstReady(g, first) && IsPath(Predictions(g), p) && x != EMPTY
    requires p[0] < |g.productions| && ItemReads(g, first, Item(p[|p| - 1], 0), x)
    ensures ItemReads(g, first, Item(p[0], 0), x)
    decreases |p|
  {
    hide FirstReady, ItemReads;
    if |p| > 1 {
      assert p[1] in Predictions(g).related(p[0]);
      assert PathBetween(Predictions(g), p, p[0], p[|p| - 1]);
      PathTail(Predictions(g), p, p[0], p[|p| - 1]);
      ReadsThroughPath(g, first, p[1..], x);
      ReadsThroughHead(g, first, Item(p[0], 0), p[1], x);
    }
  }

  /** What a state can read, an item of its kernel can. */
  lemma KernelReads(g: Grammar, first: Table, kernel: seq<Item>, items: seq<Item>, x: Symbol)
    requires FirstReady(g, first) && IsClosure(g, kernel, items) && IsItemSet(g, kernel) && CanRead(g, items, first, x)
    ensures exists k :: k in kernel && ItemReads(g, first, k, x)
  {
    hide FirstReady, ItemReads;
    var qs :| ClosureBy(g, kernel, items, qs);
    var i :| i in items && ItemReads(g, first, i, x);
    if i !in kernel {
      HeadsAreHeads(qs);
      assert i in Heads(qs) && Predicted(g, kernel, i.number);
      var k, q0 :| k in kernel && q0 in After(g, k) && Reaches(Predictions(g), q0, i.number);
      var p :| PathBetween(Predictions(g), p, q0, i.number);
      ReadsThroughPath(g, first, p, x);
      ReadsThroughHead(g, first, k, q0, x);
    }
  }

  /** An item that moved over a nullable symbol: what it can read now, it could read before. */
  lemma ReadsThroughNullable(g: Grammar, first: Table, i: Item, c: Symbol, x: Symbol)
    requires FirstReady(g, first) && DotBefore(g, i, c) && c in first && EMPTY in first[c] && x != EMPTY
    requires ItemReads(g, first, Item(i.number, i.dot + 1), x)
    ensures ItemReads(g, first, i, x)
  {
    RestIsForm(g, first, i);
    assert Rest(g, i) == [c] + Rest(g, Item(i.number, i.dot + 1));
    assert Rest(g, i)[1..] == Rest(g, Item(i.number, i.dot + 1));
  }

  // ----- The bound -----

  /** What the analyses know: FIRST, FOLLOW and the nullable nonterminals of the grammar, and its automaton. */
  ghost predicate Context(g: Grammar, a: Automaton, first: Table, follow: Table, nullable: set<Symbol>) {
    && WellFormed(g) && HasAll(g, first) && FirstReady(g, first) && |g.productions| > 1
    && FollowClosed(g, first, follow, g.productions[1].name)
    && IsAutomaton(g, a)
    && (forall x :: x in nullable ==> x in g.nonterminals && EMPTY in first[x])
  }

  /** The states around a transition. */
  lemma AcrossTransition(g: Grammar, a: Automaton, t: Trans)
    requires WellFormed(g) && IsAutomaton(g, a) && t in a.goto
    ensures t.0 < |a.states| && 0 < a.goto[t] < |a.states| && IsItemSet(g, Kernel(g, a.states[t.0], t.1))
    ensures IsClosure(g, Kernel(g, a.states[t.0], t.1), a.states[a.goto[t]])
  {
    hide IsClosure, EnteredFromBelow, IsItemSet;
    assert t == (t.0, t.1);
    StatesAreItemSets(g, a, t.0);
    assert IsItemSet(g, Kernel(g, a.states[t.0], t.1)) by {
      KernelIsKernel(g, a.states[t.0], t.1);
      KernelItems(g, a.states[t.0], t.1);
    }
  }

  lemma KernelItems(g: Grammar, items: seq<Item>, x: Symbol)
    requires IsKernel(g, x, Kernel(g, items, x))
    ensures IsItemSet(g, Kernel(g, items, x))
  {
  }

  /** What can be read after a transition over a nonterminal follows the nonterminal. */
  lemma ReadFollows(g: Grammar, a: Automaton, first: Table, follow: Table, nullable: set<Symbol>, t: Trans, x: Symbol)
    requires Context(g, a, first, follow, nullable) && t in a.goto && t.1 in g.nonterminals
    requires a.goto[t] < |a.states| && CanRead(g, a.states[a.goto[t]], first, x)
    ensures t.1 in follow && x in follow[t.1]
  {
    hide IsClosure, IsAutomaton, Kernel, ItemReads;
    AcrossTransition(g, a, t);
    KernelReads(g, first, Kernel(g, a.states[t.0], t.1), a.states[a.goto[t]], x);
    var k :| k in Kernel(g, a.states[t.0], t.1) && ItemReads(g, first, k, x);
    ReadIsEquation(g, first, follow, k, t.1, x);
  }

  /** After the start symbol of the augmented production there is nothing. */
  lemma StartReadsNothing(g: Grammar, first: Table)
    requires WellFormed(g)
    ensures forall k, x :: IsItem(g, k) && k.number == 0 && k.dot > 0 && x != EMPTY ==> !ItemReads(g, first, k, x)
  {
    forall k, x | IsItem(g, k) && k.number == 0 && k.dot > 0 && x != EMPTY ensures !ItemReads(g, first, k, x) {
      assert Rest(g, k) == [];
    }
  }

  lemma ReadIsEquation(g: Grammar, first: Table, follow: Table, k: Item, c: Symbol, x: Symbol)
    requires FirstReady(g, first) && |g.productions| > 1 && FollowClosed(g, first, follow, g.productions[1].name)
    requires k.dot > 0 && DotBefore(g, Item(k.number, k.dot - 1), c) && c in g.nonterminals
    requires x != EMPTY && ItemReads(g, first, k, x)
    ensures c in follow && x in follow[c]
  {
    var p := g.productions[k.number];
    StartReadsNothing(g, first);
    assert IsRule(g, p) && FollowAdded(first, follow, p, k.dot - 1);
    assert Rest(g, k) == p.prod[k.dot - 1 + 1..];
  }

  lemma ReadsTransition(g: Grammar, a: Automaton, nullable: set<Symbol>, t: Trans, y: Trans)
    requires WellFormed(g) && IsAutomaton(g, a) && y in ReadsNext(g, a, nullable, t)
    ensures t in a.goto && y in a.goto && y.0 == a.goto[t] > 0 && a.goto[y] < |a.states| && y.1 in nullable
    ensures y.0 < |a.states| && IsItemSet(g, Kernel(g, a.states[y.0], y.1))
    ensures IsClosure(g, Kernel(g, a.states[y.0], y.1), a.states[a.goto[y]])
  {
    hide IsClosure, IsItemSet, IsAutomaton;
    AcrossTransition(g, a, t);
    var s := a.states[a.goto[t]];
    var i0 :| i0 in s && DotBefore(g, i0, y.1);
    assert Item(i0.number, i0.dot + 1) in Kernel(g, s, y.1);
    HasTransition(g, a, y.0, y.1);
    assert (y.0, y.1) == y;
    AcrossTransition(g, a, y);
  }

  lemma HasTransition(g: Grammar, a: Automaton, s: nat, x: Symbol)
    requires IsAutomaton(g, a) && s < |a.states| && Kernel(g, a.states[s], x) != []
    ensures (s, x) in a.goto
  {
    hide IsClosure, Kernel, EnteredFromBelow;
  }

  /** The relation `reads`: what can be read after the next transition can be read before it. */
  lemma ReadsStep(g: Grammar, a: Automaton, first: Table, follow: Table, nullable: set<Symbol>, t: Trans, y: Trans,
                  x: Symbol)
    requires Context(g, a, first, follow, nullable) && y in ReadsNext(g, a, nullable, t)
    requires y in a.goto && a.goto[y] < |a.states| && CanRead(g, a.states[a.goto[y]], first, x)
    ensures t in a.goto && a.goto[t] < |a.states| && CanRead(g, a.states[a.goto[t]], first, x)
  {
    hide IsClosure, FirstReady, FollowClosed, IsAutomaton, IsItemSet, ItemReads;
    ReadsTransition(g, a, nullable, t, y);
    var s := a.states[a.goto[t]];
    KernelReads(g, first, Kernel(g, s, y.1), a.states[a.goto[y]], x);
    var k :| k in Kernel(g, s, y.1) && ItemReads(g, first, k, x);
    FirstHas(g, first, y.1);
    ReadsThroughNullable(g, first, Item(k.number, k.dot - 1), y.1, x);
  }

  lemma FirstHas(g: Grammar, first: Table, x: Symbol)
    requires FirstReady(g, first) && x in g.nonterminals
    ensures x in first
  {
  }

  lemma DirectReads(g: Grammar, a: Automaton, first: Table, t: Trans, x: Symbol)
    requires FirstReady(g, first) && x in Direct(g, a, t) && !(t == (0, StartSymbol(g)) && x == END)
    ensures t in a.goto && a.goto[t] < |a.states| && CanRead(g, a.states[a.goto[t]], first, x)
  {
    var i :| i in a.states[a.goto[t]] && DotBefore(g, i, x);
    RestIsForm(g, first, i);
    assert Rest(g, i)[0] == x && IsTerminal(g, x);
    assert first[x] == [x];
  }

  /** Everything on a path of `reads` can be read at its beginning; the end of the input is at most direct. */
  lemma {:induction false} ReadsPath(g: Grammar, a: Automaton, first: Table, follow: Table, nullable: set<Symbol>,
                                     trans: seq<Trans>, p: seq<Trans>, x: Symbol)
    requires Context(g, a, first, follow, nullable) && IsPath(ReadGraph(g, a, nullable, trans), p)
    requires x in Direct(g, a, p[|p| - 1])
    ensures (p[0] == (0, StartSymbol(g)) && x == END)
            || (p[0] in a.goto && a.goto[p[0]] < |a.states| && CanRead(g, a.states[a.goto[p[0]]], first, x))
    decreases |p|
  {
    hide IsAutomaton, FollowClosed, FirstReady, CanRead, Direct, ReadsNext;
    if |p| == 1 {
      if !(p[0] == (0, StartSymbol(g)) && x == END) {
        DirectReads(g, a, first, p[0], x);
      }
    } else {
      assert p[1] in ReadsNext(g, a, nullable, p[0]);
      assert PathBetween(ReadGraph(g, a, nullable, trans), p, p[0], p[|p| - 1]);
      PathTail(ReadGraph(g, a, nullable, trans), p, p[0], p[|p| - 1]);
      ReadsPath(g, a, first, follow, nullable, trans, p[1..], x);
      ReadsTransition(g, a, nullable, p[0], p[1]);
      ReadsStep(g, a, first, follow, nullable, p[0], p[1], x);
    }
  }

  /** The start symbol is followed by the end of the input. */
  ghost predicate StartEnds(g: Grammar, follow: Table)
    requires WellFormed(g)
  {
    StartSymbol(g) in follow && END in follow[StartSymbol(g)]
  }

  /** The read set of a transition is in FOLLOW of its nonterminal. */
  lemma ReadInFollow(g: Grammar, a: Automaton, first: Table, follow: Table, nullable: set<Symbol>, trans: seq<Trans>,
                     t: Trans, x: Symbol)
    requires Context(g, a, first, follow, nullable) && StartEnds(g, follow)
    requires t.1 in g.nonterminals && Collected(ReadGraph(g, a, nullable, trans), t, x)
    ensures t.1 in follow && x in follow[t.1]
  {
    hide IsAutomaton, FollowClosed, CanRead, Direct;
    var y :| Reaches(ReadGraph(g, a, nullable, trans), t, y) && x in Direct(g, a, y);
    var p :| PathBetween(ReadGraph(g, a, nullable, trans), p, t, y);
    ReadsPath(g, a, first, follow, nullable, trans, p, x);
    if !(t == (0, StartSymbol(g)) && x == END) {
      ReadFollows(g, a, first, follow, nullable, t, x);
    }
  }

  /** The relation `includes`: FOLLOW of the production's name is in FOLLOW of the symbol. */
  lemma IncludesFollow(g: Grammar, a: Automaton, first: Table, follow: Table, nullable: set<Symbol>, y: Trans, z: Trans)
    requires Context(g, a, first, follow, nullable) && Includes(g, a, nullable, y, z) && z.1 in g.nonterminals
    ensures y.1 in follow && z.1 in follow && forall x :: x in follow[z.1] ==> x in follow[y.1]
  {
    hide IsAutomaton, Arrival;
    var i, k :| IncludedAt(g, a, nullable, y, z, i, k);
    var p := g.productions[i.number];
    assert i.number > 0 && IsRule(g, p);
    NullableFirst(g, first, nullable, p.prod[k + 1..]);
    assert FollowAdded(first, follow, p, k);
  }

  lemma {:induction false} NullableFirst(g: Grammar, first: Table, nullable: set<Symbol>, xs: seq<Symbol>)
    requires FirstReady(g, first) && (forall x :: x in nullable ==> x in g.nonterminals && EMPTY in first[x])
    requires AllNullable(nullable, xs)
    ensures (forall k :: 0 <= k < |xs| ==> xs[k] in first) && InFirst(first, xs, EMPTY)
  {
    if xs != [] {
      NullableFirst(g, first, nullable, xs[1..]);
      assert xs[0] in first;
    }
  }
}
