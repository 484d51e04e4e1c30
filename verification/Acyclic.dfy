/**
 In a grammar without useless right sides, tables without conflicts leave nothing to share: the relation `reads` has no
 cycle. On a cycle the machine could reduce nothing to its nonterminals over and over, before the same token; but the
 stacks below the cycle are those of some sentence, and the machine accepts it.
 */
module LRAcyclic {
  import opened Grammars
  import opened LR0Items
  import opened LR0Paths
  import opened Trees
  import opened LRParser
  import opened Digraph
  import opened LalrRelations
  import opened LalrGenerator
  import opened LRConflicts
  import opened LRTables
  import opened LRCompleteness

  // ----- Trees for all symbols -----

  /** `x` derives a string of terminals of the grammar. */
  ghost predicate Ends(g: Grammar, x: Symbol) {
    exists w :: Derives(g, [x], w) && forall i :: 0 <= i < |w| ==> w[i] in g.terminals
  }

  /** Every symbol of a right side does. */
  ghost predicate Productive(g: Grammar) {
    forall q, d :: 0 <= q < |g.productions| && 0 <= d < |g.productions[q].prod| ==> Ends(g, g.productions[q].prod[d])
  }

  /** A tree over `x` whose tokens are the symbols of `w`. */
  lemma TreeFor(g: Grammar, x: Symbol, w: seq<Symbol>) returns (t: Tree)
    requires Derives(g, [x], w) && forall i :: 0 <= i < |w| ==> w[i] in g.terminals
    ensures AreTrees(g, [t]) && Root(g, t) == x && Kinds(Yield(t)) == w
  {
    hide IsTree, Root;
    var tokens := seq(|w|, i requires 0 <= i < |w| => Token(w[i], ""));
    assert Kinds(tokens) == w;
    var n: nat :| DerivesIn(g, [x], w, n);
    var ts := ForestOf(g, [x], tokens, n);
    assert |ts| == |Roots(g, ts)| == 1 && Roots(g, ts)[0] == x && ts == [ts[0]];
    YieldsOne(ts[0]);
    t := ts[0];
  }

  /** A forest over the rest of a right side. */
  lemma {:induction false} RestFor(g: Grammar, q: nat, d: nat) returns (ts: seq<Tree>)
    requires Productive(g) && q < |g.productions| && d <= |g.productions[q].prod|
    ensures AreTrees(g, ts) && Roots(g, ts) == g.productions[q].prod[d..]
    decreases |g.productions[q].prod| - d
  {
    hide IsTree, Root, Derives, AreTrees, Roots;
    var prod := g.productions[q].prod;
    if d == |prod| {
      ts := [];
      NoTrees(g);
    } else {
      var rest := RestFor(g, q, d + 1);
      assert Ends(g, prod[d]);
      var w :| Derives(g, [prod[d]], w) && forall i :: 0 <= i < |w| ==> w[i] in g.terminals;
      var t := TreeFor(g, prod[d], w);
      ts := [t] + rest;
      TreeFirst(g, t, rest);
      assert prod[d..] == [prod[d]] + prod[d + 1..];
    }
  }

  lemma NoTrees(g: Grammar)
    ensures AreTrees(g, []) && Roots(g, []) == []
  {
  }

  lemma TreeFirst(g: Grammar, t: Tree, ts: seq<Tree>)
    requires AreTrees(g, [t]) && AreTrees(g, ts)
    ensures AreTrees(g, [t] + ts) && Roots(g, [t] + ts) == [Root(g, t)] + Roots(g, ts)
    ensures Yields([t] + ts) == Yield(t) + Yields(ts)
  {
    hide IsTree, Root, Yield;
    YieldsConcat([t], ts);
    YieldsOne(t);
  }

  // ----- The stacks on the way to a state -----

  /** Stacks of the machine, with trees over terminals. */
  ghost predicate IsStack(k: Parser, states: seq<nat>, symbols: seq<Tree>) {
    && Spells(k.g, k.a, states, symbols) && symbols[0] == Leaf(Token(END, "")) && AreTrees(k.g, symbols[1..])
  }

  lemma StackBounds(k: Parser, states: seq<nat>, symbols: seq<Tree>)
    requires Ready(k) && IsStack(k, states, symbols)
    ensures |states| == |symbols| > 0 && states[0] == 0 && forall m :: 0 <= m < |states| ==> states[m] < |k.a.states|
    ensures forall m :: 0 < m < |states| ==> states[m] != 0
  {
    hide WellFormed, IsAutomaton, Justified, Enough, Filled, AreTrees;
    SpellsBoth(k.g, k.a, states, symbols);
    forall m | 0 <= m < |states| ensures states[m] < |k.a.states| && (states[m] == 0 <==> m == 0) {
      StatesInRange(k.g, k.a, states, symbols, m);
    }
  }

  /** The last step of a stack. */
  lemma StackTop(k: Parser, states: seq<nat>, symbols: seq<Tree>)
    requires IsStack(k, states, symbols) && |states| > 1
    ensures |symbols| == |states| && IsStack(k, states[..|states| - 1], symbols[..|states| - 1])
    ensures AreTrees(k.g, [symbols[|states| - 1]])
    ensures Edge(k.g, k.a, states[|states| - 2], symbols[|states| - 1], states[|states| - 1])
  {
    hide IsTree, Edge;
    var n := |states| - 1;
    SpellsPrefix(k.g, k.a, states, symbols, n);
    SpellsAt(k.g, k.a, states, symbols, n);
    assert symbols[1..] == symbols[..n][1..] + [symbols[n]];
    YieldsConcat(symbols[..n][1..], [symbols[n]]);
  }

  lemma StackMore(k: Parser, states: seq<nat>, symbols: seq<Tree>, t: Tree, s: nat)
    requires IsStack(k, states, symbols) && AreTrees(k.g, [t]) && Edge(k.g, k.a, Last(states), t, s)
    ensures IsStack(k, states + [s], symbols + [t])
  {
    hide IsTree, Edge;
    SpellsMore(k.g, k.a, states, symbols, t, s);
    assert (symbols + [t])[1..] == symbols[1..] + [t];
    YieldsConcat(symbols[1..], [t]);
  }

  /** There are stacks to every state. */
  lemma {:induction false} StackTo(k: Parser, s: nat) returns (states: seq<nat>, symbols: seq<Tree>)
    requires Ready(k) && Productive(k.g) && s < |k.a.states|
    ensures IsStack(k, states, symbols) && states != [] && Last(states) == s
    decreases s
  {
    hide WellFormed, Justified, Enough, Filled, IsClosure, Kernel, Productive, IsStack, AreTrees;
    if s == 0 {
      states, symbols := [0], [Leaf(Token(END, ""))];
      OneStack(k);
    } else {
      assert EnteredFromBelow(k.a, s);
      var s0: nat, x :| s0 < s && (s0, x) in k.a.goto && k.a.goto[(s0, x)] == s;
      states, symbols := StackTo(k, s0);
      var i := ItemOver(k.g, k.a, s0, x);
      var ts := RestFor(k.g, i.number, i.dot);
      RootsRest(k.g, ts, k.g.productions[i.number].prod, i.dot);
      OneTree(k.g, ts);
      TreeEdge(k, s0, ts[0]);
      StackMore(k, states, symbols, ts[0], s);
      states, symbols := states + [s], symbols + [ts[0]];
    }
  }

  lemma OneStack(k: Parser)
    ensures IsStack(k, [0], [Leaf(Token(END, ""))])
  {
    assert [Leaf(Token(END, ""))][1..] == [];
  }

  lemma TreeEdge(k: Parser, s: nat, t: Tree)
    requires AreTrees(k.g, [t]) && (s, Root(k.g, t)) in k.a.goto
    ensures Edge(k.g, k.a, s, t, k.a.goto[(s, Root(k.g, t))])
  {
    assert t in [t];
  }

  /** An item on top of the stacks: the transitions below it lead along its production. */
  lemma {:induction false} ItemAlong(k: Parser, states: seq<nat>, symbols: seq<Tree>, q: nat, d: nat)
    requires Ready(k) && IsStack(k, states, symbols) && states != [] && Last(states) < |k.a.states| && q > 0
    requires Item(q, d) in k.a.states[Last(states)]
    ensures d < |states| && Along(k, states[|states| - 1 - d], q, d, Last(states))
    decreases d
  {
    hide WellFormed, IsAutomaton, Justified, Enough, Filled, IsStack;
    StackBounds(k, states, symbols);
    StatesAreItemSets(k.g, k.a, Last(states));
    if d == 0 {
      StartAlong(k, Last(states), q);
    } else {
      StackMoved(k, states, symbols, Item(q, d));
      StackTop(k, states, symbols);
      var n := |states| - 1;
      ItemAlong(k, states[..n], symbols[..n], q, d - 1);
      NextAlong(k, states[n - d], q, d - 1, states[n - 1]);
    }
  }

  /** An item that has moved was in the state below. */
  lemma StackMoved(k: Parser, states: seq<nat>, symbols: seq<Tree>, i: Item)
    requires Ready(k) && IsStack(k, states, symbols) && states != [] && Last(states) < |k.a.states| && i.dot > 0
    requires i in k.a.states[Last(states)]
    ensures |states| > 1 && |symbols| == |states| && states[|states| - 2] < |k.a.states|
    ensures (var n := |states| - 1;
      && Item(i.number, i.dot - 1) in k.a.states[states[n - 1]]
      && DotBefore(k.g, Item(i.number, i.dot - 1), Root(k.g, symbols[n]))
      && (states[n - 1], Root(k.g, symbols[n])) in k.a.goto
      && k.a.goto[(states[n - 1], Root(k.g, symbols[n]))] == states[n])
  {
    hide WellFormed, IsAutomaton, Justified, Enough, Filled, IsStack, IsItemSet;
    StackBounds(k, states, symbols);
    if |states| == 1 {
      StartItems(k.g, k.a, i);
    } else {
      var n := |states| - 1;
      StackTop(k, states, symbols);
      StatesAreItemSets(k.g, k.a, states[n - 1]);
      ItemMoved(k.g, k.a, states[n - 1], symbols[n], states[n], i);
    }
  }

  // ----- Stacks are those of sentences -----

  /** The tokens `rest` complete item `i` on top of the stacks, behind a forest over what is after its dot. */
  ghost predicate Completes(k: Parser, states: seq<nat>, symbols: seq<Tree>, i: Item, ts: seq<Tree>, rest: seq<Token>,
                            limit: nat)
    requires Ready(k) && i.number < |k.g.productions|
  {
    && |symbols| == |states|
    && Outcomes(k.g, k.table, Config(states, symbols, Yields(ts) + rest), limit).Accepted?
    && (if i.number == 0 then rest == [] else i.dot < |states| && NameFollowed(k, states, i, rest))
    && forall m :: 0 < m < |states| ==> TreeFollowed(k, states, symbols, m, Yields(ts) + rest)
  }

  /** `rest` follows the transition over the item's name, from the state below what is before its dot. */
  ghost predicate NameFollowed(k: Parser, states: seq<nat>, i: Item, rest: seq<Token>)
    requires WellFormed(k.g) && i.number < |k.g.productions| && i.dot < |states|
  {
    FollowedBySymbol(k, (states[|states| - 1 - i.dot], k.g.productions[i.number].name), KindAhead(rest))
  }

  /** What comes behind a tree on the stack follows its transition. */
  ghost predicate TreeFollowed(k: Parser, states: seq<nat>, symbols: seq<Tree>, m: nat, ahead: seq<Token>)
    requires Ready(k) && 0 < m < |states| == |symbols|
  {
    symbols[m].Node? ==>
      FollowedBySymbol(k, (states[m - 1], Root(k.g, symbols[m])), KindAhead(Yields(symbols[m + 1..]) + ahead))
  }

  /** A predicted production: its tree is the first of the forest of the item that predicts it. */
  lemma CompletesHead(k: Parser, states: seq<nat>, symbols: seq<Tree>, i: Item, q: nat, ts: seq<Tree>, more: seq<Tree>,
                      rest: seq<Token>, limit: nat)
    requires Ready(k) && IsStack(k, states, symbols) && states != [] && Last(states) < |k.a.states|
    requires i in k.a.states[Last(states)] && IsItem(k.g, i) && q in After(k.g, i)
    requires AreTrees(k.g, [Node(q, ts)] + more)
    requires Roots(k.g, [Node(q, ts)] + more) == k.g.productions[i.number].prod[i.dot..]
    requires Completes(k, states, symbols, i, [Node(q, ts)] + more, rest, limit)
    ensures Completes(k, states, symbols, Item(q, 0), ts, Yields(more) + rest, limit)
  {
    hide WellFormed, IsAutomaton, Justified, Enough, Filled, IsStack, AreTrees, Outcomes, Roots, TreeFollowed,
         NameFollowed;
    var fs := [Node(q, ts)] + more;
    HeadFollowed(k, states, symbols, i, q, fs, rest);
    YieldsConcat([Node(q, ts)], more);
    YieldsOne(Node(q, ts));
    assert fs[1..] == more;
    assert Yields(fs) + rest == Yields(ts) + (Yields(more) + rest);
  }

  /** What comes behind a predicted production follows the transition over its name. */
  lemma HeadFollowed(k: Parser, states: seq<nat>, symbols: seq<Tree>, i: Item, q: nat, fs: seq<Tree>, rest: seq<Token>)
    requires Ready(k) && IsStack(k, states, symbols) && states != [] && Last(states) < |k.a.states|
    requires i in k.a.states[Last(states)] && IsItem(k.g, i) && q in After(k.g, i)
    requires AreTrees(k.g, fs) && fs != [] && fs[0].Node? && fs[0].number == q
    requires Roots(k.g, fs) == k.g.productions[i.number].prod[i.dot..]
    requires if i.number == 0 then rest == [] else i.dot < |states| && NameFollowed(k, states, i, rest)
    ensures NameFollowed(k, states, Item(q, 0), Yields(fs[1..]) + rest)
  {
    hide WellFormed, IsAutomaton, Justified, Enough, Filled, IsStack, AreTrees, FollowedBySymbol, Along, Roots;
    if i.number == 0 {
      StartHead(k, states, symbols, i, fs);
      StartState(k);
      assert fs[1..] == [] && Yields(fs[1..]) + rest == [];
    } else {
      ItemAlong(k, states, symbols, i.number, i.dot);
      ReadyIsKnown(k);
      ChildFollowed(k, states[|states| - 1 - i.dot], i.number, i.dot, Last(states), fs, rest);
    }
  }

  lemma StartHead(k: Parser, states: seq<nat>, symbols: seq<Tree>, i: Item, fs: seq<Tree>)
    requires Ready(k) && IsStack(k, states, symbols) && states != [] && Last(states) < |k.a.states|
    requires i in k.a.states[Last(states)] && i.number == 0 && IsItem(k.g, i) && fs != [] && fs[0].Node?
    requires Roots(k.g, fs) == k.g.productions[0].prod[i.dot..] && After(k.g, i) != []
    ensures i == Item(0, 0) && states == [0] && |fs| == 1 && Root(k.g, fs[0]) == StartSymbol(k.g)
  {
    hide WellFormed, IsAutomaton, Justified, Enough, Filled, IsStack, AreTrees, Roots, IsItemSet;
    StackBounds(k, states, symbols);
    StatesAreItemSets(k.g, k.a, Last(states));
    StartProduction(k.g, i);
    assert |Roots(k.g, fs)| == |fs| && Roots(k.g, fs)[0] == Root(k.g, fs[0]);
  }

  lemma StartProduction(g: Grammar, i: Item)
    requires WellFormed(g) && i.number == 0 && IsItem(g, i) && After(g, i) != []
    ensures |g.productions[0].prod| == 1 && i == Item(0, 0) && g.productions[0].prod[i.dot..] == [StartSymbol(g)]
  {
  }

  /** The symbol on top becomes the first tree of the forest of the item below. */
  lemma CompletesAbove(k: Parser, states: seq<nat>, symbols: seq<Tree>, i: Item, ts: seq<Tree>, rest: seq<Token>,
                       limit: nat)
    requires Ready(k) && IsStack(k, states, symbols) && states != [] && Last(states) < |k.a.states|
    requires i in k.a.states[Last(states)] && i.dot > 0 && i.number < |k.g.productions| && |states| > 1
    requires |symbols| == |states| && AreTrees(k.g, [symbols[|states| - 1]] + ts)
    requires i.dot <= |k.g.productions[i.number].prod|
    requires Roots(k.g, [symbols[|states| - 1]] + ts) == k.g.productions[i.number].prod[i.dot - 1..]
    requires (var n := |states| - 1;
      Completes(k, states[..n], symbols[..n], Item(i.number, i.dot - 1), [symbols[n]] + ts, rest, limit))
    ensures Completes(k, states, symbols, i, ts, rest, limit)
  {
    hide WellFormed, IsAutomaton, Justified, Enough, Filled, IsStack, AreTrees, Outcomes, FollowedBySymbol, Along,
         Roots, Runs, TreeFollowed;
    var n := |states| - 1;
    var t, low := symbols[n], [symbols[n]] + ts;
    StackMoved(k, states, symbols, i);
    StackTop(k, states, symbols);
    YieldsConcat([t], ts);
    YieldsOne(t);
    assert low[1..] == ts && Yields(low) + rest == Yield(t) + (Yields(ts) + rest);
    if t.Node? {
      TopFollowed(k, states, symbols, i, ts, rest);
    }
    TreeRuns(k, states[..n], symbols[..n], t, Yields(ts) + rest);
    assert states[..n] + [states[n]] == states && symbols[..n] + [t] == symbols;
    StillAccepted(k, Config(states[..n], symbols[..n], Yields(low) + rest),
                  Config(states, symbols, Yields(ts) + rest), limit);
    forall m | 0 < m < |states| ensures TreeFollowed(k, states, symbols, m, Yields(ts) + rest) {
      if m < n {
        FollowedBelow(k, states, symbols, m, Yields(low) + rest, Yields(ts) + rest);
      } else {
        FollowedTop(k, states, symbols, Yields(ts) + rest);
      }
    }
  }

  lemma FollowedBelow(k: Parser, states: seq<nat>, symbols: seq<Tree>, m: nat, low: seq<Token>, ahead: seq<Token>)
    requires Ready(k) && 0 < m < |states| - 1 && |states| == |symbols| && low == Yield(symbols[|states| - 1]) + ahead
    requires TreeFollowed(k, states[..|states| - 1], symbols[..|states| - 1], m, low)
    ensures TreeFollowed(k, states, symbols, m, ahead)
  {
    hide Ready, FollowedBySymbol, Root, Yield;
    var n := |states| - 1;
    assert symbols[m + 1..] == symbols[..n][m + 1..] + [symbols[n]];
    YieldsConcat(symbols[..n][m + 1..], [symbols[n]]);
    YieldsOne(symbols[n]);
    assert Yields(symbols[m + 1..]) + ahead == Yields(symbols[..n][m + 1..]) + low;
  }

  lemma FollowedTop(k: Parser, states: seq<nat>, symbols: seq<Tree>, ahead: seq<Token>)
    requires Ready(k) && |states| == |symbols| > 1
    requires (var t := symbols[|states| - 1];
      t.Node? ==> FollowedBySymbol(k, (states[|states| - 2], Root(k.g, t)), KindAhead(ahead)))
    ensures TreeFollowed(k, states, symbols, |states| - 1, ahead)
  {
    hide FollowedBySymbol, Root;
    assert symbols[|states|..] == [] && Yields(symbols[|states|..]) + ahead == ahead;
  }

  /** What comes behind the tree on top follows its transition. */
  lemma TopFollowed(k: Parser, states: seq<nat>, symbols: seq<Tree>, i: Item, ts: seq<Tree>, rest: seq<Token>)
    requires Ready(k) && IsStack(k, states, symbols) && |symbols| == |states| > 1 && Last(states) < |k.a.states|
    requires i in k.a.states[Last(states)] && 0 < i.dot && i.number < |k.g.productions|
    requires i.dot <= |k.g.productions[i.number].prod|
    requires symbols[|states| - 1].Node? && AreTrees(k.g, [symbols[|states| - 1]] + ts)
    requires Roots(k.g, [symbols[|states| - 1]] + ts) == k.g.productions[i.number].prod[i.dot - 1..]
    requires if i.number == 0 then rest == [] else i.dot < |states| && NameFollowed(k, states, i, rest)
    ensures FollowedBySymbol(k, (states[|states| - 2], Root(k.g, symbols[|states| - 1])),
                             KindAhead(Yields(ts) + rest))
  {
    hide WellFormed, IsAutomaton, Justified, Enough, Filled, IsStack, AreTrees, FollowedBySymbol, Along, Root, Roots,
         DotBefore;
    var n := |states| - 1;
    var low := [symbols[n]] + ts;
    assert low[1..] == ts;
    StackMoved(k, states, symbols, i);
    StackTop(k, states, symbols);
    if i.number == 0 {
      StartBelow(k, states, symbols, i, low);
      StartState(k);
      assert ts == [] && Yields(ts) + rest == [];
    } else {
      ItemAlong(k, states[..n], symbols[..n], i.number, i.dot - 1);
      ReadyIsKnown(k);
      ChildFollowed(k, states[n - i.dot], i.number, i.dot - 1, states[n - 1], low, rest);
    }
  }

  lemma StartBelow(k: Parser, states: seq<nat>, symbols: seq<Tree>, i: Item, low: seq<Tree>)
    requires Ready(k) && IsStack(k, states, symbols) && |symbols| == |states| > 1 && i.number == 0 && 0 < i.dot
    requires states[|states| - 2] < |k.a.states| && Item(0, i.dot - 1) in k.a.states[states[|states| - 2]]
    requires i.dot <= |k.g.productions[0].prod| && low != [] && Roots(k.g, low) == k.g.productions[0].prod[i.dot - 1..]
    ensures states[|states| - 2] == 0 && |low| == 1 && Root(k.g, low[0]) == StartSymbol(k.g)
  {
    hide IsAutomaton, Justified, Enough, Filled, IsStack, Root, IsItemSet;
    StatesAreItemSets(k.g, k.a, states[|states| - 2]);
    assert |Roots(k.g, low)| == |low| && Roots(k.g, low)[0] == Root(k.g, low[0]);
  }

  lemma StillAccepted(k: Parser, c: Config, c': Config, limit: nat)
    requires Runs(k.g, k.table, c, c') && Outcomes(k.g, k.table, c, limit).Accepted?
    ensures Outcomes(k.g, k.table, c', limit).Accepted?
  {
    hide TurnOf, Outcomes;
    var n: nat :| RunsIn(k.g, k.table, c, c', n);
    OutcomeStays(k.g, k.table, c, limit, n + limit);
    RunsToOutcome(k.g, k.table, c, c', n, limit);
  }

  /** The start item, with a tree over the start symbol. */
  lemma CompletesStart(k: Parser, t: Tree) returns (limit: nat)
    requires Ready(k) && AreTrees(k.g, [t]) && Root(k.g, t) == StartSymbol(k.g)
    ensures Completes(k, [0], [Leaf(Token(END, ""))], Item(0, 0), [t], [], limit)
  {
    hide WellFormed, IsAutomaton, Justified, Enough, Filled, AreTrees, FollowedBySymbol, Outcomes;
    limit := TreeAccepted(k, t);
    YieldsOne(t);
    assert Yields([t]) + [] == Yield(t);
  }

  /** A kernel item of a state, and a path of predictions from it to production `q`. */
  ghost predicate LeadsTo(k: Parser, s: nat, i: Item, p: seq<nat>, q: nat) {
    && s < |k.a.states| && i in k.a.states[s] && IsItem(k.g, i) && (i.dot > 0 || i.number == 0)
    && p != [] && p[0] in After(k.g, i) && p[|p| - 1] == q
    && (forall m :: 0 <= m < |p| ==> Item(p[m], 0) in k.a.states[s])
    && forall m :: 0 < m < |p| ==> p[m] in After(k.g, Item(p[m - 1], 0))
  }

  lemma PathHeads(k: Parser, s: nat, i: Item, p: seq<nat>, m: nat)
    requires Ready(k) && s < |k.a.states| && i in k.a.states[s] && IsPath(Predictions(k.g), p) && p[0] in After(k.g, i)
    requires m < |p|
    ensures Item(p[m], 0) in k.a.states[s] && (m > 0 ==> p[m] in After(k.g, Item(p[m - 1], 0)))
  {
    hide IsAutomaton, WellFormed, Justified, Enough, Filled, After;
    if m == 0 {
      StatePredicts(k.g, k.a, s, i, p[0]);
    } else {
      PathHeads(k, s, i, p, m - 1);
      assert p[m - 1 + 1] in Predictions(k.g).related(p[m - 1]);
      StatePredicts(k.g, k.a, s, Item(p[m - 1], 0), p[m]);
    }
  }

  /** An item with its dot in front is predicted by an item of the kernel. */
  lemma Origin(k: Parser, states: seq<nat>, symbols: seq<Tree>, q: nat) returns (i: Item, p: seq<nat>)
    requires Ready(k) && IsStack(k, states, symbols) && states != [] && q > 0 && Last(states) < |k.a.states|
    requires Item(q, 0) in k.a.states[Last(states)]
    ensures LeadsTo(k, Last(states), i, p, q) && p != [] && p[|p| - 1] == q
  {
    hide WellFormed, Justified, Enough, Filled, IsStack, IsClosure, Kernel, After, EnteredFromBelow, IsItemSet;
    var s := Last(states);
    StackBounds(k, states, symbols);
    StatesAreItemSets(k.g, k.a, s);
    ghost var kernel := [Item(0, 0)];
    if |states| > 1 {
      StackTop(k, states, symbols);
      var x := Root(k.g, symbols[|states| - 1]);
      assert (states[|states| - 2], x) in k.a.goto;
      kernel := Kernel(k.g, k.a.states[states[|states| - 2]], x);
    }
    i, p := OriginIn(k.g, kernel, k.a.states[s], q);
    forall m | 0 <= m < |p|
      ensures Item(p[m], 0) in k.a.states[s] && (m > 0 ==> p[m] in After(k.g, Item(p[m - 1], 0)))
    {
      PathHeads(k, s, i, p, m);
    }
    InItemSet(k.g, k.a.states[s], i);
  }

  lemma InItemSet(g: Grammar, items: seq<Item>, i: Item)
    requires IsItemSet(g, items) && i in items
    ensures IsItem(g, i)
  {
  }

  lemma OriginIn(g: Grammar, kernel: seq<Item>, items: seq<Item>, q: nat) returns (i: Item, p: seq<nat>)
    requires IsClosure(g, kernel, items) && Item(q, 0) in items && q > 0
    requires forall j :: j in kernel ==> j.dot > 0 || j == Item(0, 0)
    ensures i in items && (i.dot > 0 || i.number == 0) && IsPath(Predictions(g), p) && p[0] in After(g, i)
    ensures p[|p| - 1] == q
  {
    var qs :| ClosureBy(g, kernel, items, qs);
    assert Item(q, 0) in Heads(qs);
    var q0;
    i, q0 :| i in kernel && q0 in After(g, i) && Reaches(Predictions(g), q0, q);
    p :| PathBetween(Predictions(g), p, q0, q);
  }

  /** Every item on top of the stacks can be completed to a sentence, with any forest over what is after its dot. */
  lemma {:induction false} Completion(k: Parser, states: seq<nat>, symbols: seq<Tree>, i: Item, ts: seq<Tree>)
    returns (rest: seq<Token>, limit: nat)
    requires Ready(k) && Productive(k.g) && IsStack(k, states, symbols) && states != []
    requires Last(states) < |k.a.states| && i in k.a.states[Last(states)] && IsItem(k.g, i)
    requires AreTrees(k.g, ts) && Roots(k.g, ts) == k.g.productions[i.number].prod[i.dot..]
    ensures Completes(k, states, symbols, i, ts, rest, limit)
    decreases |states|, if i.dot > 0 || i.number == 0 then 0 else 2, 0
  {
    hide WellFormed, IsAutomaton, Justified, Enough, Filled, IsStack, AreTrees, Completes, Productive, Roots, LeadsTo,
         Root;
    if i.dot > 0 {
      StackMoved(k, states, symbols, i);
      StackTop(k, states, symbols);
      var n := |states| - 1;
      TreeFirst(k.g, symbols[n], ts);
      var prod := k.g.productions[i.number].prod;
      assert prod[i.dot - 1..] == [prod[i.dot - 1]] + prod[i.dot..];
      rest, limit := Completion(k, states[..n], symbols[..n], Item(i.number, i.dot - 1), [symbols[n]] + ts);
      CompletesAbove(k, states, symbols, i, ts, rest, limit);
    } else if i.number == 0 {
      OnlyStart(k, states, symbols, ts);
      rest := [];
      limit := CompletesStart(k, ts[0]);
      assert ts == [ts[0]];
    } else {
      var j, p := Origin(k, states, symbols, i.number);
      assert k.g.productions[i.number].prod[0..] == k.g.productions[i.number].prod;
      rest, limit := HeadCompletion(k, states, symbols, j, p, ts);
    }
  }

  lemma OnlyStart(k: Parser, states: seq<nat>, symbols: seq<Tree>, ts: seq<Tree>)
    requires Ready(k) && IsStack(k, states, symbols) && states != [] && Last(states) < |k.a.states|
    requires Item(0, 0) in k.a.states[Last(states)]
    requires AreTrees(k.g, ts) && Roots(k.g, ts) == k.g.productions[0].prod[0..]
    ensures states == [0] && symbols == [Leaf(Token(END, ""))] && |ts| == 1 && AreTrees(k.g, [ts[0]])
    ensures Root(k.g, ts[0]) == StartSymbol(k.g)
  {
    hide IsAutomaton, Justified, Enough, Filled, AreTrees, IsItemSet, Root;
    StackBounds(k, states, symbols);
    StatesAreItemSets(k.g, k.a, Last(states));
    assert |Roots(k.g, ts)| == |ts| && Roots(k.g, ts)[0] == Root(k.g, ts[0]);
    assert ts == [ts[0]] && symbols == [symbols[0]];
  }

  /** The same for a predicted production. */
  lemma {:induction false} HeadCompletion(k: Parser, states: seq<nat>, symbols: seq<Tree>, i: Item, p: seq<nat>,
                                          ts: seq<Tree>)
    returns (rest: seq<Token>, limit: nat)
    requires Ready(k) && Productive(k.g) && IsStack(k, states, symbols) && states != [] && p != []
    requires LeadsTo(k, Last(states), i, p, p[|p| - 1]) && p[|p| - 1] < |k.g.productions|
    requires AreTrees(k.g, ts) && Roots(k.g, ts) == k.g.productions[p[|p| - 1]].prod
    ensures Completes(k, states, symbols, Item(p[|p| - 1], 0), ts, rest, limit)
    decreases |states|, 1, |p|
  {
    hide WellFormed, IsAutomaton, Justified, Enough, Filled, IsStack, AreTrees, Completes, Productive, Roots, Root;
    var q := p[|p| - 1];
    var j := if |p| == 1 then i else Item(p[|p| - 2], 0);
    assert q in After(k.g, j) && j in k.a.states[Last(states)];
    var more := RestFor(k.g, j.number, j.dot + 1);
    NodeFirst(k.g, q, ts, j, more);
    var fs := [Node(q, ts)] + more;
    if |p| == 1 {
      rest, limit := Completion(k, states, symbols, i, fs);
    } else {
      assert k.g.productions[j.number].prod[0..] == k.g.productions[j.number].prod;
      rest, limit := HeadCompletion(k, states, symbols, i, p[..|p| - 1], fs);
    }
    CompletesHead(k, states, symbols, j, q, ts, more, rest, limit);
    rest := Yields(more) + rest;
  }

  /** The tree of a predicted production, in the forest of the item that predicts it. */
  lemma NodeFirst(g: Grammar, q: nat, ts: seq<Tree>, j: Item, more: seq<Tree>)
    requires IsItem(g, j) && q in After(g, j) && AreTrees(g, ts) && Roots(g, ts) == g.productions[q].prod
    requires AreTrees(g, more) && Roots(g, more) == g.productions[j.number].prod[j.dot + 1..]
    ensures AreTrees(g, [Node(q, ts)] + more)
    ensures Roots(g, [Node(q, ts)] + more) == g.productions[j.number].prod[j.dot..]
  {
    hide Root, Roots;
    NodeIsTree(g, q, ts);
    YieldsOne(Node(q, ts));
    TreeFirst(g, Node(q, ts), more);
    var prod := g.productions[j.number].prod;
    assert prod[j.dot..] == [prod[j.dot]] + prod[j.dot + 1..];
    assert [g.productions[q].name] == Roots(g, [Node(q, ts)]);
    RootsOne(g, Node(q, ts));
  }

  lemma RootsOne(g: Grammar, t: Tree)
    ensures Roots(g, [t]) == [Root(g, t)]
  {
  }

  // ----- Cycles of `reads` -----

  /** Transitions each of which reads the next. */
  ghost predicate IsChain(k: Parser, c: seq<Trans>) {
    c != [] && forall m :: 0 < m < |c| ==> c[m] in ReadsNext(k.g, k.a, k.f.nullable, c[m - 1])
  }

  ghost predicate IsCycle(k: Parser, c: seq<Trans>) {
    IsChain(k, c) && |c| > 1 && c[0] == c[|c| - 1]
  }

  lemma ChainStep(k: Parser, c: seq<Trans>, m: nat)
    requires Ready(k) && IsChain(k, c) && m + 1 < |c|
    ensures c[m] in k.a.goto && c[m].0 < |k.a.states| && k.a.goto[c[m]] == c[m + 1].0 < |k.a.states|
    ensures c[m + 1] in k.a.goto && c[m + 1].1 in k.f.nullable
  {
    hide IsAutomaton, WellFormed, Justified, Enough, Filled, IsClosure, IsItemSet;
    assert c[m + 1] in ReadsNext(k.g, k.a, k.f.nullable, c[m + 1 - 1]);
    ReadsTransition(k.g, k.a, k.f.nullable, c[m], c[m + 1]);
    AcrossTransition(k.g, k.a, c[m]);
  }

  /** A tree with no tokens. */
  lemma NoTokens(k: Parser, x: Symbol) returns (t: Tree)
    requires Ready(k) && x in k.f.nullable
    ensures AreTrees(k.g, [t]) && t.Node? && Root(k.g, t) == x && Yield(t) == []
  {
    hide IsAutomaton, WellFormed, Justified, Filled, Derives, IsTree, AreTrees;
    t := TreeFor(k.g, x, []);
    assert |Yield(t)| == |Kinds(Yield(t))|;
  }

  /** The stacks go on along the chain, with trees that have no tokens. */
  ghost predicate GoesOn(k: Parser, base: nat, c: seq<Trans>, states: seq<nat>, symbols: seq<Tree>) {
    && |symbols| == |states| == base + |c| && c != [] && Last(states) == c[|c| - 1].0
    && forall m :: 0 <= m < |c| - 1 ==> VoidAt(k, base, c[m], states, symbols, m)
  }

  ghost predicate VoidAt(k: Parser, base: nat, t: Trans, states: seq<nat>, symbols: seq<Tree>, m: nat) {
    && base + m + 1 < |symbols| == |states| && states[base + m] == t.0 && Root(k.g, symbols[base + m + 1]) == t.1
    && symbols[base + m + 1].Node? && Yields(symbols[base + m + 2..]) == []
  }

  lemma {:induction false} Empties(k: Parser, states: seq<nat>, symbols: seq<Tree>, c: seq<Trans>)
    returns (states': seq<nat>, symbols': seq<Tree>)
    requires Ready(k) && IsStack(k, states, symbols) && states != [] && IsChain(k, c) && Last(states) == c[0].0
    requires c[0].1 in k.f.nullable
    ensures IsStack(k, states', symbols') && GoesOn(k, |states| - 1, c, states', symbols')
    decreases |c|
  {
    hide Ready, IsStack, AreTrees, Root, VoidAt, ReadsNext, Yield;
    if |c| == 1 {
      StackSizes(k, states, symbols);
      states', symbols' := states, symbols;
    } else {
      var n := |c| - 1;
      assert IsChain(k, c[..n]);
      states', symbols' := Empties(k, states, symbols, c[..n]);
      ChainStep(k, c, n - 1);
      NullableOn(k, c, n - 1);
      var t := NoTokens(k, c[n - 1].1);
      TreeEdge(k, c[n - 1].0, t);
      StackMore(k, states', symbols', t, c[n].0);
      GoesFurther(k, |states| - 1, c, states', symbols', t);
      states', symbols' := states' + [c[n].0], symbols' + [t];
    }
  }

  lemma StackSizes(k: Parser, states: seq<nat>, symbols: seq<Tree>)
    requires IsStack(k, states, symbols)
    ensures |states| == |symbols|
  {
  }

  lemma NullableOn(k: Parser, c: seq<Trans>, m: nat)
    requires Ready(k) && IsChain(k, c) && m < |c| && c[0].1 in k.f.nullable
    ensures c[m].1 in k.f.nullable
  {
    hide Ready, IsChain;
    if m > 0 {
      ChainStep(k, c, m - 1);
    }
  }

  lemma GoesFurther(k: Parser, base: nat, c: seq<Trans>, states: seq<nat>, symbols: seq<Tree>, t: Tree)
    requires |c| > 1 && GoesOn(k, base, c[..|c| - 1], states, symbols)
    requires t.Node? && Root(k.g, t) == c[|c| - 2].1 && Yield(t) == []
    ensures GoesOn(k, base, c, states + [c[|c| - 1].0], symbols + [t])
  {
    hide Root, Yield;
    var n := |c| - 1;
    var states', symbols' := states + [c[n].0], symbols + [t];
    forall m | 0 <= m < n ensures VoidAt(k, base, c[m], states', symbols', m) {
      if m < n - 1 {
        assert VoidAt(k, base, c[..n][m], states, symbols, m);
        assert symbols'[base + m + 2..] == symbols[base + m + 2..] + [t];
        YieldsConcat(symbols[base + m + 2..], [t]);
        YieldsOne(t);
      } else {
        assert symbols'[base + m + 2..] == [];
      }
    }
  }

  /** A symbol follows all transitions of the cycle. */
  ghost predicate FollowsAll(k: Parser, c: seq<Trans>, x: Symbol)
    requires WellFormed(k.g)
  {
    forall m :: 0 <= m < |c| ==> FollowedBySymbol(k, c[m], x)
  }

  /** Before a symbol that follows all its transitions, the machine goes around the cycle and never accepts. */
  lemma {:induction false} GoesAround(k: Parser, c: seq<Trans>, m: nat, states: seq<nat>, symbols: seq<Tree>,
                                      ahead: seq<Token>, limit: nat)
    requires Ready(k) && IsCycle(k, c) && m < |c| - 1 && FollowsAll(k, c, KindAhead(ahead))
    requires states != [] && |symbols| == |states| && Last(states) == c[m].0
    ensures !Outcomes(k.g, k.table, Config(states, symbols, ahead), limit).Accepted?
    decreases limit
  {
    hide WellFormed, IsAutomaton, Justified, Enough, Filled, AreTrees, Outcomes, FollowedBySymbol, Runs, RunsIn,
         ReadsNext;
    CycleVanishes(k, c);
    ChainStep(k, c, m);
    NullableOn(k, c, m);
    var t := NoTokens(k, c[m].1);
    TreeRuns(k, states, symbols, t, ahead);
    assert [] + ahead == ahead;
    var here, next := Config(states, symbols, ahead), Config(states + [c[m + 1].0], symbols + [t], ahead);
    var n := RunsSome(k, here, next);
    if Outcomes(k.g, k.table, here, limit).Accepted? {
      if limit < n {
        OutcomeStays(k.g, k.table, here, limit, n);
        RunsToOutcome(k.g, k.table, here, next, n, 0);
        NotYet(k, next);
      } else {
        RunsToOutcome(k.g, k.table, here, next, n, limit - n);
        GoesAround(k, c, if m + 1 == |c| - 1 then 0 else m + 1, next.states, next.symbols, ahead, limit - n);
      }
    }
  }

  lemma NotYet(k: Parser, c: Config)
    ensures Outcomes(k.g, k.table, c, 0) == Running
  {
  }

  lemma RunsSome(k: Parser, c: Config, c': Config) returns (n: nat)
    requires Runs(k.g, k.table, c, c') && c != c'
    ensures n > 0 && RunsIn(k.g, k.table, c, c', n)
  {
    hide TurnOf;
    n :| RunsIn(k.g, k.table, c, c', n);
  }

  lemma CycleVanishes(k: Parser, c: seq<Trans>)
    requires Ready(k) && IsCycle(k, c)
    ensures c[0].1 in k.f.nullable
  {
    hide Ready, ReadsNext;
    ChainStep(k, c, |c| - 2);
  }

  /** Something follows all transitions of a cycle, in the stacks of a sentence that have gone around it. */
  lemma AroundOnce(k: Parser, c: seq<Trans>)
    returns (states: seq<nat>, symbols: seq<Tree>, ahead: seq<Token>, limit: nat)
    requires Ready(k) && Productive(k.g) && IsCycle(k, c)
    ensures |symbols| == |states| > 0 && Last(states) == c[0].0 && FollowsAll(k, c, KindAhead(ahead))
    ensures Outcomes(k.g, k.table, Config(states, symbols, ahead), limit).Accepted?
  {
    hide WellFormed, IsAutomaton, Justified, Enough, Filled, AreTrees, Outcomes, FollowedBySymbol, ReadsNext, IsStack,
         Productive, TreeFollowed, VoidAt, IsItemSet, Roots;
    CycleVanishes(k, c);
    ChainStep(k, c, 0);
    var low, trees := StackTo(k, c[0].0);
    states, symbols := Empties(k, low, trees, c);
    StatesAreItemSets(k.g, k.a, c[0].0);
    var i := ItemOver(k.g, k.a, c[0].0, c[0].1);
    var ts := RestFor(k.g, i.number, i.dot);
    var rest;
    rest, limit := Completion(k, states, symbols, i, ts);
    ahead := Yields(ts) + rest;
    forall m | 0 <= m < |c| - 1 ensures FollowedBySymbol(k, c[m], KindAhead(ahead)) {
      assert VoidAt(k, |low| - 1, c[m], states, symbols, m);
      assert TreeFollowed(k, states, symbols, |low| + m, ahead);
      VoidFollowed(k, |low| - 1, c[m], states, symbols, m, ahead);
    }
  }

  lemma VoidFollowed(k: Parser, base: nat, t: Trans, states: seq<nat>, symbols: seq<Tree>, m: nat, ahead: seq<Token>)
    requires Ready(k) && VoidAt(k, base, t, states, symbols, m)
    requires TreeFollowed(k, states, symbols, base + m + 1, ahead)
    ensures FollowedBySymbol(k, t, KindAhead(ahead))
  {
    hide FollowedBySymbol, Root;
    assert Yields(symbols[base + m + 2..]) + ahead == ahead;
    assert t == (t.0, t.1);
  }

  /** Without conflicts, no transition reads itself around a cycle. */
  lemma ReadsAcyclic(k: Parser, c: seq<Trans>)
    requires Ready(k) && Productive(k.g)
    ensures !IsCycle(k, c)
  {
    hide Ready, Productive, FollowsAll, Outcomes;
    if IsCycle(k, c) {
      var states, symbols, ahead, limit := AroundOnce(k, c);
      GoesAround(k, c, 0, states, symbols, ahead, limit);
    }
  }

  /** Without conflicts, no two transitions share a list. */
  lemma NothingShared(k: Parser, nullable: set<Symbol>, trans: seq<Trans>)
    requires Ready(k) && Productive(k.g) && AreNullable(k.g, nullable)
    ensures NoneShared(k.g, k.a, nullable, trans)
  {
    hide IsAutomaton, WellFormed, Justified, Filled, Productive, ReadsNext, Derives;
    assert nullable == k.f.nullable;
    var graph := ReadGraph(k.g, k.a, nullable, trans);
    forall t, u | ReadTogether(k.g, k.a, nullable, trans, t, u) ensures t == u {
      var p :| PathBetween(graph, p, t, u);
      var q :| PathBetween(graph, q, u, t);
      if t != u {
        var c := p + q[1..];
        forall m | 0 < m < |c| ensures c[m] in ReadsNext(k.g, k.a, nullable, c[m - 1]) {
          if m < |p| {
            assert p[m - 1 + 1] in graph.related(p[m - 1]);
          } else {
            assert q[m - |p| + 1] in graph.related(q[m - |p|]);
          }
        }
        assert IsCycle(k, c);
        ReadsAcyclic(k, c);
      }
    }
  }

  /** So the lookaheads are exact. */
  lemma NothingToShare(k: Parser)
    requires Ready(k) && Productive(k.g)
    ensures Alike(k.g, k.a)
  {
    hide IsAutomaton, Justified, Enough, Filled, Productive, SharedAlike, NoneShared;
    forall nullable, trans | AllTransitions(k.g, k.a, trans) && AreNullable(k.g, nullable)
      ensures SharedAlike(k.g, k.a, nullable, trans)
    {
      NothingShared(k, nullable, trans);
      NoneSharedAlike(k.g, k.a, nullable, trans);
    }
  }
}
