/**
 Tables without conflicts parse every sentence: the machine, on the yield of a parse tree, builds that tree. With the
 soundness of the machine, it accepts exactly the sentences of the grammar; and there is only one tree for each.
 */
module LRCompleteness {
  import opened Wrappers
  import opened Grammars
  import opened LR0Items
  import opened LR0Paths
  import opened Trees
  import opened LRParser
  import opened Digraph
  import opened LalrRelations
  import opened LalrGenerator
  import opened LRConflicts
  import opened LRTables

  // ----- Derivations have trees -----

  /** A forest over the form, whose yield is `tokens`. */
  ghost predicate IsForest(g: Grammar, ts: seq<Tree>, form: seq<Symbol>, tokens: seq<Token>) {
    (forall t :: t in ts ==> IsTree(g, t)) && Roots(g, ts) == form && Yields(ts) == tokens
  }

  function Leaves(tokens: seq<Token>): (r: seq<Tree>)
    ensures |r| == |tokens|
  {
    seq(|tokens|, k requires 0 <= k < |tokens| => Leaf(tokens[k]))
  }

  lemma {:induction false} LeavesYield(tokens: seq<Token>)
    ensures Yields(Leaves(tokens)) == tokens
  {
    if tokens != [] {
      assert Leaves(tokens)[1..] == Leaves(tokens[1..]);
      LeavesYield(tokens[1..]);
    }
  }

  lemma {:induction false} ForestOf(g: Grammar, form: seq<Symbol>, tokens: seq<Token>, n: nat) returns (ts: seq<Tree>)
    requires DerivesIn(g, form, Kinds(tokens), n)
    ensures IsForest(g, ts, form, tokens)
    decreases n
  {
    if n == 0 {
      ts := Leaves(tokens);
      LeavesYield(tokens);
      assert Roots(g, ts) == Kinds(tokens);
    } else {
      var c :| Step(g, form, c) && DerivesIn(g, c, Kinds(tokens), n - 1);
      var u, p, v :| StepAt(g, form, c, u, p, v);
      var cs := ForestOf(g, c, tokens, n - 1);
      var q :| 1 <= q < |g.productions| && g.productions[q] == p;
      ts := Folded(g, cs, q, u, v, tokens);
    }
  }

  lemma RootsConcat(g: Grammar, u: seq<Tree>, v: seq<Tree>)
    ensures Roots(g, u + v) == Roots(g, u) + Roots(g, v)
  {
    hide Root;
  }

  /** The trees over a right side become one tree. */
  lemma Folded(g: Grammar, cs: seq<Tree>, q: nat, u: seq<Symbol>, v: seq<Symbol>, tokens: seq<Token>)
    returns (ts: seq<Tree>)
    requires 1 <= q < |g.productions| && IsForest(g, cs, u + g.productions[q].prod + v, tokens)
    ensures IsForest(g, ts, u + [g.productions[q].name] + v, tokens)
  {
    hide IsTree, Root, Roots, Yields;
    var m := |u| + |g.productions[q].prod|;
    assert |cs| == |Roots(g, cs)| == m + |v|;
    var l, mid, r := cs[..|u|], cs[|u|..m], cs[m..];
    assert cs == l + mid + r;
    RootsConcat(g, l + mid, r);
    RootsConcat(g, l, mid);
    ThreeParts(Roots(g, l), Roots(g, mid), Roots(g, r), u, g.productions[q].prod, v);
    var t := Node(q, mid);
    ts := l + [t] + r;
    RootsConcat(g, l + [t], r);
    RootsConcat(g, l, [t]);
    NodeIsTree(g, q, mid);
    YieldsFolded(l, mid, r, q);
  }

  lemma ThreeParts<T>(a: seq<T>, b: seq<T>, c: seq<T>, u: seq<T>, w: seq<T>, v: seq<T>)
    requires a + b + c == u + w + v && |a| == |u| && |b| == |w|
    ensures a == u && b == w && c == v
  {
    assert a == (a + b + c)[..|a|] && u == (u + w + v)[..|u|];
    assert b == (a + b + c)[|a|..|a| + |b|] && w == (u + w + v)[|u|..|u| + |w|];
    assert c == (a + b + c)[|a| + |b|..] && v == (u + w + v)[|u| + |w|..];
  }

  lemma YieldsFolded(l: seq<Tree>, mid: seq<Tree>, r: seq<Tree>, q: nat)
    ensures Yields(l + [Node(q, mid)] + r) == Yields(l + mid + r)
  {
    hide Yields;
    var t := Node(q, mid);
    YieldsConcat(l + mid, r);
    YieldsConcat(l, mid);
    YieldsConcat(l + [t], r);
    YieldsConcat(l, [t]);
    YieldsOne(t);
  }

  lemma NodeIsTree(g: Grammar, q: nat, children: seq<Tree>)
    requires 1 <= q < |g.productions| && Roots(g, children) == g.productions[q].prod
    requires forall c :: c in children ==> IsTree(g, c)
    ensures IsTree(g, Node(q, children)) && Roots(g, [Node(q, children)]) == [g.productions[q].name]
  {
  }

  // ----- Runs -----

  ghost predicate RunsIn(g: Grammar, table: ParseTable, c: Config, c': Config, n: nat)
    decreases n
  {
    if n == 0 then c == c'
    else TurnOf(g, table, c).Moved? && RunsIn(g, table, TurnOf(g, table, c).next, c', n - 1)
  }

  ghost predicate Runs(g: Grammar, table: ParseTable, c: Config, c': Config) {
    exists n: nat :: RunsIn(g, table, c, c', n)
  }

  lemma RunsOne(g: Grammar, table: ParseTable, c: Config, c': Config)
    requires TurnOf(g, table, c) == Moved(c')
    ensures Runs(g, table, c, c')
  {
    hide TurnOf;
    assert RunsIn(g, table, c', c', 0);
    assert RunsIn(g, table, c, c', 1);
  }

  lemma {:induction false} RunsChain(g: Grammar, table: ParseTable, c: Config, c1: Config, c2: Config, m: nat, n: nat)
    requires RunsIn(g, table, c, c1, m) && RunsIn(g, table, c1, c2, n)
    ensures RunsIn(g, table, c, c2, m + n)
    decreases m
  {
    hide TurnOf;
    if m > 0 {
      RunsChain(g, table, TurnOf(g, table, c).next, c1, c2, m - 1, n);
    }
  }

  lemma RunsThen(g: Grammar, table: ParseTable, c: Config, c1: Config, c2: Config)
    requires Runs(g, table, c, c1) && Runs(g, table, c1, c2)
    ensures Runs(g, table, c, c2)
  {
    var m: nat :| RunsIn(g, table, c, c1, m);
    var n: nat :| RunsIn(g, table, c1, c2, n);
    RunsChain(g, table, c, c1, c2, m, n);
  }

  lemma {:induction false} RunsToOutcome(g: Grammar, table: ParseTable, c: Config, c': Config, n: nat, limit: nat)
    requires RunsIn(g, table, c, c', n)
    ensures Outcomes(g, table, c, n + limit) == Outcomes(g, table, c', limit)
    decreases n
  {
    hide TurnOf;
    if n > 0 {
      RunsToOutcome(g, table, TurnOf(g, table, c).next, c', n - 1, limit);
    }
  }

  // ----- What can be read behind a transition -----

  /** A grammar with its automaton, the lookaheads that were found, and tables without conflicts. */
  datatype Parser = Parser(g: Grammar, a: Automaton, f: Found, table: ParseTable)

  ghost predicate Ready(k: Parser) {
    && WellFormed(k.g) && IsAutomaton(k.g, k.a) && END !in k.g.terminals && Justified(k.g, k.a, k.table)
    && Enough(k.g, k.a, k.f) && Filled(k.g, k.a, k.f.la, k.table)
  }

  /** What is known without the tables. */
  ghost predicate Known(k: Parser) {
    && WellFormed(k.g) && IsAutomaton(k.g, k.a) && AllTransitions(k.g, k.a, k.f.trans)
    && AreNullable(k.g, k.f.nullable)
  }

  lemma ReadyIsKnown(k: Parser)
    requires Ready(k)
    ensures Known(k)
  {
  }

  ghost function Reads(k: Parser): Graph<Trans, Symbol>
    requires WellFormed(k.g)
  {
    ReadGraph(k.g, k.a, k.f.nullable, k.f.trans)
  }

  /** Trees whose tokens are terminals of the grammar. */
  ghost predicate AreTrees(g: Grammar, ts: seq<Tree>) {
    (forall t :: t in ts ==> IsTree(g, t)) && forall tok :: tok in Yields(ts) ==> tok.kind in g.terminals
  }

  lemma FirstTree(g: Grammar, ts: seq<Tree>)
    requires AreTrees(g, ts) && ts != []
    ensures IsTree(g, ts[0]) && Yields(ts) == Yield(ts[0]) + Yields(ts[1..]) && AreTrees(g, ts[1..])
    ensures forall tok :: tok in Yield(ts[0]) ==> tok.kind in g.terminals
    ensures ts[0].Leaf? ==> Yield(ts[0]) == [ts[0].token] && Root(g, ts[0]) in g.terminals
    ensures ts[0].Node? ==> AreTrees(g, ts[0].children) && Yield(ts[0]) == Yields(ts[0].children)
    ensures ts[0].Node? ==> (var q := ts[0].number;
      1 <= q < |g.productions| && Root(g, ts[0]) == g.productions[q].name
      && Roots(g, ts[0].children) == g.productions[q].prod)
  {
    assert ts[0] in ts;
    assert forall t :: t in ts[1..] ==> t in ts;
    assert ts[0].Leaf? ==> ts[0].token in Yield(ts[0]);
  }

  lemma NameIsNonterminal(g: Grammar, q: nat)
    requires WellFormed(g) && 1 <= q < |g.productions|
    ensures g.productions[q].name in g.nonterminals
  {
    assert IsRule(g, g.productions[q]);
  }

  /** The production of a symbol after the dot is in the state, with its dot in front. */
  lemma ChildPredicted(g: Grammar, a: Automaton, s: nat, i: Item, q: nat)
    requires WellFormed(g) && IsAutomaton(g, a) && s < |a.states| && i in a.states[s]
    requires 1 <= q < |g.productions| && DotBefore(g, i, g.productions[q].name)
    ensures Item(q, 0) in a.states[s]
  {
    hide IsAutomaton;
    StatePredicts(g, a, s, i, q);
  }

  lemma RootsRest(g: Grammar, ts: seq<Tree>, prod: seq<Symbol>, d: nat)
    requires d <= |prod| && Roots(g, ts) == prod[d..] && ts != []
    ensures d < |prod| && Root(g, ts[0]) == prod[d] && Roots(g, ts[1..]) == prod[d + 1..]
  {
    hide Root;
    assert Roots(g, ts)[0] == prod[d];
    assert forall m :: 0 <= m < |ts[1..]| ==> Roots(g, ts[1..])[m] == Roots(g, ts)[m + 1] == prod[d + 1..][m];
  }

  lemma EmptyIsNullable(k: Parser, t: Tree)
    requires WellFormed(k.g) && AreNullable(k.g, k.f.nullable) && IsTree(k.g, t) && Yield(t) == []
    ensures Root(k.g, t) in k.f.nullable
  {
    hide WellFormed, Derives;
    TreeDerives(k.g, t);
    assert Kinds([]) == [];
    NameIsNonterminal(k.g, t.number);
  }

  lemma DirectlyRead(k: Parser, t: Trans, i: Item, x: Symbol)
    requires WellFormed(k.g) && t in k.a.goto && k.a.goto[t] < |k.a.states|
    requires i in k.a.states[k.a.goto[t]] && DotBefore(k.g, i, x) && x in k.g.terminals
    ensures Collected(Reads(k), t, x)
  {
    hide Collected;
    assert x in Direct(k.g, k.a, t);
    ReachesSelf(Reads(k), t);
    CollectedIn(Reads(k), t, t, x);
  }

  lemma NextRead(k: Parser, t: Trans, i: Item, y: Symbol, x: Symbol)
    requires WellFormed(k.g) && t in k.a.goto && k.a.goto[t] < |k.a.states|
    requires i in k.a.states[k.a.goto[t]] && DotBefore(k.g, i, y) && y in k.f.nullable
    requires Collected(Reads(k), (k.a.goto[t], y), x)
    ensures Collected(Reads(k), t, x)
  {
    hide Collected;
    assert (k.a.goto[t], y) in ReadsNext(k.g, k.a, k.f.nullable, t);
    CollectedNext(Reads(k), t, (k.a.goto[t], y), x);
  }

  /**
   A forest over what an item has after its dot: its first token can be read after a transition to the item's state.
   */
  lemma {:induction false} ForestReads(k: Parser, t: Trans, q: nat, d: nat, ts: seq<Tree>)
    requires Known(k) && t in k.a.goto && k.a.goto[t] < |k.a.states| && Item(q, d) in k.a.states[k.a.goto[t]]
    requires q < |k.g.productions| && d <= |k.g.productions[q].prod| && Roots(k.g, ts) == k.g.productions[q].prod[d..]
    requires AreTrees(k.g, ts) && Yields(ts) != []
    ensures Collected(Reads(k), t, Yields(ts)[0].kind)
    decreases ts
  {
    hide WellFormed, IsAutomaton, Justified, Filled, Collected, IsTree, AreTrees, Reads, Roots;
    var g, s := k.g, k.a.goto[t];
    FirstTree(g, ts);
    RootsRest(g, ts, g.productions[q].prod, d);
    var y := Root(g, ts[0]);
    if Yield(ts[0]) == [] {
      EmptyIsNullable(k, ts[0]);
      ItemMoves(g, k.a, s, Item(q, d), y);
      ForestReads(k, (s, y), q, d + 1, ts[1..]);
      NextRead(k, t, Item(q, d), y, Yields(ts)[0].kind);
    } else if ts[0].Leaf? {
      DirectlyRead(k, t, Item(q, d), y);
    } else {
      var p := ts[0].number;
      ChildPredicted(g, k.a, s, Item(q, d), p);
      assert g.productions[p].prod[0..] == g.productions[p].prod;
      ForestReads(k, t, p, 0, ts[0].children);
    }
  }

  // ----- What follows the children of a tree -----

  lemma EmptyForest(k: Parser, ts: seq<Tree>, xs: seq<Symbol>)
    requires WellFormed(k.g) && AreNullable(k.g, k.f.nullable) && AreTrees(k.g, ts) && Yields(ts) == []
    requires Roots(k.g, ts) == xs
    ensures AllNullable(k.f.nullable, xs)
    decreases ts
  {
    hide WellFormed, AreNullable, AreTrees, IsTree, Roots;
    if ts != [] {
      FirstTree(k.g, ts);
      assert xs[0..] == xs;
      RootsRest(k.g, ts, xs, 0);
      EmptyIsNullable(k, ts[0]);
      EmptyForest(k, ts[1..], xs[1..]);
      assert forall m :: 1 <= m < |xs| ==> xs[m] == xs[1..][m - 1];
    }
  }

  ghost predicate FollowedBySymbol(k: Parser, t: Trans, x: Symbol)
    requires WellFormed(k.g)
  {
    Followed(k.g, k.a, k.f.nullable, k.f.trans, t, x)
  }

  lemma ReadIsFollowed(k: Parser, t: Trans, x: Symbol)
    requires WellFormed(k.g) && t in k.f.trans && Collected(Reads(k), t, x)
    ensures FollowedBySymbol(k, t, x)
  {
    hide Collected;
    assert IncludePath(k.g, k.a, k.f.nullable, k.f.trans, [t]);
    assert FollowedBy(k.g, k.a, k.f.nullable, k.f.trans, t, x, [t]);
  }

  lemma IncludedIsFollowed(k: Parser, t: Trans, z: Trans, x: Symbol)
    requires WellFormed(k.g) && t in k.f.trans && Includes(k.g, k.a, k.f.nullable, t, z) && FollowedBySymbol(k, z, x)
    ensures FollowedBySymbol(k, t, x)
  {
    hide Collected, Includes;
    var p :| FollowedBy(k.g, k.a, k.f.nullable, k.f.trans, z, x, p);
    var p' := [t] + p;
    assert forall i :: 0 <= i < |p'| - 1 ==> Includes(k.g, k.a, k.f.nullable, p'[i], p'[i + 1]) by {
      forall i | 0 <= i < |p'| - 1 ensures Includes(k.g, k.a, k.f.nullable, p'[i], p'[i + 1]) {
        if i > 0 {
          assert Includes(k.g, k.a, k.f.nullable, p[i - 1], p[i - 1 + 1]);
        }
      }
    }
    assert FollowedBy(k.g, k.a, k.f.nullable, k.f.trans, t, x, p');
  }

  /** The transition over a symbol of the production, `d` symbols along it from state `j`. */
  ghost predicate Along(k: Parser, j: nat, q: nat, d: nat, s: nat) {
    && j < |k.a.states| && s < |k.a.states| && 1 <= q < |k.g.productions| && d <= |k.g.productions[q].prod|
    && Item(q, 0) in k.a.states[j] && Item(q, d) in k.a.states[s]
    && Arrival(k.a, j, k.g.productions[q].prod[..d]) == Some(s)
  }

  /** What follows a tree inside the tree around it follows the transition over its root. */
  lemma ChildFollowed(k: Parser, j: nat, q: nat, d: nat, s: nat, ts: seq<Tree>, rest: seq<Token>)
    requires Known(k) && Along(k, j, q, d, s) && AreTrees(k.g, ts) && ts != [] && ts[0].Node?
    requires Roots(k.g, ts) == k.g.productions[q].prod[d..]
    requires FollowedBySymbol(k, (j, k.g.productions[q].name), KindAhead(rest))
    ensures FollowedBySymbol(k, (s, Root(k.g, ts[0])), KindAhead(Yields(ts[1..]) + rest))
  {
    hide WellFormed, IsAutomaton, Justified, Filled, Collected, IsTree, AreTrees, Reads, Roots, FollowedBySymbol,
         Arrival;
    var g, prod := k.g, k.g.productions[q].prod;
    FirstTree(g, ts);
    RootsRest(g, ts, prod, d);
    var t: Trans := (s, prod[d]);
    ItemMoves(g, k.a, s, Item(q, d), prod[d]);
    NameIsNonterminal(g, ts[0].number);
    assert t in k.f.trans;
    if Yields(ts[1..]) == [] {
      EmptyForest(k, ts[1..], prod[d + 1..]);
      assert prod[0..d] == prod[..d];
      assert IncludedAt(g, k.a, k.f.nullable, t, (j, g.productions[q].name), Item(q, 0), d);
      IncludedIsFollowed(k, t, (j, g.productions[q].name), KindAhead(rest));
      assert Yields(ts[1..]) + rest == rest;
    } else {
      ForestReads(k, t, q, d + 1, ts[1..]);
      ReadIsFollowed(k, t, Yields(ts[1..])[0].kind);
    }
  }

  // ----- The machine builds the tree -----

  function Last(states: seq<nat>): nat
    requires states != []
  {
    states[|states| - 1]
  }

  lemma FilledAt(k: Parser, s: nat, i: Item, x: Symbol, act: int)
    requires Ready(k) && Proposes(k.g, k.a, k.f.la, s, i, x, act)
    ensures (s, x) in k.table.action && k.table.action[(s, x)] == act
  {
    hide WellFormed, IsAutomaton, Justified, Enough, Proposes;
    assert Candidate(k.g, k.a, k.f.la, s, x, act);
  }

  lemma ShiftProposed(k: Parser, s: nat, i: Item, x: Symbol)
    requires s < |k.a.states| && i in k.a.states[s] && DotBefore(k.g, i, x) && x in k.g.terminals && (s, x) in k.a.goto
    ensures Proposes(k.g, k.a, k.f.la, s, i, x, k.a.goto[(s, x)])
  {
  }

  /** A terminal is shifted. */
  lemma ShiftRuns(k: Parser, c: Config)
    requires Ready(k) && c.states != [] && c.symbols != [] && c.ahead != [] && c.ahead[0].kind in k.g.terminals
    requires (Last(c.states), c.ahead[0].kind) in k.a.goto
    ensures Runs(k.g, k.table, c, Config(c.states + [k.a.goto[(Last(c.states), c.ahead[0].kind)]],
                                         c.symbols + [Leaf(c.ahead[0])], c.ahead[1..]))
  {
    hide WellFormed, IsAutomaton, Justified, Enough, Filled, Runs, TurnOf, DotBefore, Kernel;
    var s, x := Last(c.states), c.ahead[0].kind;
    TurnCases(k.g, k.table, c);
    var i := ItemOver(k.g, k.a, s, x);
    AcrossTransition(k.g, k.a, (s, x));
    ShiftProposed(k, s, i, x);
    FilledAt(k, s, i, x, k.a.goto[(s, x)]);
    RunsOne(k.g, k.table, c, Config(c.states + [k.a.goto[(s, x)]], c.symbols + [Leaf(c.ahead[0])], c.ahead[1..]));
  }

  /** What the machine has below a production that it is parsing, and what it has of it. */
  datatype Frame = Frame(states: seq<nat>, symbols: seq<Tree>, extra: seq<nat>, done: seq<Tree>)

  function Of(w: Frame, ahead: seq<Token>): Config { Config(w.states + w.extra, w.symbols + w.done, ahead) }

  ghost predicate IsFrame(k: Parser, w: Frame, q: nat) {
    && w.states != [] && |w.symbols| == |w.states| && |w.extra| == |w.done|
    && Along(k, Last(w.states), q, |w.done|, Last(w.states + w.extra))
    && (Last(w.states), k.g.productions[q].name) in k.a.goto
  }

  lemma FrameBounds(k: Parser, w: Frame, q: nat)
    requires IsFrame(k, w, q)
    ensures 1 <= q < |k.g.productions| && |w.done| <= |k.g.productions[q].prod|
    ensures Last(w.states) < |k.a.states| && w.states + w.extra != []
  {
  }

  /** A production that is complete is reduced. */
  lemma ReduceRuns(k: Parser, w: Frame, q: nat, ahead: seq<Token>)
    requires Ready(k) && IsFrame(k, w, q) && |w.done| == |k.g.productions[q].prod|
    requires FollowedBySymbol(k, (Last(w.states), k.g.productions[q].name), KindAhead(ahead))
    ensures Runs(k.g, k.table, Of(w, ahead),
                 Config(w.states + [k.a.goto[(Last(w.states), k.g.productions[q].name)]],
                        w.symbols + [Node(q, w.done)], ahead))
  {
    hide WellFormed, IsAutomaton, Justified, Enough, Filled, Runs, Arrival, FollowedBySymbol;
    var g, c := k.g, Of(w, ahead);
    var z, s := (Last(w.states), g.productions[q].name), Last(c.states);
    LookaheadFound(k, z, q, s, KindAhead(ahead));
    assert Proposes(g, k.a, k.f.la, s, Item(q, |g.productions[q].prod|), KindAhead(ahead), ReduceBy(q));
    FilledAt(k, s, Item(q, |g.productions[q].prod|), KindAhead(ahead), ReduceBy(q));
    GotoAt(g, k.a, k.table, z.0, q);
    var n := |c.states| - |g.productions[q].prod|;
    assert c.states[..n] == w.states && c.symbols[..n] == w.symbols && c.symbols[n..] == w.done;
    RunsOne(g, k.table, c, Config(w.states + [k.a.goto[z]], w.symbols + [Node(q, w.done)], ahead));
  }

  lemma LookaheadFound(k: Parser, z: Trans, q: nat, s: nat, x: Symbol)
    requires Ready(k) && 1 <= q < |k.g.productions| && Along(k, z.0, q, |k.g.productions[q].prod|, s)
    requires z.1 == k.g.productions[q].name && z in k.a.goto
    requires FollowedBySymbol(k, z, x)
    ensures LalrGenerator.Has(k.f.la, (s, Item(q, |k.g.productions[q].prod|)), x)
  {
    hide WellFormed, IsAutomaton, Justified, Filled, Arrival, Followed;
    var g, prod := k.g, k.g.productions[q].prod;
    NameIsNonterminal(g, q);
    var r := Item(q, |prod|);
    assert prod[..|prod|] == prod && prod[0..] == prod;
    assert Dotted(g, r) == prod + ["."] && Dotted(g, Item(q, 0)) == ["."] + prod;
    assert LooksBackAt(g, k.a, s, r, z, Item(q, 0));
    assert IsLookahead(g, k.a, k.f.nullable, k.f.trans, s, r, x);
  }

  /**
   From a state with a transition over the root of a tree, on the tokens of the tree, the machine makes the transition
   and has the tree on its stack, when what comes next follows the transition.
   */
  lemma {:induction false} TreeRuns(k: Parser, states: seq<nat>, symbols: seq<Tree>, t: Tree, rest: seq<Token>)
    requires Ready(k) && AreTrees(k.g, [t]) && states != [] && |symbols| == |states|
    requires (Last(states), Root(k.g, t)) in k.a.goto
    requires t.Node? ==> FollowedBySymbol(k, (Last(states), Root(k.g, t)), KindAhead(rest))
    ensures Runs(k.g, k.table, Config(states, symbols, Yield(t) + rest),
                 Config(states + [k.a.goto[(Last(states), Root(k.g, t))]], symbols + [t], rest))
    decreases t, 0
  {
    hide WellFormed, IsAutomaton, Justified, Enough, Filled, Runs, AreTrees, FollowedBySymbol, Roots;
    FirstTree(k.g, [t]);
    if t.Leaf? {
      assert (Yield(t) + rest)[1..] == rest;
      ShiftRuns(k, Config(states, symbols, Yield(t) + rest));
    } else {
      var q, j := t.number, Last(states);
      var i := ItemOver(k.g, k.a, j, Root(k.g, t));
      ChildPredicted(k.g, k.a, j, i, q);
      var w := Frame(states, symbols, [], []);
      assert w.states + w.extra == states && w.symbols + w.done == symbols;
      StartAlong(k, j, q);
      assert k.g.productions[q].prod[0..] == k.g.productions[q].prod;
      ForestRuns(k, w, q, t.children, rest);
      assert [] + t.children == t.children;
    }
  }

  lemma StartAlong(k: Parser, j: nat, q: nat)
    requires j < |k.a.states| && 1 <= q < |k.g.productions| && Item(q, 0) in k.a.states[j]
    ensures Along(k, j, q, 0, j)
  {
    assert k.g.productions[q].prod[..0] == [];
  }

  /** One symbol further along. */
  lemma NextAlong(k: Parser, j: nat, q: nat, d: nat, s: nat)
    requires Ready(k) && Along(k, j, q, d, s) && d < |k.g.productions[q].prod|
    ensures (var x := k.g.productions[q].prod[d]; (s, x) in k.a.goto && Along(k, j, q, d + 1, k.a.goto[(s, x)]))
  {
    hide WellFormed, IsAutomaton, Justified, Enough, Filled;
    var prod := k.g.productions[q].prod;
    ItemMoves(k.g, k.a, s, Item(q, d), prod[d]);
    ArrivalStep(k.a, j, prod[..d], prod[d]);
    assert prod[..d + 1] == prod[..d] + [prod[d]];
  }

  /** The rest of a production: the machine builds its trees, and reduces. */
  lemma {:induction false} ForestRuns(k: Parser, w: Frame, q: nat, ts: seq<Tree>, rest: seq<Token>)
    requires Ready(k) && IsFrame(k, w, q) && AreTrees(k.g, ts)
    requires Roots(k.g, ts) == k.g.productions[q].prod[|w.done|..]
    requires FollowedBySymbol(k, (Last(w.states), k.g.productions[q].name), KindAhead(rest))
    ensures Runs(k.g, k.table, Of(w, Yields(ts) + rest),
                 Config(w.states + [k.a.goto[(Last(w.states), k.g.productions[q].name)]],
                        w.symbols + [Node(q, w.done + ts)], rest))
    decreases ts, 1
  {
    hide WellFormed, IsAutomaton, Justified, Enough, Filled, Runs, AreTrees, FollowedBySymbol, Roots, Along, Root;
    FrameBounds(k, w, q);
    if ts == [] {
      assert |Roots(k.g, ts)| == 0;
      assert Yields(ts) + rest == rest && w.done + ts == w.done;
      ReduceRuns(k, w, q, rest);
    } else {
      var d, j, s := |w.done|, Last(w.states), Last(w.states + w.extra);
      RootsRest(k.g, ts, k.g.productions[q].prod, d);
      OneTree(k.g, ts);
      NextAlong(k, j, q, d, s);
      if ts[0].Node? {
        ReadyIsKnown(k);
        ChildFollowed(k, j, q, d, s, ts, rest);
      }
      var c := Of(w, Yields(ts) + rest);
      TreeRuns(k, c.states, c.symbols, ts[0], Yields(ts[1..]) + rest);
      var w' := Frame(w.states, w.symbols, w.extra + [k.a.goto[(s, Root(k.g, ts[0]))]], w.done + [ts[0]]);
      assert w'.states + w'.extra == c.states + [k.a.goto[(s, Root(k.g, ts[0]))]]
          && w'.symbols + w'.done == c.symbols + [ts[0]];
      assert Yields(ts) + rest == Yield(ts[0]) + (Yields(ts[1..]) + rest);
      ForestRuns(k, w', q, ts[1..], rest);
      assert w'.done + ts[1..] == w.done + ts;
      RunsThen(k.g, k.table, c, Of(w', Yields(ts[1..]) + rest),
               Config(w.states + [k.a.goto[(j, k.g.productions[q].name)]], w.symbols + [Node(q, w.done + ts)], rest));
    }
  }

  lemma OneTree(g: Grammar, ts: seq<Tree>)
    requires AreTrees(g, ts) && ts != []
    ensures AreTrees(g, [ts[0]]) && AreTrees(g, ts[1..]) && Yields(ts) == Yield(ts[0]) + Yields(ts[1..])
  {
    hide IsTree;
    FirstTree(g, ts);
    YieldsOne(ts[0]);
  }

  // ----- The language of the tables -----

  lemma StartState(k: Parser)
    requires Ready(k)
    ensures 0 < |k.a.states| && Item(0, 0) in k.a.states[0] && (0, StartSymbol(k.g)) in k.a.goto
    ensures (var s := k.a.goto[(0, StartSymbol(k.g))]; s < |k.a.states| && Item(0, 1) in k.a.states[s])
    ensures FollowedBySymbol(k, (0, StartSymbol(k.g)), END)
  {
    hide Justified, Filled, EnteredFromBelow;
    ClosureHasKernel(k.g, [Item(0, 0)], k.a.states[0], Item(0, 0));
    ItemMoves(k.g, k.a, 0, Item(0, 0), StartSymbol(k.g));
    var z: Trans := (0, StartSymbol(k.g));
    assert END in Direct(k.g, k.a, z);
    ReachesSelf(Reads(k), z);
    CollectedIn(Reads(k), z, z, END);
    ReadIsFollowed(k, z, END);
  }

  lemma AcceptTurn(k: Parser, c: Config)
    requires Ready(k) && c.states != [] && c.symbols != [] && c.ahead == []
    requires Last(c.states) < |k.a.states| && Item(0, 1) in k.a.states[Last(c.states)]
    ensures TurnOf(k.g, k.table, c) == Done(c.symbols[|c.symbols| - 1])
  {
    hide IsAutomaton, Justified, Enough, Filled, TurnOf;
    TurnCases(k.g, k.table, c);
    assert Proposes(k.g, k.a, k.f.la, Last(c.states), Item(0, 1), END, 0);
    FilledAt(k, Last(c.states), Item(0, 1), END, 0);
  }

  /** The machine, on the tokens of a parse tree of the start symbol, accepts with that tree. */
  lemma TreeAccepted(k: Parser, t: Tree) returns (limit: nat)
    requires Ready(k) && AreTrees(k.g, [t]) && Root(k.g, t) == StartSymbol(k.g)
    ensures Outcomes(k.g, k.table, Start(Yield(t)), limit) == Accepted(t)
  {
    hide WellFormed, IsAutomaton, Justified, Enough, Filled, AreTrees, FollowedBySymbol, TurnOf, Root;
    StartState(k);
    var c := Start(Yield(t));
    TreeRuns(k, c.states, c.symbols, t, []);
    assert Yield(t) + [] == Yield(t);
    var c' := Config(c.states + [k.a.goto[(0, StartSymbol(k.g))]], c.symbols + [t], []);
    var n: nat :| RunsIn(k.g, k.table, c, c', n);
    AcceptTurn(k, c');
    RunsToOutcome(k.g, k.table, c, c', n, 1);
    limit := n + 1;
  }

  /** With tables without conflicts, the machine accepts exactly the sentences that the start symbol derives. */
  lemma AcceptsExactly(k: Parser, input: seq<Token>)
    requires Ready(k) && forall i :: 0 <= i < |input| ==> input[i].kind in k.g.terminals
    ensures (exists limit :: Outcomes(k.g, k.table, Start(input), limit).Accepted?)
       <==> Derives(k.g, [StartSymbol(k.g)], Kinds(input))
  {
    hide IsAutomaton, Justified, Enough, Filled, TurnOf, Outcomes;
    if limit :| Outcomes(k.g, k.table, Start(input), limit).Accepted? {
      StartConsistent(k.g, k.a, input);
      RunSound(k.g, k.a, k.table, input, Start(input), limit);
      TreeDerives(k.g, Outcomes(k.g, k.table, Start(input), limit).tree);
    }
    if Derives(k.g, [StartSymbol(k.g)], Kinds(input)) {
      var n: nat :| DerivesIn(k.g, [StartSymbol(k.g)], Kinds(input), n);
      var ts := ForestOf(k.g, [StartSymbol(k.g)], input, n);
      ForestOfOne(k, ts, input);
      var limit := TreeAccepted(k, ts[0]);
    }
  }

  lemma ForestOfOne(k: Parser, ts: seq<Tree>, input: seq<Token>)
    requires WellFormed(k.g) && IsForest(k.g, ts, [StartSymbol(k.g)], input)
    requires forall i :: 0 <= i < |input| ==> input[i].kind in k.g.terminals
    ensures |ts| == 1 && AreTrees(k.g, [ts[0]]) && Root(k.g, ts[0]) == StartSymbol(k.g) && Yield(ts[0]) == input
  {
    hide IsTree, Root;
    assert |ts| == |Roots(k.g, ts)|;
    assert ts == [ts[0]] && Roots(k.g, ts)[0] == StartSymbol(k.g);
    YieldsOne(ts[0]);
  }

  lemma {:induction false} OutcomeStays(g: Grammar, table: ParseTable, c: Config, limit: nat, limit': nat)
    requires limit <= limit' && Outcomes(g, table, c, limit).Accepted?
    ensures Outcomes(g, table, c, limit') == Outcomes(g, table, c, limit)
    decreases limit
  {
    hide TurnOf;
    if TurnOf(g, table, c).Moved? {
      OutcomeStays(g, table, TurnOf(g, table, c).next, limit - 1, limit' - 1);
    }
  }

  /** A grammar whose tables have no conflicts is unambiguous: a sentence has one parse tree. */
  lemma Unambiguous(k: Parser, t: Tree, u: Tree)
    requires Ready(k) && AreTrees(k.g, [t]) && AreTrees(k.g, [u]) && Yield(t) == Yield(u)
    requires Root(k.g, t) == StartSymbol(k.g) == Root(k.g, u)
    ensures t == u
  {
    hide WellFormed, IsAutomaton, Justified, Enough, Filled, AreTrees, Root, Outcomes;
    var m := TreeAccepted(k, t);
    var n := TreeAccepted(k, u);
    OutcomeStays(k.g, k.table, Start(Yield(t)), m, m + n);
    OutcomeStays(k.g, k.table, Start(Yield(t)), n, m + n);
  }
}
