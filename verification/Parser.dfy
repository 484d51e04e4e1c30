/** Parse trees, and what they derive. */
module Trees {
  import opened Grammars

  datatype Token = Token(kind: Symbol, text: string)

  /** A shifted token, or a reduced production over the symbols that it took from the stack. */
  datatype Tree = Leaf(token: Token) | Node(number: nat, children: seq<Tree>)

  function Root(g: Grammar, t: Tree): Symbol {
    match t
    case Leaf(token) => token.kind
    case Node(number, _) => if number < |g.productions| then g.productions[number].name else EMPTY
  }

  function Roots(g: Grammar, ts: seq<Tree>): (r: seq<Symbol>)
    ensures |r| == |ts| && forall k :: 0 <= k < |ts| ==> r[k] == Root(g, ts[k])
  {
    seq(|ts|, k requires 0 <= k < |ts| => Root(g, ts[k]))
  }

  /** Every node is a production over its children; the augmented production makes no node. */
  ghost predicate IsTree(g: Grammar, t: Tree) {
    match t
    case Leaf(_) => true
    case Node(number, children) =>
      && 1 <= number < |g.productions| && Roots(g, children) == g.productions[number].prod
      && forall c :: c in children ==> IsTree(g, c)
  }

  function Yield(t: Tree): seq<Token>
    decreases t, 0
  {
    match t
    case Leaf(token) => [token]
    case Node(_, children) => Yields(children)
  }

  /** The tokens of a forest, from left to right. */
  function Yields(ts: seq<Tree>): seq<Token>
    decreases ts, 1
  {
    if ts == [] then [] else Yield(ts[0]) + Yields(ts[1..])
  }

  function Kinds(tokens: seq<Token>): (r: seq<Symbol>)
    ensures |r| == |tokens| && forall k :: 0 <= k < |tokens| ==> r[k] == tokens[k].kind
  {
    seq(|tokens|, k requires 0 <= k < |tokens| => tokens[k].kind)
  }

  lemma {:induction false} YieldsConcat(u: seq<Tree>, v: seq<Tree>)
    ensures Yields(u + v) == Yields(u) + Yields(v)
  {
    if u == [] {
      assert u + v == v;
    } else {
      assert (u + v)[1..] == u[1..] + v;
      YieldsConcat(u[1..], v);
    }
  }

  lemma YieldsOne(t: Tree)
    ensures Yields([t]) == Yield(t)
  {
    assert [t][1..] == [];
  }

  /** The root of a tree derives the tokens of its yield. */
  lemma {:induction false} TreeDerives(g: Grammar, t: Tree)
    requires IsTree(g, t)
    ensures Derives(g, [Root(g, t)], Kinds(Yield(t)))
    decreases t, 0
  {
    match t
    case Leaf(token) =>
      DerivesSelf(g, [token.kind]);
      assert Kinds([token]) == [token.kind];
    case Node(number, children) =>
      var p := g.productions[number];
      assert IsRule(g, p);
      TreesDerive(g, children);
      DerivesRule(g, p);
      DerivesTransitive(g, [p.name], p.prod, Kinds(Yield(t)));
  }

  lemma {:induction false} TreesDerive(g: Grammar, ts: seq<Tree>)
    requires forall t :: t in ts ==> IsTree(g, t)
    ensures Derives(g, Roots(g, ts), Kinds(Yields(ts)))
    decreases ts, 1
  {
    hide IsTree, Root;
    if ts == [] {
      DerivesSelf(g, []);
      assert Roots(g, ts) == [] && Kinds(Yields(ts)) == [];
    } else {
      TreeDerives(g, ts[0]);
      TreesDerive(g, ts[1..]);
      DerivesBoth(g, [Root(g, ts[0])], Kinds(Yield(ts[0])), Roots(g, ts[1..]), Kinds(Yields(ts[1..])));
      assert Roots(g, ts) == [Root(g, ts[0])] + Roots(g, ts[1..]);
      assert Kinds(Yields(ts)) == Kinds(Yield(ts[0])) + Kinds(Yields(ts[1..]));
    }
  }
}

/** The shift/reduce machine that runs over the generated tables. */
module LRParser {
  import opened Wrappers
  import opened Grammars
  import opened LR0Items
  import opened LR0Paths
  import opened Trees

  /** `lr_action` and `lr_goto`: a positive action is a shift, a negative one a reduction, and zero accepts. */
  datatype ParseTable = ParseTable(action: map<(nat, Symbol), int>, goto: map<(nat, Symbol), nat>)

  /** What the items of a state allow on a symbol. */
  ghost predicate ActionJustified(g: Grammar, a: Automaton, s: nat, x: Symbol, act: int) {
    && s < |a.states|
    && (act > 0 ==> x != END && (s, x) in a.goto && a.goto[(s, x)] == act)
    && (act < 0 ==> -act < |g.productions| && Item(-act, |g.productions[-act].prod|) in a.states[s])
    && (act == 0 ==> x == END && Item(0, 1) in a.states[s])
  }

  /** Every action comes from an item of its state, and the goto table is that of the automaton. */
  ghost predicate Justified(g: Grammar, a: Automaton, table: ParseTable) {
    && (forall s: nat, x :: (s, x) in table.action ==> ActionJustified(g, a, s, x, table.action[(s, x)]))
    && (forall s: nat, x :: (s, x) in a.goto && x in g.nonterminals ==>
          (s, x) in table.goto && table.goto[(s, x)] == a.goto[(s, x)])
  }

  // ----- Paths of the automaton -----

  /** The states are those of a path from state 0 that the symbols spell. */
  ghost predicate Spells(g: Grammar, a: Automaton, states: seq<nat>, symbols: seq<Tree>) {
    && |states| == |symbols| > 0 && states[0] == 0
    && forall k :: 0 < k < |states| ==> Edge(g, a, states[k - 1], symbols[k], states[k])
  }

  ghost predicate Edge(g: Grammar, a: Automaton, s: nat, t: Tree, s': nat) {
    IsTree(g, t) && (s, Root(g, t)) in a.goto && a.goto[(s, Root(g, t))] == s'
  }

  lemma {:induction false} StatesInRange(g: Grammar, a: Automaton, states: seq<nat>, symbols: seq<Tree>, k: nat)
    requires IsAutomaton(g, a) && Spells(g, a, states, symbols) && k < |states|
    ensures states[k] < |a.states| && (states[k] == 0 <==> k == 0)
  {
    hide IsClosure, Kernel, EnteredFromBelow;
    if k > 0 {
      assert Edge(g, a, states[k - 1], symbols[k], states[k]);
    }
  }

  /**
   An item of a state that is not the first: its dot is in front, or it moved there over the symbol of the transition.
   */
  lemma ItemMoved(g: Grammar, a: Automaton, s: nat, t: Tree, s': nat, i: Item)
    requires WellFormed(g) && IsAutomaton(g, a) && Edge(g, a, s, t, s') && i in a.states[s'] && i.dot > 0
    requires IsItemSet(g, a.states[s])
    ensures s < |a.states| && Item(i.number, i.dot - 1) in a.states[s]
    ensures DotBefore(g, Item(i.number, i.dot - 1), Root(g, t))
  {
    hide EnteredFromBelow, IsClosure;
    var x := Root(g, t);
    KernelIsKernel(g, a.states[s], x);
    ClosureIsItemSet(g, Kernel(g, a.states[s], x), a.states[s']);
  }

  /** The first state has items with the dot in front only. */
  lemma StartItems(g: Grammar, a: Automaton, i: Item)
    requires WellFormed(g) && IsAutomaton(g, a) && i in a.states[0]
    ensures i.dot == 0
  {
    hide EnteredFromBelow, IsClosure, Kernel;
    ClosureIsItemSet(g, [Item(0, 0)], a.states[0]);
  }

  /** An item with its dot at `dot` in the last state of a path: the last `dot` symbols are those before the dot. */
  lemma {:induction false} HandleOnTop(g: Grammar, a: Automaton, states: seq<nat>, symbols: seq<Tree>, n: nat, i: Item)
    requires WellFormed(g) && IsAutomaton(g, a) && Spells(g, a, states, symbols) && n < |states|
    requires states[n] < |a.states| && i in a.states[states[n]]
    ensures IsItem(g, i) && i.dot <= n
    ensures Roots(g, symbols[n - i.dot + 1..n + 1]) == g.productions[i.number].prod[..i.dot]
    ensures states[n - i.dot] < |a.states| && Item(i.number, 0) in a.states[states[n - i.dot]]
    decreases i.dot
  {
    hide IsAutomaton, WellFormed, Spells;
    SpellsAt(g, a, states, symbols, n);
    StatesInRange(g, a, states, symbols, n);
    StatesAreItemSets(g, a, states[n]);
    if i.dot > 0 {
      if n == 0 {
        StartItems(g, a, i);
      } else {
        StatesInRange(g, a, states, symbols, n - 1);
        StatesAreItemSets(g, a, states[n - 1]);
        ItemMoved(g, a, states[n - 1], symbols[n], states[n], i);
        HandleOnTop(g, a, states, symbols, n - 1, Item(i.number, i.dot - 1));
        RootsMore(g, symbols, n, i);
      }
    }
  }

  lemma SpellsAt(g: Grammar, a: Automaton, states: seq<nat>, symbols: seq<Tree>, n: nat)
    requires Spells(g, a, states, symbols) && n < |states|
    ensures |states| == |symbols| && (n > 0 ==> Edge(g, a, states[n - 1], symbols[n], states[n]))
  {
  }

  lemma SpellsBoth(g: Grammar, a: Automaton, states: seq<nat>, symbols: seq<Tree>)
    requires Spells(g, a, states, symbols)
    ensures |states| == |symbols| > 0
  {
  }

  lemma RootsMore(g: Grammar, symbols: seq<Tree>, n: nat, i: Item)
    requires 0 < i.dot <= n < |symbols| && IsItem(g, i) && DotBefore(g, Item(i.number, i.dot - 1), Root(g, symbols[n]))
    requires Roots(g, symbols[n - i.dot + 1..n]) == g.productions[i.number].prod[..i.dot - 1]
    ensures Roots(g, symbols[n - i.dot + 1..n + 1]) == g.productions[i.number].prod[..i.dot]
  {
    assert symbols[n - i.dot + 1..n + 1] == symbols[n - i.dot + 1..n] + [symbols[n]];
    assert g.productions[i.number].prod[..i.dot] == g.productions[i.number].prod[..i.dot - 1] + [Root(g, symbols[n])];
  }

  // ----- The machine -----

  lemma {:induction false} SpellsTrees(g: Grammar, a: Automaton, states: seq<nat>, symbols: seq<Tree>)
    requires Spells(g, a, states, symbols)
    ensures forall t :: t in symbols[1..] ==> IsTree(g, t)
  {
    forall t | t in symbols[1..] ensures IsTree(g, t) {
      var k :| 0 <= k < |symbols[1..]| && symbols[1..][k] == t;
      assert Edge(g, a, states[k], symbols[k + 1], states[k + 1]);
    }
  }

  lemma SpellsPrefix(g: Grammar, a: Automaton, states: seq<nat>, symbols: seq<Tree>, n: nat)
    requires Spells(g, a, states, symbols) && 0 < n <= |states|
    ensures Spells(g, a, states[..n], symbols[..n])
  {
  }

  lemma SpellsMore(g: Grammar, a: Automaton, states: seq<nat>, symbols: seq<Tree>, t: Tree, s: nat)
    requires Spells(g, a, states, symbols) && Edge(g, a, states[|states| - 1], t, s)
    ensures Spells(g, a, states + [s], symbols + [t])
  {
  }

  /** A complete item on top of the stacks: its handle is there, and below it there is a transition over its name. */
  lemma HandleReady(g: Grammar, a: Automaton, states: seq<nat>, symbols: seq<Tree>, q: nat)
    requires WellFormed(g) && IsAutomaton(g, a) && Spells(g, a, states, symbols)
    requires 0 < q < |g.productions| && states[|states| - 1] < |a.states|
    requires Item(q, |g.productions[q].prod|) in a.states[states[|states| - 1]]
    ensures (var n := |symbols| - |g.productions[q].prod|;
      0 < n && (states[n - 1], g.productions[q].name) in a.goto && IsTree(g, Node(q, symbols[n..])))
  {
    hide IsAutomaton;
    var last, i := |states| - 1, Item(q, |g.productions[q].prod|);
    HandleOnTop(g, a, states, symbols, last, i);
    var n := |symbols| - i.dot;
    GotoDefined(g, a, states[n - 1], q);
    SpellsTrees(g, a, states, symbols);
    assert symbols[n..last + 1] == symbols[n..] && g.productions[q].prod[..i.dot] == g.productions[q].prod;
    assert forall k :: n <= k < |symbols| ==> symbols[k] == symbols[1..][k - 1];
  }

  /** The item of acceptance on top of the stacks: they hold one tree, of the start symbol. */
  lemma AcceptReady(g: Grammar, a: Automaton, states: seq<nat>, symbols: seq<Tree>)
    requires WellFormed(g) && IsAutomaton(g, a) && Spells(g, a, states, symbols)
    requires states[|states| - 1] < |a.states| && Item(0, 1) in a.states[states[|states| - 1]]
    ensures |symbols| == 2 && Root(g, symbols[1]) == g.productions[0].prod[0]
  {
    hide IsAutomaton;
    var last := |states| - 1;
    HandleOnTop(g, a, states, symbols, last, Item(0, 1));
    StatesAreItemSets(g, a, states[last - 1]);
    StatesInRange(g, a, states, symbols, last - 1);
    assert Roots(g, symbols[last..last + 1])[0] == g.productions[0].prod[..1][0];
  }

  /** The stacks, and the tokens that are not on the stack yet. */
  datatype Config = Config(states: seq<nat>, symbols: seq<Tree>, ahead: seq<Token>)

  /** One turn: the stacks have moved on, or the parse is over; `Broken` when the stacks do not fit the tables. */
  datatype Turn = Moved(next: Config) | Done(tree: Tree) | NoEntry | Broken

  function KindAhead(ahead: seq<Token>): Symbol { if ahead == [] then END else ahead[0].kind }

  function Reduction(g: Grammar, table: ParseTable, c: Config, q: nat): (r: Turn)
    ensures r.Moved? || r.Broken?
  {
    if q >= |g.productions| || |g.productions[q].prod| >= |c.states| || |c.states| != |c.symbols| then Broken
    else
      var n := |c.states| - |g.productions[q].prod|;
      var to := (c.states[n - 1], g.productions[q].name);
      if to !in table.goto then Broken
      else Moved(Config(c.states[..n] + [table.goto[to]], c.symbols[..n] + [Node(q, c.symbols[n..])], c.ahead))
  }

  /** What a turn of the loop of `parseopt_notrack` does. */
  function TurnOf(g: Grammar, table: ParseTable, c: Config): Turn {
    if c.states == [] || c.symbols == [] then Broken
    else
      var entry := (c.states[|c.states| - 1], KindAhead(c.ahead));
      if entry !in table.action then NoEntry
      else
        var act := table.action[entry];
        if act > 0 then
          (if c.ahead == [] then Broken
           else Moved(Config(c.states + [act], c.symbols + [Leaf(c.ahead[0])], c.ahead[1..])))
        else if act < 0 then Reduction(g, table, c, -act)
        else Done(c.symbols[|c.symbols| - 1])
  }

  lemma TurnCases(g: Grammar, table: ParseTable, c: Config)
    requires c.states != [] && c.symbols != []
    ensures (var entry := (c.states[|c.states| - 1], KindAhead(c.ahead));
      TurnOf(g, table, c) ==
        if entry !in table.action then NoEntry
        else if table.action[entry] > 0 then
          (if c.ahead == [] then Broken
           else Moved(Config(c.states + [table.action[entry]], c.symbols + [Leaf(c.ahead[0])], c.ahead[1..])))
        else if table.action[entry] < 0 then Reduction(g, table, c, -table.action[entry])
        else Done(c.symbols[|c.symbols| - 1]))
  {
    hide Reduction;
  }

  datatype Outcome = Running | Accepted(tree: Tree) | Failed

  /** The outcome of at most `limit` turns. */
  function Outcomes(g: Grammar, table: ParseTable, c: Config, limit: nat): Outcome
    decreases limit
  {
    if limit == 0 then Running
    else
      match TurnOf(g, table, c)
      case Moved(next) => Outcomes(g, table, next, limit - 1)
      case Done(tree) => Accepted(tree)
      case _ => Failed
  }

  function Start(input: seq<Token>): Config { Config([0], [Leaf(Token(END, ""))], input) }

  // ----- Soundness -----

  /** The tables are those of the automaton, and `input` has no token of the end. */
  ghost predicate Setting(g: Grammar, a: Automaton, table: ParseTable, input: seq<Token>) {
    WellFormed(g) && IsAutomaton(g, a) && Justified(g, a, table)
    && forall k :: 0 <= k < |input| ==> input[k].kind != END
  }

  lemma SettingFacts(g: Grammar, a: Automaton, table: ParseTable, input: seq<Token>)
    requires Setting(g, a, table, input)
    ensures forall k :: 0 <= k < |input| ==> input[k].kind != END
  {
  }

  /** The stacks spell a path of the automaton, and the yield of the symbols and the tokens ahead make up the input. */
  ghost predicate Consistent(g: Grammar, a: Automaton, input: seq<Token>, c: Config) {
    Spells(g, a, c.states, c.symbols) && Yields(c.symbols[1..]) + c.ahead == input
  }

  /** Neither the pops nor the lookups can fail, and what is accepted is a parse tree of the whole input. */
  ghost predicate GoodTurn(g: Grammar, a: Automaton, input: seq<Token>, turn: Turn)
    requires |g.productions| > 0 && |g.productions[0].prod| > 0
  {
    match turn
    case Moved(next) => Consistent(g, a, input, next)
    case Done(tree) => IsTree(g, tree) && Root(g, tree) == g.productions[0].prod[0] && Yield(tree) == input
    case NoEntry => true
    case Broken => false
  }

  lemma ShiftKeeps(g: Grammar, a: Automaton, input: seq<Token>, c: Config, s: nat)
    requires Consistent(g, a, input, c) && c.ahead != [] && Edge(g, a, c.states[|c.states| - 1], Leaf(c.ahead[0]), s)
    ensures Consistent(g, a, input, Config(c.states + [s], c.symbols + [Leaf(c.ahead[0])], c.ahead[1..]))
  {
    hide Spells, Edge;
    SpellsBoth(g, a, c.states, c.symbols);
    var t := Leaf(c.ahead[0]);
    SpellsMore(g, a, c.states, c.symbols, t, s);
    YieldsConcat(c.symbols[1..], [t]);
    YieldsOne(t);
    assert (c.symbols + [t])[1..] == c.symbols[1..] + [t];
  }

  lemma ReduceKeeps(g: Grammar, a: Automaton, table: ParseTable, input: seq<Token>, c: Config, q: nat)
    requires Setting(g, a, table, input) && Consistent(g, a, input, c) && c.states != [] && q > 0
    requires ActionJustified(g, a, c.states[|c.states| - 1], KindAhead(c.ahead), -(q as int))
    ensures Reduction(g, table, c, q).Moved? && Consistent(g, a, input, Reduction(g, table, c, q).next)
  {
    hide IsAutomaton, Justified, WellFormed, Spells, Yields, IsTree, Roots;
    SpellsBoth(g, a, c.states, c.symbols);
    HandleReady(g, a, c.states, c.symbols, q);
    var p := g.productions[q];
    var n := |c.symbols| - |p.prod|;
    GotoAt(g, a, table, c.states[n - 1], q);
    ReducedYields(c.symbols, n, q);
    SpellsPrefix(g, a, c.states, c.symbols, n);
    SpellsMore(g, a, c.states[..n], c.symbols[..n], Node(q, c.symbols[n..]), table.goto[(c.states[n - 1], p.name)]);
  }

  lemma GotoAt(g: Grammar, a: Automaton, table: ParseTable, s: nat, q: nat)
    requires WellFormed(g) && Justified(g, a, table) && 0 < q < |g.productions| && (s, g.productions[q].name) in a.goto
    ensures (s, g.productions[q].name) in table.goto
    ensures table.goto[(s, g.productions[q].name)] == a.goto[(s, g.productions[q].name)]
  {
    assert IsRule(g, g.productions[q]);
  }

  /** A reduction keeps the yield of the stack. */
  lemma ReducedYields(symbols: seq<Tree>, n: nat, q: nat)
    requires 0 < n <= |symbols|
    ensures Yields((symbols[..n] + [Node(q, symbols[n..])])[1..]) == Yields(symbols[1..])
  {
    var sym := Node(q, symbols[n..]);
    YieldsConcat(symbols[1..n], symbols[n..]);
    assert symbols[1..] == symbols[1..n] + symbols[n..];
    YieldsConcat(symbols[1..n], [sym]);
    YieldsOne(sym);
    assert (symbols[..n] + [sym])[1..] == symbols[1..n] + [sym];
  }

  lemma AcceptKeeps(g: Grammar, a: Automaton, input: seq<Token>, c: Config)
    requires WellFormed(g) && IsAutomaton(g, a) && Consistent(g, a, input, c) && c.ahead == [] && c.states != []
    requires c.states[|c.states| - 1] < |a.states| && Item(0, 1) in a.states[c.states[|c.states| - 1]]
    ensures c.symbols != [] && GoodTurn(g, a, input, Done(c.symbols[|c.symbols| - 1]))
  {
    hide IsAutomaton, Spells;
    AcceptReady(g, a, c.states, c.symbols);
    YieldsOne(c.symbols[1]);
    assert c.symbols[1..] == [c.symbols[1]];
    SpellsTrees(g, a, c.states, c.symbols);
  }

  lemma ActionAt(g: Grammar, a: Automaton, table: ParseTable, s: nat, x: Symbol)
    requires Justified(g, a, table) && (s, x) in table.action
    ensures ActionJustified(g, a, s, x, table.action[(s, x)])
  {
  }

  /** A turn from consistent stacks is a good one. */
  lemma TurnSound(g: Grammar, a: Automaton, table: ParseTable, input: seq<Token>, c: Config)
    requires Setting(g, a, table, input) && Consistent(g, a, input, c)
    ensures |g.productions| > 0 && |g.productions[0].prod| > 0 && GoodTurn(g, a, input, TurnOf(g, table, c))
  {
    hide IsAutomaton, Spells, Justified, Consistent, Reduction;
    ConsistentFacts(g, a, input, c);
    var s, x := c.states[|c.states| - 1], KindAhead(c.ahead);
    if (s, x) in table.action {
      ActionAt(g, a, table, s, x);
      var act := table.action[(s, x)];
      if act > 0 {
        ShiftKeeps(g, a, input, c, act);
      } else if act < 0 {
        ReduceKeeps(g, a, table, input, c, -act);
      } else {
        AcceptKeeps(g, a, input, c);
      }
    }
  }

  lemma ConsistentFacts(g: Grammar, a: Automaton, input: seq<Token>, c: Config)
    requires Consistent(g, a, input, c) && forall k :: 0 <= k < |input| ==> input[k].kind != END
    ensures |c.states| == |c.symbols| > 0 && (KindAhead(c.ahead) == END <==> c.ahead == [])
    ensures forall k :: 0 <= k < |c.ahead| ==> c.ahead[k].kind != END
  {
    forall k | 0 <= k < |c.ahead| ensures c.ahead[k].kind != END {
      assert input[|Yields(c.symbols[1..])| + k] == c.ahead[k];
    }
  }

  lemma StartConsistent(g: Grammar, a: Automaton, input: seq<Token>)
    ensures Consistent(g, a, input, Start(input))
  {
    assert Start(input).symbols[1..] == [];
  }

  /** Whatever is accepted, in a run of any length, is a parse tree of the input. */
  lemma {:induction false} RunSound(g: Grammar, a: Automaton, table: ParseTable, input: seq<Token>, c: Config,
                                    limit: nat)
    requires Setting(g, a, table, input) && Consistent(g, a, input, c) && Outcomes(g, table, c, limit).Accepted?
    ensures |g.productions| > 0 && |g.productions[0].prod| > 0
    ensures GoodTurn(g, a, input, Done(Outcomes(g, table, c, limit).tree))
    decreases limit
  {
    hide Setting, Consistent, TurnOf;
    TurnSound(g, a, table, input, c);
    if TurnOf(g, table, c).Moved? {
      RunSound(g, a, table, input, TurnOf(g, table, c).next, limit - 1);
    }
  }

  // ----- The machine -----

  class Machine {
    const g: Grammar
    const table: ParseTable
    var statestack: seq<nat>
    var symstack: seq<Tree>
    var lookahead: Option<Token>
    /** What the lexer has not returned yet. */
    var unread: seq<Token>

    constructor (g: Grammar, table: ParseTable, input: seq<Token>)
      ensures this.g == g && this.table == table && Now() == Start(input) && Reading()
    {
      this.g, this.table := g, table;
      statestack, symstack, lookahead, unread := [0], [Leaf(Token(END, ""))], None, input;
    }

    /** The tokens that are not on the stack yet. */
    ghost function Ahead(): seq<Token>
      reads this
    {
      (if lookahead.Some? && lookahead.value.kind != END then [lookahead.value] else []) + unread
    }

    /** A lookahead that is the end comes last. */
    ghost predicate Reading()
      reads this
    {
      lookahead.Some? && lookahead.value.kind == END ==> unread == []
    }

    ghost function Now(): Config
      reads this
    {
      Config(statestack, symstack, Ahead())
    }

    ghost predicate Valid(a: Automaton, input: seq<Token>)
      reads this
    {
      Setting(g, a, table, input) && Consistent(g, a, input, Now()) && Reading()
    }

    /** One turn of the loop of `parseopt_notrack`. */
    method Step(ghost a: Automaton, ghost input: seq<Token>) returns (outcome: Outcome)
      requires Valid(a, input)
      modifies this
      ensures match old(TurnOf(g, table, Now()))
              case Moved(next) => outcome == Running && Now() == next && Valid(a, input)
              case Done(tree) => outcome == Accepted(tree)
              case NoEntry => outcome == Failed && Valid(a, input)
              case Broken => false
    {
      hide IsAutomaton, Spells, Justified, WellFormed, Reduction, Consistent, TurnOf, Setting;
      SettingFacts(g, a, table, input);
      TurnSound(g, a, table, input, Now());
      ConsistentFacts(g, a, input, Now());
      TurnCases(g, table, Now());
      if lookahead == None {
        assert Ahead() == unread;
        NextToken();
      }
      var state, kind := statestack[|statestack| - 1], lookahead.value.kind;
      if (state, kind) !in table.action { return Failed; }
      var act := table.action[(state, kind)];
      if act > 0 {
        Shift(act);
        return Running;
      } else if act < 0 {
        Reduce(-act);
        return Running;
      } else {
        return Accepted(symstack[|symstack| - 1]);
      }
    }

    method NextToken()
      requires lookahead == None && forall k :: 0 <= k < |unread| ==> unread[k].kind != END
      modifies this`lookahead, this`unread
      ensures lookahead.Some? && Now() == old(Now()) && Reading() && KindAhead(Ahead()) == lookahead.value.kind
    {
      if unread == [] {
        lookahead := Some(Token(END, ""));
      } else {
        lookahead, unread := Some(unread[0]), unread[1..];
      }
    }

    method Shift(s: nat)
      requires lookahead.Some? && lookahead.value.kind != END
      modifies this`statestack, this`symstack, this`lookahead
      ensures Ahead() == old(Ahead())[1..] && old(Ahead())[0] == old(lookahead.value) && Reading()
      ensures statestack == old(statestack) + [s] && symstack == old(symstack) + [Leaf(old(lookahead.value))]
    {
      statestack := statestack + [s];
      symstack := symstack + [Leaf(lookahead.value)];
      lookahead := None;
      assert old(Ahead())[1..] == unread;
    }

    /** The pops, one slice for all, and the new symbol. */
    method Reduce(q: nat)
      requires Reduction(g, table, Now(), q).Moved?
      modifies this`statestack, this`symstack
      ensures Now() == old(Reduction(g, table, Now(), q).next)
    {
      var p := g.productions[q];
      var n := |symstack| - |p.prod|;
      var sym := Node(q, symstack[n..]);
      statestack, symstack := statestack[..n], symstack[..n];
      symstack := symstack + [sym];
      statestack := statestack + [table.goto[(statestack[|statestack| - 1], p.name)]];
    }

    /**
     A run of at most `limit` turns. When it accepts, it returns a parse tree of the whole input, and the start symbol
     derives the input.
     */
    method Parse(ghost a: Automaton, ghost input: seq<Token>, limit: nat) returns (outcome: Outcome)
      requires Valid(a, input)
      modifies this
      ensures outcome == old(Outcomes(g, table, Now(), limit))
      ensures outcome.Accepted? ==>
                && IsTree(g, outcome.tree) && Root(g, outcome.tree) == g.productions[0].prod[0]
                && Yield(outcome.tree) == input
                && Derives(g, [g.productions[0].prod[0]], Kinds(input))
    {
      hide TurnOf, IsTree;
      outcome := Running;
      ghost var c := Now();
      for k := 0 to limit
        invariant outcome == Running && Valid(a, input)
        invariant Outcomes(g, table, c, limit) == Outcomes(g, table, Now(), limit - k)
      {
        ghost var before := Now();
        outcome := Step(a, input);
        if outcome.Failed? { return; }
        if outcome.Accepted? {
          TurnSound(g, a, table, input, before);
          TreeDerives(g, outcome.tree);
          return;
        }
      }
    }
  }
}
