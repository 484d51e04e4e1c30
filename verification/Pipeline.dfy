/** The table generator and the machine, one after the other. */
module LRPipeline {
  import opened Wrappers
  import opened Grammars
  import opened LR0Items
  import opened Trees
  import opened LRParser
  import opened LalrRelations
  import opened LRConflicts
  import opened LRTables
  import opened LRCompleteness
  import opened LRAcyclic
  import opened LalrExactness
  import opened FirstSets
  import opened FollowSets
  import opened LalrGenerator
  import GrammarAnalysis
  import LR0Store

  /** Every symbol of a right side is a terminal, or has productions. */
  ghost predicate Defined(g: Grammar) {
    forall q, d :: 0 <= q < |g.productions| && 0 <= d < |g.productions[q].prod| ==>
      IsDefined(g, g.productions[q].prod[d])
  }

  predicate IsDefined(g: Grammar, x: Symbol) {
    x in g.terminals || GrammarAnalysis.ProdsOf(g, x, |g.productions|) != []
  }

  /** `undefined_symbols`: the symbols of right sides that are neither, with their productions. */
  method UndefinedSymbols(g: Grammar) returns (undefined: seq<(Symbol, nat)>)
    ensures forall x, q: nat :: (x, q) in undefined <==>
              q < |g.productions| && x in g.productions[q].prod && !IsDefined(g, x)
  {
    hide IsDefined;
    undefined := [];
    for q := 0 to |g.productions|
      invariant forall x, p: nat :: (x, p) in undefined <==>
                  p < q && x in g.productions[p].prod && !IsDefined(g, x)
    {
      var prod := g.productions[q].prod;
      for d := 0 to |prod|
        invariant forall x, p: nat :: (x, p) in undefined <==>
                    !IsDefined(g, x) && ((p < q && x in g.productions[p].prod) || (p == q && x in prod[..d]))
      {
        assert forall x :: x in prod[..d + 1] <==> x in prod[..d] || x == prod[d];
        if !IsDefined(g, prod[d]) { undefined := undefined + [(prod[d], q)]; }
      }
      assert prod[..|prod|] == prod;
    }
  }

  /** Every nonterminal is the name of a production, or in a right side, as `add_production` sees to. */
  ghost predicate Mentioned(g: Grammar) {
    forall n :: n in g.nonterminals ==>
      exists q :: 0 <= q < |g.productions| && IsMentioned(g.productions[q], q, n)
  }

  predicate IsMentioned(p: Production, q: nat, n: Symbol) { (q > 0 && p.name == n) || n in p.prod }

  /** Every defined nonterminal derives a sentence. */
  ghost predicate Finite(g: Grammar) {
    forall x :: x in g.nonterminals && GrammarAnalysis.ProdsOf(g, x, |g.productions|) != [] ==>
      exists w :: IsSentence(g, w) && Derives(g, [x], w)
  }

  /** Without symbols that are undefined or endless, all right sides are productive. */
  lemma CheckedIsProductive(g: Grammar)
    requires WellFormed(g) && END !in g.terminals && Defined(g) && Finite(g)
    ensures Productive(g)
  {
    hide Derives, IsRule;
    forall q, d | 0 <= q < |g.productions| && 0 <= d < |g.productions[q].prod|
      ensures Ends(g, g.productions[q].prod[d])
    {
      var x := g.productions[q].prod[d];
      assert IsDefined(g, x);
      if x in g.terminals {
        DerivesSelf(g, [x]);
      } else {
        GrammarAnalysis.ProdsAreRules(g, x);
        assert GrammarAnalysis.ProdsOf(g, x, |g.productions|)[0] in GrammarAnalysis.ProdsOf(g, x, |g.productions|);
        var w :| IsSentence(g, w) && Derives(g, [x], w);
        NoEnd(g, [x], w);
      }
    }
  }

  /** The end of the input, which is not defined, does not come up in derivations. */
  lemma NoEnd(g: Grammar, a: seq<Symbol>, w: seq<Symbol>)
    requires WellFormed(g) && END !in g.terminals && Defined(g) && Derives(g, a, w) && END !in a
    ensures END !in w
  {
    hide WellFormed, Defined;
    var n: nat :| DerivesIn(g, a, w, n);
    NoEndIn(g, a, w, n);
  }

  lemma {:induction false} NoEndIn(g: Grammar, a: seq<Symbol>, w: seq<Symbol>, n: nat)
    requires WellFormed(g) && END !in g.terminals && Defined(g) && DerivesIn(g, a, w, n) && END !in a
    ensures END !in w
    decreases n
  {
    hide WellFormed;
    if n > 0 {
      var c :| Step(g, a, c) && DerivesIn(g, c, w, n - 1);
      var u, p, v :| StepAt(g, a, c, u, p, v);
      EndUndefined(g);
      var q :| 1 <= q < |g.productions| && g.productions[q] == p;
      forall d | 0 <= d < |p.prod| ensures p.prod[d] != END {
        assert IsDefined(g, g.productions[q].prod[d]);
      }
      assert END !in u && END !in v by {
        assert forall x :: x in u || x in v ==> x in u + [p.name] + v;
      }
      NoEndIn(g, c, w, n - 1);
    }
  }

  lemma EndUndefined(g: Grammar)
    requires WellFormed(g) && END !in g.terminals
    ensures !IsDefined(g, END)
  {
    GrammarAnalysis.ProdsAreRules(g, END);
    if GrammarAnalysis.ProdsOf(g, END, |g.productions|) != [] {
      assert GrammarAnalysis.ProdsOf(g, END, |g.productions|)[0] in GrammarAnalysis.ProdsOf(g, END, |g.productions|);
    }
  }

  /**
   The generator behind its checks for undefined symbols and endless recursion. For a grammar that passes, tables
   without conflicts come with exactly the lookaheads of DeRemer and Pennello, because no lists are shared, and they
   reduce on FOLLOW only.
   */
  method MakeTables(g: Grammar, prec: seq<Prec>, lines: seq<int>, precedence: map<Symbol, Prec>, maxint: int)
    returns (errors: bool, table: Option<ParseTable>, ghost a: Automaton, ghost follow: Table, ghost f: Found)
    requires WellFormed(g) && |g.productions| > 1 && END !in g.terminals && Mentioned(g)
    requires |prec| == |g.productions| && |lines| == |g.productions|
    requires (KernelBound(g) + 1) * |LR0Store.SymbolSet(g)| < maxint
    ensures errors <==> !Defined(g) || !Finite(g)
    ensures errors ==> table == None
    ensures !errors && ConflictFree(g, a, f.la) ==>
              && table.Some? && Filled(g, a, f.la, table.value) && NoneShared(g, a, f.nullable, f.trans)
              && Enough(g, a, f) && Exact(g, a, f)
    ensures !errors ==> HasLalr1(g, a, f.la)
    ensures !errors && ConflictFree(g, a, f.la) && NoneInside(g, a) ==> OnlyLalr1(g, a, f.la)
    ensures !errors && ConflictFree(g, a, f.la) && g.productions[1].name == g.productions[0].prod[0] ==>
              AttachedInFollow(g, f.la, follow) && ReducesInFollow(g, follow, table.value)
  {
    hide WellFormed, IsAutomaton, Justified, Enough, Filled, ConflictFree, ReducesInFollow, AttachedInFollow, IsDefined,
         Productive, NoneShared, Exact, SharedInFollow, ShareFollow, SharersApart, SharersOnNoCycle;
    hide GrammarAnalysis.ProdsOf, Derives, IsSentence, HasLalr1, OnlyLalr1, NoneInside, FollowClosed;
    var undefined := UndefinedSymbols(g);
    Checked(g, undefined);
    var an := new GrammarAnalysis.Analysis(g);
    var infinite := an.InfiniteCycles();
    Terminating(g, infinite);
    errors, table := undefined != [] || infinite != [], None;
    a, follow, f := Automaton([], map[]), map[], Found(map[], {}, []);
    if errors { return; }
    AllDefined(g);
    CheckedIsProductive(g);
    var states, analysis;
    table, states, analysis, f := Generate(g, prec, lines, precedence, maxint);
    a, follow := states, analysis.Follow;
    LookaheadsOf(g, a, f, analysis);
    if ConflictFree(g, a, f.la) {
      var k := Parser(g, a, f, table.value);
      NothingToShare(k);
      EnoughNullable(g, a, f);
      NothingShared(k, f.nullable, f.trans);
    }
  }

  /** What the generator promises, in terms of canonical LR(1). */
  lemma LookaheadsOf(g: Grammar, a: Automaton, f: Found, an: GrammarAnalysis.Analysis)
    requires WellFormed(g) && IsAutomaton(g, a) && Enough(g, a, f) && Productive(g) && END !in g.terminals
    requires an.g == g && an.FirstDone() && |g.productions| > 1
    requires FollowClosed(g, an.First, an.Follow, g.productions[1].name)
    ensures HasLalr1(g, a, f.la)
    ensures Exact(g, a, f) && NoneInside(g, a) ==> OnlyLalr1(g, a, f.la)
  {
    hide IsAutomaton, WellFormed, Productive, Exact, HasLalr1, OnlyLalr1, NoneInside, FollowClosed, HarmlessInside;
    var k := Parser(g, a, f, ParseTable(map[], map[]));
    FoundExactly(k, an);
    if NoneInside(g, a) { NoneInsideHarmless(k); }
  }

  lemma AllDefined(g: Grammar)
    requires WellFormed(g) && Mentioned(g) && Defined(g)
    ensures forall n :: n in g.nonterminals ==> GrammarAnalysis.ProdsOf(g, n, |g.productions|) != []
  {
    hide GrammarAnalysis.ProdsOf;
    forall n | n in g.nonterminals ensures GrammarAnalysis.ProdsOf(g, n, |g.productions|) != [] {
      var q :| 0 <= q < |g.productions| && IsMentioned(g.productions[q], q, n);
      if q > 0 && g.productions[q].name == n {
        assert g.productions[q] in GrammarAnalysis.ProdsOf(g, n, |g.productions|);
      } else {
        var d :| 0 <= d < |g.productions[q].prod| && g.productions[q].prod[d] == n;
        assert IsDefined(g, g.productions[q].prod[d]);
      }
    }
  }

  lemma Checked(g: Grammar, undefined: seq<(Symbol, nat)>)
    requires forall x, q: nat :: (x, q) in undefined <==>
               q < |g.productions| && x in g.productions[q].prod && !IsDefined(g, x)
    ensures undefined == [] <==> Defined(g)
  {
    hide IsDefined;
    if undefined == [] {
      forall q: nat, d | q < |g.productions| && 0 <= d < |g.productions[q].prod|
        ensures IsDefined(g, g.productions[q].prod[d])
      {
        assert (g.productions[q].prod[d], q) !in undefined;
      }
    } else {
      var e := undefined[0];
      assert (e.0, e.1) in undefined;
    }
  }

  lemma Terminating(g: Grammar, infinite: seq<Symbol>)
    requires forall x :: x in infinite <==>
               && x in g.nonterminals && GrammarAnalysis.ProdsOf(g, x, |g.productions|) != []
               && !exists w :: IsSentence(g, w) && Derives(g, [x], w)
    ensures infinite == [] <==> Finite(g)
  {
    hide GrammarAnalysis.ProdsOf, Derives, IsSentence;
    if infinite != [] {
      assert infinite[0] in infinite;
    }
  }

  lemma EnoughNullable(g: Grammar, a: Automaton, f: Found)
    requires WellFormed(g) && Enough(g, a, f)
    ensures AreNullable(g, f.nullable)
  {
  }

  /**
   Makes tables for the grammar and runs the machine on the input for at most `limit` turns. What is accepted is a
   sentence of the grammar, with a parse tree; and without conflicts, there are tables, and every sentence is accepted
   after some number of turns.
   */
  method ParseWith(g: Grammar, prec: seq<Prec>, lines: seq<int>, precedence: map<Symbol, Prec>, maxint: int,
                   input: seq<Token>, limit: nat)
    returns (table: Option<ParseTable>, outcome: Outcome, ghost a: Automaton, ghost f: Found)
    requires WellFormed(g) && |g.productions| > 1 && END !in g.terminals
    requires forall n :: n in g.nonterminals ==> GrammarAnalysis.ProdsOf(g, n, |g.productions|) != []
    requires |prec| == |g.productions| && |lines| == |g.productions|
    requires (KernelBound(g) + 1) * |LR0Store.SymbolSet(g)| < maxint
    requires forall i :: 0 <= i < |input| ==> input[i].kind in g.terminals
    ensures table.None? ==> outcome.Failed? && !ConflictFree(g, a, f.la)
    ensures table.Some? ==> outcome == Outcomes(g, table.value, Start(input), limit)
    ensures outcome.Accepted? ==>
              && IsTree(g, outcome.tree) && Root(g, outcome.tree) == StartSymbol(g) && Yield(outcome.tree) == input
              && Derives(g, [StartSymbol(g)], Kinds(input))
    ensures ConflictFree(g, a, f.la) ==> table.Some?
    ensures ConflictFree(g, a, f.la) ==>
              (Derives(g, [StartSymbol(g)], Kinds(input)) <==>
               exists n :: Outcomes(g, table.value, Start(input), n).Accepted?)
  {
    hide WellFormed, IsAutomaton, Justified, Enough, Filled, ConflictFree, ReducesInFollow, Outcomes, Derives, IsTree;
    hide GrammarAnalysis.ProdsOf, Consistent, Root;
    var states, an;
    table, states, an, f := Generate(g, prec, lines, precedence, maxint);
    a := states;
    if table.None? { return table, Failed, a, f; }
    var machine := new Machine(g, table.value, input);
    StartConsistent(g, a, input);
    SettingHere(g, a, table.value, input);
    outcome := machine.Parse(a, input, limit);
    if ConflictFree(g, a, f.la) {
      AcceptsExactly(Parser(g, a, f, table.value), input);
    }
  }

  lemma SettingHere(g: Grammar, a: Automaton, table: ParseTable, input: seq<Token>)
    requires WellFormed(g) && IsAutomaton(g, a) && Justified(g, a, table) && END !in g.terminals
    requires forall i :: 0 <= i < |input| ==> input[i].kind in g.terminals
    ensures Setting(g, a, table, input)
  {
    hide WellFormed, IsAutomaton, Justified;
  }
}
