/**
 An LALR(1) grammar that the generator takes for one with a conflict. A production goes on in a state in which its name
 is also expected; the source's relation `includes` joins the two, and a lookahead gets where it does not belong.
 */
module LalrNested {
  import opened Wrappers
  import opened Grammars
  import opened LR0Items
  import opened LR0Paths
  import opened Digraph
  import opened LRParser
  import opened LalrRelations
  import opened LalrGenerator
  import opened LRConflicts
  import opened LRTables
  import opened LRCompleteness
  import opened LRAcyclic
  import opened LalrExactness
  import opened Trees
  import GrammarAnalysis
  import LR0Store

  /** S -> A, or C; A -> a B; B -> A c, or d; C -> a D c; D -> d. */
  const NESTED: Grammar := Grammar(["a", "c", "d"], ["S", "A", "B", "C", "D"],
                                   [Production("S'", ["S"]), Production("S", ["A"]), Production("S", ["C"]),
                                    Production("A", ["a", "B"]), Production("B", ["A", "c"]), Production("B", ["d"]),
                                    Production("C", ["a", "D", "c"]), Production("D", ["d"])])

  lemma NestedSymbols()
    ensures forall x :: x in NESTED.nonterminals ==> !IsTerminal(NESTED, x) && x != EMPTY
    ensures !IsTerminal(NESTED, EMPTY) && END !in NESTED.terminals && |NESTED.productions| == 8
  {
  }

  lemma NestedRule(i: nat)
    requires 1 <= i < 8
    ensures NESTED.productions[i].name in NESTED.nonterminals && IsForm(NESTED, NESTED.productions[i].prod)
    ensures NESTED.productions[i].prod != []
  {
    if i == 1 || i == 2 {
    } else if i == 3 || i == 4 {
    } else if i == 5 || i == 7 {
    }
  }

  lemma NestedWellFormed()
    ensures WellFormed(NESTED)
  {
    NestedSymbols();
    forall p | IsRule(NESTED, p) ensures p.name in NESTED.nonterminals && IsForm(NESTED, p.prod) {
      var i :| 1 <= i < |NESTED.productions| && NESTED.productions[i] == p;
      NestedRule(i);
    }
  }

  /** Where each symbol stands. */
  lemma Before(i: Item, x: Symbol)
    requires DotBefore(NESTED, i, x)
    ensures x == "S" ==> i == Item(0, 0)
    ensures x == "A" ==> i == Item(1, 0) || i == Item(4, 0)
    ensures x == "B" ==> i == Item(3, 1)
    ensures x == "C" ==> i == Item(2, 0)
    ensures x == "D" ==> i == Item(6, 1)
    ensures x == "a" ==> i == Item(3, 0) || i == Item(6, 0)
    ensures x == "d" ==> i == Item(5, 0) || i == Item(7, 0)
  {
    if i.number == 0 || i.number == 1 {
    } else if i.number == 2 || i.number == 3 {
    } else if i.number == 4 || i.number == 5 {
    } else if i.number == 6 {
    }
  }

  /** The dots that are in front of the symbols. */
  lemma Dots()
    ensures DotBefore(NESTED, Item(0, 0), "S") && DotBefore(NESTED, Item(1, 0), "A")
    ensures DotBefore(NESTED, Item(2, 0), "C") && DotBefore(NESTED, Item(3, 0), "a")
    ensures DotBefore(NESTED, Item(3, 1), "B") && DotBefore(NESTED, Item(4, 0), "A")
    ensures DotBefore(NESTED, Item(4, 1), "c") && DotBefore(NESTED, Item(5, 0), "d")
    ensures DotBefore(NESTED, Item(7, 0), "d") && DotBefore(NESTED, Item(6, 0), "a")
    ensures DotBefore(NESTED, Item(6, 1), "D")
  {
  }

  /** `s` is where `a` leads at the beginning, and `j` where `d` leads then. */
  ghost predicate IsPlace(a: Automaton, s: nat, j: nat) {
    && 0 < |a.states| && s < |a.states| && j < |a.states|
    && (0, "a") in a.goto && a.goto[(0, "a")] == s && (s, "d") in a.goto && a.goto[(s, "d")] == j
    && (s, "A") in a.goto && (s, "B") in a.goto && a.goto[(s, "A")] < |a.states|
    && Item(3, 1) in a.states[s] && Item(5, 0) in a.states[s] && Item(6, 1) in a.states[s]
    && Item(4, 1) in a.states[a.goto[(s, "A")]]
    && Item(5, 1) in a.states[j] && Item(7, 1) in a.states[j] && Item(7, 0) in a.states[s]
  }

  lemma FindPlace(k: Parser) returns (s: nat, j: nat)
    requires Known(k) && k.g == NESTED
    ensures IsPlace(k.a, s, j)
  {
    hide IsAutomaton, WellFormed, AllTransitions, AreNullable;
    var g, a := NESTED, k.a;
    Dots();
    StartInState(k);
    ChildPredicted(g, a, 0, Item(0, 0), 1);
    ChildPredicted(g, a, 0, Item(0, 0), 2);
    ChildPredicted(g, a, 0, Item(1, 0), 3);
    ChildPredicted(g, a, 0, Item(2, 0), 6);
    ItemMoves(g, a, 0, Item(3, 0), "a");
    ItemMoves(g, a, 0, Item(6, 0), "a");
    s := a.goto[(0, "a")];
    ChildPredicted(g, a, s, Item(3, 1), 4);
    ChildPredicted(g, a, s, Item(3, 1), 5);
    ChildPredicted(g, a, s, Item(6, 1), 7);
    ItemMoves(g, a, s, Item(3, 1), "B");
    ItemMoves(g, a, s, Item(4, 0), "A");
    ItemMoves(g, a, s, Item(5, 0), "d");
    ItemMoves(g, a, s, Item(7, 0), "d");
    j := a.goto[(s, "d")];
  }

  // ----- The lookaheads that the generator finds -----

  lemma NestedLookahead(k: Parser, s: nat, j: nat)
    requires Known(k) && k.g == NESTED && IsPlace(k.a, s, j)
    ensures IsLookahead(k.g, k.a, k.f.nullable, k.f.trans, j, Item(5, 1), "c")
  {
    hide IsAutomaton, WellFormed, AreNullable, Collected;
    Dots();
    DirectlyRead(k, (s, "A"), Item(4, 1), "c");
    ReadIsFollowed(k, (s, "A"), "c");
    assert IncludedAt(k.g, k.a, k.f.nullable, (s, "B"), (s, "A"), Item(3, 1), 1) by {
      assert NESTED.productions[3].prod[1..1] == [] && NESTED.productions[3].prod[2..] == [];
    }
    IncludedIsFollowed(k, (s, "B"), (s, "A"), "c");
    assert LooksBackAt(k.g, k.a, j, Item(5, 1), (s, "B"), Item(5, 0)) by {
      BeginningCompares(k.g, Item(5, 1));
      assert NESTED.productions[5].prod[0..] == ["d"] && ["d"][1..] == [];
    }
  }

  // ----- The lookaheads of LALR(1) -----

  /** An item with its dot in front is there because of another one. */
  lemma HeadFrom(k: Parser, s: nat, q: nat) returns (i: Item)
    requires Known(k) && s < |k.a.states| && Item(q, 0) in k.a.states[s] && 0 < q < |k.g.productions|
    ensures i in k.a.states[s] && DotBefore(k.g, i, k.g.productions[q].name)
  {
    hide IsAutomaton, WellFormed;
    GotoDefined(k.g, k.a, s, q);
    i := ItemOver(k.g, k.a, s, k.g.productions[q].name);
  }

  /** An item with something before its dot has moved over the symbol that leads to its state. */
  lemma BackOver(k: Parser, p: nat, x: Symbol, s: nat, i: Item)
    requires Known(k) && (p, x) in k.a.goto && k.a.goto[(p, x)] == s && s < |k.a.states| && i in k.a.states[s]
    requires i.dot > 0
    ensures p < |k.a.states| && Item(i.number, i.dot - 1) in k.a.states[p]
    ensures DotBefore(k.g, Item(i.number, i.dot - 1), x)
  {
    hide IsClosure, IsItemSet, Kernel;
    AcrossTransition(k.g, k.a, (p, x));
    StatesAreItemSets(k.g, k.a, p);
    ClosureIsItemSet(k.g, Kernel(k.g, k.a.states[p], x), k.a.states[s]);
  }

  /** Only at the beginning is C expected. */
  lemma OnlyAtStart(k: Parser, p: nat)
    requires Known(k) && k.g == NESTED && p < |k.a.states| && Item(6, 0) in k.a.states[p]
    ensures p == 0
  {
    hide Known;
    NestedSymbols();
    var i := HeadFrom(k, p, 6);
    Before(i, "C");
    var i' := HeadFrom(k, p, 2);
    Before(i', "S");
    OnlyInStart(k, p);
  }

  /** Where both reductions are possible, the way leads from the beginning over `a` and `d`. */
  lemma WayTo(k: Parser, j: nat, p: nat)
    requires Known(k) && k.g == NESTED && j < |k.a.states| && Item(7, 1) in k.a.states[j]
    requires (p, "d") in k.a.goto && k.a.goto[(p, "d")] == j
    ensures forall p0: nat :: (p0, "a") in k.a.goto && k.a.goto[(p0, "a")] == p ==> p0 == 0
  {
    hide Known;
    NestedSymbols();
    BackOver(k, p, "d", j, Item(7, 1));
    var i := HeadFrom(k, p, 7);
    Before(i, "D");
    forall p0: nat | (p0, "a") in k.a.goto && k.a.goto[(p0, "a")] == p ensures p0 == 0 {
      BackOver(k, p0, "a", p, Item(6, 1));
      OnlyAtStart(k, p0);
    }
  }

  lemma NothingNext(g: Grammar, follows: Symbol, x: Symbol)
    requires NextIs(g, [], follows, x)
    ensures x == follows
  {
    NoStepFromNothing(g);
    forall w | Derives(g, [], w) ensures w == [] {
      var n: nat :| DerivesIn(g, [], w, n);
      assert n == 0;
    }
  }

  lemma NoStepFromNothing(g: Grammar)
    ensures forall c :: !Step(g, [], c)
  {
    forall c, u, p, v ensures !StepAt(g, [], c, u, p, v) {
      assert |u + [p.name] + v| > 0;
    }
  }

  lemma TerminalNext(g: Grammar, y: Symbol, follows: Symbol, x: Symbol)
    requires WellFormed(g) && y in g.terminals && NextIs(g, [y], follows, x)
    ensures x == y
  {
    NoStepFrom(g, y);
    forall w | Derives(g, [y], w) ensures w == [y] {
      var n: nat :| DerivesIn(g, [y], w, n);
      assert n == 0;
    }
  }

  /** What is behind the symbol after the dot. */
  lemma Rests()
    ensures Rest(NESTED, Item(3, 1))[1..] == [] && Rest(NESTED, Item(1, 0))[1..] == []
    ensures Rest(NESTED, Item(0, 0))[1..] == [] && Rest(NESTED, Item(6, 1))[1..] == ["c"]
    ensures SymbolAt(NESTED, Item(3, 0)) == "a" && SymbolAt(NESTED, Item(5, 0)) == "d"
    ensures SymbolAt(NESTED, Item(7, 0)) == "d"
  {
  }

  lemma OnlyStartItem(k: Parser, v: Lr1)
    requires IsLr1(k.g, k.a, v) && ItemOf(v) == Item(0, 0)
    ensures v == Begin
  {
  }

  /** At the beginning, A is followed by the end only. */
  lemma AtBeginning(k: Parser, v: Lr1)
    requires Known(k) && k.g == NESTED && IsLr1(k.g, k.a, v) && StateOf(k.g, k.a, v) == 0 && ItemOf(v) == Item(3, 0)
    ensures AheadOf(v) == END
  {
    hide Known, NextIs;
    NestedSymbols();
    Rests();
    assert v.Predict?;
    var u := v.before;
    Before(ItemOf(u), "A");
    if ItemOf(u) == Item(4, 0) {
      NoBInStart(k, u);
    } else {
      assert u.Predict? && ItemOf(u) == Item(1, 0);
      Before(ItemOf(u.before), "S");
      OnlyStartItem(k, u.before);
      NothingNext(k.g, END, u.ahead);
      NothingNext(k.g, u.ahead, v.ahead);
    }
  }

  /** Nothing has moved in the first state. */
  lemma NoBInStart(k: Parser, u: Lr1)
    requires Known(k) && k.g == NESTED && IsLr1(k.g, k.a, u) && StateOf(k.g, k.a, u) == 0
    ensures ItemOf(u) != Item(4, 0)
  {
    hide Known;
    NestedSymbols();
    if ItemOf(u) == Item(4, 0) {
      Before(ItemOf(u.before), "B");
      var s0 := ValidIsFollowed(k, u.before);
      var s1 := EnteredLower(k, 0, Item(3, 1));
    }
  }

  /** In LALR(1), the two reductions have different lookaheads. */
  lemma NestedApart(k: Parser, j: nat, x: Symbol)
    requires Known(k) && k.g == NESTED && j < |k.a.states| && Item(7, 1) in k.a.states[j]
    ensures IsLalr1(k.g, k.a, j, Item(5, 1), x) ==> x == END
    ensures IsLalr1(k.g, k.a, j, Item(7, 1), x) ==> x == "c"
  {
    hide Known, NextIs, IsLr1, StateOf, ItemOf, AheadOf;
    if v :| IsLr1(k.g, k.a, v) && StateOf(k.g, k.a, v) == j && ItemOf(v) == Item(5, 1) && AheadOf(v) == x {
      ReducesB(k, j, v);
    }
    if v :| IsLr1(k.g, k.a, v) && StateOf(k.g, k.a, v) == j && ItemOf(v) == Item(7, 1) && AheadOf(v) == x {
      ReducesD(k, v);
    }
  }

  lemma ReducesD(k: Parser, v: Lr1)
    requires k.g == NESTED && IsLr1(k.g, k.a, v) && ItemOf(v) == Item(7, 1)
    ensures AheadOf(v) == "c"
  {
    hide NextIs;
    NestedSymbols();
    NestedWellFormed();
    Rests();
    var u := v.before;
    assert u.Predict? && ItemOf(u) == Item(7, 0);
    Before(ItemOf(u.before), "D");
    TerminalNext(k.g, "c", AheadOf(u.before), u.ahead);
  }

  lemma ReducesB(k: Parser, j: nat, v: Lr1)
    requires Known(k) && k.g == NESTED && j < |k.a.states| && Item(7, 1) in k.a.states[j]
    requires IsLr1(k.g, k.a, v) && StateOf(k.g, k.a, v) == j && ItemOf(v) == Item(5, 1)
    ensures AheadOf(v) == END
  {
    hide Known, NextIs, IsLr1, StateOf;
    NestedSymbols();
    Rests();
    var u := v.before;
    assert v.Move? && u.Predict? && ItemOf(u) == Item(5, 0);
    MovedTo(k, v);
    PredictedFrom(k, u);
    var t := u.before;
    Before(ItemOf(t), "B");
    NothingNext(k.g, AheadOf(t), u.ahead);
    assert t.Move? && ItemOf(t.before) == Item(3, 0);
    MovedTo(k, t);
    WayTo(k, j, StateOf(k.g, k.a, u));
    AtBeginning(k, t.before);
  }

  lemma MovedTo(k: Parser, v: Lr1)
    requires v.Move? && IsLr1(k.g, k.a, v)
    ensures IsLr1(k.g, k.a, v.before)
    ensures (var t := (StateOf(k.g, k.a, v.before), SymbolAt(k.g, ItemOf(v.before)));
      t in k.a.goto && StateOf(k.g, k.a, v) == k.a.goto[t])
  {
  }

  lemma PredictedFrom(k: Parser, u: Lr1)
    requires u.Predict? && IsLr1(k.g, k.a, u)
    ensures IsLr1(k.g, k.a, u.before) && StateOf(k.g, k.a, u) == StateOf(k.g, k.a, u.before)
    ensures 1 <= u.number < |k.g.productions| && DotBefore(k.g, ItemOf(u.before), k.g.productions[u.number].name)
    ensures NextIs(k.g, Rest(k.g, ItemOf(u.before))[1..], AheadOf(u.before), u.ahead)
  {
    hide NextIs;
  }

  /** How an item that has moved came to its state. */
  lemma CameOver(k: Parser, t: nat, i: Item) returns (p: nat, x: Symbol)
    requires Known(k) && k.g == NESTED && t < |k.a.states| && i in k.a.states[t] && i.dot > 0
    ensures p < |k.a.states| && t > 0 && DotBefore(NESTED, Item(i.number, i.dot - 1), x)
    ensures Item(i.number, i.dot - 1) in k.a.states[p]
    ensures forall m :: m in k.a.states[t] && m.dot > 0 ==>
              Item(m.number, m.dot - 1) in k.a.states[p] && DotBefore(NESTED, Item(m.number, m.dot - 1), x)
  {
    hide IsAutomaton, WellFormed, AllTransitions, AreNullable;
    p, x := ItemEntered(k.g, k.a, t, i);
    forall m | m in k.a.states[t] && m.dot > 0
      ensures Item(m.number, m.dot - 1) in k.a.states[p] && DotBefore(NESTED, Item(m.number, m.dot - 1), x)
    {
      BackOver(k, p, x, t, m);
    }
  }

  /** A complete item is alone in its state, apart from the two reductions. */
  lemma CompleteAlone(k: Parser, t: nat, i: Item, m: Item)
    requires Known(k) && k.g == NESTED && t < |k.a.states| && i in k.a.states[t] && m in k.a.states[t] && m != i
    requires IsItem(NESTED, i) && IsComplete(NESTED, i) && i.number > 0
    ensures (i == Item(5, 1) && m == Item(7, 1)) || (i == Item(7, 1) && m == Item(5, 1))
  {
    hide Known;
    NestedSymbols();
    NestedRule(i.number);
    var p, x := CameOver(k, t, i);
    Completed(i, x);
    Before(Item(i.number, i.dot - 1), x);
    forall n | n in k.a.states[t] && n.dot > 0
      ensures n == i || (i == Item(5, 1) && n == Item(7, 1)) || (i == Item(7, 1) && n == Item(5, 1))
    {
      Before(Item(n.number, n.dot - 1), x);
      if x == "A" {
        var i' := HeadFrom(k, p, 1);
        Before(i', "S");
        OnlyInStart(k, p);
        NoFourInStart(k);
      } else if x == "c" {
        BeforeC(Item(n.number, n.dot - 1));
        if n != i { NotBoth(k, p); }
      }
    }
    AllMoved(k, t);
  }

  lemma Completed(i: Item, x: Symbol)
    requires IsItem(NESTED, i) && IsComplete(NESTED, i) && i.number > 0 && i.dot > 0
    requires DotBefore(NESTED, Item(i.number, i.dot - 1), x)
    ensures x == "A" || x == "B" || x == "C" || x == "c" || x == "d"
    ensures x == "A" ==> i == Item(1, 1)
    ensures x == "c" ==> i == Item(4, 2) || i == Item(6, 3)
  {
    NestedSymbols();
    if i.number == 1 || i.number == 2 {
    } else if i.number == 3 || i.number == 4 {
    } else if i.number == 5 || i.number == 6 {
    }
  }

  lemma BeforeC(i: Item)
    requires DotBefore(NESTED, i, "c")
    ensures i == Item(4, 1) || i == Item(6, 2)
  {
    if i.number == 0 || i.number == 1 || i.number == 2 {
    } else if i.number == 3 || i.number == 4 {
    } else if i.number == 5 || i.number == 6 {
    }
  }

  lemma NotBoth(k: Parser, p: nat)
    requires Known(k) && k.g == NESTED && p < |k.a.states| && Item(4, 1) in k.a.states[p]
    ensures Item(6, 2) !in k.a.states[p]
  {
    hide Known;
    if Item(6, 2) in k.a.states[p] {
      var p0, x := CameOver(k, p, Item(4, 1));
      Before(Item(4, 0), x);
      SymbolsApart(x);
    }
  }

  lemma SymbolsApart(x: Symbol)
    requires DotBefore(NESTED, Item(4, 0), x)
    ensures !DotBefore(NESTED, Item(6, 1), x)
  {
  }

  /** The grammar is LALR(1): where a reduction has the lookahead `x`, there is nothing else to do on `x`. */
  lemma NestedIsLalr(k: Parser, t: nat, i: Item, m: Item, x: Symbol)
    requires Known(k) && k.g == NESTED && t < |k.a.states| && i in k.a.states[t] && m in k.a.states[t] && m != i
    requires IsItem(NESTED, i) && IsComplete(NESTED, i) && i.number > 0 && IsLalr1(k.g, k.a, t, i, x)
    ensures IsItem(NESTED, m) && IsComplete(NESTED, m) && !IsLalr1(k.g, k.a, t, m, x)
  {
    hide Known, IsLalr1;
    CompleteAlone(k, t, i, m);
    NestedApart(k, t, x);
  }

  /** Every right side ends. */
  lemma NestedProductive()
    ensures Productive(NESTED)
  {
    hide Derives, Ends;
    SymbolsEnd();
    forall q, d | 0 <= q < |NESTED.productions| && 0 <= d < |NESTED.productions[q].prod|
      ensures Ends(NESTED, NESTED.productions[q].prod[d])
    {
      SomeSymbol(q, d);
    }
  }

  lemma SymbolsEnd()
    ensures Ends(NESTED, "a") && Ends(NESTED, "c") && Ends(NESTED, "d") && Ends(NESTED, "S") && Ends(NESTED, "A")
    ensures Ends(NESTED, "B") && Ends(NESTED, "C") && Ends(NESTED, "D")
  {
    hide Derives, Ends;
    Sides();
    EndsItself("a");
    EndsItself("c");
    EndsItself("d");
    EndsBy(5, ["d"]);
    DerivesBoth(NESTED, ["a"], ["a"], ["B"], ["d"]);
    EndsBy(3, ["a"] + ["d"]);
    EndsBy(1, ["a"] + ["d"]);
    EndsBy(7, ["d"]);
    NestedSentence();
  }

  /** The right sides. */
  lemma Sides()
    ensures |NESTED.productions| == 8 && NESTED.productions[1].prod == ["A"] && NESTED.productions[2].prod == ["C"]
    ensures NESTED.productions[3].prod == ["a"] + ["B"] && NESTED.productions[5].prod == ["d"]
    ensures NESTED.productions[6].prod == ["a"] + ["D"] + ["c"] && NESTED.productions[7].prod == ["d"]
    ensures NESTED.productions[1].name == NESTED.productions[2].name == "S" && NESTED.productions[3].name == "A"
    ensures NESTED.productions[4].name == NESTED.productions[5].name == "B"
    ensures NESTED.productions[6].name == "C" && NESTED.productions[7].name == "D"
    ensures "a" in NESTED.terminals && "c" in NESTED.terminals && "d" in NESTED.terminals
  {
  }

  /** A sentence of the grammar. */
  lemma NestedSentence()
    ensures Derives(NESTED, ["S"], ["a"] + ["d"] + ["c"]) && Ends(NESTED, "C") && Ends(NESTED, "S")
  {
    hide Derives, Ends;
    Sides();
    EndsItself("a");
    EndsItself("c");
    EndsItself("d");
    EndsBy(7, ["d"]);
    DerivesBoth(NESTED, ["a"], ["a"], ["D"], ["d"]);
    DerivesBoth(NESTED, ["a"] + ["D"], ["a"] + ["d"], ["c"], ["c"]);
    EndsBy(6, ["a"] + ["d"] + ["c"]);
    EndsBy(2, ["a"] + ["d"] + ["c"]);
  }

  lemma SomeSymbol(q: nat, d: nat)
    requires q < |NESTED.productions| && d < |NESTED.productions[q].prod|
    ensures NESTED.productions[q].prod[d] in ["a", "c", "d", "S", "A", "B", "C", "D"]
  {
    if q == 0 || q == 1 {
    } else if q == 2 || q == 3 {
    } else if q == 4 || q == 5 {
    }
  }

  lemma EndsItself(x: Symbol)
    requires x in NESTED.terminals
    ensures Ends(NESTED, x) && Derives(NESTED, [x], [x])
  {
    DerivesSelf(NESTED, [x]);
    assert forall i :: 0 <= i < |[x]| ==> [x][i] in NESTED.terminals;
  }

  lemma EndsBy(q: nat, w: seq<Symbol>)
    requires 1 <= q < 8 && Derives(NESTED, NESTED.productions[q].prod, w)
    requires forall i :: 0 <= i < |w| ==> w[i] in NESTED.terminals
    ensures Derives(NESTED, [NESTED.productions[q].name], w) && Ends(NESTED, NESTED.productions[q].name)
  {
    NestedSymbols();
    assert IsRule(NESTED, NESTED.productions[q]);
    DerivesRule(NESTED, NESTED.productions[q]);
    DerivesTransitive(NESTED, [NESTED.productions[q].name], NESTED.productions[q].prod, w);
  }

  // ----- What the generator does with it -----

  lemma NotEmptied(a: seq<Symbol>, b: seq<Symbol>)
    requires Step(NESTED, a, b)
    ensures b != []
  {
    NestedSymbols();
    var u, p, v :| StepAt(NESTED, a, b, u, p, v);
    var i :| 1 <= i < |NESTED.productions| && NESTED.productions[i] == p;
    NestedRule(i);
  }

  lemma {:induction false} NeverEmpty(a: seq<Symbol>, b: seq<Symbol>, n: nat)
    requires DerivesIn(NESTED, a, b, n) && a != []
    ensures b != []
    decreases n
  {
    if n > 0 {
      var c :| Step(NESTED, a, c) && DerivesIn(NESTED, c, b, n - 1);
      NotEmptied(a, c);
      NeverEmpty(c, b, n - 1);
    }
  }

  /** Nothing vanishes. */
  lemma NoneNullable(nullable: set<Symbol>)
    requires AreNullable(NESTED, nullable)
    ensures nullable == {}
  {
    forall x | x in nullable ensures false {
      var n: nat :| DerivesIn(NESTED, [x], [], n);
      NeverEmpty([x], [], n);
    }
  }

  /** So no transition reads another one, and no lists are shared. */
  lemma ReadsNone(a: Automaton, nullable: set<Symbol>, trans: seq<Trans>, t: Trans, u: Trans)
    requires WellFormed(NESTED) && nullable == {} && Reaches(ReadGraph(NESTED, a, nullable, trans), t, u)
    ensures t == u
  {
    hide WellFormed, Direct;
    var graph := ReadGraph(NESTED, a, nullable, trans);
    var p :| PathBetween(graph, p, t, u);
    assert forall y :: y !in graph.related(p[0]);
    if |p| > 1 { PathFirst(graph, p); }
  }

  lemma PathFirst(graph: Graph<Trans, Symbol>, p: seq<Trans>)
    requires IsPath(graph, p) && |p| > 1
    ensures p[1] in graph.related(p[0])
  {
    assert p[0 + 1] in graph.related(p[0]);
  }

  lemma NestedAlike(a: Automaton)
    requires WellFormed(NESTED)
    ensures Alike(NESTED, a)
  {
    hide WellFormed, AreNullable, Reaches, Followed, ReadGraph;
    forall nullable, trans | AllTransitions(NESTED, a, trans) && AreNullable(NESTED, nullable)
      ensures SharedAlike(NESTED, a, nullable, trans)
    {
      NoneNullable(nullable);
      forall t, u | ReadTogether(NESTED, a, nullable, trans, t, u) ensures t == u {
        ReadsNone(a, nullable, trans, t, u);
      }
      NoneSharedAlike(NESTED, a, nullable, trans);
    }
  }

  /** A state where everything that has moved is complete. */
  lemma AllMoved(k: Parser, s: nat)
    requires Known(k) && 0 < s < |k.a.states|
    requires forall i :: i in k.a.states[s] && i.dot > 0 ==> !IsItem(k.g, i) || IsComplete(k.g, i)
    ensures forall i :: i in k.a.states[s] ==> i.dot > 0
  {
    hide IsAutomaton;
    forall i | i in k.a.states[s] ensures i.dot > 0 {
      if i.dot == 0 {
        if i.number == 0 {
          OnlyInStart(k, s);
        } else {
          var j, p := HeadOrigin(k, s, i.number);
        }
      }
    }
  }

  /** The first state has no complete items, and nothing that has moved. */
  lemma InStart(k: Parser, i: Item)
    requires Known(k) && k.g == NESTED && 0 < |k.a.states| && i in k.a.states[0]
    ensures i.dot == 0 && IsItem(NESTED, i) && !IsComplete(NESTED, i)
  {
    hide IsAutomaton, WellFormed, AllTransitions, AreNullable;
    NestedSymbols();
    StatesAreItemSets(k.g, k.a, 0);
    if i.dot > 0 {
      var s := EnteredLower(k, 0, i);
    } else if i.number > 0 {
      NestedRule(i.number);
    }
  }

  ghost predicate Generated(k: Parser, prec: seq<Prec>, lines: seq<int>, precedence: map<Symbol, Prec>) {
    && Known(k) && Justified(k.g, k.a, k.table) && FromCandidates(k.g, k.a, k.f.la, k.table)
    && ConflictsSettled(k.g, k.a, k.f.la, prec, lines, precedence, k.table.action)
    && Enough(k.g, k.a, k.f) && Exact(k.g, k.a, k.f)
  }

  /** The items of the states on the way. */
  lemma SecondState(k: Parser, s: nat, j: nat, i: Item)
    requires Known(k) && k.g == NESTED && IsPlace(k.a, s, j) && i in k.a.states[s]
    ensures IsItem(NESTED, i) && !IsComplete(NESTED, i)
  {
    hide IsAutomaton, WellFormed, AllTransitions, AreNullable;
    NestedSymbols();
    StatesAreItemSets(k.g, k.a, s);
    if i.dot > 0 {
      BackOver(k, 0, "a", s, i);
      Before(Item(i.number, i.dot - 1), "a");
    } else if i.number > 0 {
      NestedRule(i.number);
    }
  }

  lemma ThirdState(k: Parser, s: nat, j: nat, i: Item)
    requires Known(k) && k.g == NESTED && IsPlace(k.a, s, j) && i in k.a.states[j]
    ensures i == Item(5, 1) || i == Item(7, 1)
  {
    hide IsAutomaton, WellFormed, AllTransitions, AreNullable;
    forall m | m in k.a.states[j] && m.dot > 0 ensures m == Item(5, 1) || m == Item(7, 1) {
      BackOver(k, s, "d", j, m);
      Before(Item(m.number, m.dot - 1), "d");
    }
    AcrossTransition(k.g, k.a, (s, "d"));
    AllMoved(k, j);
  }

  /** Behind one symbol of a right side that is complete then. */
  lemma OneItem(k: Parser, p: nat, x: Symbol, s: nat, i: Item)
    requires Known(k) && k.g == NESTED && (p, x) in k.a.goto && k.a.goto[(p, x)] == s && s < |k.a.states|
    requires (x == "B") || (x == "A" && p == 0) || x == "S"
    requires i in k.a.states[s]
    ensures i == if x == "B" then Item(3, 2) else if x == "A" then Item(1, 1) else Item(0, 1)
  {
    hide IsAutomaton, WellFormed, AllTransitions, AreNullable, DotBefore;
    AcrossTransition(k.g, k.a, (p, x));
    Ends3();
    forall m | m in k.a.states[s] && m.dot > 0
      ensures m == if x == "B" then Item(3, 2) else if x == "A" then Item(1, 1) else Item(0, 1)
    {
      BackOver(k, p, x, s, m);
      Before(Item(m.number, m.dot - 1), x);
      if x == "A" && Item(m.number, m.dot - 1) == Item(4, 0) { NoFourInStart(k); }
    }
    AllMoved(k, s);
  }

  lemma Ends3()
    ensures IsItem(NESTED, Item(3, 2)) && IsComplete(NESTED, Item(3, 2))
    ensures IsItem(NESTED, Item(1, 1)) && IsComplete(NESTED, Item(1, 1))
    ensures IsItem(NESTED, Item(0, 1)) && IsComplete(NESTED, Item(0, 1))
  {
  }

  lemma NoFourInStart(k: Parser)
    requires Known(k) && k.g == NESTED && 0 < |k.a.states|
    ensures Item(4, 0) !in k.a.states[0]
  {
    hide Known;
    NestedSymbols();
    if Item(4, 0) in k.a.states[0] {
      var i := HeadFrom(k, 0, 4);
      Before(i, "B");
      InStart(k, i);
    }
  }

  /** After `S`, only the end comes. */
  lemma NothingAfterS(k: Parser, v: nat)
    requires Known(k) && k.g == NESTED
    ensures !IsLookahead(k.g, k.a, k.f.nullable, k.f.trans, v, Item(1, 1), "c")
  {
    hide IsAutomaton, WellFormed, AllTransitions, AreNullable, LooksBack, Followed;
    if IsLookahead(k.g, k.a, k.f.nullable, k.f.trans, v, Item(1, 1), "c") {
      var z :| z in k.f.trans && LooksBack(k.g, k.a, v, Item(1, 1), z)
               && Followed(k.g, k.a, k.f.nullable, k.f.trans, z, "c");
      OverS(k, v, z);
      NotFollowed(k);
    }
  }

  lemma OverS(k: Parser, v: nat, z: Trans)
    requires Known(k) && k.g == NESTED && LooksBack(k.g, k.a, v, Item(1, 1), z) && z in k.f.trans
    ensures z == (0, "S")
  {
    hide IsAutomaton, WellFormed, AreNullable, Arrival, Dotted;
    var i :| LooksBackAt(k.g, k.a, v, Item(1, 1), z, i);
    var m := ItemOver(k.g, k.a, z.0, "S");
    Before(m, "S");
    OnlyInStart(k, z.0);
  }

  lemma NotFollowed(k: Parser)
    requires Known(k) && k.g == NESTED
    ensures !FollowedBySymbol(k, (0, "S"), "c")
  {
    hide IsAutomaton, WellFormed, AreNullable, Collected, Includes;
    if FollowedBySymbol(k, (0, "S"), "c") {
      var p :| FollowedBy(k.g, k.a, k.f.nullable, k.f.trans, (0, "S"), "c", p);
      if |p| > 1 {
        assert Includes(k.g, k.a, k.f.nullable, p[0], p[0 + 1]);
        assert p[1] in k.f.trans;
        NotIncluded(k, p[1]);
      } else {
        NotRead(k);
      }
    }
  }

  lemma NotIncluded(k: Parser, z: Trans)
    requires Known(k) && k.g == NESTED && z in k.f.trans
    ensures !Includes(k.g, k.a, k.f.nullable, (0, "S"), z)
  {
    hide IsAutomaton, WellFormed, AreNullable, Arrival;
    assert "S'" !in NESTED.nonterminals && NESTED.productions[0].name == "S'" && z.1 in NESTED.nonterminals;
    forall i, m ensures !IncludedAt(k.g, k.a, k.f.nullable, (0, "S"), z, i, m) {
      if IncludedAt(k.g, k.a, k.f.nullable, (0, "S"), z, i, m) {
        Before(Item(i.number, m), "S");
      }
    }
  }

  lemma NotRead(k: Parser)
    requires Known(k) && k.g == NESTED
    ensures !Collected(Reads(k), (0, "S"), "c")
  {
    hide IsAutomaton, WellFormed, AllTransitions, AreNullable;
    NoneNullable(k.f.nullable);
    forall y | Reaches(Reads(k), (0, "S"), y) ensures "c" !in Direct(k.g, k.a, y) {
      ReadsNone(k.a, k.f.nullable, k.f.trans, (0, "S"), y);
      NotDirect(k);
    }
  }

  lemma NotDirect(k: Parser)
    requires Known(k) && k.g == NESTED
    ensures "c" !in Direct(k.g, k.a, (0, "S"))
  {
    hide IsAutomaton, AllTransitions, AreNullable;
    if (0, "S") in k.a.goto && k.a.goto[(0, "S")] < |k.a.states| {
      forall i | i in k.a.states[k.a.goto[(0, "S")]] ensures !DotBefore(k.g, i, "c") {
        OneItem(k, 0, "S", k.a.goto[(0, "S")], i);
      }
    }
  }

  // ----- The entries on the way -----

  /** Where only a shift is proposed. */
  lemma ShiftEntered(k: Parser, prec: seq<Prec>, lines: seq<int>, precedence: map<Symbol, Prec>, s: nat, i: Item,
                     x: Symbol)
    requires Generated(k, prec, lines, precedence) && k.g == NESTED && s < |k.a.states| && i in k.a.states[s]
    requires DotBefore(k.g, i, x) && x in k.g.terminals && (s, x) in k.a.goto
    requires forall m :: m in k.a.states[s] && IsItem(k.g, m) ==> !IsComplete(k.g, m)
    ensures (s, x) in k.table.action && k.table.action[(s, x)] == k.a.goto[(s, x)]
  {
    hide IsAutomaton, WellFormed, AllTransitions, AreNullable, Enough, Exact, ConflictsSettled, Justified;
    var act := k.a.goto[(s, x)];
    assert Proposes(k.g, k.a, k.f.la, s, i, x, act);
    assert Candidate(k.g, k.a, k.f.la, s, x, act);
    assert Only(k.g, k.a, k.f.la, s, x, act);
  }

  /** The two reductions: the one that comes first in the grammar is entered. */
  lemma ReduceEntered(k: Parser, prec: seq<Prec>, lines: seq<int>, precedence: map<Symbol, Prec>, s: nat, j: nat)
    requires Generated(k, prec, lines, precedence) && k.g == NESTED && IsPlace(k.a, s, j)
    requires |lines| == 8 && lines[5] < lines[7]
    ensures (j, "c") in k.table.action && k.table.action[(j, "c")] == -5
  {
    hide IsAutomaton, WellFormed, AllTransitions, AreNullable, Exact, ConflictsSettled, Justified, FromCandidates,
         IsLookahead, IsPlace, Proposes;
    BothInState(k, s, j);
    NestedLookahead(k, s, j);
    OtherLookahead(k, s, j);
    assert Has(k.f.la, (j, Item(5, 1)), "c") && Has(k.f.la, (j, Item(7, 1)), "c");
    ReductionProposed(k, j, 5, "c");
    ReductionProposed(k, j, 7, "c");
    var m :| 0 <= m < |k.a.states[j]| && k.a.states[j][m] == Item(5, 1);
    var n :| 0 <= n < |k.a.states[j]| && k.a.states[j][n] == Item(7, 1);
    assert OnlyTwo(k.g, k.a, k.f.la, j, "c", Item(5, 1), Item(7, 1)) by { OnlyThese(k, s, j); }
    PairHere(k.g, k.a, k.f.la, prec, lines, precedence, k.table.action, j, "c", m, n);
    FirstLine(k, prec, lines, precedence, j, m, n);
  }

  lemma FirstLine(k: Parser, prec: seq<Prec>, lines: seq<int>, precedence: map<Symbol, Prec>, j: nat, m: nat, n: nat)
    requires |lines| == 8 && lines[5] < lines[7]
    requires Proposes(k.g, k.a, k.f.la, j, Item(5, 1), "c", -5) && Proposes(k.g, k.a, k.f.la, j, Item(7, 1), "c", -7)
    requires (var token := if "c" in precedence then precedence["c"] else Prec(Right, 0);
      && (m < n ==> PairSettled(k.g, k.a, k.f.la, prec, lines, token, k.table.action, j, "c", Item(5, 1), Item(7, 1)))
      && (n < m ==> PairSettled(k.g, k.a, k.f.la, prec, lines, token, k.table.action, j, "c", Item(7, 1), Item(5, 1))))
    requires m != n
    ensures (j, "c") in k.table.action && k.table.action[(j, "c")] == -5
  {
    hide Proposes;
  }

  lemma BothInState(k: Parser, s: nat, j: nat)
    requires IsPlace(k.a, s, j)
    ensures j < |k.a.states| && Item(5, 1) in k.a.states[j] && Item(7, 1) in k.a.states[j]
  {
  }

  lemma ReductionProposed(k: Parser, j: nat, q: nat, x: Symbol)
    requires k.g == NESTED && (q == 5 || q == 7) && j < |k.a.states| && Item(q, 1) in k.a.states[j]
    requires Has(k.f.la, (j, Item(q, 1)), x)
    ensures Proposes(k.g, k.a, k.f.la, j, Item(q, 1), x, -(q as int))
  {
  }

  lemma OnlyThese(k: Parser, s: nat, j: nat)
    requires Known(k) && k.g == NESTED && IsPlace(k.a, s, j)
    ensures OnlyTwo(k.g, k.a, k.f.la, j, "c", Item(5, 1), Item(7, 1))
  {
    hide Known, IsPlace;
    forall m, act | Proposes(k.g, k.a, k.f.la, j, m, "c", act) ensures m == Item(5, 1) || m == Item(7, 1) {
      ThirdState(k, s, j, m);
    }
  }

  /** The reduction to D is proposed too. */
  lemma OtherLookahead(k: Parser, s: nat, j: nat)
    requires Known(k) && k.g == NESTED && IsPlace(k.a, s, j)
    ensures IsLookahead(k.g, k.a, k.f.nullable, k.f.trans, j, Item(7, 1), "c")
  {
    hide IsAutomaton, WellFormed, AreNullable, Collected;
    Dots();
    NestedSymbols();
    ItemMoves(k.g, k.a, s, Item(6, 1), "D");
    assert DotBefore(NESTED, Item(6, 2), "c");
    DirectlyRead(k, (s, "D"), Item(6, 2), "c");
    ReadIsFollowed(k, (s, "D"), "c");
    assert LooksBackAt(k.g, k.a, j, Item(7, 1), (s, "D"), Item(7, 0)) by {
      BeginningCompares(k.g, Item(7, 1));
      assert NESTED.productions[7].prod[0..] == ["d"] && ["d"][1..] == [];
    }
  }

  /** Behind B and behind A at the beginning, at most a reduction is entered. */
  lemma OnlyReduction(k: Parser, prec: seq<Prec>, lines: seq<int>, precedence: map<Symbol, Prec>, p: nat, x: Symbol,
                      s: nat)
    requires Generated(k, prec, lines, precedence) && k.g == NESTED && (p, x) in k.a.goto && k.a.goto[(p, x)] == s
    requires s < |k.a.states| && (x == "B" || (x == "A" && p == 0))
    ensures (s, "c") in k.table.action ==>
              (if x == "B" then k.table.action[(s, "c")] == -3
               else k.table.action[(s, "c")] == -1 && Has(k.f.la, (s, Item(1, 1)), "c"))
  {
    hide IsAutomaton, WellFormed, AllTransitions, AreNullable, Enough, Exact, ConflictsSettled, Justified;
    if (s, "c") in k.table.action {
      var i :| Proposes(k.g, k.a, k.f.la, s, i, "c", k.table.action[(s, "c")]);
      OneItem(k, p, x, s, i);
    }
  }

  lemma NoReductionToS(k: Parser, prec: seq<Prec>, lines: seq<int>, precedence: map<Symbol, Prec>, v: nat)
    requires Generated(k, prec, lines, precedence) && k.g == NESTED && (0, "A") in k.a.goto && k.a.goto[(0, "A")] == v
    requires v < |k.a.states|
    ensures (v, "c") !in k.table.action
  {
    hide IsAutomaton, WellFormed, AllTransitions, AreNullable, Enough, ConflictsSettled, Justified, FromCandidates,
         IsLookahead;
    OnlyReduction(k, prec, lines, precedence, 0, "A", v);
    NothingAfterS(k, v);
  }

  // ----- The machine -----

  lemma OutcomeMoved(k: Parser, c: Config, c': Config, limit: nat)
    requires TurnOf(k.g, k.table, c) == Moved(c')
    ensures limit > 0 ==> Outcomes(k.g, k.table, c, limit) == Outcomes(k.g, k.table, c', limit - 1)
  {
    hide TurnOf;
  }

  lemma NoTurns(k: Parser, c: Config)
    ensures Outcomes(k.g, k.table, c, 0) == Running
  {
  }

  lemma OutcomeFailed(k: Parser, c: Config, limit: nat)
    requires TurnOf(k.g, k.table, c) == NoEntry
    ensures !Outcomes(k.g, k.table, c, limit).Accepted?
  {
    hide TurnOf;
  }

  /** A turn that reduces. */
  lemma ReducesTo(k: Parser, c: Config, q: nat, c': Config)
    requires k.g == NESTED && (q == 3 || q == 5) && Justified(k.g, k.a, k.table) && c.symbols != []
    requires |c.states| == |c.symbols| == 3 && (c.states[2], "c") in k.table.action && KindAhead(c.ahead) == "c"
    requires k.table.action[(c.states[2], "c")] == -(q as int)
    requires (var n := if q == 3 then 1 else 2;
      var t := (c.states[n - 1], if q == 3 then "A" else "B");
      && t in k.a.goto
      && c' == Config(c.states[..n] + [k.a.goto[t]], c.symbols[..n] + [Node(q, c.symbols[n..])], c.ahead))
    ensures TurnOf(k.g, k.table, c) == Moved(c')
  {
    Sides();
    var n := if q == 3 then 1 else 2;
    var t := (c.states[n - 1], if q == 3 then "A" else "B");
    assert t.1 in NESTED.nonterminals && (t.0, t.1) in k.a.goto && (t.0, t.1) in k.table.goto;
  }

  lemma ShiftsTo(k: Parser, c: Config, s: nat)
    requires c.states != [] && c.symbols != [] && c.ahead != [] && s > 0
    requires (c.states[|c.states| - 1], c.ahead[0].kind) in k.table.action
    requires k.table.action[(c.states[|c.states| - 1], c.ahead[0].kind)] == s
    ensures TurnOf(k.g, k.table, c) == Moved(Config(c.states + [s], c.symbols + [Leaf(c.ahead[0])], c.ahead[1..]))
  {
  }

  lemma AtC(k: Parser, prec: seq<Prec>, lines: seq<int>, precedence: map<Symbol, Prec>, c: Config, s: nat, limit: nat)
    requires Generated(k, prec, lines, precedence) && k.g == NESTED && (0, "a") in k.a.goto && k.a.goto[(0, "a")] == s
    requires (s, "B") in k.a.goto && k.a.goto[(s, "B")] < |k.a.states|
    requires (0, "A") in k.a.goto && k.a.goto[(0, "A")] < |k.a.states|
    requires c.states == [0, s, k.a.goto[(s, "B")]] && |c.symbols| == 3 && KindAhead(c.ahead) == "c"
    ensures !Outcomes(k.g, k.table, c, limit).Accepted?
  {
    hide Known, FromCandidates, ConflictsSettled, Enough, Exact, Outcomes;
    var u, v := k.a.goto[(s, "B")], k.a.goto[(0, "A")];
    OnlyReduction(k, prec, lines, precedence, s, "B", u);
    NoReductionToS(k, prec, lines, precedence, v);
    if (u, "c") in k.table.action {
      var c' := Config(c.states[..1] + [v], c.symbols[..1] + [Node(3, c.symbols[1..])], c.ahead);
      ReducesTo(k, c, 3, c');
      if limit > 0 {
        OutcomeMoved(k, c, c', limit);
        OutcomeFailed(k, c', limit - 1);
      } else {
        NoTurns(k, c);
      }
    } else {
      OutcomeFailed(k, c, limit);
    }
  }

  lemma NestedEntries(k: Parser, prec: seq<Prec>, lines: seq<int>, precedence: map<Symbol, Prec>, s: nat, j: nat)
    requires Generated(k, prec, lines, precedence) && k.g == NESTED && |lines| == 8 && lines[5] < lines[7]
    requires IsPlace(k.a, s, j)
    ensures (0, "a") in k.table.action && k.table.action[(0, "a")] == s > 0
    ensures (s, "d") in k.table.action && k.table.action[(s, "d")] == j > 0
    ensures (j, "c") in k.table.action && k.table.action[(j, "c")] == -5
    ensures k.a.goto[(s, "B")] < |k.a.states| && (0, "A") in k.a.goto && k.a.goto[(0, "A")] < |k.a.states|
  {
    hide IsAutomaton, WellFormed, AllTransitions, AreNullable, FromCandidates, ConflictsSettled, Enough, Exact,
         Justified;
    Dots();
    AtoB(k);
    forall m | m in k.a.states[0] && IsItem(k.g, m) ensures !IsComplete(k.g, m) { InStart(k, m); }
    forall m | m in k.a.states[s] && IsItem(k.g, m) ensures !IsComplete(k.g, m) { SecondState(k, s, j, m); }
    ShiftEntered(k, prec, lines, precedence, 0, Item(3, 0), "a");
    ShiftEntered(k, prec, lines, precedence, s, Item(5, 0), "d");
    ReduceEntered(k, prec, lines, precedence, s, j);
    AcrossTransition(k.g, k.a, (0, "a"));
    AcrossTransition(k.g, k.a, (s, "d"));
    AcrossTransition(k.g, k.a, (s, "B"));
    AcrossTransition(k.g, k.a, (0, "A"));
  }

  /** The machine reads `a d`, takes the wrong reduction, and is stuck before `c`. */
  lemma NestedRejected(k: Parser, prec: seq<Prec>, lines: seq<int>, precedence: map<Symbol, Prec>, input: seq<Token>,
                       limit: nat)
    requires Generated(k, prec, lines, precedence) && k.g == NESTED && |lines| == 8 && lines[5] < lines[7]
    requires Kinds(input) == ["a"] + ["d"] + ["c"]
    ensures !Outcomes(k.g, k.table, Start(input), limit).Accepted?
  {
    hide *;
    var s, j := FindPlace(k) by { GeneratedKnown(k, prec, lines, precedence); }
    NestedEntries(k, prec, lines, precedence, s, j);
    var c3 := ThreeTurns(k, s, j, input, limit) by { GeneratedKnown(k, prec, lines, precedence); }
    if limit >= 3 {
      PlaceFacts(k, s, j);
      AtC(k, prec, lines, precedence, c3, s, limit - 3);
    }
  }

  lemma GeneratedKnown(k: Parser, prec: seq<Prec>, lines: seq<int>, precedence: map<Symbol, Prec>)
    requires Generated(k, prec, lines, precedence)
    ensures Known(k) && Justified(k.g, k.a, k.table)
  {
  }

  lemma PlaceFacts(k: Parser, s: nat, j: nat)
    requires IsPlace(k.a, s, j)
    ensures (0, "a") in k.a.goto && k.a.goto[(0, "a")] == s && (s, "B") in k.a.goto
  {
  }

  /** Two shifts and a reduction. */
  lemma ThreeTurns(k: Parser, s: nat, j: nat, input: seq<Token>, limit: nat) returns (c3: Config)
    requires k.g == NESTED && IsPlace(k.a, s, j) && Justified(k.g, k.a, k.table)
    requires Kinds(input) == ["a"] + ["d"] + ["c"]
    requires (0, "a") in k.table.action && k.table.action[(0, "a")] == s > 0
    requires (s, "d") in k.table.action && k.table.action[(s, "d")] == j > 0
    requires (j, "c") in k.table.action && k.table.action[(j, "c")] == -5
    ensures c3.states == [0, s, k.a.goto[(s, "B")]] && |c3.symbols| == 3 && KindAhead(c3.ahead) == "c"
    ensures (var c0 := Start(input);
      if limit < 3 then Outcomes(k.g, k.table, c0, limit) == Running
      else Outcomes(k.g, k.table, c0, limit) == Outcomes(k.g, k.table, c3, limit - 3))
  {
    hide Outcomes, TurnOf, Justified;
    assert |input| == |Kinds(input)| == 3;
    assert input[0].kind == "a" && input[1].kind == "d" && input[2].kind == "c";
    var c0 := Start(input);
    ShiftsTo(k, c0, s);
    var c1 := Config([0] + [s], c0.symbols + [Leaf(input[0])], input[1..]);
    ShiftsTo(k, c1, j);
    var c2 := Config([0] + [s] + [j], c1.symbols + [Leaf(input[1])], input[1..][1..]);
    assert c2.ahead[0] == input[2];
    c3 := Config(c2.states[..2] + [k.a.goto[(s, "B")]], c2.symbols[..2] + [Node(5, c2.symbols[2..])], c2.ahead);
    ReducesTo(k, c2, 5, c3);
    Three(k, c0, c1, c2, c3, limit);
  }

  lemma AtoB(k: Parser)
    requires Known(k) && k.g == NESTED
    ensures 0 < |k.a.states| && Item(3, 0) in k.a.states[0] && (0, "A") in k.a.goto
    ensures "a" in k.g.terminals && "d" in k.g.terminals
  {
    hide IsAutomaton, WellFormed, AllTransitions, AreNullable;
    Dots();
    StartInState(k);
    ChildPredicted(k.g, k.a, 0, Item(0, 0), 1);
    ChildPredicted(k.g, k.a, 0, Item(1, 0), 3);
    ItemMoves(k.g, k.a, 0, Item(1, 0), "A");
  }

  lemma Three(k: Parser, c0: Config, c1: Config, c2: Config, c3: Config, limit: nat)
    requires TurnOf(k.g, k.table, c0) == Moved(c1) && TurnOf(k.g, k.table, c1) == Moved(c2)
    requires TurnOf(k.g, k.table, c2) == Moved(c3)
    ensures if limit < 3 then Outcomes(k.g, k.table, c0, limit) == Running
            else Outcomes(k.g, k.table, c0, limit) == Outcomes(k.g, k.table, c3, limit - 3)
  {
    hide TurnOf;
    if limit > 0 {
      OutcomeMoved(k, c0, c1, limit);
      if limit > 1 {
        OutcomeMoved(k, c1, c2, limit - 1);
        if limit > 2 { OutcomeMoved(k, c2, c3, limit - 2); }
      }
    }
  }

  /** The state that accepts has nothing else to do. */
  lemma AcceptsAlone(k: Parser)
    requires Known(k) && k.g == NESTED
    ensures !AcceptConflict(k.g, k.a, k.f.la)
  {
    hide IsAutomaton, WellFormed, AllTransitions, AreNullable;
    NestedSymbols();
    forall s, act: int | Candidate(k.g, k.a, k.f.la, s, END, act) && Candidate(k.g, k.a, k.f.la, s, END, 0)
      ensures act == 0
    {
      var i :| Proposes(k.g, k.a, k.f.la, s, i, END, 0);
      var m :| Proposes(k.g, k.a, k.f.la, s, m, END, act);
      assert i == Item(0, 1);
      var p, x := ItemEntered(k.g, k.a, s, i);
      OnlyInStart(k, p);
      OneItem(k, p, x, s, m);
    }
  }

  /**
   The generator on this grammar, with the production of B on an earlier line than that of D: tables are made, but they
   refuse a sentence, whose reductions have different lookaheads in LALR(1).
   */
  method NestedTables(prec: seq<Prec>, lines: seq<int>, precedence: map<Symbol, Prec>, maxint: int)
    returns (table: Option<ParseTable>, ghost k: Parser, ghost j: nat)
    requires |prec| == 8 && |lines| == 8 && lines[5] < lines[7]
    requires (KernelBound(NESTED) + 1) * |LR0Store.SymbolSet(NESTED)| < maxint
    ensures table.Some? && Productive(NESTED) && Derives(NESTED, ["S"], ["a"] + ["d"] + ["c"])
    ensures forall input, limit: nat :: Kinds(input) == ["a"] + ["d"] + ["c"] ==>
              !Outcomes(NESTED, table.value, Start(input), limit).Accepted?
    ensures k.g == NESTED && Known(k) && (j, "c") in table.value.action && table.value.action[(j, "c")] == -5
    ensures forall x :: IsLalr1(NESTED, k.a, j, Item(5, 1), x) ==> x == END
    ensures forall x :: IsLalr1(NESTED, k.a, j, Item(7, 1), x) ==> x == "c"
  {
    hide WellFormed, IsAutomaton, Justified, Enough, Exact, Filled, ConflictFree, AttachedInFollow, ReducesInFollow,
         SharedInFollow, ShareFollow, SharersApart, SharersOnNoCycle, ConflictsSettled, FromCandidates, Alike;
    hide AcceptConflict, Outcomes, Derives, IsLalr1, AllTransitions, AreNullable, IsPlace, Productive;
    NestedWellFormed();
    NestedSymbols();
    NestedNames();
    var states, an;
    ghost var f;
    table, states, an, f := Generate(NESTED, prec, lines, precedence, maxint);
    NestedAlike(states);
    KnownOf(NESTED, states, f);
    k := Parser(NESTED, states, f, if table.Some? then table.value else ParseTable(map[], map[]));
    AcceptsAlone(k);
    NestedSentence();
    NestedProductive();
    ghost var s;
    s, j := FindPlace(k);
    ReduceEntered(k, prec, lines, precedence, s, j);
    BothInState(k, s, j);
    forall x { NestedApart(k, j, x); }
    forall input, limit: nat | Kinds(input) == ["a"] + ["d"] + ["c"]
      ensures !Outcomes(NESTED, table.value, Start(input), limit).Accepted?
    {
      NestedRejected(k, prec, lines, precedence, input, limit);
    }
  }

  lemma KnownOf(g: Grammar, a: Automaton, f: Found)
    requires WellFormed(g) && IsAutomaton(g, a) && Enough(g, a, f)
    ensures Known(Parser(g, a, f, ParseTable(map[], map[])))
    ensures AllTransitions(g, a, f.trans) && AreNullable(g, f.nullable)
  {
  }

  lemma NestedNames()
    ensures forall n :: n in NESTED.nonterminals ==> GrammarAnalysis.ProdsOf(NESTED, n, |NESTED.productions|) != []
  {
    hide GrammarAnalysis.ProdsOf;
    Sides();
    forall n | n in NESTED.nonterminals ensures GrammarAnalysis.ProdsOf(NESTED, n, |NESTED.productions|) != [] {
      NameOf(if n == "S" then 1 else if n == "A" then 3 else if n == "B" then 4 else if n == "C" then 6 else 7, n);
    }
  }

  lemma NameOf(q: nat, n: Symbol)
    requires 1 <= q < |NESTED.productions| && NESTED.productions[q].name == n
    ensures GrammarAnalysis.ProdsOf(NESTED, n, |NESTED.productions|) != []
  {
    hide GrammarAnalysis.ProdsOf;
    assert NESTED.productions[q] in GrammarAnalysis.ProdsOf(NESTED, n, |NESTED.productions|);
  }
}
