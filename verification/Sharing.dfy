/**
 A grammar whose lookaheads are not in FOLLOW. Three transitions over nonterminals that vanish read each other in a
 circle, so their read sets are one list; what follows one of them is added to that list, and becomes a lookahead of
 the others.
 */
module LalrSharing {
  import opened Wrappers
  import opened Grammars
  import opened FirstSets
  import opened FollowSets
  import opened LR0Items
  import opened LR0Paths
  import opened Digraph
  import opened LalrRelations
  import opened LalrGenerator
  import opened GrammarAnalysis
  import opened LRTables
  import LR0Store

  /** S -> B z; B -> A C G; G -> D B h, or nothing; and A, C and D are nothing. */
  const CIRCLE: Grammar := Grammar(["z", "h"], ["S", "B", "A", "C", "G", "D"],
                                   [Production("S'", ["S"]), Production("S", ["B", "z"]),
                                    Production("B", ["A", "C", "G"]),
                                    Production("G", ["D", "B", "h"]), Production("G", []), Production("A", []),
                                    Production("C", []), Production("D", [])])

  lemma CircleSymbols()
    ensures forall x :: x in CIRCLE.nonterminals ==> !IsTerminal(CIRCLE, x) && x != EMPTY
    ensures !IsTerminal(CIRCLE, EMPTY)
  {
  }

  lemma CircleRule(i: nat)
    requires 1 <= i < 8
    ensures CIRCLE.productions[i].name in CIRCLE.nonterminals && IsForm(CIRCLE, CIRCLE.productions[i].prod)
  {
    if i == 1 {
    } else if i == 2 {
    } else if i == 3 {
    } else if i == 4 {
    } else if i == 5 {
    } else if i == 6 {
    }
  }

  lemma CircleWellFormed()
    ensures WellFormed(CIRCLE)
  {
    CircleSymbols();
    forall p | IsRule(CIRCLE, p) ensures p.name in CIRCLE.nonterminals && IsForm(CIRCLE, p.prod) {
      var i :| 1 <= i < |CIRCLE.productions| && CIRCLE.productions[i] == p;
      CircleRule(i);
    }
  }

  // ----- What follows D -----

  const CIRCLE_FIRST: FirstSets.Table :=
    map["z" := ["z"], "h" := ["h"], END := [END], "S" := ["h", "z"],
        "B" := [EMPTY, "h"], "A" := [EMPTY], "C" := [EMPTY],
        "G" := [EMPTY, "h"], "D" := [EMPTY]]

  const CIRCLE_FOLLOW: FirstSets.Table :=
    map["S" := [END], "B" := ["z", "h"], "A" := ["h", "z"], "C" := ["h", "z"], "G" := ["z", "h"], "D" := ["h"]]

  /** What a form begins with, one symbol at a time. */
  lemma FirstOne(x: Symbol, beta: seq<Symbol>)
    requires x in CIRCLE_FIRST && forall i :: 0 <= i < |beta| ==> beta[i] in CIRCLE_FIRST
    ensures forall a :: InFirst(CIRCLE_FIRST, [x] + beta, a) <==>
              (a != EMPTY && a in CIRCLE_FIRST[x]) || (EMPTY in CIRCLE_FIRST[x] && InFirst(CIRCLE_FIRST, beta, a))
  {
    assert ([x] + beta)[1..] == beta;
  }

  lemma FirstNone()
    ensures forall a :: InFirst(CIRCLE_FIRST, [], a) <==> a == EMPTY
  {
  }

  /** FIRST of the ends of the right sides that matter. */
  lemma FirstEnds()
    ensures forall a :: InFirst(CIRCLE_FIRST, [], a) <==> a == EMPTY
    ensures forall a :: InFirst(CIRCLE_FIRST, ["z"], a) <==> a == "z"
    ensures forall a :: InFirst(CIRCLE_FIRST, ["h"], a) <==> a == "h"
    ensures forall a :: InFirst(CIRCLE_FIRST, ["G"], a) <==> a == EMPTY || a == "h"
    ensures forall a :: InFirst(CIRCLE_FIRST, ["B", "h"], a) <==> a == "h"
    ensures forall a :: InFirst(CIRCLE_FIRST, ["C", "G"], a) <==> a == EMPTY || a == "h"
  {
    FirstNone();
    FirstOne("z", []);
    FirstOne("h", []);
    FirstOne("G", []);
    FirstOne("B", ["h"]);
    FirstOne("C", ["G"]);
    assert ["z"] + [] == ["z"] && ["h"] + [] == ["h"] && ["G"] + [] == ["G"];
    assert ["B"] + ["h"] == ["B", "h"] && ["C"] + ["G"] == ["C", "G"];
  }

  /** A rule's FIRST is that of its first symbol and of the rest. */
  lemma CircleRuleAdded(i: nat)
    requires 1 <= i < 8
    ensures RuleAdded(CIRCLE_FIRST, CIRCLE.productions[i])
  {
    hide InFirst;
    FirstEnds();
    var p := CIRCLE.productions[i];
    if i == 1 {
      FirstOne("B", ["z"]);
      assert p.prod == ["B"] + ["z"];
    } else if i == 2 {
      FirstOne("A", ["C", "G"]);
      assert p.prod == ["A"] + ["C", "G"];
    } else if i == 3 {
      FirstOne("D", ["B", "h"]);
      assert p.prod == ["D"] + ["B", "h"];
    } else {
      assert p.prod == [];
    }
  }

  lemma CircleFirst()
    ensures HasAll(CIRCLE, CIRCLE_FIRST) && TerminalLists(CIRCLE, CIRCLE_FIRST)
    ensures ClosedUnderRules(CIRCLE, CIRCLE_FIRST)
  {
    hide RuleAdded;
    forall p | IsRule(CIRCLE, p) ensures RuleAdded(CIRCLE_FIRST, p) {
      var i :| 1 <= i < |CIRCLE.productions| && CIRCLE.productions[i] == p;
      CircleRuleAdded(i);
    }
  }

  /** The rests of the right sides. */
  lemma CircleRests()
    ensures CIRCLE.productions[1].prod[1..] == ["z"] && CIRCLE.productions[1].prod[2..] == []
    ensures CIRCLE.productions[2].prod[1..] == ["C", "G"] && CIRCLE.productions[2].prod[2..] == ["G"]
    ensures CIRCLE.productions[2].prod[3..] == []
    ensures CIRCLE.productions[3].prod[1..] == ["B", "h"] && CIRCLE.productions[3].prod[2..] == ["h"]
  {
  }

  lemma CircleFollowAdded(i: nat, k: nat)
    requires 1 <= i < 8 && k < |CIRCLE.productions[i].prod| && CIRCLE.productions[i].prod[k] in CIRCLE.nonterminals
    requires forall m :: 0 <= m < |CIRCLE.productions[i].prod| ==> CIRCLE.productions[i].prod[m] in CIRCLE_FIRST
    ensures FollowAdded(CIRCLE_FIRST, CIRCLE_FOLLOW, CIRCLE.productions[i], k)
  {
    hide InFirst;
    FirstEnds();
    CircleRests();
    if i == 1 {
      assert k == 0;
    } else if i == 2 {
      if k == 0 {
      } else if k == 1 {
      } else {
        assert k == 2;
      }
    } else {
      assert i == 3 && (k == 0 || k == 1);
    }
  }

  lemma CircleFollow()
    requires WellFormed(CIRCLE) && HasAll(CIRCLE, CIRCLE_FIRST)
    ensures FollowClosed(CIRCLE, CIRCLE_FIRST, CIRCLE_FOLLOW, "S")
  {
    hide FollowAdded;
    forall p, k | IsRule(CIRCLE, p) && 0 <= k < |p.prod| && p.prod[k] in CIRCLE.nonterminals
      ensures FollowAdded(CIRCLE_FIRST, CIRCLE_FOLLOW, p, k)
    {
      var i :| 1 <= i < |CIRCLE.productions| && CIRCLE.productions[i] == p;
      CircleFollowAdded(i, k);
    }
  }

  /** `z` does not follow `D`. */
  lemma NotAfterD()
    ensures !Follows(CIRCLE, "S", "D", "z")
  {
    hide WellFormed, Follows, FollowClosed, ClosedUnderRules, TerminalLists;
    CircleWellFormed();
    CircleFirst();
    CircleFollow();
    if Follows(CIRCLE, "S", "D", "z") {
      FollowComplete(CIRCLE, CIRCLE_FIRST, CIRCLE_FOLLOW, "S", "D", "z");
    }
  }

  // ----- The transitions that read each other -----

  /** The states around the circle: `r` after A, `p` after A C, and `u` after A C D, from where A leads to `r` again. */
  datatype Circle = Circle(r: nat, p: nat, u: nat)

  ghost predicate IsCircle(a: Automaton, c: Circle) {
    && 0 < |a.states| && c.r < |a.states| && c.p < |a.states| && c.u < |a.states|
    && Item(1, 0) in a.states[0] && Item(2, 0) in a.states[0] && Item(2, 1) in a.states[c.r]
    && Item(3, 0) in a.states[c.p] && Item(7, 0) in a.states[c.p] && Item(2, 0) in a.states[c.u]
    && (0, "A") in a.goto && a.goto[(0, "A")] == c.r && (c.r, "C") in a.goto && a.goto[(c.r, "C")] == c.p
    && (c.p, "D") in a.goto && a.goto[(c.p, "D")] == c.u && (c.u, "A") in a.goto && a.goto[(c.u, "A")] == c.r
  }

  lemma FindCircle(a: Automaton) returns (c: Circle)
    requires WellFormed(CIRCLE) && IsAutomaton(CIRCLE, a) && OneTarget(CIRCLE, a)
    ensures IsCircle(a, c)
  {
    hide IsAutomaton, OneTarget, WellFormed;
    var g := CIRCLE;
    StartThere(a);
    StatePredicts(g, a, 0, Item(0, 0), 1);
    StatePredicts(g, a, 0, Item(1, 0), 2);
    ItemMoves(g, a, 0, Item(2, 0), "A");
    var r := a.goto[(0, "A")];
    ItemMoves(g, a, r, Item(2, 1), "C");
    var p := a.goto[(r, "C")];
    StatePredicts(g, a, p, Item(2, 2), 3);
    StatePredicts(g, a, p, Item(3, 0), 7);
    ItemMoves(g, a, p, Item(3, 0), "D");
    var u := a.goto[(p, "D")];
    StatePredicts(g, a, u, Item(3, 1), 2);
    ItemMoves(g, a, u, Item(2, 0), "A");
    SameTarget(a, 0, u);
    c := Circle(r, p, u);
  }

  lemma StartThere(a: Automaton)
    requires IsAutomaton(CIRCLE, a)
    ensures 0 < |a.states| && Item(0, 0) in a.states[0]
  {
    hide EnteredFromBelow;
    ClosureHasKernel(CIRCLE, [Item(0, 0)], a.states[0], Item(0, 0));
  }

  lemma SameTarget(a: Automaton, s: nat, s': nat)
    requires WellFormed(CIRCLE) && IsAutomaton(CIRCLE, a) && OneTarget(CIRCLE, a) && s < |a.states| && s' < |a.states|
    requires (s, "A") in a.goto && (s', "A") in a.goto
    ensures a.goto[(s, "A")] == a.goto[(s', "A")]
  {
    hide IsAutomaton, Kernel;
    OnlyA(a, s);
    OnlyA(a, s');
  }

  /** Only one item can move over A. */
  lemma OnlyA(a: Automaton, s: nat)
    requires WellFormed(CIRCLE) && IsAutomaton(CIRCLE, a) && s < |a.states| && (s, "A") in a.goto
    ensures Kernel(CIRCLE, a.states[s], "A") == [Item(2, 1)]
  {
    hide EnteredFromBelow, IsClosure;
    var k := Kernel(CIRCLE, a.states[s], "A");
    StatesAreItemSets(CIRCLE, a, s);
    KernelDistinct(CIRCLE, a.states[s], "A");
    assert k != [];
    forall i | i in k ensures i == Item(2, 1) {
      BeforeA(Item(i.number, i.dot - 1));
    }
    OnlyOne(k, Item(2, 1));
  }

  lemma OnlyOne<T>(s: seq<T>, x: T)
    requires Distinct(s) && s != [] && forall y :: y in s ==> y == x
    ensures s == [x]
  {
    DistinctInSet(s, {x});
    assert s[0] in s;
  }

  lemma BeforeA(i: Item)
    requires DotBefore(CIRCLE, i, "A")
    ensures i == Item(2, 0)
  {
    if i.number == 0 {
    } else if i.number == 1 {
    } else if i.number == 2 {
    } else if i.number == 3 {
    }
  }

  /** A step of `reads`: an item of the target has its dot before a nonterminal that vanishes. */
  lemma ReadsOver(g: Grammar, a: Automaton, nullable: set<Symbol>, t: Trans, i: Item, x: Symbol)
    requires t in a.goto && a.goto[t] < |a.states| && i in a.states[a.goto[t]] && DotBefore(g, i, x) && x in nullable
    ensures (a.goto[t], x) in ReadsNext(g, a, nullable, t)
  {
  }

  lemma Vanishing(x: Symbol, i: nat)
    requires 4 <= i < 8 && x == CIRCLE.productions[i].name
    ensures Derives(CIRCLE, [x], []) && x in CIRCLE.nonterminals
  {
    assert IsRule(CIRCLE, CIRCLE.productions[i]);
    DerivesRule(CIRCLE, CIRCLE.productions[i]);
  }

  lemma VanishingNames(nullable: set<Symbol>)
    requires AreNullable(CIRCLE, nullable)
    ensures "A" in nullable && "C" in nullable && "D" in nullable && "G" in nullable && "z" !in nullable
    ensures "h" !in nullable
  {
    hide Derives;
    Vanishing("G", 4);
    Vanishing("A", 5);
    Vanishing("C", 6);
    Vanishing("D", 7);
  }

  lemma CircleTransitions(a: Automaton, c: Circle, trans: seq<Trans>)
    requires WellFormed(CIRCLE) && IsAutomaton(CIRCLE, a) && IsCircle(a, c) && AllTransitions(CIRCLE, a, trans)
    ensures (c.r, "C") in trans && (c.p, "D") in trans && (c.u, "A") in trans && (0, "B") in trans
  {
    hide IsAutomaton, WellFormed;
    ItemMoves(CIRCLE, a, 0, Item(1, 0), "B");
  }

  /** The transitions over C and D read each other. */
  lemma CircleReads(a: Automaton, c: Circle, nullable: set<Symbol>, trans: seq<Trans>)
    requires WellFormed(CIRCLE) && IsAutomaton(CIRCLE, a) && IsCircle(a, c)
    requires AllTransitions(CIRCLE, a, trans) && AreNullable(CIRCLE, nullable)
    ensures ReadTogether(CIRCLE, a, nullable, trans, (c.p, "D"), (c.r, "C"))
  {
    hide IsAutomaton, WellFormed, Reaches, ReadsNext, Direct, AreNullable;
    var g := CIRCLE;
    var graph := ReadGraph(g, a, nullable, trans);
    CircleTransitions(a, c, trans);
    VanishingNames(nullable);
    ReadsOver(g, a, nullable, (c.u, "A"), Item(2, 1), "C");
    ReadsOver(g, a, nullable, (c.r, "C"), Item(3, 0), "D");
    ReadsOver(g, a, nullable, (c.p, "D"), Item(2, 0), "A");
    ReachesSelf(graph, (c.r, "C"));
    ReachesSelf(graph, (c.p, "D"));
    ReachesStep(graph, (c.u, "A"), (c.r, "C"), (c.r, "C"));
    ReachesStep(graph, (c.p, "D"), (c.u, "A"), (c.r, "C"));
    ReachesStep(graph, (c.r, "C"), (c.p, "D"), (c.p, "D"));
  }

  // ----- What includes what -----

  lemma InProduction(x: Symbol, i: nat, k: nat)
    requires i < 8 && k < |CIRCLE.productions[i].prod| && CIRCLE.productions[i].prod[k] == x
    ensures x == "C" ==> i == 2 && k == 1
    ensures x == "A" ==> i == 2 && k == 0
    ensures x == "D" ==> i == 3 && k == 0
    ensures x == "B" ==> (i == 1 && k == 0) || (i == 3 && k == 1)
  {
    if i == 0 {
    } else if i == 1 {
    } else if i == 2 {
    } else if i == 3 {
    }
  }

  /**
   Behind D, and behind B, there is always something that does not vanish; A and C are in a production of B only.
   */
  lemma CircleIncludes(a: Automaton, nullable: set<Symbol>, y: Trans, z: Trans)
    requires AreNullable(CIRCLE, nullable) && Includes(CIRCLE, a, nullable, y, z)
    ensures y.1 != "D" && y.1 != "B" && (y.1 == "C" || y.1 == "A" ==> z.1 == "B")
  {
    hide Arrival, AreNullable;
    VanishingNames(nullable);
    var i, k :| IncludedAt(CIRCLE, a, nullable, y, z, i, k);
    InProduction(y.1, i.number, k);
    BehindStays(nullable);
  }

  lemma BehindStays(nullable: set<Symbol>)
    requires "z" !in nullable && "h" !in nullable
    ensures !AllNullable(nullable, CIRCLE.productions[3].prod[1..])
    ensures !AllNullable(nullable, CIRCLE.productions[3].prod[2..])
    ensures !AllNullable(nullable, CIRCLE.productions[1].prod[1..])
  {
    CircleRests();
    assert ["B", "h"][1] == "h" && ["h"][0] == "h" && ["z"][0] == "z";
  }

  /** A chain of `includes` ends at D and at B, and one from A or C ends at the next B. */
  lemma CircleChain(a: Automaton, nullable: set<Symbol>, trans: seq<Trans>, p: seq<Trans>, t: Trans, u: Trans)
    requires AreNullable(CIRCLE, nullable) && IncludeChain(CIRCLE, a, nullable, trans, p, t, u)
    ensures t.1 == "D" || t.1 == "B" ==> u == t
    ensures t.1 == "C" || t.1 == "A" ==> u == t || u.1 == "B"
  {
    hide Includes, AreNullable;
    if |p| > 1 {
      assert Includes(CIRCLE, a, nullable, p[0], p[0 + 1]);
      CircleIncludes(a, nullable, p[0], p[1]);
      if |p| > 2 {
        assert Includes(CIRCLE, a, nullable, p[1], p[1 + 1]);
        CircleIncludes(a, nullable, p[1], p[2]);
      }
    }
  }

  lemma CircleNoCycle(a: Automaton, nullable: set<Symbol>, trans: seq<Trans>, t: Trans)
    requires AreNullable(CIRCLE, nullable) && t in trans && (t.1 == "D" || t.1 == "C" || t.1 == "A")
    ensures OnNoCycle(CIRCLE, a, nullable, trans, t)
  {
    hide AreNullable, IncludeChain;
    forall u | IncludeEachOther(CIRCLE, a, nullable, trans, t, u) ensures u == t {
      var p, q :|
        IncludeChain(CIRCLE, a, nullable, trans, p, t, u) && IncludeChain(CIRCLE, a, nullable, trans, q, u, t);
      CircleChain(a, nullable, trans, p, t, u);
      CircleChain(a, nullable, trans, q, u, t);
    }
  }

  /** `z` follows the transition over C: it follows B at the start, which includes it. */
  lemma CircleFollowed(a: Automaton, c: Circle, nullable: set<Symbol>, trans: seq<Trans>)
    requires WellFormed(CIRCLE) && IsAutomaton(CIRCLE, a) && IsCircle(a, c)
    requires AllTransitions(CIRCLE, a, trans) && AreNullable(CIRCLE, nullable)
    ensures Followed(CIRCLE, a, nullable, trans, (c.r, "C"), "z")
  {
    hide IsAutomaton, WellFormed, Collected, AreNullable, Includes, ReadGraph;
    var g := CIRCLE;
    CircleTransitions(a, c, trans);
    VanishingNames(nullable);
    var y, z := (c.r, "C"), (0, "B");
    CircleIncluded(a, c, nullable);
    CircleRead(a, c, nullable, trans);
    assert IncludePath(g, a, nullable, trans, [y, z]);
    assert FollowedBy(g, a, nullable, trans, y, "z", [y, z]);
  }

  lemma CircleRead(a: Automaton, c: Circle, nullable: set<Symbol>, trans: seq<Trans>)
    requires WellFormed(CIRCLE) && IsAutomaton(CIRCLE, a) && IsCircle(a, c)
    ensures Collected(ReadGraph(CIRCLE, a, nullable, trans), (0, "B"), "z")
  {
    hide IsAutomaton, WellFormed, Collected, Reaches;
    var z: Trans := (0, "B");
    ItemMoves(CIRCLE, a, 0, Item(1, 0), "B");
    assert DotBefore(CIRCLE, Item(1, 1), "z") && Item(1, 1) in a.states[a.goto[z]];
    assert "z" in Direct(CIRCLE, a, z);
    ReachesSelf(ReadGraph(CIRCLE, a, nullable, trans), z);
    CollectedIn(ReadGraph(CIRCLE, a, nullable, trans), z, z, "z");
  }

  lemma CircleIncluded(a: Automaton, c: Circle, nullable: set<Symbol>)
    requires IsCircle(a, c) && "G" in nullable
    ensures Includes(CIRCLE, a, nullable, (c.r, "C"), (0, "B"))
  {
    var prod := CIRCLE.productions[2].prod;
    assert prod[0..1] == ["A"] && prod[2..] == ["G"];
    assert ["A"][1..] == [] && Arrival(a, c.r, []) == Some(c.r);
    assert Arrival(a, 0, prod[0..1]) == Some(c.r);
    assert IncludedAt(CIRCLE, a, nullable, (c.r, "C"), (0, "B"), Item(2, 0), 1);
  }

  /** The item that reduces nothing to D looks back at the transition over D. */
  lemma CircleLooksBack(a: Automaton, c: Circle)
    requires IsCircle(a, c)
    ensures LooksBack(CIRCLE, a, c.p, Item(7, 0), (c.p, "D"))
  {
    assert CIRCLE.productions[7].prod[0..] == [] && Arrival(a, c.p, []) == Some(c.p);
    assert LooksBackAt(CIRCLE, a, c.p, Item(7, 0), (c.p, "D"), Item(7, 0));
  }

  /** Whatever is attached from the lists of the transitions, `z` is a lookahead for reducing nothing to D. */
  lemma SharedLookahead(gen: Generator, nullable: set<Symbol>, trans: seq<Trans>, followsets: map<Trans, nat>,
                        contents: seq<seq<Symbol>>)
    returns (c: Circle)
    requires gen.g == CIRCLE && WellFormed(CIRCLE) && IsAutomaton(CIRCLE, gen.a) && OneTarget(CIRCLE, gen.a)
    requires AllTransitions(CIRCLE, gen.a, trans) && AreNullable(CIRCLE, nullable)
    requires FollowLists(CIRCLE, gen.a, nullable, trans, followsets, contents)
    requires gen.AttachedFrom(nullable, trans, followsets, contents)
    ensures LalrGenerator.Has(gen.lookaheads, (c.p, Item(7, 0)), "z")
  {
    hide IsAutomaton, OneTarget, WellFormed, AreNullable, AllTransitions, IsCircle, LooksBack, Followed, ReadTogether,
         OnNoCycle, ListAt;
    c := FindCircle(gen.a);
    CircleTransitions(gen.a, c, trans);
    CircleReads(gen.a, c, nullable, trans);
    CircleNoCycle(gen.a, nullable, trans, (c.p, "D"));
    CircleNoCycle(gen.a, nullable, trans, (c.r, "C"));
    CircleFollowed(gen.a, c, nullable, trans);
    CircleLooksBack(gen.a, c);
    assert "z" in ListAt(followsets, contents, (c.r, "C"));
    assert "z" in ListAt(followsets, contents, (c.p, "D"));
  }

  // ----- The exact condition -----

  /** Behind S, B and G there is nothing that vanishes. */
  lemma BehindSBG(i: Item)
    requires i.dot > 0 && IsItem(CIRCLE, i)
    requires DotBefore(CIRCLE, Item(i.number, i.dot - 1), "S") || DotBefore(CIRCLE, Item(i.number, i.dot - 1), "B")
             || DotBefore(CIRCLE, Item(i.number, i.dot - 1), "G")
    ensures forall x :: DotBefore(CIRCLE, i, x) ==> x == "z" || x == "h"
  {
    if i.number == 0 {
    } else if i.number == 1 {
    } else if i.number == 2 {
    } else if i.number == 3 {
    }
  }

  lemma NoProduction(i: Item)
    requires forall x :: DotBefore(CIRCLE, i, x) ==> x == "z" || x == "h"
    ensures forall q :: q !in After(CIRCLE, i)
  {
    hide DotBefore;
    forall q | q in After(CIRCLE, i) ensures false {
      NamesAfter(CIRCLE, i, q);
      NoName(q);
    }
  }

  lemma NamesAfter(g: Grammar, i: Item, q: nat)
    requires q in After(g, i)
    ensures 1 <= q < |g.productions| && DotBefore(g, i, g.productions[q].name)
  {
  }

  lemma NoName(q: nat)
    requires 1 <= q < |CIRCLE.productions|
    ensures CIRCLE.productions[q].name != "z" && CIRCLE.productions[q].name != "h"
  {
    if q == 1 {
    } else if q == 2 {
    } else if q <= 4 {
    } else if q == 5 {
    } else if q == 6 {
    }
  }

  /** The items that a closure over S, B or G has are those of its kernel. */
  lemma KernelOfSBG(items: seq<Item>, x: Symbol, closure: seq<Item>, i: Item)
    requires x == "S" || x == "B" || x == "G"
    requires IsClosure(CIRCLE, Kernel(CIRCLE, items, x), closure) && i in closure
    ensures i in Kernel(CIRCLE, items, x)
  {
    hide After, IsClosure, DotBefore;
    forall j, q | j in Kernel(CIRCLE, items, x) ensures q !in After(CIRCLE, j) {
      DotInside(CIRCLE, Item(j.number, j.dot - 1), x);
      BehindSBG(j);
      NoProduction(j);
    }
    NothingPredicted(Kernel(CIRCLE, items, x), closure, i);
  }

  lemma DotInside(g: Grammar, i: Item, x: Symbol)
    requires DotBefore(g, i, x)
    ensures IsItem(g, Item(i.number, i.dot + 1))
  {
  }

  /** Transitions over S, B and G read nothing. */
  lemma ReadsNothing(a: Automaton, nullable: set<Symbol>, t: Trans, u: Trans)
    requires WellFormed(CIRCLE) && IsAutomaton(CIRCLE, a) && AreNullable(CIRCLE, nullable)
    requires u in ReadsNext(CIRCLE, a, nullable, t)
    ensures t.1 != "S" && t.1 != "B" && t.1 != "G"
  {
    hide IsAutomaton, WellFormed, AreNullable, After, IsClosure, DotBefore, ReadsNext, IsItem;
    VanishingNames(nullable);
    AcrossReads(a, nullable, t, u);
    var i :| i in a.states[a.goto[t]] && DotBefore(CIRCLE, i, u.1);
    if t.1 == "S" || t.1 == "B" || t.1 == "G" {
      KernelOfSBG(a.states[t.0], t.1, a.states[a.goto[t]], i);
      DotInside(CIRCLE, Item(i.number, i.dot - 1), t.1);
      BehindSBG(i);
    }
  }

  lemma AcrossReads(a: Automaton, nullable: set<Symbol>, t: Trans, u: Trans)
    requires WellFormed(CIRCLE) && IsAutomaton(CIRCLE, a) && u in ReadsNext(CIRCLE, a, nullable, t)
    ensures t in a.goto && t.0 < |a.states| && a.goto[t] < |a.states| && u.1 in nullable
    ensures IsClosure(CIRCLE, Kernel(CIRCLE, a.states[t.0], t.1), a.states[a.goto[t]])
    ensures exists i :: i in a.states[a.goto[t]] && DotBefore(CIRCLE, i, u.1)
  {
    hide IsAutomaton, WellFormed, IsClosure, IsItemSet;
    ReadsTransition(CIRCLE, a, nullable, t, u);
    AcrossTransition(CIRCLE, a, t);
  }

  lemma NothingPredicted(kernel: seq<Item>, items: seq<Item>, i: Item)
    requires IsClosure(CIRCLE, kernel, items) && forall j, q :: j in kernel ==> q !in After(CIRCLE, j)
    requires i in items
    ensures i in kernel
  {
    hide After, Reaches;
    var qs :| ClosureBy(CIRCLE, kernel, items, qs);
    HeadsAreHeads(qs);
    assert i in Heads(qs) ==> Predicted(CIRCLE, kernel, i.number);
  }

  /** Lists are shared between transitions over A, C and D only. */
  lemma CircleSharers(a: Automaton, nullable: set<Symbol>, trans: seq<Trans>, t: Trans)
    requires WellFormed(CIRCLE) && IsAutomaton(CIRCLE, a) && AllTransitions(CIRCLE, a, trans)
    requires AreNullable(CIRCLE, nullable) && SharesList(CIRCLE, a, nullable, trans, t)
    ensures t in trans && (t.1 == "A" || t.1 == "C" || t.1 == "D")
  {
    hide IsAutomaton, WellFormed, AreNullable, ReadsNext;
    var graph := ReadGraph(CIRCLE, a, nullable, trans);
    var u :| u != t && ReadTogether(CIRCLE, a, nullable, trans, t, u);
    var p :| PathBetween(graph, p, t, u);
    assert |p| > 1 && p[0 + 1] in graph.related(p[0]);
    ReadsNothing(a, nullable, t, p[1]);
  }

  /**
   The grammar meets the conditions under which lookaheads are in FOLLOW if and only if what follows a transition is in
   FOLLOW of those that share its list; and `z`, which follows a transition over C, is not in FOLLOW of D.
   */
  lemma CircleFails(a: Automaton, nullable: set<Symbol>, trans: seq<Trans>, follow: FirstSets.Table)
    requires WellFormed(CIRCLE) && IsAutomaton(CIRCLE, a) && OneTarget(CIRCLE, a) && AllTransitions(CIRCLE, a, trans)
    requires AreNullable(CIRCLE, nullable) && !IsIn(follow, "D", "z")
    ensures SharersOnNoCycle(CIRCLE, a, nullable, trans) && SharersApart(CIRCLE, a, nullable, trans)
    ensures !ShareFollow(CIRCLE, a, nullable, trans, follow)
  {
    hide IsAutomaton, OneTarget, WellFormed, AreNullable, AllTransitions, IsCircle, Followed, ReadTogether, OnNoCycle,
         IncludeChain, SharesList;
    forall t | SharesList(CIRCLE, a, nullable, trans, t) ensures OnNoCycle(CIRCLE, a, nullable, trans, t) {
      CircleSharers(a, nullable, trans, t);
      CircleNoCycle(a, nullable, trans, t);
    }
    forall t, u, p | SharesList(CIRCLE, a, nullable, trans, t) && SharesList(CIRCLE, a, nullable, trans, u)
                     && IncludeChain(CIRCLE, a, nullable, trans, p, t, u)
      ensures ReadTogether(CIRCLE, a, nullable, trans, t, u)
    {
      CircleSharers(a, nullable, trans, t);
      CircleSharers(a, nullable, trans, u);
      CircleChain(a, nullable, trans, p, t, u);
      TogetherSelf(CIRCLE, a, nullable, trans, t);
    }
    var c := FindCircle(a);
    CircleTransitions(a, c, trans);
    CircleReads(a, c, nullable, trans);
    CircleFollowed(a, c, nullable, trans);
  }

  /**
   The generator's own run on this grammar: reducing nothing to D is allowed before `z`, which is not in the generator's
   FOLLOW list of D.
   */
  method LookaheadOutsideFollow(maxint: int) returns (gen: Generator, an: Analysis, ghost p: nat)
    requires (KernelBound(CIRCLE) + 1) * |LR0Store.SymbolSet(CIRCLE)| < maxint
    ensures gen.g == CIRCLE && an.g == CIRCLE && Name(CIRCLE, Item(7, 0)) == "D"
    ensures LalrGenerator.Has(gen.lookaheads, (p, Item(7, 0)), "z")
    ensures "D" in an.Follow && "z" !in an.Follow["D"]
  {
    hide *;
    CircleReady();
    an := new Analysis(CIRCLE);
    an.ComputeFirst();
    an.ComputeFollow();
    FollowFacts(an);
    var a := CollectStates(CIRCLE);
    gen := new Generator(CIRCLE, a);
    ghost var trans, nullable, followsets, contents;
    trans, nullable, followsets, contents := gen.AddLalrLookaheads(an, maxint);
    ghost var c := SharedLookahead(gen, nullable, trans, followsets, contents);
    p := c.p;
    NotAfterD();
  }

  lemma FollowFacts(an: Analysis)
    requires an.FirstDone() && |an.g.productions| > 1 && an.FollowSound()
    ensures an.FollowStart() == an.g.productions[1].name && forall x :: x in an.g.nonterminals ==> x in an.Follow
  {
  }

  lemma CircleReady()
    ensures WellFormed(CIRCLE) && |CIRCLE.productions| > 1 && END !in CIRCLE.terminals
    ensures Name(CIRCLE, Item(7, 0)) == "D" && "D" in CIRCLE.nonterminals && CIRCLE.productions[1].name == "S"
    ensures forall n :: n in CIRCLE.nonterminals ==> ProdsOf(CIRCLE, n, |CIRCLE.productions|) != []
  {
    hide ProdsOf, WellFormed;
    CircleWellFormed();
    forall n | n in CIRCLE.nonterminals ensures ProdsOf(CIRCLE, n, |CIRCLE.productions|) != [] {
      var i := CircleDefines(n);
      HasProduction(CIRCLE, i);
    }
  }

  lemma CircleDefines(n: Symbol) returns (i: nat)
    requires n in CIRCLE.nonterminals
    ensures 1 <= i < |CIRCLE.productions| && CIRCLE.productions[i].name == n
  {
    i := if n == "S" then 1 else if n == "B" then 2 else if n == "G" then 3
         else if n == "A" then 5 else if n == "C" then 6 else 7;
  }

  lemma HasProduction(g: Grammar, i: nat)
    requires 1 <= i < |g.productions|
    ensures ProdsOf(g, g.productions[i].name, |g.productions|) != []
  {
    hide ProdsOf;
    assert g.productions[i] in ProdsOf(g, g.productions[i].name, |g.productions|);
  }
}
