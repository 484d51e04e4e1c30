/** The computation of the LALR lookaheads. */
module LalrGenerator {
  import opened Wrappers
  import opened Grammars
  import opened FirstSets
  import opened FollowSets
  import opened LR0Items
  import opened LR0Paths
  import opened LalrRelations
  import opened GrammarAnalysis
  import opened Digraph

  /** `trans` has every transition over a nonterminal. */
  ghost predicate AllTransitions(g: Grammar, a: Automaton, trans: seq<Trans>) {
    forall t :: t in trans <==> t in a.goto && t.1 in g.nonterminals
  }

  function ListAt(lists: map<Trans, nat>, contents: seq<seq<Symbol>>, t: Trans): seq<Symbol> {
    if t in lists && lists[t] < |contents| then contents[lists[t]] else []
  }

  /** No list of lookaheads names a symbol twice. */
  ghost predicate NamedOnce(la: map<(nat, Item), seq<Symbol>>) {
    forall key :: key in la ==> Distinct(la[key])
  }

  function IncludeGraph(trans: seq<Trans>, readsets: map<Trans, nat>, contents: seq<seq<Symbol>>,
                        included: map<Trans, seq<Trans>>): Graph<Trans, Symbol>
  {
    Graph<Trans, Symbol>.Graph(trans,
                               t => if t in included then included[t] else [],
                               t => ListAt(readsets, contents, t))
  }

  // ----- What the lookaheads are -----

  ghost predicate IncludePath(g: Grammar, a: Automaton, nullable: set<Symbol>, trans: seq<Trans>, p: seq<Trans>) {
    && p != [] && (forall i :: 0 <= i < |p| ==> p[i] in trans)
    && forall i :: 0 <= i < |p| - 1 ==> Includes(g, a, nullable, p[i], p[i + 1])
  }

  /** What the read sets give a transition through chains of `includes`. */
  ghost predicate Followed(g: Grammar, a: Automaton, nullable: set<Symbol>, trans: seq<Trans>, t: Trans, x: Symbol)
    requires WellFormed(g)
  {
    exists p :: FollowedBy(g, a, nullable, trans, t, x, p)
  }

  ghost predicate FollowedBy(g: Grammar, a: Automaton, nullable: set<Symbol>, trans: seq<Trans>, t: Trans, x: Symbol,
                             p: seq<Trans>)
    requires WellFormed(g)
  {
    IncludePath(g, a, nullable, trans, p) && p[0] == t && Collected(ReadGraph(g, a, nullable, trans), p[|p| - 1], x)
  }

  /** `x` is a lookahead of item `r` in state `j`. */
  ghost predicate IsLookahead(g: Grammar, a: Automaton, nullable: set<Symbol>, trans: seq<Trans>, j: nat, r: Item,
                              x: Symbol)
    requires WellFormed(g)
  {
    exists z :: z in trans && LooksBack(g, a, j, r, z) && Followed(g, a, nullable, trans, z, x)
  }

  // ----- Transitions that share a list -----

  /** Two transitions that read each other: `digraph` gives them one list as their read set. */
  ghost predicate ReadTogether(g: Grammar, a: Automaton, nullable: set<Symbol>, trans: seq<Trans>, t: Trans, u: Trans)
    requires WellFormed(g)
  {
    t in trans && u in trans && Mutual(ReadGraph(g, a, nullable, trans), t, u)
  }

  /** Sharing is harmless: transitions that share a list are followed by the same symbols. */
  ghost predicate SharedAlike(g: Grammar, a: Automaton, nullable: set<Symbol>, trans: seq<Trans>)
    requires WellFormed(g)
  {
    forall t, u, x :: ReadTogether(g, a, nullable, trans, t, u) && Followed(g, a, nullable, trans, u, x) ==>
      Followed(g, a, nullable, trans, t, x)
  }

  /** No two transitions read each other. */
  ghost predicate NoneShared(g: Grammar, a: Automaton, nullable: set<Symbol>, trans: seq<Trans>)
    requires WellFormed(g)
  {
    forall t, u :: ReadTogether(g, a, nullable, trans, t, u) ==> t == u
  }

  /** Sharing is harmless in the automaton, whose nullable nonterminals and transitions over nonterminals these are. */
  ghost predicate Alike(g: Grammar, a: Automaton)
    requires WellFormed(g)
  {
    forall nullable, trans :: AllTransitions(g, a, trans) && AreNullable(g, nullable) ==>
      SharedAlike(g, a, nullable, trans)
  }

  ghost predicate AreNullable(g: Grammar, nullable: set<Symbol>) {
    forall x :: x in nullable <==> x in g.nonterminals && Derives(g, [x], [])
  }

  /** Without cycles in `reads`, nothing is shared. */
  lemma NoneSharedAlike(g: Grammar, a: Automaton, nullable: set<Symbol>, trans: seq<Trans>)
    requires WellFormed(g) && NoneShared(g, a, nullable, trans)
    ensures SharedAlike(g, a, nullable, trans)
  {
  }

  /** `u` and `t` are on a cycle of `includes`. */
  ghost predicate IncludeEachOther(g: Grammar, a: Automaton, nullable: set<Symbol>, trans: seq<Trans>, t: Trans,
                                   u: Trans) {
    exists p, q :: IncludeChain(g, a, nullable, trans, p, t, u) && IncludeChain(g, a, nullable, trans, q, u, t)
  }

  ghost predicate IncludeChain(g: Grammar, a: Automaton, nullable: set<Symbol>, trans: seq<Trans>, p: seq<Trans>,
                               t: Trans, u: Trans) {
    IncludePath(g, a, nullable, trans, p) && p[0] == t && p[|p| - 1] == u
  }

  ghost predicate OnNoCycle(g: Grammar, a: Automaton, nullable: set<Symbol>, trans: seq<Trans>, t: Trans) {
    t in trans && forall u :: IncludeEachOther(g, a, nullable, trans, t, u) ==> u == t
  }

  /** A chain of `includes` and of steps between transitions that share a list. */
  ghost predicate SharedPath(g: Grammar, a: Automaton, nullable: set<Symbol>, trans: seq<Trans>, p: seq<Trans>)
    requires WellFormed(g)
  {
    && p != [] && (forall i :: 0 <= i < |p| ==> p[i] in trans)
    && forall i :: 0 <= i < |p| - 1 ==>
         Includes(g, a, nullable, p[i], p[i + 1]) || ReadTogether(g, a, nullable, trans, p[i], p[i + 1])
  }

  ghost predicate FollowedShared(g: Grammar, a: Automaton, nullable: set<Symbol>, trans: seq<Trans>, t: Trans,
                                 x: Symbol)
    requires WellFormed(g)
  {
    exists p :: && SharedPath(g, a, nullable, trans, p) && p[0] == t
                && Collected(ReadGraph(g, a, nullable, trans), p[|p| - 1], x)
  }

  /** What the computation promises of the lists of the transitions. */
  ghost predicate FollowLists(g: Grammar, a: Automaton, nullable: set<Symbol>, trans: seq<Trans>,
                              followsets: map<Trans, nat>, contents: seq<seq<Symbol>>)
    requires WellFormed(g)
  {
    && followsets.Keys == (set t | t in trans)
    && (forall t, x :: t in trans && Followed(g, a, nullable, trans, t, x) ==> x in ListAt(followsets, contents, t))
    && (forall t, x :: t in trans && x in ListAt(followsets, contents, t) ==>
          FollowedShared(g, a, nullable, trans, t, x))
    && (SharedAlike(g, a, nullable, trans) ==>
          forall t, x :: t in trans && x in ListAt(followsets, contents, t) ==> Followed(g, a, nullable, trans, t, x))
    && forall t, u :: ReadTogether(g, a, nullable, trans, t, u)
                      && OnNoCycle(g, a, nullable, trans, t) && OnNoCycle(g, a, nullable, trans, u) ==>
         ListAt(followsets, contents, t) == ListAt(followsets, contents, u)
  }

  /**
   Where the transitions that share a list are on no cycle of `includes`, the lists are exact for all transitions if and
   only if those that share one are followed by the same symbols.
   */
  lemma ListsExactly(g: Grammar, a: Automaton, nullable: set<Symbol>, trans: seq<Trans>, followsets: map<Trans, nat>,
                     contents: seq<seq<Symbol>>)
    requires WellFormed(g) && FollowLists(g, a, nullable, trans, followsets, contents)
    requires forall t, u :: ReadTogether(g, a, nullable, trans, t, u) && t != u ==> OnNoCycle(g, a, nullable, trans, t)
    ensures SharedAlike(g, a, nullable, trans) <==>
            forall t, x :: t in trans ==>
              (x in ListAt(followsets, contents, t) <==> Followed(g, a, nullable, trans, t, x))
  {
    hide OnNoCycle, Followed, FollowedShared, ListAt;
    if forall t, x :: t in trans ==> (x in ListAt(followsets, contents, t) <==> Followed(g, a, nullable, trans, t, x)) {
      forall t, u, x | ReadTogether(g, a, nullable, trans, t, u) && Followed(g, a, nullable, trans, u, x)
        ensures Followed(g, a, nullable, trans, t, x)
      {
        assert ReadTogether(g, a, nullable, trans, u, t);
        assert x in ListAt(followsets, contents, u);
      }
    }
  }

  /** What a transition is followed by is in FOLLOW of its nonterminal. */
  lemma {:induction false} FollowedInFollow(g: Grammar, a: Automaton, first: Table, follow: Table,
                                            nullable: set<Symbol>, trans: seq<Trans>, t: Trans, x: Symbol,
                                            p: seq<Trans>)
    requires Context(g, a, first, follow, nullable) && StartEnds(g, follow) && AllTransitions(g, a, trans)
    requires FollowedBy(g, a, nullable, trans, t, x, p)
    ensures t.1 in follow && x in follow[t.1]
    decreases |p|
  {
    hide IsAutomaton, FollowClosed, FirstReady, Includes;
    assert p[0] in trans;
    if |p| == 1 {
      ReadInFollow(g, a, first, follow, nullable, trans, t, x);
    } else {
      assert p[1] in trans && Includes(g, a, nullable, p[0], p[1]);
      FollowedTail(g, a, nullable, trans, t, x, p);
      FollowedInFollow(g, a, first, follow, nullable, trans, p[1], x, p[1..]);
      IncludesFollow(g, a, first, follow, nullable, p[0], p[1]);
    }
  }

  lemma FollowedTail(g: Grammar, a: Automaton, nullable: set<Symbol>, trans: seq<Trans>, t: Trans, x: Symbol,
                     p: seq<Trans>)
    requires WellFormed(g) && FollowedBy(g, a, nullable, trans, t, x, p) && |p| > 1
    ensures FollowedBy(g, a, nullable, trans, p[1], x, p[1..])
  {
    forall i | 0 <= i < |p[1..]| - 1 ensures Includes(g, a, nullable, p[1..][i], p[1..][i + 1]) {
      assert Includes(g, a, nullable, p[i + 1], p[i + 2]);
    }
  }

  /** Every lookahead of an item is in FOLLOW of the item's name. */
  lemma LookaheadInFollow(g: Grammar, a: Automaton, first: Table, follow: Table, nullable: set<Symbol>,
                          trans: seq<Trans>, j: nat, r: Item, x: Symbol)
    requires Context(g, a, first, follow, nullable) && StartEnds(g, follow) && AllTransitions(g, a, trans)
    requires IsLookahead(g, a, nullable, trans, j, r, x)
    ensures IsItem(g, r) && Name(g, r) in follow && x in follow[Name(g, r)]
  {
    hide IsAutomaton, FollowClosed, FirstReady, Arrival, Dotted;
    var z :| z in trans && LooksBack(g, a, j, r, z) && Followed(g, a, nullable, trans, z, x);
    var i :| LooksBackAt(g, a, j, r, z, i);
    var p :| FollowedBy(g, a, nullable, trans, z, x, p);
    FollowedInFollow(g, a, first, follow, nullable, trans, z, x, p);
  }

  // ----- Walking along productions -----

  lemma {:induction false} ArrivalStep(a: Automaton, s: nat, xs: seq<Symbol>, x: Symbol)
    ensures Arrival(a, s, xs + [x]) ==
            if Arrival(a, s, xs).Some? && (Arrival(a, s, xs).value, x) in a.goto
            then Some(a.goto[(Arrival(a, s, xs).value, x)]) else None
    decreases |xs|
  {
    if xs == [] {
      assert [] + [x] == [x] && [x][1..] == [];
    } else {
      assert (xs + [x])[1..] == xs[1..] + [x];
      if (s, xs[0]) in a.goto {
        ArrivalStep(a, a.goto[(s, xs[0])], xs[1..], x);
      }
    }
  }

  /** An item can move: there is a transition, and the moved item is in its target. */
  lemma ItemMoves(g: Grammar, a: Automaton, s: nat, i: Item, x: Symbol)
    requires WellFormed(g) && IsAutomaton(g, a) && s < |a.states| && i in a.states[s] && DotBefore(g, i, x)
    ensures (s, x) in a.goto && a.goto[(s, x)] < |a.states|
    ensures Item(i.number, i.dot + 1) in a.states[a.goto[(s, x)]]
  {
    hide IsClosure, IsAutomaton, EnteredFromBelow;
    var moved := Item(i.number, i.dot + 1);
    assert moved in Kernel(g, a.states[s], x);
    HasTransition(g, a, s, x);
    AcrossTransition(g, a, (s, x));
    ClosureHasKernel(g, Kernel(g, a.states[s], x), a.states[a.goto[(s, x)]], moved);
  }

  lemma ClosureHasKernel(g: Grammar, kernel: seq<Item>, items: seq<Item>, i: Item)
    requires IsClosure(g, kernel, items) && i in kernel
    ensures i in items
  {
  }

  lemma {:induction false} ItemWalks(g: Grammar, a: Automaton, s: nat, i: Item, k: nat)
    requires WellFormed(g) && IsAutomaton(g, a) && s < |a.states| && i in a.states[s]
    requires IsItem(g, i) && i.dot <= k <= |g.productions[i.number].prod|
    ensures (var j := Arrival(a, s, g.productions[i.number].prod[i.dot..k]);
      j.Some? && j.value < |a.states| && Item(i.number, k) in a.states[j.value])
    decreases k
  {
    hide IsAutomaton;
    var prod := g.productions[i.number].prod;
    if k > i.dot {
      ItemWalks(g, a, s, i, k - 1);
      var j := Arrival(a, s, prod[i.dot..k - 1]).value;
      assert prod[i.dot..k] == prod[i.dot..k - 1] + [prod[k - 1]];
      ItemMoves(g, a, j, Item(i.number, k - 1), prod[k - 1]);
      ArrivalStep(a, s, prod[i.dot..k - 1], prod[k - 1]);
    }
  }

  /**
   An item is in a state because some state has it with the dot in front, and the symbols before the dot lead from
   there.
   */
  lemma {:induction false} ItemCameFrom(g: Grammar, a: Automaton, s: nat, i: Item) returns (s0: nat)
    requires WellFormed(g) && IsAutomaton(g, a) && s < |a.states| && i in a.states[s]
    ensures IsItem(g, i) && s0 < |a.states| && Item(i.number, 0) in a.states[s0]
    ensures Arrival(a, s0, g.productions[i.number].prod[..i.dot]) == Some(s)
    decreases i.dot
  {
    hide IsAutomaton, WellFormed;
    StatesAreItemSets(g, a, s);
    if i.dot == 0 {
      s0 := s;
    } else {
      var s', x := ItemEntered(g, a, s, i);
      var before := Item(i.number, i.dot - 1);
      s0 := ItemCameFrom(g, a, s', before);
      var prod := g.productions[i.number].prod;
      assert prod[..i.dot] == prod[..i.dot - 1] + [x];
      ArrivalStep(a, s0, prod[..i.dot - 1], x);
    }
  }

  lemma ItemEntered(g: Grammar, a: Automaton, s: nat, i: Item) returns (s': nat, x: Symbol)
    requires WellFormed(g) && IsAutomaton(g, a) && s < |a.states| && i in a.states[s] && i.dot > 0
    ensures s' < |a.states| && s' < s && (s', x) in a.goto && a.goto[(s', x)] == s
    ensures Item(i.number, i.dot - 1) in a.states[s'] && DotBefore(g, Item(i.number, i.dot - 1), x)
  {
    hide IsClosure, IsItemSet;
    if s == 0 {
      ClosureIsItemSet(g, [Item(0, 0)], a.states[0]) by { StartIsItemSet(g); }
    }
    assert EnteredFromBelow(a, s);
    s', x :| s' < s && (s', x) in a.goto && a.goto[(s', x)] == s;
    AcrossTransition(g, a, (s', x));
    StatesAreItemSets(g, a, s');
    ClosureIsItemSet(g, Kernel(g, a.states[s'], x), a.states[s]);
  }

  lemma StartIsItemSet(g: Grammar)
    requires WellFormed(g)
    ensures IsItemSet(g, [Item(0, 0)])
  {
  }

  /** A complete item of a state looks back at a transition over its name. */
  lemma CompleteLooksBack(g: Grammar, a: Automaton, s: nat, q: nat) returns (z: Trans)
    requires WellFormed(g) && IsAutomaton(g, a) && s < |a.states|
    requires 0 < q < |g.productions| && Item(q, |g.productions[q].prod|) in a.states[s]
    ensures LooksBack(g, a, s, Item(q, |g.productions[q].prod|), z) && z in a.goto && z.1 in g.nonterminals
  {
    hide IsAutomaton, Arrival;
    var r := Item(q, |g.productions[q].prod|);
    var s0 := ItemCameFrom(g, a, s, r);
    GotoDefined(g, a, s0, q);
    z := (s0, g.productions[q].name);
    assert IsRule(g, g.productions[q]);
    var prod := g.productions[q].prod;
    assert prod[..r.dot] == prod && prod[0..] == prod;
    assert Dotted(g, r) == prod + ["."] && Dotted(g, Item(q, 0)) == ["."] + prod;
    assert LooksBackAt(g, a, s, r, z, Item(q, 0));
  }

  /** The end of the input is a lookahead of the start symbol's productions, where these end. */
  lemma StartLookahead(g: Grammar, a: Automaton, nullable: set<Symbol>, trans: seq<Trans>, q: nat) returns (j: nat)
    requires WellFormed(g) && IsAutomaton(g, a) && AllTransitions(g, a, trans)
    requires 0 < q < |g.productions| && g.productions[q].name == StartSymbol(g)
    ensures IsLookahead(g, a, nullable, trans, j, Item(q, |g.productions[q].prod|), END)
  {
    hide IsAutomaton, Arrival;
    var t, i := (0, StartSymbol(g)), Item(q, 0);
    var prod := g.productions[q].prod;
    StartPredicts(g, a, q);
    GotoDefined(g, a, 0, q);
    ItemWalks(g, a, 0, i, |prod|);
    j := Arrival(a, 0, prod[0..|prod|]).value;
    assert prod[0..|prod|] == prod && prod[0..] == prod;
    var r := Item(q, |prod|);
    assert Dotted(g, r) == prod + ["."] && Dotted(g, i) == ["."] + prod;
    assert LooksBackAt(g, a, j, r, t, i);
    ReachesSelf(ReadGraph(g, a, nullable, trans), t);
    assert END in Direct(g, a, t);
    assert FollowedBy(g, a, nullable, trans, t, END, [t]);
  }

  lemma StartPredicts(g: Grammar, a: Automaton, q: nat)
    requires WellFormed(g) && IsAutomaton(g, a) && 0 < q < |g.productions| && g.productions[q].name == StartSymbol(g)
    ensures |a.states| > 0 && Item(q, 0) in a.states[0]
  {
    hide EnteredFromBelow, Kernel;
    var kernel := [Item(0, 0)];
    var qs :| ClosureBy(g, kernel, a.states[0], qs);
    assert q in After(g, Item(0, 0));
    PredictedDirectly(g, kernel, Item(0, 0), q);
  }

  ghost predicate LookaheadsInFollow(g: Grammar, a: Automaton, follow: Table, nullable: set<Symbol>, trans: seq<Trans>)
    requires WellFormed(g)
  {
    forall j, r, x :: IsLookahead(g, a, nullable, trans, j, r, x) ==>
      IsItem(g, r) && Name(g, r) in follow && x in follow[Name(g, r)]
  }

  /**
   The lookaheads of the items are in FOLLOW of the items' names, for all items, exactly when FOLLOW of the start
   symbol has the end of the input. It has when the start symbol is that of production 1, where the computation of
   FOLLOW puts the end of the input.
   */
  lemma LookaheadsBounded(g: Grammar, a: Automaton, first: Table, follow: Table, nullable: set<Symbol>,
                          trans: seq<Trans>)
    requires Context(g, a, first, follow, nullable) && AllTransitions(g, a, trans)
    requires exists q :: 0 < q < |g.productions| && g.productions[q].name == StartSymbol(g)
    ensures LookaheadsInFollow(g, a, follow, nullable, trans) <==> StartEnds(g, follow)
    ensures g.productions[1].name == StartSymbol(g) ==> StartEnds(g, follow)
  {
    hide IsAutomaton, FirstReady, IsLookahead;
    if StartEnds(g, follow) {
      forall j, r, x | IsLookahead(g, a, nullable, trans, j, r, x)
        ensures IsItem(g, r) && Name(g, r) in follow && x in follow[Name(g, r)]
      {
        LookaheadInFollow(g, a, first, follow, nullable, trans, j, r, x);
      }
    }
    if LookaheadsInFollow(g, a, follow, nullable, trans) {
      var q :| 0 < q < |g.productions| && g.productions[q].name == StartSymbol(g);
      var j := StartLookahead(g, a, nullable, trans, q);
    }
  }

  // ----- When shared lists stay in FOLLOW -----

  /** Another transition has the same list. */
  ghost predicate SharesList(g: Grammar, a: Automaton, nullable: set<Symbol>, trans: seq<Trans>, t: Trans)
    requires WellFormed(g)
  {
    exists u :: u != t && ReadTogether(g, a, nullable, trans, t, u)
  }

  /** Along `includes`, a transition that shares a list meets only such sharers as share its own list. */
  ghost predicate SharersApart(g: Grammar, a: Automaton, nullable: set<Symbol>, trans: seq<Trans>)
    requires WellFormed(g)
  {
    forall t, u, p :: && SharesList(g, a, nullable, trans, t) && SharesList(g, a, nullable, trans, u)
                      && IncludeChain(g, a, nullable, trans, p, t, u) ==>
      ReadTogether(g, a, nullable, trans, t, u)
  }

  ghost predicate SharersOnNoCycle(g: Grammar, a: Automaton, nullable: set<Symbol>, trans: seq<Trans>)
    requires WellFormed(g)
  {
    forall t :: SharesList(g, a, nullable, trans, t) ==> OnNoCycle(g, a, nullable, trans, t)
  }

  predicate IsIn(follow: Table, c: Symbol, x: Symbol) { c in follow && x in follow[c] }

  /** What follows a transition is in FOLLOW of the transitions that share its list. */
  ghost predicate ShareFollow(g: Grammar, a: Automaton, nullable: set<Symbol>, trans: seq<Trans>, follow: Table)
    requires WellFormed(g)
  {
    forall t, u, x :: ReadTogether(g, a, nullable, trans, t, u) && Followed(g, a, nullable, trans, u, x) ==>
      IsIn(follow, t.1, x)
  }

  /** All that sharing can add is in FOLLOW. */
  ghost predicate SharedInFollow(g: Grammar, a: Automaton, nullable: set<Symbol>, trans: seq<Trans>, follow: Table)
    requires WellFormed(g)
  {
    forall t, x :: FollowedShared(g, a, nullable, trans, t, x) ==> IsIn(follow, t.1, x)
  }

  ghost predicate ListsInFollow(trans: seq<Trans>, followsets: map<Trans, nat>, contents: seq<seq<Symbol>>,
                                follow: Table) {
    forall t, x :: t in trans && x in ListAt(followsets, contents, t) ==> IsIn(follow, t.1, x)
  }

  lemma TogetherTransitive(g: Grammar, a: Automaton, nullable: set<Symbol>, trans: seq<Trans>, t: Trans, u: Trans,
                           v: Trans)
    requires WellFormed(g)
    requires ReadTogether(g, a, nullable, trans, t, u) && ReadTogether(g, a, nullable, trans, u, v)
    ensures ReadTogether(g, a, nullable, trans, t, v)
  {
    hide Reaches;
    var graph := ReadGraph(g, a, nullable, trans);
    ReachesTransitive(graph, t, u, v);
    ReachesTransitive(graph, v, u, t);
  }

  lemma TogetherSelf(g: Grammar, a: Automaton, nullable: set<Symbol>, trans: seq<Trans>, t: Trans)
    requires WellFormed(g) && t in trans
    ensures ReadTogether(g, a, nullable, trans, t, t) && IncludeChain(g, a, nullable, trans, [t], t, t)
  {
    ReachesSelf(ReadGraph(g, a, nullable, trans), t);
  }

  lemma BothShare(g: Grammar, a: Automaton, nullable: set<Symbol>, trans: seq<Trans>, t: Trans, u: Trans)
    requires WellFormed(g) && ReadTogether(g, a, nullable, trans, t, u)
    ensures t in trans && u in trans && ReadTogether(g, a, nullable, trans, u, t)
    ensures t != u ==> SharesList(g, a, nullable, trans, t) && SharesList(g, a, nullable, trans, u)
  {
    hide Reaches;
    assert ReadTogether(g, a, nullable, trans, u, t);
  }

  lemma ChainMore(g: Grammar, a: Automaton, nullable: set<Symbol>, trans: seq<Trans>, t: Trans, p: seq<Trans>, u: Trans,
                  v: Trans)
    requires t in trans && Includes(g, a, nullable, t, u) && IncludeChain(g, a, nullable, trans, p, u, v)
    ensures IncludeChain(g, a, nullable, trans, [t] + p, t, v)
  {
    var q := [t] + p;
    forall i | 0 <= i < |q| - 1 ensures Includes(g, a, nullable, q[i], q[i + 1]) {
      if i > 0 {
        assert Includes(g, a, nullable, p[i - 1], p[i - 1 + 1]);
      }
    }
  }

  /** What follows the end of a chain follows its beginning. */
  lemma FollowedAlong(g: Grammar, a: Automaton, nullable: set<Symbol>, trans: seq<Trans>, p: seq<Trans>, t: Trans,
                      u: Trans, x: Symbol)
    requires WellFormed(g) && IncludeChain(g, a, nullable, trans, p, t, u) && Followed(g, a, nullable, trans, u, x)
    ensures Followed(g, a, nullable, trans, t, x)
  {
    hide Includes, Collected;
    var q :| FollowedBy(g, a, nullable, trans, u, x, q);
    var r := p + q[1..];
    forall i | 0 <= i < |r| - 1 ensures Includes(g, a, nullable, r[i], r[i + 1]) {
      if i < |p| - 1 {
        assert Includes(g, a, nullable, p[i], p[i + 1]);
      } else {
        var m := i - (|p| - 1);
        assert Includes(g, a, nullable, q[m], q[m + 1]);
      }
    }
    assert FollowedBy(g, a, nullable, trans, t, x, r);
  }

  /** A way to a symbol: a chain of `includes` to `s`, which shares its list with `u`, which is followed by it. */
  datatype Way = Way(chain: seq<Trans>, s: Trans, u: Trans)

  ghost predicate IsWay(g: Grammar, a: Automaton, nullable: set<Symbol>, trans: seq<Trans>, t: Trans, x: Symbol, w: Way)
    requires WellFormed(g)
  {
    && IncludeChain(g, a, nullable, trans, w.chain, t, w.s) && ReadTogether(g, a, nullable, trans, w.s, w.u)
    && Followed(g, a, nullable, trans, w.u, x)
  }

  /** Where sharers are apart, a path over shared lists makes one step of sharing that counts. */
  lemma {:induction false} OneSharing(g: Grammar, a: Automaton, nullable: set<Symbol>, trans: seq<Trans>, p: seq<Trans>,
                                      x: Symbol)
    returns (w: Way)
    requires WellFormed(g) && SharersApart(g, a, nullable, trans) && SharedPath(g, a, nullable, trans, p)
    requires Collected(ReadGraph(g, a, nullable, trans), p[|p| - 1], x)
    ensures IsWay(g, a, nullable, trans, p[0], x, w)
    decreases |p|
  {
    hide Includes, Collected, ReadTogether, SharersApart, Followed, IncludeChain;
    var t := p[0];
    TogetherSelf(g, a, nullable, trans, t);
    if |p| == 1 {
      FollowedRead(g, a, nullable, trans, t, x);
      w := Way([t], t, t);
    } else {
      SharedRest(g, a, nullable, trans, p);
      var w' := OneSharing(g, a, nullable, trans, p[1..], x);
      if Includes(g, a, nullable, t, p[1]) {
        ChainMore(g, a, nullable, trans, t, w'.chain, p[1], w'.s);
        w := Way([t] + w'.chain, w'.s, w'.u);
      } else {
        w := SharingStep(g, a, nullable, trans, t, p[1], x, w');
      }
    }
  }

  lemma SharedRest(g: Grammar, a: Automaton, nullable: set<Symbol>, trans: seq<Trans>, p: seq<Trans>)
    requires WellFormed(g) && SharedPath(g, a, nullable, trans, p) && |p| > 1
    ensures SharedPath(g, a, nullable, trans, p[1..])
    ensures Includes(g, a, nullable, p[0], p[1]) || ReadTogether(g, a, nullable, trans, p[0], p[1])
  {
    hide Includes, ReadTogether;
    forall i | 0 <= i < |p[1..]| - 1
      ensures Includes(g, a, nullable, p[1..][i], p[1..][i + 1])
              || ReadTogether(g, a, nullable, trans, p[1..][i], p[1..][i + 1])
    {
      assert Includes(g, a, nullable, p[i + 1], p[i + 1 + 1])
          || ReadTogether(g, a, nullable, trans, p[i + 1], p[i + 1 + 1]);
    }
    assert Includes(g, a, nullable, p[0], p[0 + 1]) || ReadTogether(g, a, nullable, trans, p[0], p[0 + 1]);
  }

  lemma FollowedRead(g: Grammar, a: Automaton, nullable: set<Symbol>, trans: seq<Trans>, t: Trans, x: Symbol)
    requires WellFormed(g) && t in trans && Collected(ReadGraph(g, a, nullable, trans), t, x)
    ensures Followed(g, a, nullable, trans, t, x)
  {
    hide Collected;
    assert FollowedBy(g, a, nullable, trans, t, x, [t]);
  }

  /** A step of sharing before a way. */
  lemma SharingStep(g: Grammar, a: Automaton, nullable: set<Symbol>, trans: seq<Trans>, t: Trans, t1: Trans, x: Symbol,
                    w: Way)
    returns (r: Way)
    requires WellFormed(g) && SharersApart(g, a, nullable, trans) && t in trans
    requires ReadTogether(g, a, nullable, trans, t, t1) && IsWay(g, a, nullable, trans, t1, x, w)
    ensures IsWay(g, a, nullable, trans, t, x, r)
  {
    hide Includes, Followed, IncludeChain;
    TogetherSelf(g, a, nullable, trans, t);
    if t == t1 {
      r := w;
    } else if w.s == w.u {
      FollowedAlong(g, a, nullable, trans, w.chain, t1, w.s, x);
      r := Way([t], t, t1);
    } else {
      assert ReadTogether(g, a, nullable, trans, t1, t);
      assert ReadTogether(g, a, nullable, trans, t1, w.s);
      TogetherTransitive(g, a, nullable, trans, t, t1, w.s);
      TogetherTransitive(g, a, nullable, trans, t, w.s, w.u);
      r := Way([t], t, w.u);
    }
  }

  /** FOLLOW passes along a chain of `includes`. */
  lemma {:induction false} ChainFollow(g: Grammar, a: Automaton, first: Table, follow: Table, nullable: set<Symbol>,
                                       trans: seq<Trans>, p: seq<Trans>, x: Symbol)
    requires Context(g, a, first, follow, nullable) && AllTransitions(g, a, trans)
    requires IncludePath(g, a, nullable, trans, p) && IsIn(follow, p[|p| - 1].1, x)
    ensures IsIn(follow, p[0].1, x)
    decreases |p|
  {
    hide Context, Includes;
    if |p| > 1 {
      assert Includes(g, a, nullable, p[0], p[0 + 1]) && p[1] in trans;
      forall i | 0 <= i < |p[1..]| - 1 ensures Includes(g, a, nullable, p[1..][i], p[1..][i + 1]) {
        assert Includes(g, a, nullable, p[i + 1], p[i + 1 + 1]);
      }
      ChainFollow(g, a, first, follow, nullable, trans, p[1..], x);
      IncludesFollow(g, a, first, follow, nullable, p[0], p[1]);
    }
  }

  /** Where sharers are apart, it is enough that what follows a transition is in FOLLOW of those that share its list. */
  lemma ShareFollowEnough(g: Grammar, a: Automaton, first: Table, follow: Table, nullable: set<Symbol>,
                          trans: seq<Trans>)
    requires Context(g, a, first, follow, nullable) && AllTransitions(g, a, trans)
    requires SharersApart(g, a, nullable, trans) && ShareFollow(g, a, nullable, trans, follow)
    ensures SharedInFollow(g, a, nullable, trans, follow)
  {
    hide IsAutomaton, FollowClosed, FirstReady, HasAll, Includes, Collected, ReadTogether, SharersApart, Followed;
    forall t, x | FollowedShared(g, a, nullable, trans, t, x) ensures IsIn(follow, t.1, x) {
      var p :| && SharedPath(g, a, nullable, trans, p) && p[0] == t
               && Collected(ReadGraph(g, a, nullable, trans), p[|p| - 1], x);
      var w := OneSharing(g, a, nullable, trans, p, x);
      ChainFollow(g, a, first, follow, nullable, trans, w.chain, x);
    }
  }

  /**
   The lists of the transitions are in FOLLOW if all that sharing can add is. Where sharers are on no cycle of
   `includes` and apart, they are in FOLLOW if and only if what follows a transition is in FOLLOW of the transitions
   that share its list.
   */
  lemma ListsBounded(g: Grammar, a: Automaton, first: Table, follow: Table, nullable: set<Symbol>, trans: seq<Trans>,
                     followsets: map<Trans, nat>, contents: seq<seq<Symbol>>)
    requires Context(g, a, first, follow, nullable) && AllTransitions(g, a, trans)
    requires FollowLists(g, a, nullable, trans, followsets, contents)
    ensures SharedInFollow(g, a, nullable, trans, follow) ==> ListsInFollow(trans, followsets, contents, follow)
    ensures SharersOnNoCycle(g, a, nullable, trans) && SharersApart(g, a, nullable, trans) ==>
              (ListsInFollow(trans, followsets, contents, follow) <==> ShareFollow(g, a, nullable, trans, follow))
  {
    hide IsAutomaton, FollowClosed, FirstReady, HasAll, AllTransitions, Followed, FollowedShared, SharersApart,
         SharedAlike, ListAt, OnNoCycle, ReadTogether, SharesList;
    if SharersApart(g, a, nullable, trans) && ShareFollow(g, a, nullable, trans, follow) {
      ShareFollowEnough(g, a, first, follow, nullable, trans);
    }
    if SharersOnNoCycle(g, a, nullable, trans) && ListsInFollow(trans, followsets, contents, follow) {
      forall t, u, x | ReadTogether(g, a, nullable, trans, t, u) && Followed(g, a, nullable, trans, u, x)
        ensures IsIn(follow, t.1, x)
      {
        BothShare(g, a, nullable, trans, t, u);
        assert x in ListAt(followsets, contents, u);
      }
    }
  }

  // ----- The computation -----

  /** Is `x` attached to an item in a state? */
  predicate Has(lookaheads: map<(nat, Item), seq<Symbol>>, key: (nat, Item), x: Symbol) {
    key in lookaheads && x in lookaheads[key]
  }

  /** Every lookahead that is attached to an item is in FOLLOW of the item's name. */
  ghost predicate AttachedInFollow(g: Grammar, lookaheads: map<(nat, Item), seq<Symbol>>, follow: Table) {
    forall j, r, x :: Has(lookaheads, (j, r), x) ==> IsItem(g, r) && IsIn(follow, Name(g, r), x)
  }

  class Generator {
    const g: Grammar
    /**
     The states and the transitions: what `lr0_items` collected, and what `lr0_goto` and `lr0_cidhash` say of them.
     */
    const a: Automaton
    /** The lookaheads that are attached to the items, by state. */
    var lookaheads: map<(nat, Item), seq<Symbol>>

    constructor (g: Grammar, a: Automaton)
      ensures this.g == g && this.a == a && lookaheads == map[]
    {
      this.g, this.a, lookaheads := g, a, map[];
    }

    /** `find_nonterminal_transitions`. */
    method FindTransitions() returns (trans: seq<Trans>)
      requires WellFormed(g) && IsAutomaton(g, a)
      ensures AllTransitions(g, a, trans) && Distinct(trans)
    {
      hide IsAutomaton;
      trans := [];
      for s := 0 to |a.states|
        invariant Distinct(trans)
        invariant forall t :: t in trans <==> t.0 < s && HasNonterminal(a.states[t.0], t.1)
      {
        var items := a.states[s];
        ghost var before := trans;
        for k := 0 to |items|
          invariant Distinct(trans)
          invariant forall t :: t in trans <==> t in before || (t.0 == s && HasNonterminal(items[..k], t.1))
        {
          var i := items[k];
          MoreItems(items, k);
          if IsItem(g, i) && !IsComplete(g, i) {
            var x := g.productions[i.number].prod[i.dot];
            assert DotBefore(g, i, x);
            if x in g.nonterminals && (s, x) !in trans { trans := trans + [(s, x)]; }
          }
        }
        assert items[..|items|] == items;
      }
      forall t: Trans ensures t in trans <==> t in a.goto && t.1 in g.nonterminals {
        TransitionsOf(t);
      }
    }

    ghost predicate HasNonterminal(items: seq<Item>, x: Symbol) {
      x in g.nonterminals && exists i :: i in items && DotBefore(g, i, x)
    }

    lemma MoreItems(items: seq<Item>, k: nat)
      requires k < |items|
      ensures forall x :: HasNonterminal(items[..k + 1], x) <==>
                HasNonterminal(items[..k], x) || (x in g.nonterminals && DotBefore(g, items[k], x))
    {
      assert forall i :: i in items[..k + 1] <==> i in items[..k] || i == items[k];
    }

    lemma TransitionsOf(t: Trans)
      requires WellFormed(g) && IsAutomaton(g, a)
      ensures t in a.goto && t.1 in g.nonterminals <==> t.0 < |a.states| && HasNonterminal(a.states[t.0], t.1)
    {
      hide IsAutomaton, IsClosure;
      if t in a.goto && t.1 in g.nonterminals {
        assert (t.0, t.1) == t;
        var i := ItemOver(g, a, t.0, t.1);
      }
      if t.0 < |a.states| && HasNonterminal(a.states[t.0], t.1) {
        var i :| i in a.states[t.0] && DotBefore(g, i, t.1);
        ItemMoves(g, a, t.0, i, t.1);
        assert (t.0, t.1) == t;
      }
    }

    /** The read sets: lists with an identity, which transitions that read each other share. */
    ghost predicate ReadLists(trans: seq<Trans>, nullable: set<Symbol>, readsets: map<Trans, nat>,
                              contents: seq<seq<Symbol>>)
      requires WellFormed(g)
    {
      && readsets.Keys == (set t | t in trans) && (forall t :: t in trans ==> readsets[t] < |contents|)
      && (forall t, x :: t in trans ==>
            (x in ListAt(readsets, contents, t) <==> Collected(ReadGraph(g, a, nullable, trans), t, x)))
      && forall t, u :: t in trans && u in trans ==>
           (readsets[t] == readsets[u] <==> ReadTogether(g, a, nullable, trans, t, u))
    }

    /** `compute_read_sets`. */
    method ComputeReadSets(trans: seq<Trans>, nullable: set<Symbol>, maxint: int)
      returns (readsets: map<Trans, nat>, contents: seq<seq<Symbol>>)
      requires WellFormed(g) && IsAutomaton(g, a) && AllTransitions(g, a, trans) && |trans| < maxint
      requires forall x :: x in nullable ==> x in g.nonterminals
      ensures ReadLists(trans, nullable, readsets, contents)
    {
      hide IsAutomaton, Mutual, Collected;
      var graph := ReadGraph(g, a, nullable, trans);
      forall t, y | t in graph.nodes && y in graph.related(t) ensures y in graph.nodes {
        ReadsTransition(g, a, nullable, t, y);
      }
      readsets, contents := Compute(graph, maxint);
    }

    /** The walk along the rest of a production: the transitions that it includes, and the state where it ends. */
    method FollowProduction(s: nat, i: Item, dtrans: seq<Trans>, nullable: set<Symbol>)
      returns (includes: seq<Trans>, j: nat)
      requires WellFormed(g) && IsAutomaton(g, a) && AllTransitions(g, a, dtrans)
      requires forall x :: x in nullable ==> x in g.nonterminals
      requires s < |a.states| && i in a.states[s] && IsItem(g, i)
      ensures Arrival(a, s, g.productions[i.number].prod[i.dot..]) == Some(j) && j < |a.states|
      ensures forall y :: y in includes <==> exists k :: IncludedAt(g, a, nullable, y, (s, Name(g, i)), i, k)
    {
      hide IsAutomaton, Arrival, WellFormed;
      var prod := g.productions[i.number].prod;
      includes, j := [], s;
      ItemWalks(g, a, s, i, i.dot);
      assert prod[i.dot..i.dot] == [] && Arrival(a, s, []) == Some(s) by { ArrivalNone(s); }
      for k := i.dot to |prod|
        invariant Arrival(a, s, prod[i.dot..k]) == Some(j) && j < |a.states|
        invariant forall y :: y in includes <==>
                    exists m: nat :: m < k && IncludedAt(g, a, nullable, y, (s, Name(g, i)), i, m)
      {
        var x := prod[k];
        ItemWalks(g, a, s, i, k);
        ItemMoves(g, a, j, Item(i.number, k), x);
        if (j, x) in dtrans {
          var li := k + 1;
          while li < |prod| && prod[li] !in g.terminals && prod[li] in nullable
            invariant k < li <= |prod| && AllNullable(nullable, prod[k + 1..li])
          {
            assert prod[k + 1..li + 1] == prod[k + 1..li] + [prod[li]];
            li := li + 1;
          }
          NullableRest(prod, k, li, nullable);
          if li == |prod| { includes := includes + [(j, x)]; }
        }
        IncludedHere(s, i, k, j, nullable);
        assert prod[i.dot..k + 1] == prod[i.dot..k] + [x];
        ArrivalStep(a, s, prod[i.dot..k], x);
        j := a.goto[(j, x)];
      }
      assert prod[i.dot..|prod|] == prod[i.dot..];
    }

    lemma ArrivalNone(s: nat)
      ensures Arrival(a, s, []) == Some(s)
    {
    }

    lemma NullableRest(prod: seq<Symbol>, k: nat, li: nat, nullable: set<Symbol>)
      requires WellFormed(g) && k < li <= |prod| && AllNullable(nullable, prod[k + 1..li])
      requires forall x :: x in nullable ==> x in g.nonterminals
      requires li < |prod| ==> prod[li] in g.terminals || prod[li] !in nullable
      ensures li == |prod| <==> AllNullable(nullable, prod[k + 1..])
    {
      if li < |prod| {
        assert prod[k + 1..][li - k - 1] == prod[li];
      } else {
        assert prod[k + 1..li] == prod[k + 1..];
      }
    }

    lemma IncludedHere(s: nat, i: Item, k: nat, j: nat, nullable: set<Symbol>)
      requires s < |a.states| && i in a.states[s] && IsItem(g, i) && i.dot <= k < |g.productions[i.number].prod|
      requires Arrival(a, s, g.productions[i.number].prod[i.dot..k]) == Some(j)
      ensures forall y :: IncludedAt(g, a, nullable, y, (s, Name(g, i)), i, k) <==>
                && y == (j, g.productions[i.number].prod[k]) && y.1 in g.nonterminals
                && AllNullable(nullable, g.productions[i.number].prod[k + 1..])
    {
      hide Arrival;
    }

    /** The comparison of an item of the state where a walk ended with the item where it began. */
    method Compare(i: Item, r: Item) returns (same: bool)
      requires IsItem(g, i) && IsItem(g, r)
      ensures same <==> Compares(g, i, r)
    {
      if Name(g, r) != Name(g, i) || |g.productions[r.number].prod| != |g.productions[i.number].prod| { return false; }
      var d := 0;
      while d < r.dot
        invariant d <= r.dot && forall e :: 0 <= e < d ==> Dotted(g, r)[e] == Dotted(g, i)[e + 1]
      {
        if Dotted(g, r)[d] != Dotted(g, i)[d + 1] { return false; }
        d := d + 1;
      }
      same := true;
    }

    method FindLookbacks(j: nat, i: Item) returns (lookb: seq<(nat, Item)>)
      requires WellFormed(g) && IsAutomaton(g, a) && j < |a.states| && IsItem(g, i)
      ensures forall e :: e in lookb <==> e.0 == j && e.1 in a.states[j] && Compares(g, i, e.1)
    {
      hide IsAutomaton, Compares;
      lookb := [];
      var items := a.states[j];
      StatesAreItemSets(g, a, j);
      for k := 0 to |items|
        invariant forall e :: e in lookb <==> e.0 == j && e.1 in items[..k] && Compares(g, i, e.1)
      {
        assert items[k] in items;
        var same := Compare(i, items[k]);
        if same { lookb := lookb + [(j, items[k])]; }
      }
      assert items[..|items|] == items;
    }

    ghost predicate LooksBackFrom(e: (nat, Item), z: Trans, i: Item) {
      LooksBackAt(g, a, e.0, e.1, z, i)
    }

    ghost predicate LookbackIn(e: (nat, Item), z: Trans, items: seq<Item>) {
      exists i :: i in items && LooksBackFrom(e, z, i)
    }

    ghost predicate IncludedFrom(nullable: set<Symbol>, y: Trans, z: Trans, i: Item) {
      exists k :: IncludedAt(g, a, nullable, y, z, i, k)
    }

    ghost predicate IncludedIn(nullable: set<Symbol>, y: Trans, z: Trans, items: seq<Item>) {
      exists i :: i in items && IncludedFrom(nullable, y, z, i)
    }

    lemma ScannedMore(lookb: seq<(nat, Item)>, found: seq<(nat, Item)>, includes: seq<Trans>, more: seq<Trans>,
                      nullable: set<Symbol>, z: Trans, items: seq<Item>, k: nat)
      requires k < |items|
      requires forall e :: e in lookb <==> LookbackIn(e, z, items[..k])
      requires forall y :: y in includes <==> IncludedIn(nullable, y, z, items[..k])
      requires forall e :: e in found <==> LooksBackFrom(e, z, items[k])
      requires forall y :: y in more <==> IncludedFrom(nullable, y, z, items[k])
      ensures forall e :: e in lookb + found <==> LookbackIn(e, z, items[..k + 1])
      ensures forall y :: y in includes + more <==> IncludedIn(nullable, y, z, items[..k + 1])
    {
      hide IncludedFrom, LooksBackFrom;
      assert forall i :: i in items[..k + 1] <==> i in items[..k] || i == items[k];
    }

    /** The lookbacks and the includes of one transition. */
    method ScanTransition(z: Trans, trans: seq<Trans>, nullable: set<Symbol>)
      returns (lookb: seq<(nat, Item)>, includes: seq<Trans>)
      requires WellFormed(g) && IsAutomaton(g, a) && AllTransitions(g, a, trans) && z in trans
      requires forall x :: x in nullable ==> x in g.nonterminals
      ensures forall e :: e in lookb <==> LooksBack(g, a, e.0, e.1, z)
      ensures forall y :: y in includes <==> Includes(g, a, nullable, y, z)
    {
      hide IsAutomaton, IncludedFrom, LooksBackFrom, LookbackIn, IncludedIn, LooksBack, Includes, AllTransitions;
      assert z in a.goto by { TransIsGoto(trans, z); }
      AcrossTransition(g, a, z);
      StatesAreItemSets(g, a, z.0);
      lookb, includes := [], [];
      var items := a.states[z.0];
      NothingIn(nullable, z);
      for k := 0 to |items|
        invariant forall e :: e in lookb <==> LookbackIn(e, z, items[..k])
        invariant forall y :: y in includes <==> IncludedIn(nullable, y, z, items[..k])
      {
        var i := items[k];
        assert i in items;
        var found, more := ScanItem(z, i, trans, nullable);
        ScannedMore(lookb, found, includes, more, nullable, z, items, k);
        lookb, includes := lookb + found, includes + more;
      }
      assert items[..|items|] == items;
      ScannedAll(nullable, z);
    }

    method ScanItem(z: Trans, i: Item, trans: seq<Trans>, nullable: set<Symbol>)
      returns (found: seq<(nat, Item)>, more: seq<Trans>)
      requires WellFormed(g) && IsAutomaton(g, a) && AllTransitions(g, a, trans)
      requires z.0 < |a.states| && i in a.states[z.0] && IsItem(g, i)
      requires forall x :: x in nullable ==> x in g.nonterminals
      ensures forall e :: e in found <==> LooksBackFrom(e, z, i)
      ensures forall y :: y in more <==> IncludedFrom(nullable, y, z, i)
    {
      hide IsAutomaton, Compares, IncludedAt, LooksBackFrom;
      if Name(g, i) == z.1 {
        var j;
        more, j := FollowProduction(z.0, i, trans, nullable);
        found := FindLookbacks(j, i);
        FoundHere(found, j, z, i);
      } else {
        found, more := [], [];
        OtherName(nullable, z, i);
      }
    }

    lemma TransIsGoto(trans: seq<Trans>, z: Trans)
      requires AllTransitions(g, a, trans) && z in trans
      ensures z in a.goto
    {
    }

    lemma NothingIn(nullable: set<Symbol>, z: Trans)
      ensures forall e :: !LookbackIn(e, z, [])
      ensures forall y :: !IncludedIn(nullable, y, z, [])
    {
    }

    lemma OtherName(nullable: set<Symbol>, z: Trans, i: Item)
      requires IsItem(g, i) && Name(g, i) != z.1
      ensures forall e :: !LooksBackFrom(e, z, i)
      ensures forall y, m :: !IncludedAt(g, a, nullable, y, z, i, m)
    {
      hide Arrival;
    }

    lemma FoundHere(found: seq<(nat, Item)>, j: nat, z: Trans, i: Item)
      requires z.0 < |a.states| && i in a.states[z.0] && IsItem(g, i) && Name(g, i) == z.1 && j < |a.states|
      requires Arrival(a, z.0, g.productions[i.number].prod[i.dot..]) == Some(j)
      requires forall e :: e in found <==> e.0 == j && e.1 in a.states[j] && Compares(g, i, e.1)
      ensures forall e :: e in found <==> LooksBackFrom(e, z, i)
    {
      hide Arrival, Compares;
    }

    lemma ScannedAll(nullable: set<Symbol>, z: Trans)
      requires z.0 < |a.states|
      ensures forall e :: LookbackIn(e, z, a.states[z.0]) <==> LooksBack(g, a, e.0, e.1, z)
      ensures forall y :: IncludedIn(nullable, y, z, a.states[z.0]) <==> Includes(g, a, nullable, y, z)
    {
      hide Arrival, Compares;
      forall y | Includes(g, a, nullable, y, z) ensures IncludedIn(nullable, y, z, a.states[z.0]) {
        var i, k :| IncludedAt(g, a, nullable, y, z, i, k);
        assert i in a.states[z.0];
      }
      forall e: (nat, Item) | LooksBack(g, a, e.0, e.1, z) ensures LookbackIn(e, z, a.states[z.0]) {
        var i :| LooksBackAt(g, a, e.0, e.1, z, i);
        assert LooksBackFrom(e, z, i);
      }
    }

    /** `lookdict` and `includedict` so far, after the transitions of `done`. */
    ghost predicate LookbacksDone(lookdict: map<Trans, seq<(nat, Item)>>, done: seq<Trans>) {
      && (forall z :: z in lookdict <==> z in done)
      && (forall z, e :: z in lookdict ==> (e in lookdict[z] <==> LooksBack(g, a, e.0, e.1, z)))
    }

    predicate Listed(dict: map<Trans, seq<Trans>>, y: Trans, z: Trans) { y in dict && z in dict[y] }

    ghost predicate IncludesDone(includedict: map<Trans, seq<Trans>>, done: seq<Trans>, nullable: set<Symbol>) {
      forall y, z :: Listed(includedict, y, z) <==> z in done && Includes(g, a, nullable, y, z)
    }

    /** `compute_lookback_includes`. */
    method LookbackIncludes(trans: seq<Trans>, nullable: set<Symbol>)
      returns (lookdict: map<Trans, seq<(nat, Item)>>, includedict: map<Trans, seq<Trans>>)
      requires WellFormed(g) && IsAutomaton(g, a) && AllTransitions(g, a, trans)
      requires forall x :: x in nullable ==> x in g.nonterminals
      ensures LookbacksDone(lookdict, trans) && IncludesDone(includedict, trans, nullable)
    {
      hide IsAutomaton, Includes, LooksBack;
      lookdict, includedict := map[], map[];
      for n := 0 to |trans|
        invariant LookbacksDone(lookdict, trans[..n]) && IncludesDone(includedict, trans[..n], nullable)
      {
        var z := trans[n];
        var lookb, includes := ScanTransition(z, trans, nullable);
        includedict := AddIncludes(includedict, includes, z, trans[..n], nullable);
        assert trans[..n + 1] == trans[..n] + [z];
        lookdict := lookdict[z := lookb];
      }
      assert trans[..|trans|] == trans;
    }

    method AddIncludes(dict: map<Trans, seq<Trans>>, includes: seq<Trans>, z: Trans, ghost done: seq<Trans>,
                       ghost nullable: set<Symbol>)
      returns (includedict: map<Trans, seq<Trans>>)
      requires IncludesDone(dict, done, nullable)
      requires forall y :: y in includes <==> Includes(g, a, nullable, y, z)
      ensures IncludesDone(includedict, done + [z], nullable)
    {
      hide Includes;
      includedict := dict;
      for k := 0 to |includes|
        invariant forall y, u :: Listed(includedict, y, u) <==> Listed(dict, y, u) || (u == z && y in includes[..k])
      {
        var y := includes[k];
        assert includes[..k + 1] == includes[..k] + [y];
        includedict := includedict[y := (if y in includedict then includedict[y] else []) + [z]];
      }
      assert includes[..|includes|] == includes;
    }

    /** `compute_follow_sets`: it adds to the read sets in place. */
    method ComputeFollowSets(trans: seq<Trans>, readsets: map<Trans, nat>, contents0: seq<seq<Symbol>>,
                             included: map<Trans, seq<Trans>>, maxint: int, ghost nullable: set<Symbol>)
      returns (followsets: map<Trans, nat>, contents: seq<seq<Symbol>>)
      requires WellFormed(g) && IncludesDone(included, trans, nullable) && |trans| < maxint
      requires ReadLists(trans, nullable, readsets, contents0)
      ensures FollowLists(g, a, nullable, trans, followsets, contents)
    {
      hide ReadTogether, Collected, FollowLists;
      var graph := IncludeGraph(trans, readsets, contents0, included);
      assert forall t, y :: y in graph.related(t) <==> Listed(included, t, y);
      followsets, contents := ComputeShared(graph, readsets, contents0, maxint);
      FollowListsMade(trans, readsets, contents0, included, nullable, followsets, contents);
    }

    lemma FollowListsMade(trans: seq<Trans>, readsets: map<Trans, nat>, contents0: seq<seq<Symbol>>,
                          included: map<Trans, seq<Trans>>, nullable: set<Symbol>, followsets: map<Trans, nat>,
                          contents: seq<seq<Symbol>>)
      requires WellFormed(g) && IncludesDone(included, trans, nullable)
      requires ReadLists(trans, nullable, readsets, contents0)
      requires Solved(IncludeGraph(trans, readsets, contents0, included), readsets, followsets, contents)
      ensures FollowLists(g, a, nullable, trans, followsets, contents)
    {
      hide ReadTogether, Collected, IncludesDone, ReadLists, IncludeGraph, SolvedNode, OnNoCycle, Followed, Harmless,
           Mutual;
      hide FollowedShared, Sharing;
      var graph := IncludeGraph(trans, readsets, contents0, included);
      GraphNodes(trans, readsets, contents0, included);
      forall t, x | t in trans && Followed(g, a, nullable, trans, t, x) ensures x in ListAt(followsets, contents, t) {
        FollowedIsCollected(trans, readsets, contents0, included, nullable, t, x);
        assert SolvedNode(graph, readsets, followsets, contents, t);
        NodeHas(graph, readsets, followsets, contents, t, x);
      }
      forall t, x | t in trans && x in ListAt(followsets, contents, t)
        ensures FollowedShared(g, a, nullable, trans, t, x)
      {
        assert SolvedNode(graph, readsets, followsets, contents, t);
        NodeShares(graph, readsets, followsets, contents, t, x);
        SharedIsFollowed(trans, readsets, contents0, included, nullable, t, x);
      }
      if SharedAlike(g, a, nullable, trans) {
        HarmlessHere(trans, readsets, contents0, included, nullable);
        forall t, x | t in trans && x in ListAt(followsets, contents, t) ensures Followed(g, a, nullable, trans, t, x) {
          SolvedExactly(graph, readsets, followsets, contents, t, x);
          FollowedIsCollected(trans, readsets, contents0, included, nullable, t, x);
        }
      }
      forall t, u | ReadTogether(g, a, nullable, trans, t, u)
                    && OnNoCycle(g, a, nullable, trans, t) && OnNoCycle(g, a, nullable, trans, u)
        ensures ListAt(followsets, contents, t) == ListAt(followsets, contents, u)
      {
        OneList(trans, readsets, contents0, nullable, t, u);
        OwnList(trans, readsets, contents0, included, nullable, followsets, contents, t);
        OwnList(trans, readsets, contents0, included, nullable, followsets, contents, u);
      }
    }

    lemma GraphNodes(trans: seq<Trans>, readsets: map<Trans, nat>, contents0: seq<seq<Symbol>>,
                     included: map<Trans, seq<Trans>>)
      ensures IncludeGraph(trans, readsets, contents0, included).nodes == trans
    {
    }

    lemma NodeHas(graph: Graph<Trans, Symbol>, home: map<Trans, nat>, F: map<Trans, nat>, lists: seq<seq<Symbol>>,
                  t: Trans, x: Symbol)
      requires SolvedNode(graph, home, F, lists, t) && Collected(graph, t, x)
      ensures x in ListAt(F, lists, t)
    {
      hide Collected, Sharing, FromHome;
      assert Holds(F, lists, t, x);
    }

    lemma NodeShares(graph: Graph<Trans, Symbol>, home: map<Trans, nat>, F: map<Trans, nat>, lists: seq<seq<Symbol>>,
                     t: Trans, x: Symbol)
      requires SolvedNode(graph, home, F, lists, t) && x in ListAt(F, lists, t)
      ensures Collected(Sharing(graph, home), t, x)
    {
      hide Collected, Sharing, FromHome;
      assert Holds(F, lists, t, x);
    }

    lemma SharedIsFollowed(trans: seq<Trans>, readsets: map<Trans, nat>, contents0: seq<seq<Symbol>>,
                           included: map<Trans, seq<Trans>>, nullable: set<Symbol>, t: Trans, x: Symbol)
      requires WellFormed(g) && IncludesDone(included, trans, nullable) && t in trans
      requires ReadLists(trans, nullable, readsets, contents0)
      requires Collected(Sharing(IncludeGraph(trans, readsets, contents0, included), readsets), t, x)
      ensures FollowedShared(g, a, nullable, trans, t, x)
    {
      hide Includes, IncludesDone, ReadTogether, Mutual;
      var graph := Sharing(IncludeGraph(trans, readsets, contents0, included), readsets);
      var y :| Reaches(graph, t, y) && x in graph.initial(y);
      var p :| PathBetween(graph, p, t, y);
      SharedSteps(trans, readsets, contents0, included, nullable, p);
      assert p[|p| - 1] in trans;
    }

    lemma {:induction false} SharedSteps(trans: seq<Trans>, readsets: map<Trans, nat>, contents0: seq<seq<Symbol>>,
                                         included: map<Trans, seq<Trans>>, nullable: set<Symbol>, p: seq<Trans>)
      requires WellFormed(g) && IncludesDone(included, trans, nullable)
      requires ReadLists(trans, nullable, readsets, contents0)
      requires p != [] && p[0] in trans
      requires IsPath(Sharing(IncludeGraph(trans, readsets, contents0, included), readsets), p)
      ensures SharedPath(g, a, nullable, trans, p)
    {
      hide Includes, ReadTogether, Collected;
      var graph := Sharing(IncludeGraph(trans, readsets, contents0, included), readsets);
      if |p| > 1 {
        assert p[0 + 1] in graph.related(p[0]);
        SharedStep(trans, readsets, contents0, included, nullable, p[0], p[1]);
        assert PathBetween(graph, p, p[0], p[|p| - 1]);
        PathTail(graph, p, p[0], p[|p| - 1]);
        SharedSteps(trans, readsets, contents0, included, nullable, p[1..]);
        assert forall i :: 1 <= i < |p| ==> p[i] == p[1..][i - 1];
      }
    }

    lemma SharedStep(trans: seq<Trans>, readsets: map<Trans, nat>, contents0: seq<seq<Symbol>>,
                     included: map<Trans, seq<Trans>>, nullable: set<Symbol>, t: Trans, u: Trans)
      requires WellFormed(g) && IncludesDone(included, trans, nullable)
      requires ReadLists(trans, nullable, readsets, contents0)
      requires t in trans && u in Sharing(IncludeGraph(trans, readsets, contents0, included), readsets).related(t)
      ensures u in trans && (Includes(g, a, nullable, t, u) || ReadTogether(g, a, nullable, trans, t, u))
    {
      hide Includes, ReadTogether, Collected;
      if t in included && u in included[t] {
        assert Listed(included, t, u);
      }
    }

    lemma OneList(trans: seq<Trans>, readsets: map<Trans, nat>, contents0: seq<seq<Symbol>>, nullable: set<Symbol>,
                  t: Trans, u: Trans)
      requires WellFormed(g) && ReadLists(trans, nullable, readsets, contents0)
      requires ReadTogether(g, a, nullable, trans, t, u)
      ensures t in trans && u in trans && t in readsets && u in readsets && readsets[t] == readsets[u]
    {
      hide Mutual, Collected;
    }

    /** Transitions that share their read set and follow the same symbols do no harm to each other. */
    lemma HarmlessHere(trans: seq<Trans>, readsets: map<Trans, nat>, contents0: seq<seq<Symbol>>,
                       included: map<Trans, seq<Trans>>, nullable: set<Symbol>)
      requires WellFormed(g) && IncludesDone(included, trans, nullable)
      requires ReadLists(trans, nullable, readsets, contents0)
      requires SharedAlike(g, a, nullable, trans)
      ensures Harmless(IncludeGraph(trans, readsets, contents0, included), readsets)
    {
      hide Collected, IncludesDone, IncludeGraph, Followed, ReadTogether;
      var graph := IncludeGraph(trans, readsets, contents0, included);
      forall t, u, x | t in readsets && u in readsets && readsets[t] == readsets[u] && Collected(graph, u, x)
        ensures Collected(graph, t, x)
      {
        FollowedIsCollected(trans, readsets, contents0, included, nullable, u, x);
        assert ReadTogether(g, a, nullable, trans, t, u);
        FollowedIsCollected(trans, readsets, contents0, included, nullable, t, x);
      }
    }

    /** A transition on no cycle of `includes` ends with the list that it began with. */
    lemma OwnList(trans: seq<Trans>, readsets: map<Trans, nat>, contents0: seq<seq<Symbol>>,
                  included: map<Trans, seq<Trans>>, nullable: set<Symbol>, followsets: map<Trans, nat>,
                  contents: seq<seq<Symbol>>, t: Trans)
      requires IncludesDone(included, trans, nullable) && OnNoCycle(g, a, nullable, trans, t) && t in readsets
      requires Solved(IncludeGraph(trans, readsets, contents0, included), readsets, followsets, contents)
      ensures t in followsets && followsets[t] == readsets[t]
    {
      hide Collected, IncludesDone, IncludeGraph, Sharing, PathBetween;
      var graph := IncludeGraph(trans, readsets, contents0, included);
      GraphNodes(trans, readsets, contents0, included);
      SolvedList(graph, readsets, followsets, contents, t);
      var k :| FromHome(graph, readsets, followsets, t, k);
      var p :| PathBetween(graph, p, t, k);
      var q :| PathBetween(graph, q, k, t);
      PathIncludes(trans, readsets, contents0, included, nullable, p, t, k);
      PathIncludes(trans, readsets, contents0, included, nullable, q, k, t);
      assert IncludeEachOther(g, a, nullable, trans, t, k);
    }

    lemma PathIncludes(trans: seq<Trans>, readsets: map<Trans, nat>, contents0: seq<seq<Symbol>>,
                       included: map<Trans, seq<Trans>>, nullable: set<Symbol>, p: seq<Trans>, t: Trans, u: Trans)
      requires IncludesDone(included, trans, nullable) && t in trans
      requires PathBetween(IncludeGraph(trans, readsets, contents0, included), p, t, u)
      ensures IncludeChain(g, a, nullable, trans, p, t, u)
    {
      hide IncludeGraph, IncludesDone;
      GraphPath(trans, readsets, contents0, included, nullable, p);
    }

    lemma FollowedIsCollected(trans: seq<Trans>, readsets: map<Trans, nat>, contents0: seq<seq<Symbol>>,
                              included: map<Trans, seq<Trans>>, nullable: set<Symbol>, t: Trans, x: Symbol)
      requires WellFormed(g) && IncludesDone(included, trans, nullable) && t in trans
      requires ReadLists(trans, nullable, readsets, contents0)
      ensures Collected(IncludeGraph(trans, readsets, contents0, included), t, x) <==>
                Followed(g, a, nullable, trans, t, x)
    {
      hide Includes, IncludesDone, ReadTogether;
      var graph := IncludeGraph(trans, readsets, contents0, included);
      if Collected(graph, t, x) {
        var y :| Reaches(graph, t, y) && x in graph.initial(y);
        var p :| PathBetween(graph, p, t, y);
        GraphPath(trans, readsets, contents0, included, nullable, p);
        assert p[|p| - 1] in trans;
        assert FollowedBy(g, a, nullable, trans, t, x, p);
      }
      if p :| FollowedBy(g, a, nullable, trans, t, x, p) {
        GraphPath(trans, readsets, contents0, included, nullable, p);
        assert p[|p| - 1] in trans;
        assert PathBetween(graph, p, t, p[|p| - 1]) && x in graph.initial(p[|p| - 1]);
      }
    }

    lemma {:induction false} GraphPath(trans: seq<Trans>, readsets: map<Trans, nat>, contents0: seq<seq<Symbol>>,
                                       included: map<Trans, seq<Trans>>, nullable: set<Symbol>, p: seq<Trans>)
      requires IncludesDone(included, trans, nullable) && p != [] && p[0] in trans
      ensures IsPath(IncludeGraph(trans, readsets, contents0, included), p) <==> IncludePath(g, a, nullable, trans, p)
    {
      hide Includes;
      var graph := IncludeGraph(trans, readsets, contents0, included);
      assert forall t, y :: y in graph.related(t) <==> Listed(included, t, y);
      if IsPath(graph, p) {
        forall i | 0 <= i < |p| ensures p[i] in trans {
          if i > 0 {
            assert p[i - 1 + 1] in graph.related(p[i - 1]);
          }
        }
        assert forall i :: 0 <= i < |p| - 1 ==> p[i + 1] in graph.related(p[i]);
      }
      if IncludePath(g, a, nullable, trans, p) {
        forall i | 0 <= i < |p| - 1 ensures p[i + 1] in graph.related(p[i]) {
          assert Includes(g, a, nullable, p[i], p[i + 1]) && p[i + 1] in trans;
        }
      }
    }

    /** What is attached to the items of `keys`, for the transitions of `done`. */
    ghost predicate Attached(lookdict: map<Trans, seq<(nat, Item)>>, followsets: map<Trans, nat>,
                             contents: seq<seq<Symbol>>, done: seq<Trans>)
      requires forall z :: z in done ==> z in lookdict
      reads this`lookaheads
    {
      && (forall key :: key in lookaheads <==> exists z :: z in done && key in lookdict[z])
      && (forall key, x :: Has(lookaheads, key, x) <==>
            exists z :: z in done && key in lookdict[z] && x in ListAt(followsets, contents, z))
    }

    /** `add_lookaheads`. */
    method AddLookaheads(trans: seq<Trans>, lookdict: map<Trans, seq<(nat, Item)>>, followsets: map<Trans, nat>,
                         contents: seq<seq<Symbol>>)
      requires lookaheads == map[] && forall z :: z in trans ==> z in lookdict
      modifies this`lookaheads
      ensures Attached(lookdict, followsets, contents, trans) && NamedOnce(lookaheads)
    {
      hide ListAt, Distinct;
      for n := 0 to |trans|
        invariant Attached(lookdict, followsets, contents, trans[..n]) && NamedOnce(lookaheads)
      {
        var z := trans[n];
        assert forall u :: u in trans[..n + 1] <==> u in trans[..n] || u == z;
        AttachAll(lookdict[z], ListAt(followsets, contents, z));
      }
      assert trans[..|trans|] == trans;
    }

    method AttachAll(keys: seq<(nat, Item)>, f: seq<Symbol>)
      modifies this`lookaheads
      ensures forall key :: key in lookaheads <==> key in old(lookaheads) || key in keys
      ensures forall key, x :: Has(lookaheads, key, x) <==> Has(old(lookaheads), key, x) || (key in keys && x in f)
      ensures old(NamedOnce(lookaheads)) ==> NamedOnce(lookaheads)
    {
      hide NamedOnce;
      for k := 0 to |keys|
        invariant old(NamedOnce(lookaheads)) ==> NamedOnce(lookaheads)
        invariant forall key :: key in lookaheads <==> key in old(lookaheads) || key in keys[..k]
        invariant forall key, x :: Has(lookaheads, key, x) <==>
                    Has(old(lookaheads), key, x) || (key in keys[..k] && x in f)
      {
        assert forall u :: u in keys[..k + 1] <==> u in keys[..k] || u == keys[k];
        Attach(keys[k], f);
      }
      assert keys[..|keys|] == keys;
    }

    method Attach(key: (nat, Item), f: seq<Symbol>)
      modifies this`lookaheads
      ensures forall k :: k in lookaheads <==> k in old(lookaheads) || k == key
      ensures forall k, x :: Has(lookaheads, k, x) <==> Has(old(lookaheads), k, x) || (k == key && x in f)
      ensures old(NamedOnce(lookaheads)) ==> NamedOnce(lookaheads)
    {
      if key !in lookaheads { lookaheads := lookaheads[key := []]; }
      for m := 0 to |f|
        invariant forall k :: k in lookaheads <==> k in old(lookaheads) || k == key
        invariant forall k, x :: Has(lookaheads, k, x) <==> Has(old(lookaheads), k, x) || (k == key && x in f[..m])
        invariant old(NamedOnce(lookaheads)) ==> NamedOnce(lookaheads)
      {
        assert forall u :: u in f[..m + 1] <==> u in f[..m] || u == f[m];
        ghost var before := lookaheads;
        if f[m] !in lookaheads[key] { lookaheads := lookaheads[key := lookaheads[key] + [f[m]]]; }
        assert forall k, x :: Has(lookaheads, k, x) <==> Has(before, k, x) || (k == key && x == f[m]);
      }
      assert f[..|f|] == f;
    }

    /** The lookaheads that are attached, when the transitions have these lists. */
    ghost predicate AttachedFrom(nullable: set<Symbol>, trans: seq<Trans>, followsets: map<Trans, nat>,
                                 contents: seq<seq<Symbol>>)
      reads this`lookaheads
    {
      forall j, r, x :: Has(lookaheads, (j, r), x) <==>
        exists z :: z in trans && LooksBack(g, a, j, r, z) && x in ListAt(followsets, contents, z)
    }

    /** A transition that shares its list is over a nonterminal that vanishes. */
    lemma SharerVanishes(trans: seq<Trans>, nullable: set<Symbol>, t: Trans, u: Trans)
      requires WellFormed(g) && IsAutomaton(g, a) && t != u && ReadTogether(g, a, nullable, trans, t, u)
      ensures t.1 in nullable
    {
      hide IsAutomaton;
      var graph := ReadGraph(g, a, nullable, trans);
      var p :| PathBetween(graph, p, u, t);
      assert |p| > 1;
      assert p[|p| - 2 + 1] in graph.related(p[|p| - 2]);
      ReadsTransition(g, a, nullable, p[|p| - 2], t);
    }

    lemma VanishingProduction(x: Symbol) returns (q: nat)
      requires Derives(g, [x], [])
      ensures 1 <= q < |g.productions| && g.productions[q].name == x
    {
      var n: nat :| DerivesIn(g, [x], [], n);
      var c :| Step(g, [x], c) && DerivesIn(g, c, [], n - 1);
      var u, p, v :| StepAt(g, [x], c, u, p, v);
      assert |u| + 1 + |v| == 1 && (u + [p.name] + v)[|u|] == p.name;
      q :| 1 <= q < |g.productions| && g.productions[q] == p;
    }

    /** Some complete item looks back at the transition of a nonterminal with a production. */
    lemma LookedBackAt(t: Trans, q: nat) returns (j: nat)
      requires WellFormed(g) && IsAutomaton(g, a) && t in a.goto && 1 <= q < |g.productions|
      requires g.productions[q].name == t.1
      ensures LooksBack(g, a, j, Item(q, |g.productions[q].prod|), t)
    {
      hide IsAutomaton, Arrival, WellFormed;
      var prod := g.productions[q].prod;
      var i := ItemOver(g, a, t.0, t.1);
      StatePredicts(g, a, t.0, i, q);
      ItemWalks(g, a, t.0, Item(q, 0), |prod|);
      j := Arrival(a, t.0, prod[0..|prod|]).value;
      assert prod[0..|prod|] == prod && prod[0..] == prod;
      var r := Item(q, |prod|);
      assert Dotted(g, r) == prod + ["."] && Dotted(g, Item(q, 0)) == ["."] + prod;
      assert LooksBackAt(g, a, j, r, t, Item(q, 0));
    }

    lemma ListsAttached(trans: seq<Trans>, nullable: set<Symbol>, followsets: map<Trans, nat>,
                        contents: seq<seq<Symbol>>, follow: Table)
      requires AttachedFrom(nullable, trans, followsets, contents)
      requires ListsInFollow(trans, followsets, contents, follow)
      ensures AttachedInFollow(g, lookaheads, follow)
    {
      hide ListAt, Arrival, Dotted;
      forall j, r, x | Has(lookaheads, (j, r), x) ensures IsItem(g, r) && IsIn(follow, Name(g, r), x) {
        var z :| z in trans && LooksBack(g, a, j, r, z) && x in ListAt(followsets, contents, z);
        var i :| LooksBackAt(g, a, j, r, z, i);
      }
    }

    /** What is in the list of a transition over a nonterminal that vanishes is in FOLLOW if what is attached is. */
    lemma AttachedLists(trans: seq<Trans>, nullable: set<Symbol>, followsets: map<Trans, nat>,
                        contents: seq<seq<Symbol>>, follow: Table, t: Trans, x: Symbol)
      requires WellFormed(g) && IsAutomaton(g, a) && t in a.goto && AreNullable(g, nullable) && t.1 in nullable
      requires AttachedFrom(nullable, trans, followsets, contents) && AttachedInFollow(g, lookaheads, follow)
      requires t in trans && x in ListAt(followsets, contents, t)
      ensures IsIn(follow, t.1, x)
    {
      hide IsAutomaton, WellFormed, ListAt, Derives, LooksBack;
      var q := VanishingProduction(t.1);
      var j := LookedBackAt(t, q);
      assert Has(lookaheads, (j, Item(q, |g.productions[q].prod|)), x);
    }

    /**
     What is attached is in FOLLOW if all that sharing can add is. Where sharers are on no cycle of `includes` and
     apart, it is in FOLLOW if and only if what follows a transition is in FOLLOW of those that share its list.
     */
    lemma AttachedBounded(first: Table, follow: Table, trans: seq<Trans>, nullable: set<Symbol>,
                          followsets: map<Trans, nat>, contents: seq<seq<Symbol>>)
      requires Context(g, a, first, follow, nullable) && AllTransitions(g, a, trans) && AreNullable(g, nullable)
      requires FollowLists(g, a, nullable, trans, followsets, contents)
      requires AttachedFrom(nullable, trans, followsets, contents)
      ensures SharedInFollow(g, a, nullable, trans, follow) ==> AttachedInFollow(g, lookaheads, follow)
      ensures StartEnds(g, follow) && SharersOnNoCycle(g, a, nullable, trans) && SharersApart(g, a, nullable, trans) ==>
                (AttachedInFollow(g, lookaheads, follow) <==> ShareFollow(g, a, nullable, trans, follow))
    {
      hide IsAutomaton, FollowClosed, FirstReady, HasAll, AllTransitions, AreNullable, Followed, FollowedShared,
           SharersApart, SharedAlike, ListAt, OnNoCycle, ReadTogether, SharesList, LooksBack, AttachedFrom,
           AttachedInFollow, ListsInFollow, StartEnds;
      ListsBounded(g, a, first, follow, nullable, trans, followsets, contents);
      if ListsInFollow(trans, followsets, contents, follow) {
        ListsAttached(trans, nullable, followsets, contents, follow);
      }
      if StartEnds(g, follow) && SharersOnNoCycle(g, a, nullable, trans) && AttachedInFollow(g, lookaheads, follow) {
        forall t, u, x | ReadTogether(g, a, nullable, trans, t, u) && Followed(g, a, nullable, trans, u, x)
          ensures IsIn(follow, t.1, x)
        {
          BothShare(g, a, nullable, trans, t, u);
          SharerBounded(first, follow, trans, nullable, followsets, contents, t, u, x);
        }
      }
    }

    lemma SharerBounded(first: Table, follow: Table, trans: seq<Trans>, nullable: set<Symbol>,
                        followsets: map<Trans, nat>, contents: seq<seq<Symbol>>, t: Trans, u: Trans, x: Symbol)
      requires Context(g, a, first, follow, nullable) && AllTransitions(g, a, trans) && AreNullable(g, nullable)
      requires FollowLists(g, a, nullable, trans, followsets, contents) && StartEnds(g, follow)
      requires AttachedFrom(nullable, trans, followsets, contents) && AttachedInFollow(g, lookaheads, follow)
      requires ReadTogether(g, a, nullable, trans, t, u) && Followed(g, a, nullable, trans, u, x)
      requires t != u ==> OnNoCycle(g, a, nullable, trans, t) && OnNoCycle(g, a, nullable, trans, u)
      ensures IsIn(follow, t.1, x)
    {
      hide IsAutomaton, FollowClosed, FirstReady, HasAll, AreNullable, FollowedShared, SharedAlike, ListAt, OnNoCycle,
           LooksBack, AttachedFrom, AttachedInFollow, ReadTogether, StartEnds;
      BothShare(g, a, nullable, trans, t, u);
      if t == u {
        var p :| FollowedBy(g, a, nullable, trans, u, x, p);
        FollowedInFollow(g, a, first, follow, nullable, trans, u, x, p);
      } else {
        SharerVanishes(trans, nullable, t, u);
        assert x in ListAt(followsets, contents, u);
        assert x in ListAt(followsets, contents, t);
        AttachedLists(trans, nullable, followsets, contents, follow, t, x);
      }
    }

    /**
     `add_lalr_lookaheads`: attaches to every complete item a list, and to the items what the lists of the transitions
     have that they look back at. That is at least their lookaheads, and exactly these if transitions that share a list
     are followed by the same symbols. In this case, when FOLLOW of the start symbol has the end of the input, what is
     attached is in FOLLOW of the item's name. It is whenever all that sharing can add is; and, where sharers are on no
     cycle of `includes` and apart, if and only if what follows a transition is in FOLLOW of those that share its list.
     */
    method AddLalrLookaheads(an: Analysis, maxint: int)
      returns (trans: seq<Trans>, nullable: set<Symbol>,
               ghost followsets: map<Trans, nat>, ghost contents: seq<seq<Symbol>>)
      requires an.g == g && an.FirstDone() && |g.productions| > 1
      requires FollowClosed(g, an.First, an.Follow, g.productions[1].name)
      requires IsAutomaton(g, a) && |a.goto| < maxint && lookaheads == map[]
      modifies this`lookaheads
      ensures AllTransitions(g, a, trans) && AreNullable(g, nullable)
      ensures FollowLists(g, a, nullable, trans, followsets, contents)
      ensures AttachedFrom(nullable, trans, followsets, contents)
      ensures forall j, r, x :: IsLookahead(g, a, nullable, trans, j, r, x) ==> Has(lookaheads, (j, r), x)
      ensures SharedAlike(g, a, nullable, trans) ==>
                forall j, r, x :: Has(lookaheads, (j, r), x) ==> IsLookahead(g, a, nullable, trans, j, r, x)
      ensures forall s: nat, q ::
                s < |a.states| && 0 < q < |g.productions| && Item(q, |g.productions[q].prod|) in a.states[s] ==>
                (s, Item(q, |g.productions[q].prod|)) in lookaheads
      ensures NamedOnce(lookaheads)
      ensures SharedAlike(g, a, nullable, trans) && StartEnds(g, an.Follow) ==>
                AttachedInFollow(g, lookaheads, an.Follow)
      ensures SharedInFollow(g, a, nullable, trans, an.Follow) ==> AttachedInFollow(g, lookaheads, an.Follow)
      ensures StartEnds(g, an.Follow) && SharersOnNoCycle(g, a, nullable, trans) && SharersApart(g, a, nullable, trans)
              ==> (AttachedInFollow(g, lookaheads, an.Follow) <==> ShareFollow(g, a, nullable, trans, an.Follow))
    {
      hide IsAutomaton, Includes, LooksBack, FollowClosed, ClosedUnderRules, FollowLists, SharedAlike, ListAt,
           IsLookahead, SharedInFollow, ShareFollow, SharersApart, SharersOnNoCycle;
      an.FirstSoundFacts();
      nullable := an.Nullable();
      trans := FindTransitions();
      FewTransitions(trans);
      var readsets, read := ComputeReadSets(trans, nullable, maxint);
      var lookdict, included := LookbackIncludes(trans, nullable);
      var sets, lists := ComputeFollowSets(trans, readsets, read, included, maxint, nullable);
      followsets, contents := sets, lists;
      AddLookaheads(trans, lookdict, sets, lists);
      LookaheadsFrom(lookdict, sets, lists, trans, nullable);
      forall s: nat, q | s < |a.states| && 0 < q < |g.productions| && Item(q, |g.productions[q].prod|) in a.states[s]
        ensures (s, Item(q, |g.productions[q].prod|)) in lookaheads
      {
        var z := CompleteLooksBack(g, a, s, q);
        assert z in trans && (s, Item(q, |g.productions[q].prod|)) in lookdict[z];
      }
      MakeContext(an, nullable);
      AttachedBounded(an.First, an.Follow, trans, nullable, followsets, contents);
      if SharedAlike(g, a, nullable, trans) && StartEnds(g, an.Follow) {
        forall j, r, x | Has(lookaheads, (j, r), x) ensures IsItem(g, r) && IsIn(an.Follow, Name(g, r), x)
        {
          LookaheadInFollow(g, a, an.First, an.Follow, nullable, trans, j, r, x);
        }
      }
    }

    lemma FewTransitions(trans: seq<Trans>)
      requires AllTransitions(g, a, trans) && Distinct(trans)
      ensures |trans| <= |a.goto|
    {
      DistinctInSet(trans, a.goto.Keys);
    }

    lemma LookaheadsFrom(lookdict: map<Trans, seq<(nat, Item)>>, followsets: map<Trans, nat>,
                         contents: seq<seq<Symbol>>, trans: seq<Trans>, nullable: set<Symbol>)
      requires WellFormed(g) && LookbacksDone(lookdict, trans)
      requires FollowLists(g, a, nullable, trans, followsets, contents)
      requires Attached(lookdict, followsets, contents, trans)
      ensures AttachedFrom(nullable, trans, followsets, contents)
      ensures forall j, r, x :: IsLookahead(g, a, nullable, trans, j, r, x) ==> Has(lookaheads, (j, r), x)
      ensures SharedAlike(g, a, nullable, trans) ==>
                forall j, r, x :: Has(lookaheads, (j, r), x) ==> IsLookahead(g, a, nullable, trans, j, r, x)
    {
      hide Followed, LooksBack, ListAt, SharedAlike, ReadTogether, OnNoCycle;
      forall j: nat, r: Item, x
        ensures Has(lookaheads, (j, r), x) <==>
                  exists z :: z in trans && LooksBack(g, a, j, r, z) && x in ListAt(followsets, contents, z)
      {
        if Has(lookaheads, (j, r), x) {
          var z :| z in trans && (j, r) in lookdict[z] && x in ListAt(followsets, contents, z);
          assert LooksBack(g, a, j, r, z);
        }
        if z :| z in trans && LooksBack(g, a, j, r, z) && x in ListAt(followsets, contents, z) {
          assert (j, r) in lookdict[z];
        }
      }
    }

    lemma MakeContext(an: Analysis, nullable: set<Symbol>)
      requires an.g == g && an.FirstDone() && |g.productions| > 1 && IsAutomaton(g, a)
      requires FollowClosed(g, an.First, an.Follow, g.productions[1].name)
      requires forall x :: IsSymbol(g, x) ==> (x in nullable <==> Derives(g, [x], []))
      requires forall x :: x in nullable ==> x in g.nonterminals
      ensures Context(g, a, an.First, an.Follow, nullable)
    {
      hide IsAutomaton, FollowClosed;
      forall x | x in nullable ensures EMPTY in an.First[x] {
        FirstExact(g, an.First, [x], EMPTY);
        assert [x][1..] == [];
      }
    }
  }
}
