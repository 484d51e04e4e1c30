/** What the items of a state propose for the parse table, and how conflicts are to be settled. */
module LRConflicts {
  import opened Wrappers
  import opened Grammars
  import opened LR0Items
  import opened LR0Paths
  import opened LRParser

  datatype Assoc = Left | Right | Nonassoc

  /** Associativity and level: of a production, or of a terminal. */
  datatype Prec = Prec(assoc: Assoc, level: int)

  /** The action that stands for a reduction. */
  function ReduceBy(number: nat): int { -(number as int) }

  type Lookaheads = map<(nat, Item), seq<Symbol>>

  /** The action that an item of state `s` proposes on `x`. */
  ghost predicate Proposes(g: Grammar, a: Automaton, la: Lookaheads, s: nat, i: Item, x: Symbol, act: int) {
    && s < |a.states| && i in a.states[s] && IsItem(g, i)
    && if IsComplete(g, i) then
         if i.number == 0 then x == END && act == 0 else act == ReduceBy(i.number) && (s, i) in la && x in la[(s, i)]
       else
         DotBefore(g, i, x) && x in g.terminals && (s, x) in a.goto && act == a.goto[(s, x)]
  }

  ghost predicate Candidate(g: Grammar, a: Automaton, la: Lookaheads, s: nat, x: Symbol, act: int) {
    exists i :: Proposes(g, a, la, s, i, x, act)
  }

  /** Nothing else is proposed. */
  ghost predicate Only(g: Grammar, a: Automaton, la: Lookaheads, s: nat, x: Symbol, act: int) {
    forall c :: Candidate(g, a, la, s, x, c) ==> c == act
  }

  /** No two actions are proposed for a state and a symbol. */
  ghost predicate ConflictFree(g: Grammar, a: Automaton, la: Lookaheads) {
    forall s: nat, x, c, d :: Candidate(g, a, la, s, x, c) && Candidate(g, a, la, s, x, d) ==> c == d
  }

  /** Every proposal is entered. */
  ghost predicate Filled(g: Grammar, a: Automaton, la: Lookaheads, table: ParseTable) {
    forall s: nat, x, act :: Candidate(g, a, la, s, x, act) ==> (s, x) in table.action && table.action[(s, x)] == act
  }

  /** Every entry is proposed, and what alone is proposed is entered. */
  ghost predicate FromCandidates(g: Grammar, a: Automaton, la: Lookaheads, table: ParseTable) {
    && (forall s: nat, x :: (s, x) in table.action ==> Candidate(g, a, la, s, x, table.action[(s, x)]))
    && (forall s: nat, x, act :: Candidate(g, a, la, s, x, act) && Only(g, a, la, s, x, act) ==>
          (s, x) in table.action && table.action[(s, x)] == act)
  }

  /** Every complete item has a list of lookaheads, except that of the augmented production. */
  ghost predicate HasLookaheads(g: Grammar, a: Automaton, la: Lookaheads) {
    forall s: nat, q :: s < |a.states| && 0 < q < |g.productions| && Item(q, |g.productions[q].prod|) in a.states[s] ==>
      (s, Item(q, |g.productions[q].prod|)) in la
  }

  /** A state that accepts and that has something else to do at the end of the input. */
  ghost predicate AcceptConflict(g: Grammar, a: Automaton, la: Lookaheads) {
    exists s, act :: act != 0 && Candidate(g, a, la, s, END, act) && Candidate(g, a, la, s, END, 0)
  }

  // ----- Conflicts -----

  predicate HasEntry(action: map<(nat, Symbol), int>, s: nat, x: Symbol, act: int) {
    (s, x) in action && action[(s, x)] == act
  }

  /** What a terminal is declared with. */
  function PrecedenceOf(precedence: map<Symbol, Prec>, x: Symbol): Prec {
    if x in precedence then precedence[x] else Prec(Right, 0)
  }

  /**
   The entry of an item that reduces and an item that shifts. `rule` is the precedence of the production of the item
   that comes first, whatever it does: its level counts for its own action, and the level of the terminal for the other
   one. Between equal levels the associativity decides, of the production if the item that reduces comes first, and of
   the terminal otherwise.
   */
  ghost predicate ByPrecedence(action: map<(nat, Symbol), int>, s: nat, x: Symbol, rule: Prec, token: Prec,
                               reduce: int, shift: int, reduceFirst: bool) {
    if rule.level > token.level then HasEntry(action, s, x, if reduceFirst then reduce else shift)
    else if rule.level < token.level then HasEntry(action, s, x, if reduceFirst then shift else reduce)
    else match (if reduceFirst then rule.assoc else token.assoc)
      case Left => HasEntry(action, s, x, reduce)
      case Right => HasEntry(action, s, x, shift)
      case Nonassoc => (s, x) !in action
  }

  /** No other item proposes anything. */
  ghost predicate OnlyTwo(g: Grammar, a: Automaton, la: Lookaheads, s: nat, x: Symbol, i: Item, k: Item) {
    forall j, act :: Proposes(g, a, la, s, j, x, act) ==> j == i || j == k
  }

  /**
   The entries where two items of a state are alone with their proposals: by precedence between a reduction and a
   shift, and the production of the earlier line, or else the first one, between two reductions.
   */
  ghost predicate PairSettled(g: Grammar, a: Automaton, la: Lookaheads, prec: seq<Prec>, lines: seq<int>, token: Prec,
                              action: map<(nat, Symbol), int>, s: nat, x: Symbol, i: Item, k: Item)
  {
    forall c, d :: Proposes(g, a, la, s, i, x, c) && Proposes(g, a, la, s, k, x, d) ==>
      && (c < 0 < d ==> i.number < |prec| && ByPrecedence(action, s, x, prec[i.number], token, c, d, true))
      && (d < 0 < c ==> i.number < |prec| && ByPrecedence(action, s, x, prec[i.number], token, d, c, false))
      && (c < 0 && d < 0 ==>
            && i.number < |lines| && k.number < |lines|
            && HasEntry(action, s, x, if lines[i.number] > lines[k.number] then d else c))
  }

  ghost predicate ConflictsSettled(g: Grammar, a: Automaton, la: Lookaheads, prec: seq<Prec>, lines: seq<int>,
                                   precedence: map<Symbol, Prec>, action: map<(nat, Symbol), int>)
  {
    forall s: nat, x, m, n ::
      s < |a.states| && 0 <= m < n < |a.states[s]| && OnlyTwo(g, a, la, s, x, a.states[s][m], a.states[s][n]) ==>
        PairSettled(g, a, la, prec, lines, if x in precedence then precedence[x] else Prec(Right, 0), action, s, x,
                    a.states[s][m], a.states[s][n])
  }

  /**
   A reduction and a shift of productions with the precedence of the terminal, as behind the two operands of one binary
   operator: the associativity decides, and the order of the items does not matter.
   */
  lemma AssociativityDecides(g: Grammar, a: Automaton, la: Lookaheads, prec: seq<Prec>, lines: seq<int>,
                             precedence: map<Symbol, Prec>, action: map<(nat, Symbol), int>, s: nat, x: Symbol,
                             i: Item, k: Item, reduce: int, shift: int)
    requires ConflictsSettled(g, a, la, prec, lines, precedence, action) && OnlyTwo(g, a, la, s, x, i, k)
    requires Proposes(g, a, la, s, i, x, reduce) && Proposes(g, a, la, s, k, x, shift) && reduce < 0 < shift
    requires i.number < |prec| && k.number < |prec| && prec[i.number] == prec[k.number]
    requires prec[i.number] == if x in precedence then precedence[x] else Prec(Right, 0)
    ensures prec[i.number].assoc == Left ==> (s, x) in action && action[(s, x)] == reduce
    ensures prec[i.number].assoc == Right ==> (s, x) in action && action[(s, x)] == shift
    ensures prec[i.number].assoc == Nonassoc ==> (s, x) !in action
  {
    hide Proposes, ConflictsSettled, OnlyTwo;
    InState(g, a, la, s, i, x, reduce);
    InState(g, a, la, s, k, x, shift);
    var m :| 0 <= m < |a.states[s]| && a.states[s][m] == i;
    var n :| 0 <= n < |a.states[s]| && a.states[s][n] == k;
    var token := if x in precedence then precedence[x] else Prec(Right, 0);
    if m == n {
      OneProposal(g, a, la, s, i, x, reduce, shift);
    } else {
      PairHere(g, a, la, prec, lines, precedence, action, s, x, m, n);
      if m < n {
        assert PairSettled(g, a, la, prec, lines, token, action, s, x, i, k);
      } else {
        assert PairSettled(g, a, la, prec, lines, token, action, s, x, k, i);
      }
    }
  }

  lemma PairHere(g: Grammar, a: Automaton, la: Lookaheads, prec: seq<Prec>, lines: seq<int>,
                 precedence: map<Symbol, Prec>, action: map<(nat, Symbol), int>, s: nat, x: Symbol, m: nat, n: nat)
    requires ConflictsSettled(g, a, la, prec, lines, precedence, action) && s < |a.states|
    requires m < |a.states[s]| && n < |a.states[s]| && m != n
    requires OnlyTwo(g, a, la, s, x, a.states[s][m], a.states[s][n])
    ensures (var token := if x in precedence then precedence[x] else Prec(Right, 0);
      var i, k := a.states[s][m], a.states[s][n];
      && (m < n ==> PairSettled(g, a, la, prec, lines, token, action, s, x, i, k))
      && (n < m ==> PairSettled(g, a, la, prec, lines, token, action, s, x, k, i)))
  {
    hide PairSettled;
    if n < m {
      Swapped(g, a, la, s, x, a.states[s][m], a.states[s][n]);
    }
  }

  lemma Swapped(g: Grammar, a: Automaton, la: Lookaheads, s: nat, x: Symbol, i: Item, k: Item)
    requires OnlyTwo(g, a, la, s, x, i, k)
    ensures OnlyTwo(g, a, la, s, x, k, i)
  {
    hide Proposes;
  }

  lemma InState(g: Grammar, a: Automaton, la: Lookaheads, s: nat, i: Item, x: Symbol, act: int)
    requires Proposes(g, a, la, s, i, x, act)
    ensures s < |a.states| && i in a.states[s] && i.number < |g.productions|
  {
  }

  lemma OneProposal(g: Grammar, a: Automaton, la: Lookaheads, s: nat, i: Item, x: Symbol, c: int, d: int)
    requires Proposes(g, a, la, s, i, x, c) && Proposes(g, a, la, s, i, x, d)
    ensures c == d
  {
  }

  // ----- How an entry comes about -----

  /** An entry, with the item that it comes from. */
  type Entry = Option<(int, Item)>

  function EntryOf(action: map<(nat, Symbol), int>, chosen: map<(nat, Symbol), Item>, s: nat, x: Symbol): Entry {
    if (s, x) in action && (s, x) in chosen then Some((action[(s, x)], chosen[(s, x)])) else None
  }

  ghost predicate InRange(e: Entry, size: nat) {
    e.Some? ==> e.value.1.number < size && (e.value.0 < 0 ==> -e.value.0 < size)
  }

  /** The entry `e` and the proposal `act` of item `i`. */
  function Decide(prec: seq<Prec>, lines: seq<int>, token: Prec, e: Entry, act: int, i: Item): (r: Entry)
    requires |prec| == |lines| && InRange(e, |prec|) && InRange(Some((act, i)), |prec|)
    ensures InRange(r, |prec|)
  {
    if e.None? || act == 0 then Some((act, i))
    else
      var (there, j) := e.value;
      if there < 0 && act < 0 then if lines[-there] > lines[i.number] then Some((act, i)) else e
      else if there < 0 < act || act < 0 < there then
        var rule := prec[j.number];
        var assoc := if there < 0 then rule.assoc else token.assoc;
        if rule.level < token.level || (rule.level == token.level && assoc == if act < 0 then Left else Right)
        then Some((act, i))
        else if rule.level == token.level && assoc == Nonassoc then None
        else e
      else e
  }

  /** What item `i` of state `s` proposes on `x`. */
  ghost function Proposal(g: Grammar, a: Automaton, la: Lookaheads, s: nat, i: Item, x: Symbol): (r: Option<int>)
    requires s < |a.states| && i in a.states[s]
    ensures forall act :: r == Some(act) <==> Proposes(g, a, la, s, i, x, act)
    ensures r.Some? ==> InRange(Some((r.value, i)), |g.productions|)
  {
    if !IsItem(g, i) then None
    else if IsComplete(g, i) then
      if i.number == 0 then if x == END then Some(0) else None
      else if (s, i) in la && x in la[(s, i)] then Some(ReduceBy(i.number)) else None
    else if DotBefore(g, i, x) && x in g.terminals && (s, x) in a.goto then Some(a.goto[(s, x)]) else None
  }

  /** The entry that the first `n` items of a state come to. */
  ghost function EntryAfter(g: Grammar, a: Automaton, la: Lookaheads, prec: seq<Prec>, lines: seq<int>, token: Prec,
                            s: nat, x: Symbol, n: nat): (e: Entry)
    requires s < |a.states| && n <= |a.states[s]| && |prec| == |lines| == |g.productions|
    ensures InRange(e, |g.productions|)
  {
    if n == 0 then None
    else
      var i := a.states[s][n - 1];
      var before := EntryAfter(g, a, la, prec, lines, token, s, x, n - 1);
      var p := Proposal(g, a, la, s, i, x);
      if p.None? then before else Decide(prec, lines, token, before, p.value, i)
  }

  lemma {:induction false} EntryBetween(g: Grammar, a: Automaton, la: Lookaheads, prec: seq<Prec>, lines: seq<int>,
                                        token: Prec, s: nat, x: Symbol, m: nat, n: nat)
    requires s < |a.states| && m <= n <= |a.states[s]| && |prec| == |lines| == |g.productions|
    requires forall k :: m <= k < n ==> Proposal(g, a, la, s, a.states[s][k], x).None?
    ensures EntryAfter(g, a, la, prec, lines, token, s, x, n) == EntryAfter(g, a, la, prec, lines, token, s, x, m)
    decreases n - m
  {
    hide Proposal, Decide;
    if m < n {
      EntryBetween(g, a, la, prec, lines, token, s, x, m, n - 1);
    }
  }

  lemma NoThird(g: Grammar, a: Automaton, la: Lookaheads, s: nat, x: Symbol, i: Item, k: Item, j: Item)
    requires OnlyTwo(g, a, la, s, x, i, k) && j != i && j != k && s < |a.states| && j in a.states[s]
    ensures Proposal(g, a, la, s, j, x).None?
  {
    hide Proposal, Proposes;
    forall act ensures Proposal(g, a, la, s, j, x) != Some(act) {
      assert Proposes(g, a, la, s, j, x, act) ==> j == i || j == k;
    }
  }

  /** Where two items are alone, the second one meets the entry of the first. */
  lemma TwoEntries(g: Grammar, a: Automaton, la: Lookaheads, prec: seq<Prec>, lines: seq<int>, token: Prec,
                   s: nat, x: Symbol, m: nat, n: nat, c: int, d: int)
    requires |prec| == |lines| == |g.productions| && s < |a.states| && m < n < |a.states[s]| && Distinct(a.states[s])
    requires OnlyTwo(g, a, la, s, x, a.states[s][m], a.states[s][n])
    requires Proposes(g, a, la, s, a.states[s][m], x, c) && Proposes(g, a, la, s, a.states[s][n], x, d)
    ensures InRange(Some((c, a.states[s][m])), |prec|) && InRange(Some((d, a.states[s][n])), |prec|)
    ensures EntryAfter(g, a, la, prec, lines, token, s, x, |a.states[s]|)
         == Decide(prec, lines, token, Some((c, a.states[s][m])), d, a.states[s][n])
  {
    hide Proposal, Decide, Proposes, OnlyTwo;
    var items := a.states[s];
    forall k | 0 <= k < |items| && k != m && k != n ensures Proposal(g, a, la, s, items[k], x).None? {
      NoThird(g, a, la, s, x, items[m], items[n], items[k]);
    }
    assert Proposal(g, a, la, s, items[m], x) == Some(c) && Proposal(g, a, la, s, items[n], x) == Some(d);
    EntryBetween(g, a, la, prec, lines, token, s, x, 0, m);
    EntryBetween(g, a, la, prec, lines, token, s, x, m + 1, n);
    EntryBetween(g, a, la, prec, lines, token, s, x, n + 1, |items|);
    FirstEntry(prec, lines, token, c, items[m]);
  }

  lemma FirstEntry(prec: seq<Prec>, lines: seq<int>, token: Prec, c: int, i: Item)
    requires |prec| == |lines| && InRange(Some((c, i)), |prec|)
    ensures Decide(prec, lines, token, None, c, i) == Some((c, i))
  {
  }

  /** Every entry is the one that the items of its state come to. */
  ghost predicate Evolved(g: Grammar, a: Automaton, la: Lookaheads, prec: seq<Prec>, lines: seq<int>,
                          precedence: map<Symbol, Prec>, action: map<(nat, Symbol), int>,
                          chosen: map<(nat, Symbol), Item>)
    requires |prec| == |lines| == |g.productions|
  {
    forall s: nat, x :: s < |a.states| ==>
      EntryOf(action, chosen, s, x)
      == EntryAfter(g, a, la, prec, lines, PrecedenceOf(precedence, x), s, x, |a.states[s]|)
  }

  lemma EvolvedIsSettled(g: Grammar, a: Automaton, la: Lookaheads, prec: seq<Prec>, lines: seq<int>,
                         precedence: map<Symbol, Prec>, action: map<(nat, Symbol), int>,
                         chosen: map<(nat, Symbol), Item>)
    requires |prec| == |lines| == |g.productions|
    requires WellFormed(g) && IsAutomaton(g, a) && action.Keys <= chosen.Keys
    requires Evolved(g, a, la, prec, lines, precedence, action, chosen)
    ensures ConflictsSettled(g, a, la, prec, lines, precedence, action)
  {
    hide WellFormed, IsAutomaton, Proposes, OnlyTwo, EntryAfter, PairSettled;
    forall s: nat, x, m, n |
      s < |a.states| && 0 <= m < n < |a.states[s]| && OnlyTwo(g, a, la, s, x, a.states[s][m], a.states[s][n])
      ensures PairSettled(g, a, la, prec, lines, if x in precedence then precedence[x] else Prec(Right, 0), action, s,
                          x, a.states[s][m], a.states[s][n])
    {
      StatesAreItemSets(g, a, s);
      PairEvolved(g, a, la, prec, lines, precedence, action, chosen, s, x, m, n);
    }
  }

  lemma PairEvolved(g: Grammar, a: Automaton, la: Lookaheads, prec: seq<Prec>, lines: seq<int>,
                    precedence: map<Symbol, Prec>, action: map<(nat, Symbol), int>, chosen: map<(nat, Symbol), Item>,
                    s: nat, x: Symbol, m: nat, n: nat)
    requires |prec| == |lines| == |g.productions| && action.Keys <= chosen.Keys
    requires s < |a.states| && m < n < |a.states[s]| && Distinct(a.states[s])
    requires OnlyTwo(g, a, la, s, x, a.states[s][m], a.states[s][n])
    requires Evolved(g, a, la, prec, lines, precedence, action, chosen)
    ensures PairSettled(g, a, la, prec, lines, PrecedenceOf(precedence, x), action, s, x, a.states[s][m],
                        a.states[s][n])
  {
    hide Proposes, OnlyTwo, EntryAfter, Decide, ByPrecedence, Distinct;
    var token, i, k := PrecedenceOf(precedence, x), a.states[s][m], a.states[s][n];
    forall c, d | Proposes(g, a, la, s, i, x, c) && Proposes(g, a, la, s, k, x, d)
      ensures i.number < |lines| && k.number < |lines|
      ensures c < 0 < d ==> ByPrecedence(action, s, x, prec[i.number], token, c, d, true)
      ensures d < 0 < c ==> ByPrecedence(action, s, x, prec[i.number], token, d, c, false)
      ensures c < 0 && d < 0 ==> HasEntry(action, s, x, if lines[i.number] > lines[k.number] then d else c)
    {
      TwoEntries(g, a, la, prec, lines, token, s, x, m, n, c, d);
      Reductions(g, a, la, s, i, x, c);
      assert (s, x) in action ==> (s, x) in chosen;
      DecidedPair(prec, lines, token, action, chosen, s, x, c, i, d, k);
    }
  }

  lemma Reductions(g: Grammar, a: Automaton, la: Lookaheads, s: nat, i: Item, x: Symbol, c: int)
    requires Proposes(g, a, la, s, i, x, c)
    ensures c < 0 ==> -c == i.number
  {
  }

  lemma DecidedPair(prec: seq<Prec>, lines: seq<int>, token: Prec, action: map<(nat, Symbol), int>,
                    chosen: map<(nat, Symbol), Item>, s: nat, x: Symbol, c: int, i: Item, d: int, k: Item)
    requires |prec| == |lines| && InRange(Some((c, i)), |prec|) && InRange(Some((d, k)), |prec|)
    requires (s, x) in action ==> (s, x) in chosen
    requires c < 0 ==> -c == i.number
    requires EntryOf(action, chosen, s, x) == Decide(prec, lines, token, Some((c, i)), d, k)
    ensures c < 0 < d ==> ByPrecedence(action, s, x, prec[i.number], token, c, d, true)
    ensures d < 0 < c ==> ByPrecedence(action, s, x, prec[i.number], token, d, c, false)
    ensures c < 0 && d < 0 ==> HasEntry(action, s, x, if lines[i.number] > lines[k.number] then d else c)
  {
  }
}
