/** The parse tables, and the generator that makes them. */
module LRTables {
  import opened Wrappers
  import opened Arithmetic
  import opened Grammars
  import opened FirstSets
  import opened FollowSets
  import opened GrammarAnalysis
  import opened LR0Items
  import opened LR0Paths
  import opened LR0Store
  import opened LR0Automaton
  import opened LRParser
  import opened LalrRelations
  import opened LalrGenerator
  import opened LRConflicts

  lemma CandidateKinds(g: Grammar, a: Automaton, la: Lookaheads, s: nat, x: Symbol, act: int)
    requires WellFormed(g) && IsAutomaton(g, a) && END !in g.terminals && Candidate(g, a, la, s, x, act)
    ensures ActionJustified(g, a, s, x, act)
  {
    hide IsAutomaton;
    var i :| Proposes(g, a, la, s, i, x, act);
    if !IsComplete(g, i) {
      AcrossTransition(g, a, (s, x));
    }
  }

  class Builder {
    const g: Grammar
    const a: Automaton
    const la: Lookaheads
    const prec: seq<Prec>
    const lines: seq<int>
    const precedence: map<Symbol, Prec>
    /** `st_action` and `st_actionp` of all states; an entry that was set to None is left out. */
    var action: map<(nat, Symbol), int>
    var chosen: map<(nat, Symbol), Item>
    var goto: map<(nat, Symbol), nat>

    constructor (g: Grammar, a: Automaton, la: Lookaheads, prec: seq<Prec>, lines: seq<int>,
                 precedence: map<Symbol, Prec>)
      ensures this.g == g && this.a == a && this.la == la && this.prec == prec && this.lines == lines
      ensures this.precedence == precedence && action == map[] && chosen == map[] && goto == map[]
    {
      this.g, this.a, this.la, this.prec, this.lines, this.precedence := g, a, la, prec, lines, precedence;
      action, chosen, goto := map[], map[], map[];
    }

    ghost predicate Ready() {
      && WellFormed(g) && IsAutomaton(g, a) && END !in g.terminals && HasLookaheads(g, a, la) && NamedOnce(la)
      && |prec| == |g.productions| && |lines| == |g.productions|
    }

    /** Every entry was proposed. */
    ghost predicate Sound()
      reads this`action, this`chosen
    {
      forall s: nat, x :: (s, x) in action ==>
        && Candidate(g, a, la, s, x, action[(s, x)]) && ActionJustified(g, a, s, x, action[(s, x)])
        && (s, x) in chosen && chosen[(s, x)].number < |g.productions|
    }

    /** What item `i` proposes for state `s` on `x`, if nothing else is proposed, is entered. */
    ghost predicate EnteredOn(action: map<(nat, Symbol), int>, s: nat, i: Item, x: Symbol) {
      forall act :: Proposes(g, a, la, s, i, x, act) && Only(g, a, la, s, x, act) ==>
        (s, x) in action && action[(s, x)] == act
    }

    ghost predicate Entered(action: map<(nat, Symbol), int>, s: nat, i: Item) {
      forall x :: EnteredOn(action, s, i, x)
    }

    /** Nothing that was entered is lost. */
    ghost predicate Keeps(before: map<(nat, Symbol), int>, after: map<(nat, Symbol), int>) {
      forall s: nat, i, x :: EnteredOn(before, s, i, x) ==> EnteredOn(after, s, i, x)
    }

    /** The effect of one proposal: it is entered where there was nothing, and confirmed where it was there. */
    ghost predicate Updated(before: map<(nat, Symbol), int>, s: nat, x: Symbol, act: int)
      reads this`action
    {
      && (forall t: nat, y :: (t, y) != (s, x) ==> ((t, y) in action <==> (t, y) in before))
      && (forall t: nat, y :: (t, y) != (s, x) && (t, y) in action ==> action[(t, y)] == before[(t, y)])
      && (((s, x) in before ==> before[(s, x)] == act) ==> (s, x) in action && action[(s, x)] == act)
    }

    /** The proposal `act` of item `i` meets the entry that was there, and nothing else changes. */
    ghost predicate Decided(before: map<(nat, Symbol), int>, items: map<(nat, Symbol), Item>, s: nat, i: Item,
                            x: Symbol, act: int)
      requires |prec| == |lines|
      reads this`action, this`chosen
    {
      && (forall t: nat, y :: (t, y) != (s, x) ==> EntryOf(action, chosen, t, y) == EntryOf(before, items, t, y))
      && InRange(EntryOf(before, items, s, x), |prec|) && InRange(Some((act, i)), |prec|)
      && EntryOf(action, chosen, s, x)
         == Decide(prec, lines, PrecedenceOf(precedence, x), EntryOf(before, items, s, x), act, i)
    }

    /** The same for a whole item: it meets the entries on all symbols that it proposes something on. */
    ghost predicate ItemDecided(before: map<(nat, Symbol), int>, items: map<(nat, Symbol), Item>, s: nat, i: Item)
      requires |prec| == |lines| == |g.productions| && s < |a.states| && i in a.states[s]
      reads this`action, this`chosen
    {
      && (forall t: nat, y :: t != s ==> EntryOf(action, chosen, t, y) == EntryOf(before, items, t, y))
      && forall y :: Met(EntryOf(before, items, s, y), EntryOf(action, chosen, s, y), s, i, y)
    }

    ghost predicate Met(before: Entry, after: Entry, s: nat, i: Item, y: Symbol)
      requires |prec| == |lines| == |g.productions| && s < |a.states| && i in a.states[s]
    {
      var p := Proposal(g, a, la, s, i, y);
      if p.None? then after == before
      else
        && InRange(before, |prec|)
        && after == Decide(prec, lines, PrecedenceOf(precedence, y), before, p.value, i)
    }

    /** The first `k` items of state `s`, and all items of the states before, have been decided. */
    ghost predicate DoneTo(action: map<(nat, Symbol), int>, chosen: map<(nat, Symbol), Item>, s: nat, k: nat)
      requires |prec| == |lines| == |g.productions| && (s < |a.states| ==> k <= |a.states[s]|)
    {
      forall t: nat, y :: t < |a.states| ==>
        EntryOf(action, chosen, t, y)
        == EntryAfter(g, a, la, prec, lines, PrecedenceOf(precedence, y), t, y,
                      if t < s then |a.states[t]| else if t == s then k else 0)
    }

    /**
     The reduction by a complete item, on one lookahead. A shift gives way by precedence, another reduction if its
     production stands on a later line; where the end of the input is accepted there is nothing to choose.
     */
    method AddReduce(s: nat, i: Item, x: Symbol) returns (ok: bool)
      requires Ready() && Sound() && i.number > 0 && Proposes(g, a, la, s, i, x, ReduceBy(i.number))
      modifies this`action, this`chosen
      ensures Sound() && (ok ==> Updated(old(action), s, x, ReduceBy(i.number)))
      ensures !ok ==> AcceptConflict(g, a, la)
      ensures ok <==> (s, x) !in old(action) || old(action)[(s, x)] != 0
      ensures (s, x) !in old(action) ==>
                action == old(action)[(s, x) := -(i.number as int)] && chosen == old(chosen)[(s, x) := i]
      ensures (s, x) in old(action) && old(action)[(s, x)] > 0 ==>
                var there := prec[old(chosen)[(s, x)].number].level;
                var token := if x in precedence then precedence[x] else Prec(Right, 0);
                && (there > token.level || (there == token.level && token.assoc == Right) ==>
                      action == old(action) && chosen == old(chosen))
                && (there < token.level || (there == token.level && token.assoc == Left) ==>
                      action == old(action)[(s, x) := -(i.number as int)] && chosen == old(chosen)[(s, x) := i])
                && (there == token.level && token.assoc == Nonassoc ==>
                      action == old(action) - {(s, x)} && chosen == old(chosen))
      ensures (s, x) in old(action) && old(action)[(s, x)] < 0 ==>
                && -old(action)[(s, x)] < |lines|
                && (lines[-old(action)[(s, x)]] <= lines[i.number] ==> action == old(action) && chosen == old(chosen))
                && (lines[-old(action)[(s, x)]] > lines[i.number] ==>
                      action == old(action)[(s, x) := -(i.number as int)] && chosen == old(chosen)[(s, x) := i])
      ensures ok ==> Decided(old(action), old(chosen), s, i, x, ReduceBy(i.number))
    {
      hide WellFormed, IsAutomaton, HasLookaheads, Proposes, AcceptConflict;
      assert Candidate(g, a, la, s, x, ReduceBy(i.number));
      CandidateKinds(g, a, la, s, x, ReduceBy(i.number));
      if (s, x) !in action {
        action, chosen := action[(s, x) := ReduceBy(i.number)], chosen[(s, x) := i];
        return true;
      }
      var r := action[(s, x)];
      assert Candidate(g, a, la, s, x, r) && ActionJustified(g, a, s, x, r);
      if r > 0 {
        var slevel := prec[chosen[(s, x)].number].level;
        var token := PrecedenceOf(precedence, x);
        if slevel < token.level || (slevel == token.level && token.assoc == Left) {
          action, chosen := action[(s, x) := ReduceBy(i.number)], chosen[(s, x) := i];
        } else if slevel == token.level && token.assoc == Nonassoc {
          action := action - {(s, x)};
        }
      } else if r < 0 {
        if lines[-r] > lines[i.number] {
          action, chosen := action[(s, x) := ReduceBy(i.number)], chosen[(s, x) := i];
        }
      } else {
        Conflicting(s, i, x);
        return false;
      }
      ok := true;
    }

    lemma Conflicting(s: nat, i: Item, x: Symbol)
      requires i.number > 0 && Candidate(g, a, la, s, x, ReduceBy(i.number)) && Candidate(g, a, la, s, x, 0)
      requires ActionJustified(g, a, s, x, 0)
      ensures AcceptConflict(g, a, la)
    {
    }

    /**
     The shift of the terminal after the dot. The source's checks for other shifts and for acceptance are left out:
     a transition has one target, and acceptance is on the end of the input, which is no terminal to shift.
     */
    method AddShift(s: nat, i: Item, x: Symbol)
      requires Ready() && Sound() && (s, x) in a.goto && Proposes(g, a, la, s, i, x, a.goto[(s, x)])
      requires a.goto[(s, x)] > 0
      modifies this`action, this`chosen
      ensures Sound() && Updated(old(action), s, x, a.goto[(s, x)])
      ensures (s, x) !in old(action) ==>
                action == old(action)[(s, x) := a.goto[(s, x)]] && chosen == old(chosen)[(s, x) := i]
      ensures (s, x) in old(action) && old(action)[(s, x)] >= 0 ==> action == old(action) && chosen == old(chosen)
      ensures (s, x) in old(action) && old(action)[(s, x)] < 0 ==>
                var there := prec[old(chosen)[(s, x)].number];
                var token := (if x in precedence then precedence[x] else Prec(Right, 0)).level;
                && (there.level > token || (there.level == token && there.assoc == Left) ==>
                      action == old(action) && chosen == old(chosen))
                && (there.level < token || (there.level == token && there.assoc == Right) ==>
                      action == old(action)[(s, x) := a.goto[(s, x)]] && chosen == old(chosen)[(s, x) := i])
                && (there.level == token && there.assoc == Nonassoc ==>
                      action == old(action) - {(s, x)} && chosen == old(chosen))
      ensures Decided(old(action), old(chosen), s, i, x, a.goto[(s, x)])
    {
      hide WellFormed, IsAutomaton, HasLookaheads, Proposes;
      var j := a.goto[(s, x)];
      assert Candidate(g, a, la, s, x, j);
      CandidateKinds(g, a, la, s, x, j);
      ItemNumber(s, i, x, j);
      if (s, x) !in action {
        action, chosen := action[(s, x) := j], chosen[(s, x) := i];
        return;
      }
      var r := action[(s, x)];
      assert ActionJustified(g, a, s, x, r);
      if r < 0 {
        var rule := prec[chosen[(s, x)].number];
        var slevel := PrecedenceOf(precedence, x).level;
        if slevel > rule.level || (slevel == rule.level && rule.assoc == Right) {
          action, chosen := action[(s, x) := j], chosen[(s, x) := i];
        } else if slevel == rule.level && rule.assoc == Nonassoc {
          action := action - {(s, x)};
        }
      }
    }

    lemma ItemNumber(s: nat, i: Item, x: Symbol, act: int)
      requires Proposes(g, a, la, s, i, x, act)
      ensures i.number < |g.productions|
    {
    }

    lemma UpdatedKeeps(before: map<(nat, Symbol), int>, s: nat, i: Item, x: Symbol, act: int)
      requires Updated(before, s, x, act) && Proposes(g, a, la, s, i, x, act)
      requires (s, x) in before ==> Candidate(g, a, la, s, x, before[(s, x)])
      ensures Keeps(before, action) && EnteredOn(action, s, i, x)
    {
      hide Proposes;
      assert Candidate(g, a, la, s, x, act);
      forall t: nat, j, y | EnteredOn(before, t, j, y) ensures EnteredOn(action, t, j, y) {
        forall c | Proposes(g, a, la, t, j, y, c) && Only(g, a, la, t, y, c)
          ensures (t, y) in action && action[(t, y)] == c
        {
          assert (t, y) == (s, x) ==> c == act;
        }
      }
      forall c | Proposes(g, a, la, s, i, x, c) && Only(g, a, la, s, x, c)
        ensures (s, x) in action && action[(s, x)] == c
      {
        assert c == act;
      }
    }

    /** An item with one proposal. */
    lemma OneDecided(before: map<(nat, Symbol), int>, items: map<(nat, Symbol), Item>, s: nat, i: Item, x: Symbol,
                     act: int)
      requires |prec| == |lines| == |g.productions| && s < |a.states| && i in a.states[s]
      requires Decided(before, items, s, i, x, act) && Proposes(g, a, la, s, i, x, act)
      requires forall y, c :: Proposes(g, a, la, s, i, y, c) ==> y == x
      ensures ItemDecided(before, items, s, i)
    {
      hide Proposes, Decide, InRange, EntryOf, Proposal;
      forall y ensures Met(EntryOf(before, items, s, y), EntryOf(action, chosen, s, y), s, i, y) {
        if y == x {
          assert Proposal(g, a, la, s, i, y) == Some(act);
        } else {
          NoProposal(s, i, y);
        }
      }
    }

    lemma NoProposal(s: nat, i: Item, y: Symbol)
      requires s < |a.states| && i in a.states[s] && forall c :: !Proposes(g, a, la, s, i, y, c)
      ensures Proposal(g, a, la, s, i, y).None?
    {
      hide Proposal, Proposes;
      forall c ensures Proposal(g, a, la, s, i, y) != Some(c) {
        assert !Proposes(g, a, la, s, i, y, c);
      }
    }

    /** An item without proposals, or one that has not changed anything. */
    lemma NoneDecided(s: nat, i: Item)
      requires |prec| == |lines| == |g.productions| && s < |a.states| && i in a.states[s]
      requires forall y, c :: !Proposes(g, a, la, s, i, y, c)
      ensures ItemDecided(action, chosen, s, i)
    {
      hide Proposes, Proposal;
      forall y ensures Proposal(g, a, la, s, i, y).None? { NoProposal(s, i, y); }
    }

    /** A complete item that has met the entries on all its lookaheads. */
    lemma LookaheadsDecided(before: map<(nat, Symbol), int>, items: map<(nat, Symbol), Item>, s: nat, i: Item,
                            xs: seq<Symbol>)
      requires |prec| == |lines| == |g.productions| && s < |a.states| && i in a.states[s]
      requires forall y, c :: Proposes(g, a, la, s, i, y, c) ==> y in xs
      requires forall t: nat, y :: t != s || y !in xs ==> EntryOf(action, chosen, t, y) == EntryOf(before, items, t, y)
      requires forall y :: y in xs ==> Met(EntryOf(before, items, s, y), EntryOf(action, chosen, s, y), s, i, y)
      ensures ItemDecided(before, items, s, i)
    {
      hide Proposes, Proposal, Decide, EntryOf;
      forall y ensures Met(EntryOf(before, items, s, y), EntryOf(action, chosen, s, y), s, i, y) {
        if y !in xs { NoProposal(s, i, y); }
      }
    }

    /** One item more. */
    lemma DoneMore(before: map<(nat, Symbol), int>, items: map<(nat, Symbol), Item>, s: nat, k: nat)
      requires |prec| == |lines| == |g.productions| && s < |a.states| && k < |a.states[s]|
      requires DoneTo(before, items, s, k) && ItemDecided(before, items, s, a.states[s][k])
      ensures DoneTo(action, chosen, s, k + 1)
    {
      hide Decide, EntryOf, Proposal, InRange;
      forall t: nat, y | t < |a.states|
        ensures EntryOf(action, chosen, t, y)
             == EntryAfter(g, a, la, prec, lines, PrecedenceOf(precedence, y), t, y,
                           if t < s then |a.states[t]| else if t == s then k + 1 else 0)
      {
        assert EntryOf(before, items, t, y)
            == EntryAfter(g, a, la, prec, lines, PrecedenceOf(precedence, y), t, y,
                          if t < s then |a.states[t]| else if t == s then k else 0);
        if t == s {
          assert Met(EntryOf(before, items, s, y), EntryOf(action, chosen, s, y), s, a.states[s][k], y);
        }
      }
    }

    lemma DoneNext(s: nat)
      requires |prec| == |lines| == |g.productions| && s < |a.states| && DoneTo(action, chosen, s, |a.states[s]|)
      ensures DoneTo(action, chosen, s + 1, 0)
    {
      hide EntryOf, EntryAfter;
    }

    lemma SoundAt(s: nat, x: Symbol)
      requires Sound() && (s, x) in action
      ensures Candidate(g, a, la, s, x, action[(s, x)])
    {
    }

    /** Enters what one item of a state proposes. */
    method AddItem(s: nat, i: Item) returns (ok: bool)
      requires Ready() && Sound() && s < |a.states| && i in a.states[s]
      modifies this`action, this`chosen
      ensures Sound() && (ok ==> Keeps(old(action), action) && Entered(action, s, i))
      ensures ok ==> ItemDecided(old(action), old(chosen), s, i)
      ensures !ok ==> AcceptConflict(g, a, la)
    {
      hide WellFormed, IsAutomaton, Updated, Candidate, Only, HasLookaheads, Sound, EnteredOn, AcceptConflict;
      hide NamedOnce, ItemDecided, Decided;
      ItemIsItem(s, i);
      if IsComplete(g, i) {
        if i.number == 0 {
          Accept(s, i);
          NothingElse(s, i, [END], END);
          return true;
        }
        LookaheadsThere(s, i);
        ok := AddReductions(s, i);
        if ok { NothingOther(s, i, la[(s, i)]); }
      } else {
        var x := g.productions[i.number].prod[i.dot];
        NothingElse(s, i, [x], x);
        if x in g.terminals {
          ItemMoves(g, a, s, i, x);
          AcrossTransition(g, a, (s, x));
          ghost var before, items := action, chosen;
          if (s, x) in action { SoundAt(s, x); }
          AddShift(s, i, x);
          UpdatedKeeps(before, s, i, x, a.goto[(s, x)]);
          OneDecided(before, items, s, i, x, a.goto[(s, x)]);
        } else {
          NotShifted(action, s, i, x);
          NoneDecided(s, i);
        }
        ok := true;
      }
    }

    lemma ItemIsItem(s: nat, i: Item)
      requires WellFormed(g) && IsAutomaton(g, a) && s < |a.states| && i in a.states[s]
      ensures IsItem(g, i) && (i.number == 0 && IsComplete(g, i) ==> i == Item(0, 1))
    {
      hide IsAutomaton;
      StatesAreItemSets(g, a, s);
    }

    lemma LookaheadsThere(s: nat, i: Item)
      requires HasLookaheads(g, a, la) && s < |a.states| && i in a.states[s] && IsItem(g, i) && IsComplete(g, i)
      requires i.number > 0
      ensures (s, i) in la
    {
      assert i == Item(i.number, |g.productions[i.number].prod|);
    }

    /** An item proposes nothing on other symbols than its lookaheads, or the symbol after its dot. */
    lemma NothingElse(s: nat, i: Item, xs: seq<Symbol>, x: Symbol)
      requires IsItem(g, i) && xs == [x] && (if IsComplete(g, i) then i.number == 0 && x == END else DotBefore(g, i, x))
      ensures forall action, y :: y != x ==> EnteredOn(action, s, i, y)
    {
    }

    lemma NothingOther(s: nat, i: Item, xs: seq<Symbol>)
      requires IsItem(g, i) && IsComplete(g, i) && i.number > 0 && (s, i) in la && xs == la[(s, i)]
      ensures forall action, y :: y !in xs ==> EnteredOn(action, s, i, y)
    {
    }

    lemma NotShifted(action: map<(nat, Symbol), int>, s: nat, i: Item, x: Symbol)
      requires DotBefore(g, i, x) && x !in g.terminals
      ensures EnteredOn(action, s, i, x)
    {
    }

    method Accept(s: nat, i: Item)
      requires Ready() && Sound() && s < |a.states| && i in a.states[s] && i == Item(0, 1)
      modifies this`action, this`chosen
      ensures Sound() && Keeps(old(action), action) && EnteredOn(action, s, i, END)
      ensures ItemDecided(old(action), old(chosen), s, i)
    {
      hide WellFormed, IsAutomaton, HasLookaheads, EnteredOn, Keeps, Only, ItemDecided, NamedOnce;
      assert IsItem(g, i) && IsComplete(g, i) by { StartItem(i); }
      assert Proposes(g, a, la, s, i, END, 0) && Candidate(g, a, la, s, END, 0);
      CandidateKinds(g, a, la, s, END, 0);
      ghost var before, items := action, chosen;
      action, chosen := action[(s, END) := 0], chosen[(s, END) := i];
      UpdatedKeeps(before, s, i, END, 0);
      OneDecided(before, items, s, i, END, 0);
    }

    lemma StartItem(i: Item)
      requires WellFormed(g) && i == Item(0, 1)
      ensures IsItem(g, i) && IsComplete(g, i)
    {
    }

    method AddReductions(s: nat, i: Item) returns (ok: bool)
      requires Ready() && Sound() && s < |a.states| && i in a.states[s] && IsItem(g, i) && IsComplete(g, i)
      requires i.number > 0 && (s, i) in la
      modifies this`action, this`chosen
      ensures Sound()
      ensures (ok ==> Keeps(old(action), action) && forall x :: x in la[(s, i)] ==> EnteredOn(action, s, i, x))
      ensures ok ==> ItemDecided(old(action), old(chosen), s, i)
      ensures !ok ==> AcceptConflict(g, a, la)
    {
      hide WellFormed, IsAutomaton, Updated, Candidate, Only, HasLookaheads, Sound, EnteredOn, AcceptConflict,
           ItemDecided, EntryOf, Decide, Proposal, InRange;
      var xs := la[(s, i)];
      for k := 0 to |xs|
        invariant forall t: nat, y :: t != s || y !in xs[..k] ==>
                    EntryOf(action, chosen, t, y) == EntryOf(old(action), old(chosen), t, y)
        invariant forall y :: y in xs[..k] ==>
                    Met(EntryOf(old(action), old(chosen), s, y), EntryOf(action, chosen, s, y), s, i, y)
        invariant Sound() && Keeps(old(action), action)
        invariant forall m :: 0 <= m < k ==> EnteredOn(action, s, i, xs[m])
      {
        ghost var before := action;
        if (s, xs[k]) in action { SoundAt(s, xs[k]); }
        ok := AddReduce(s, i, xs[k]);
        if !ok { return; }
        UpdatedKeeps(before, s, i, xs[k], ReduceBy(i.number));
        assert Proposal(g, a, la, s, i, xs[k]) == Some(ReduceBy(i.number));
        assert xs[k] !in xs[..k] && forall y :: y in xs[..k + 1] <==> y in xs[..k] || y == xs[k];
      }
      assert xs[..|xs|] == xs;
      LookaheadsDecided(old(action), old(chosen), s, i, xs);
      ok := true;
    }

    lemma NothingDone()
      requires |prec| == |lines| == |g.productions| && action == map[]
      ensures DoneTo(action, chosen, 0, 0)
    {
    }

    /** The rows of the action table, state by state. */
    method AddStates() returns (ok: bool)
      requires Ready() && Sound()
      modifies this`action, this`chosen
      requires action == map[] && chosen == map[]
      ensures Sound() && (ok ==> forall s: nat, i :: s < |a.states| && i in a.states[s] ==> Entered(action, s, i))
      ensures ok ==> DoneTo(action, chosen, |a.states|, 0)
      ensures !ok ==> AcceptConflict(g, a, la)
    {
      hide WellFormed, IsAutomaton, HasLookaheads, NamedOnce, Sound, EnteredOn, AcceptConflict, ItemDecided, DoneTo;
      assert DoneTo(action, chosen, 0, 0) by { NothingDone(); }
      for s := 0 to |a.states|
        invariant Sound() && DoneTo(action, chosen, s, 0)
        invariant forall t: nat, i :: t < s && i in a.states[t] ==> Entered(action, t, i)
      {
        var items := a.states[s];
        for k := 0 to |items|
          invariant Sound() && DoneTo(action, chosen, s, k)
          invariant forall t: nat, i :: t < s && i in a.states[t] ==> Entered(action, t, i)
          invariant forall m :: 0 <= m < k ==> Entered(action, s, items[m])
        {
          ghost var before, choice := action, chosen;
          ok := AddItem(s, items[k]);
          if !ok { return; }
          DoneMore(before, choice, s, k);
        }
        DoneNext(s);
      }
      ok := true;
    }

    /** The goto table: the transitions over nonterminals. */
    method AddGotos()
      requires WellFormed(g) && IsAutomaton(g, a) && goto == map[]
      modifies this`goto
      ensures forall s: nat, x :: (s, x) in goto <==> (s, x) in a.goto && x in g.nonterminals
      ensures forall s: nat, x :: (s, x) in goto ==> goto[(s, x)] == a.goto[(s, x)]
    {
      hide WellFormed, IsAutomaton;
      for s := 0 to |a.states|
        invariant forall t: nat, x :: (t, x) in goto ==>
                    (t, x) in a.goto && x in g.nonterminals && goto[(t, x)] == a.goto[(t, x)]
        invariant forall t: nat, x :: t < s && (t, x) in a.goto && x in g.nonterminals ==> (t, x) in goto
      {
        var items := a.states[s];
        StatesAreItemSets(g, a, s);
        for k := 0 to |items|
          invariant forall t: nat, x :: (t, x) in goto ==>
                      (t, x) in a.goto && x in g.nonterminals && goto[(t, x)] == a.goto[(t, x)]
          invariant forall t: nat, x :: t < s && (t, x) in a.goto && x in g.nonterminals ==> (t, x) in goto
          invariant forall m :: 0 <= m < k ==> GotosOf(s, ProdOf(g, items[m]))
        {
          assert items[k] in items;
          AddGotosOf(s, ProdOf(g, items[k]));
        }
        forall x | (s, x) in a.goto && x in g.nonterminals ensures (s, x) in goto {
          var i := ItemOver(g, a, s, x);
          var m :| 0 <= m < |items| && items[m] == i;
          assert GotosOf(s, ProdOf(g, items[m]));
          assert ProdOf(g, i)[i.dot] == x;
        }
      }
      forall s: nat, x | (s, x) in a.goto && x in g.nonterminals ensures (s, x) in goto {
        AcrossTransition(g, a, (s, x));
      }
    }

    ghost predicate GotosOf(s: nat, prod: seq<Symbol>)
      reads this`goto
    {
      forall d :: 0 <= d < |prod| && (s, prod[d]) in a.goto && prod[d] in g.nonterminals ==> (s, prod[d]) in goto
    }

    method AddGotosOf(s: nat, prod: seq<Symbol>)
      requires forall t: nat, x :: (t, x) in goto ==>
                 (t, x) in a.goto && x in g.nonterminals && goto[(t, x)] == a.goto[(t, x)]
      modifies this`goto
      ensures forall t: nat, x :: (t, x) in goto ==>
                (t, x) in a.goto && x in g.nonterminals && goto[(t, x)] == a.goto[(t, x)]
      ensures old(goto).Keys <= goto.Keys && GotosOf(s, prod)
    {
      for d := 0 to |prod|
        invariant forall t: nat, x :: (t, x) in goto ==>
                    (t, x) in a.goto && x in g.nonterminals && goto[(t, x)] == a.goto[(t, x)]
        invariant old(goto).Keys <= goto.Keys && GotosOf(s, prod[..d])
      {
        assert prod[..d + 1] == prod[..d] + [prod[d]];
        if prod[d] in g.nonterminals && (s, prod[d]) in a.goto {
          goto := goto[(s, prod[d]) := a.goto[(s, prod[d])]];
        }
      }
      assert prod[..|prod|] == prod;
    }

    /**
     The tables of `lr_parse_table`. Every entry is proposed by an item of its state; where only one action is proposed,
     that is the entry; where two are, it is settled by precedence or by the order of the productions; and the
     construction gives up only on a state that has something else to do when it accepts.
     */
    method Build() returns (table: Option<ParseTable>)
      requires Ready() && action == map[] && chosen == map[] && goto == map[]
      modifies this
      ensures table.Some? ==> Justified(g, a, table.value)
      ensures table.Some? ==> FromCandidates(g, a, la, table.value)
      ensures table.Some? ==> ConflictsSettled(g, a, la, prec, lines, precedence, table.value.action)
      ensures table.None? ==> AcceptConflict(g, a, la)
    {
      hide WellFormed, IsAutomaton, Proposes, Only, ActionJustified, AcceptConflict, ConflictsSettled, EntryAfter,
           EntryOf, NamedOnce, HasLookaheads;
      var ok := AddStates();
      if !ok { return None; }
      AddGotos();
      table := Some(ParseTable(action, goto));
      assert action.Keys <= chosen.Keys by {
        forall p | p in action ensures p in chosen { assert (p.0, p.1) in action; }
      }
      EvolvedIsSettled(g, a, la, prec, lines, precedence, action, chosen);
      forall s: nat, x, act | Candidate(g, a, la, s, x, act) && Only(g, a, la, s, x, act)
        ensures (s, x) in action && action[(s, x)] == act
      {
        var i :| Proposes(g, a, la, s, i, x, act);
        ProposesHere(s, i, x, act);
        assert EnteredOn(action, s, i, x);
      }
    }

    lemma ProposesHere(s: nat, i: Item, x: Symbol, act: int)
      requires Proposes(g, a, la, s, i, x, act)
      ensures s < |a.states| && i in a.states[s]
    {
    }
  }

  method CollectStates(g: Grammar) returns (a: Automaton)
    requires |g.productions| > 0
    ensures IsAutomaton(g, a) && OneTarget(g, a) && |a.goto| <= (KernelBound(g) + 1) * |SymbolSet(g)|
  {
    hide IsAutomaton, Built, OneTarget, LR0Store.Valid, AllFollowed, Listed;
    var c := new Collection(g);
    var C := c.ItemSets();
    a := c.Tabulate(C);
    FewGotos(g, a);
    MulMonotone(|C|, KernelBound(g) + 1, |SymbolSet(g)|);
  }

  /** The lookaheads of the items, and the nullable nonterminals and the transitions that they were computed from. */
  datatype Found = Found(la: Lookaheads, nullable: set<Symbol>, trans: seq<Trans>)

  /** The lookaheads of DeRemer and Pennello are among those found. */
  ghost predicate Enough(g: Grammar, a: Automaton, f: Found)
    requires WellFormed(g)
  {
    && AllTransitions(g, a, f.trans) && AreNullable(g, f.nullable)
    && forall j, r, x :: IsLookahead(g, a, f.nullable, f.trans, j, r, x) ==> Has(f.la, (j, r), x)
  }

  /** Nothing else is found. */
  ghost predicate Exact(g: Grammar, a: Automaton, f: Found)
    requires WellFormed(g)
  {
    forall j, r, x :: Has(f.la, (j, r), x) ==> IsLookahead(g, a, f.nullable, f.trans, j, r, x)
  }

  /**
   `LRGeneratedTable`: the whole generator. Tables that it makes are justified by the automaton, so every parse that
   they accept is one of the grammar. A reduction is made only on symbols in FOLLOW of its production's name if the
   lookaheads of all items are in FOLLOW; the clauses below say when they are, in terms of the transitions that share a
   list. Without conflicts there are tables, and they have every action that the items propose.
   */
  method Generate(g: Grammar, prec: seq<Prec>, lines: seq<int>, precedence: map<Symbol, Prec>, maxint: int)
    returns (table: Option<ParseTable>, a: Automaton, an: Analysis, ghost f: Found)
    requires WellFormed(g) && |g.productions| > 1 && END !in g.terminals
    requires forall n :: n in g.nonterminals ==> ProdsOf(g, n, |g.productions|) != []
    requires |prec| == |g.productions| && |lines| == |g.productions|
    requires (KernelBound(g) + 1) * |SymbolSet(g)| < maxint
    ensures IsAutomaton(g, a) && fresh(an) && an.g == g && an.FirstDone() && Enough(g, a, f)
    ensures FollowClosed(g, an.First, an.Follow, g.productions[1].name)
    ensures table.Some? ==> Justified(g, a, table.value)
    ensures table.Some? && AttachedInFollow(g, f.la, an.Follow) ==> ReducesInFollow(g, an.Follow, table.value)
    ensures g.productions[1].name == StartSymbol(g) ==> StartEnds(g, an.Follow)
    ensures Alike(g, a) ==> Exact(g, a, f)
    ensures StartEnds(g, an.Follow) && Alike(g, a) ==> AttachedInFollow(g, f.la, an.Follow)
    ensures SharedInFollow(g, a, f.nullable, f.trans, an.Follow) ==> AttachedInFollow(g, f.la, an.Follow)
    ensures StartEnds(g, an.Follow) && SharersOnNoCycle(g, a, f.nullable, f.trans)
            && SharersApart(g, a, f.nullable, f.trans) ==>
              (AttachedInFollow(g, f.la, an.Follow) <==> ShareFollow(g, a, f.nullable, f.trans, an.Follow))
    ensures ConflictFree(g, a, f.la) ==> table.Some? && Filled(g, a, f.la, table.value)
    ensures table.Some? ==> FromCandidates(g, a, f.la, table.value)
    ensures table.None? ==> AcceptConflict(g, a, f.la)
    ensures table.Some? ==> ConflictsSettled(g, a, f.la, prec, lines, precedence, table.value.action)
  {
    hide WellFormed, IsAutomaton, Justified, FollowClosed, ProdsOf, Candidate, Follows, Begins, SharedAlike,
         FollowLists;
    hide IsLookahead, AreNullable, AllTransitions, ConflictFree, Filled, OneTarget, AcceptConflict, AttachedInFollow,
         SharedInFollow, ShareFollow, SharersApart, SharersOnNoCycle, ConflictsSettled, NamedOnce;
    an := new Analysis(g);
    an.ComputeFirst();
    an.ComputeFollow();
    StartIsFollowed(an);
    a := CollectStates(g);
    var gen := new Generator(g, a);
    var trans, nullable, _, _ := gen.AddLalrLookaheads(an, maxint);
    var builder := new Builder(g, a, gen.lookaheads, prec, lines, precedence);
    table := builder.Build();
    f := Found(gen.lookaheads, nullable, trans);
    WithoutConflicts(g, a, f.la, table);
    if table.Some? && AttachedInFollow(g, f.la, an.Follow) {
      ReductionsInFollow(g, a, gen.lookaheads, an.Follow, table.value);
    }
  }

  lemma StartIsFollowed(an: Analysis)
    requires WellFormed(an.g) && |an.g.productions| > 1 && HasAll(an.g, an.First)
    requires FollowClosed(an.g, an.First, an.Follow, an.g.productions[1].name)
    ensures an.g.productions[1].name == StartSymbol(an.g) ==> StartEnds(an.g, an.Follow)
  {
  }

  lemma WithoutConflicts(g: Grammar, a: Automaton, la: Lookaheads, table: Option<ParseTable>)
    requires table.Some? ==> FromCandidates(g, a, la, table.value)
    requires table.None? ==> AcceptConflict(g, a, la)
    ensures ConflictFree(g, a, la) ==> table.Some? && Filled(g, a, la, table.value)
  {
    hide Candidate;
    if ConflictFree(g, a, la) && table.Some? {
      forall s: nat, x, act | Candidate(g, a, la, s, x, act)
        ensures (s, x) in table.value.action && table.value.action[(s, x)] == act
      {
        assert Only(g, a, la, s, x, act);
      }
    }
  }

  lemma {:induction false} PairsBound<T>(pairs: set<(nat, T)>, n: nat, xs: set<T>)
    requires forall p :: p in pairs ==> p.0 < n && p.1 in xs
    ensures |pairs| <= n * |xs|
  {
    if n == 0 {
      assert pairs == {};
    } else {
      var last := set p | p in pairs && p.0 == n - 1;
      PairsBound(pairs - last, n - 1, xs);
      LastBound(last, n - 1, xs);
      assert pairs == (pairs - last) + last;
      MulDistributes(n - 1, 1, |xs|);
    }
  }

  lemma {:induction false} LastBound<T>(last: set<(nat, T)>, n: nat, xs: set<T>)
    requires forall p :: p in last ==> p.0 == n && p.1 in xs
    ensures |last| <= |xs|
    decreases |last|
  {
    if last != {} {
      var p :| p in last;
      LastBound(last - {p}, n, xs - {p.1});
    }
  }

  lemma FewGotos(g: Grammar, a: Automaton)
    requires IsAutomaton(g, a)
    ensures |a.goto| <= |a.states| * |SymbolSet(g)|
  {
    hide IsClosure, Kernel, EnteredFromBelow;
    forall p | p in a.goto.Keys ensures p.0 < |a.states| && p.1 in SymbolSet(g) {
      assert (p.0, p.1) in a.goto;
      KernelSymbol(g, a.states[p.0], p.1);
    }
    PairsBound(a.goto.Keys, |a.states|, SymbolSet(g));
  }

  /** A reduction is entered only on symbols in FOLLOW of the production's name. */
  ghost predicate ReducesInFollow(g: Grammar, follow: FirstSets.Table, table: ParseTable) {
    forall s: nat, x :: (s, x) in table.action && table.action[(s, x)] < 0 ==>
      && -table.action[(s, x)] < |g.productions|
      && g.productions[-table.action[(s, x)]].name in follow
      && x in follow[g.productions[-table.action[(s, x)]].name]
  }

  lemma ReductionsInFollow(g: Grammar, a: Automaton, la: Lookaheads, follow: FirstSets.Table, table: ParseTable)
    requires FromCandidates(g, a, la, table) && AttachedInFollow(g, la, follow)
    ensures ReducesInFollow(g, follow, table)
  {
    forall s: nat, x | (s, x) in table.action && table.action[(s, x)] < 0
      ensures -table.action[(s, x)] < |g.productions| && g.productions[-table.action[(s, x)]].name in follow
      ensures x in follow[g.productions[-table.action[(s, x)]].name]
    {
      assert Candidate(g, a, la, s, x, table.action[(s, x)]);
      var i :| Proposes(g, a, la, s, i, x, table.action[(s, x)]);
      assert Has(la, (s, i), x);
    }
  }
}
