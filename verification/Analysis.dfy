/** The analyses of a grammar: loops that add to lists until nothing changes. */
module GrammarAnalysis {
  import opened Grammars
  import opened FirstSets
  import opened FollowSets
  import opened Reduction

  /** The productions of `n`, in order. */
  function ProdsOf(g: Grammar, n: Symbol, end: nat): (r: seq<Production>)
    requires end <= |g.productions|
    ensures forall p :: p in r <==> exists i :: 1 <= i < end && g.productions[i] == p && p.name == n
  {
    if end <= 1 then []
    else
      var last := g.productions[end - 1];
      ProdsOf(g, n, end - 1) + (if last.name == n then [last] else [])
  }

  lemma ProdsAreRules(g: Grammar, n: Symbol)
    ensures forall p :: p in ProdsOf(g, n, |g.productions|) <==> IsRule(g, p) && p.name == n
  {
  }

  /** Entries that the lists of the nonterminals do not have yet. */
  ghost function Room(g: Grammar, t: Table): set<(Symbol, Symbol)> {
    set x, a | x in g.nonterminals && a in g.terminals + [END, EMPTY] && !(x in t && a in t[x]) :: (x, a)
  }

  /** Appends to one list. */
  function Append(t: Table, x: Symbol, a: Symbol): (r: Table)
    requires x in t
    ensures r.Keys == t.Keys
    ensures forall y :: y in t && y != x ==> r[y] == t[y]
    ensures forall b :: b in r[x] <==> b in t[x] || b == a
  {
    t[x := t[x] + [a]]
  }

  lemma AppendShrinksRoom(g: Grammar, t: Table, x: Symbol, a: Symbol)
    requires x in t && x in g.nonterminals && (a == EMPTY || IsTerminal(g, a)) && a !in t[x]
    ensures Room(g, Append(t, x, a)) < Room(g, t)
  {
    assert a in g.terminals + [END, EMPTY] by {
      if a !in g.terminals {
        assert a == (g.terminals + [END, EMPTY])[|g.terminals| + if a == END then 0 else 1];
      }
    }
    assert (x, a) in Room(g, t) && (x, a) !in Room(g, Append(t, x, a));
    var r := Append(t, x, a);
    assert forall y, b :: y in t && b in t[y] ==> y in r && b in r[y];
  }

  class Analysis {
    const g: Grammar
    var First: Table
    var Follow: Table

    constructor (g: Grammar)
      ensures this.g == g && First == map[] && Follow == map[]
    {
      this.g, First, Follow := g, map[], map[];
    }

    /** `_first`: FIRST of a form, by the lists as they are. */
    method FirstOf(beta: seq<Symbol>) returns (result: seq<Symbol>)
      requires forall i :: 0 <= i < |beta| ==> beta[i] in First
      ensures forall a :: a in result <==> InFirst(First, beta, a)
    {
      result := [];
      for i := 0 to |beta|
        invariant EMPTY !in result
        invariant forall a :: InFirst(First, beta, a) <==> a in result || InFirst(First, beta[i..], a)
      {
        var empty := false;
        var list := First[beta[i]];
        ghost var before := result;
        for k := 0 to |list|
          invariant empty <==> EMPTY in list[..k]
          invariant forall a :: a in result <==> a in before || (a != EMPTY && a in list[..k])
        {
          if list[k] == EMPTY {
            empty := true;
          } else if list[k] !in result {
            result := result + [list[k]];
          }
        }
        assert list[..|list|] == list && beta[i..][1..] == beta[i + 1..];
        if !empty { return; }
      }
      assert beta[|beta|..] == [];
      result := result + [EMPTY];
    }

    ghost predicate FirstSound()
      reads this`First
    {
      && WellFormed(g) && HasAll(g, First) && Sound(g, First) && TerminalLists(g, First)
      && forall x :: x in First ==> IsSymbol(g, x)
    }

    lemma FirstSoundFacts()
      requires FirstSound()
      ensures WellFormed(g) && HasAll(g, First) && Sound(g, First)
    {
    }

    /** FIRST lists that are computed: exactly what the symbols' derivations begin with. */
    ghost predicate FirstDone()
      reads this`First
    {
      FirstSound() && ClosedUnderRules(g, First)
    }

    /** `compute_first`. */
    method ComputeFirst()
      requires WellFormed(g) && (First == map[] || FirstDone())
      requires forall n :: n in g.nonterminals ==> ProdsOf(g, n, |g.productions|) != []
      modifies this`First
      ensures FirstDone()
      ensures forall x, a :: IsSymbol(g, x) ==> (a in First[x] <==> Begins(g, [x], a))
    {
      if First == map[] {
        InitFirst();
        var change := true;
        while change
          invariant FirstSound()
          invariant change || ClosedUnderRules(g, First)
          decreases Room(g, First), change
        {
          change := FirstPass();
        }
      }
      forall x, a | IsSymbol(g, x) ensures a in First[x] <==> Begins(g, [x], a) {
        FirstExact(g, First, [x], a);
        assert [x][1..] == [];
      }
    }

    method InitFirst()
      requires WellFormed(g)
      modifies this`First
      ensures FirstSound()
    {
      hide WellFormed, Sound;
      First := map[];
      for i := 0 to |g.terminals|
        invariant First == map x | x in g.terminals[..i] :: [x]
      {
        First := First[g.terminals[i] := [g.terminals[i]]];
      }
      assert g.terminals[..|g.terminals|] == g.terminals;
      First := First[END := [END]];
      Apart();
      for i := 0 to |g.nonterminals|
        invariant forall x :: x in First <==> IsTerminal(g, x) || x in g.nonterminals[..i]
        invariant forall x :: x in First ==> First[x] == if IsTerminal(g, x) then [x] else []
      {
        assert g.nonterminals[i] in g.nonterminals;
        First := First[g.nonterminals[i] := []];
      }
      assert g.nonterminals[..|g.nonterminals|] == g.nonterminals;
      InitSound();
    }

    lemma Apart()
      requires WellFormed(g)
      ensures forall x :: x in g.nonterminals ==> !IsTerminal(g, x)
    {
    }

    lemma InitSound()
      requires WellFormed(g) && forall x :: x in First ==> First[x] == if IsTerminal(g, x) then [x] else []
      ensures Sound(g, First)
    {
      forall x, a | x in First && a in First[x] ensures Begins(g, [x], a) {
        assert First[x] == [x] && a == x && IsTerminal(g, x);
        DerivesSelf(g, [x]);
        assert [a] + [] == [x];
        assert Derives(g, [x], [a] + []);
      }
    }

    /** One round over all productions: did anything change? */
    method FirstPass() returns (change: bool)
      requires FirstSound()
      modifies this`First
      ensures FirstSound()
      ensures if change then Room(g, First) < old(Room(g, First)) else First == old(First) && ClosedUnderRules(g, First)
    {
      hide FirstSound, RuleAdded, Room, ProdsOf, IsRule;
      FirstSoundFacts();
      change := false;
      for i := 0 to |g.nonterminals|
        invariant FirstSound()
        invariant if change then Room(g, First) < old(Room(g, First)) else First == old(First)
        invariant !change ==> forall p :: IsRule(g, p) && p.name in g.nonterminals[..i] ==> RuleAdded(First, p)
      {
        var n := g.nonterminals[i];
        var ps := ProdsOf(g, n, |g.productions|);
        ProdsAreRules(g, n);
        for k := 0 to |ps|
          invariant FirstSound()
          invariant if change then Room(g, First) < old(Room(g, First)) else First == old(First)
          invariant !change ==> forall p :: IsRule(g, p) && p.name in g.nonterminals[..i] ==> RuleAdded(First, p)
          invariant !change ==> forall p :: p in ps[..k] ==> RuleAdded(First, p)
        {
          assert ps[k] in ps;
          var added := AddFirst(ps[k]);
          change := change || added;
        }
        assert ps[..|ps|] == ps;
      }
      assert g.nonterminals[..|g.nonterminals|] == g.nonterminals;
      RulesHaveNames();
    }

    lemma RulesHaveNames()
      requires WellFormed(g)
      ensures forall p :: IsRule(g, p) ==> p.name in g.nonterminals
    {
    }

    /** Adds FIRST of a production's right side to the list of its name. */
    method AddFirst(p: Production) returns (change: bool)
      requires FirstSound() && IsRule(g, p)
      modifies this`First
      ensures FirstSound()
      ensures if change then Room(g, First) < old(Room(g, First))
              else First == old(First) && RuleAdded(First, p)
    {
      hide Begins, Room;
      change := false;
      var list := FirstOf(p.prod);
      forall a | a in list ensures Begins(g, [p.name], a) && (a == EMPTY || IsTerminal(g, a)) {
        InFirstSound(g, First, p.prod, a);
        BeginsRule(g, p, a);
        BeginsTerminal(g, [p.name], a);
      }
      for i := 0 to |list|
        invariant FirstSound()
        invariant forall a :: a in list ==> Begins(g, [p.name], a) && (a == EMPTY || IsTerminal(g, a))
        invariant forall x :: x in First ==> x in old(First) && forall a :: a in old(First)[x] ==> a in First[x]
        invariant if change then Room(g, First) < old(Room(g, First))
                  else First == old(First) && forall a :: a in list[..i] ==> a in First[p.name]
      {
        if list[i] !in First[p.name] {
          AppendShrinksRoom(g, First, p.name, list[i]);
          First := Append(First, p.name, list[i]);
          change := true;
        }
      }
      assert list[..|list|] == list;
    }

    /** The start symbol of the FOLLOW computation: the name of the first production that is not the augmented one. */
    function FollowStart(): Symbol
      requires |g.productions| > 1
    {
      g.productions[1].name
    }

    ghost predicate FollowSound()
      requires |g.productions| > 1
      reads this`Follow
    {
      && (forall x :: x in Follow <==> x in g.nonterminals)
      && (forall x, a :: x in Follow && a in Follow[x] ==> Follows(g, FollowStart(), x, a))
      && FollowStart() in Follow && END in Follow[FollowStart()]
    }

    /** `compute_follow`, once FIRST lists are computed. */
    method ComputeFollow()
      requires FirstDone() && |g.productions| > 1 && Follow == map[]
      modifies this`Follow
      ensures FollowSound() && FollowClosed(g, First, Follow, FollowStart())
      ensures forall x, a :: x in g.nonterminals ==> (a in Follow[x] <==> Follows(g, FollowStart(), x, a))
    {
      hide FollowClosed, FollowSound, FirstSound, Follows;
      FirstSoundFacts();
      InitFollow();
      var change := true;
      while change
        invariant FollowSound()
        invariant change || FollowClosed(g, First, Follow, FollowStart())
        decreases Room(g, Follow), change
      {
        change := FollowPass();
      }
      FollowExact();
    }

    method InitFollow()
      requires FirstDone() && |g.productions| > 1 && Follow == map[]
      modifies this`Follow
      ensures FollowSound()
    {
      assert IsRule(g, g.productions[1]);
      for i := 0 to |g.nonterminals|
        invariant Follow == map x | x in g.nonterminals[..i] :: []
      {
        Follow := Follow[g.nonterminals[i] := []];
      }
      assert g.nonterminals[..|g.nonterminals|] == g.nonterminals;
      FollowsStart(g, FollowStart());
      Follow := Follow[FollowStart() := [END]];
    }

    lemma FollowExact()
      requires FirstDone() && |g.productions| > 1 && FollowSound() && FollowClosed(g, First, Follow, FollowStart())
      ensures forall x, a :: x in g.nonterminals ==> (a in Follow[x] <==> Follows(g, FollowStart(), x, a))
    {
      hide FollowClosed, Follows;
      assert IsRule(g, g.productions[1]);
      forall x, a | x in g.nonterminals && Follows(g, FollowStart(), x, a) ensures a in Follow[x] {
        FollowComplete(g, First, Follow, FollowStart(), x, a);
      }
    }

    /** The equations of FOLLOW for the positions of `p` below `end`. */
    ghost predicate AddedBelow(p: Production, end: nat)
      requires FirstDone() && IsRule(g, p)
      reads this`First, this`Follow
    {
      end <= |p.prod| && forall i :: 0 <= i < end && p.prod[i] in g.nonterminals ==> FollowAdded(First, Follow, p, i)
    }

    method FollowPass() returns (change: bool)
      requires FirstDone() && |g.productions| > 1 && FollowSound()
      modifies this`Follow
      ensures FollowSound()
      ensures if change then Room(g, Follow) < old(Room(g, Follow))
              else Follow == old(Follow) && FollowClosed(g, First, Follow, FollowStart())
    {
      hide FollowSound, FirstSound, FollowAdded, Room;
      change := false;
      for k := 1 to |g.productions|
        invariant FollowSound()
        invariant if change then Room(g, Follow) < old(Room(g, Follow)) else Follow == old(Follow)
        invariant !change ==> forall j :: 1 <= j < k ==>
                    IsRule(g, g.productions[j]) && AddedBelow(g.productions[j], |g.productions[j].prod|)
      {
        var p := g.productions[k];
        assert IsRule(g, p);
        for i := 0 to |p.prod|
          invariant FollowSound()
          invariant if change then Room(g, Follow) < old(Room(g, Follow)) else Follow == old(Follow)
          invariant !change ==> AddedBelow(p, i)
          invariant !change ==> forall j :: 1 <= j < k ==>
                      IsRule(g, g.productions[j]) && AddedBelow(g.productions[j], |g.productions[j].prod|)
        {
          if p.prod[i] in g.nonterminals {
            var added := AddFollow(p, i);
            change := change || added;
          }
        }
      }
      if !change { FollowPassed(); }
    }

    lemma FollowPassed()
      requires FirstDone() && |g.productions| > 1 && FollowSound()
      requires forall j :: 1 <= j < |g.productions| ==>
                 IsRule(g, g.productions[j]) && AddedBelow(g.productions[j], |g.productions[j].prod|)
      ensures FollowClosed(g, First, Follow, FollowStart())
    {
    }

    /** Adds what follows position `i` of a production to the list of the nonterminal there. */
    method AddFollow(p: Production, i: nat) returns (change: bool)
      requires FirstDone() && |g.productions| > 1 && FollowSound()
      requires IsRule(g, p) && i < |p.prod| && p.prod[i] in g.nonterminals
      modifies this`Follow
      ensures FollowSound()
      ensures if change then Room(g, Follow) < old(Room(g, Follow))
              else Follow == old(Follow) && FollowAdded(First, Follow, p, i)
    {
      var x := p.prod[i];
      var first := FirstOf(p.prod[i + 1..]);
      forall a | a in first && a != EMPTY ensures Follows(g, FollowStart(), x, a) {
        InFirstSound(g, First, p.prod[i + 1..], a);
        FollowsByRest(g, FollowStart(), p, i, a);
      }
      change := AddAll(x, first);
      if EMPTY in first || i == |p.prod| - 1 {
        assert i == |p.prod| - 1 ==> p.prod[i + 1..] == [];
        InFirstSound(g, First, p.prod[i + 1..], EMPTY);
        forall a | a in Follow[p.name] ensures Follows(g, FollowStart(), x, a) && a != EMPTY {
          FollowsByName(g, FollowStart(), p, i, a);
        }
        var more := AddAll(x, Follow[p.name]);
        change := change || more;
      }
    }

    /** Adds terminals that follow `x`; the marker of the empty string is passed over. */
    method AddAll(x: Symbol, list: seq<Symbol>) returns (change: bool)
      requires WellFormed(g) && |g.productions| > 1 && FollowSound() && x in g.nonterminals
      requires forall a :: a in list && a != EMPTY ==> Follows(g, FollowStart(), x, a)
      modifies this`Follow
      ensures FollowSound()
      ensures if change then Room(g, Follow) < old(Room(g, Follow))
              else Follow == old(Follow) && forall a :: a in list && a != EMPTY ==> a in Follow[x]
    {
      hide Follows, Room;
      change := false;
      for k := 0 to |list|
        invariant FollowSound()
        invariant if change then Room(g, Follow) < old(Room(g, Follow))
                  else Follow == old(Follow) && forall a :: a in list[..k] && a != EMPTY ==> a in Follow[x]
      {
        if list[k] != EMPTY && list[k] !in Follow[x] {
          FollowsTerminal(g, FollowStart(), x, list[k]);
          AppendShrinksRoom(g, Follow, x, list[k]);
          Follow := Append(Follow, x, list[k]);
          change := true;
        }
      }
      assert list[..|list|] == list;
    }

    /** `compute_nullable_nonterminals`: the nonterminals that derive the empty string. */
    method Nullable() returns (nullable: set<Symbol>)
      requires WellFormed(g)
      ensures forall x :: IsSymbol(g, x) ==> (x in nullable <==> Derives(g, [x], []))
      ensures forall x :: x in nullable ==> x in g.nonterminals
    {
      nullable := {};
      var count := 0;
      while true
        invariant nullable <= (set x | x in g.nonterminals) && DerivesOver(g, {}, nullable)
        invariant count == |nullable|
        decreases (set x | x in g.nonterminals) - nullable
      {
        ghost var before := nullable;
        for i := 1 to |g.productions|
          invariant before <= nullable <= (set x | x in g.nonterminals) && DerivesOver(g, {}, nullable)
          invariant nullable == before ==> forall j :: 1 <= j < i ==> RuleClosed(nullable, g.productions[j])
        {
          var p := g.productions[i];
          assert IsRule(g, p);
          if AllIn(nullable, p.prod) {
            DerivesOverRule(g, {}, nullable, p);
            nullable := nullable + {p.name};
          }
        }
        if before != nullable { SmallerSet(before, nullable); }
        if |nullable| == count {
          forall x | IsSymbol(g, x) ensures x in nullable <==> Derives(g, [x], []) {
            NullableExact(nullable, x);
          }
          return;
        }
        count := |nullable|;
      }
    }

    lemma NullableExact(s: set<Symbol>, x: Symbol)
      requires WellFormed(g) && DerivesOver(g, {}, s)
      requires forall j :: 1 <= j < |g.productions| ==> RuleClosed(s, g.productions[j])
      ensures x in s <==> Derives(g, [x], [])
    {
      if x in s {
        assert DerivesInto(g, {}, [x]);
        var w :| AllIn({}, w) && Derives(g, [x], w);
        OverNothing(w);
      }
      if Derives(g, [x], []) {
        var n: nat :| DerivesIn(g, [x], [], n);
        ClosedHasAll(g, s, [x], [], n);
        assert [x][0] in s;
      }
    }

    /** The symbols that derive a string of terminals, according to a set that is closed under the rules. */
    lemma ProductiveExact(s: set<Symbol>, x: Symbol)
      requires WellFormed(g) && IsSymbol(g, x) && DerivesOver(g, Terminals(g), s) && Terminals(g) <= s
      requires forall p :: IsRule(g, p) ==> RuleClosed(s, p)
      ensures x in s <==> exists w :: IsSentence(g, w) && Derives(g, [x], w)
    {
      if x in s {
        assert DerivesInto(g, Terminals(g), [x]);
        var w :| AllIn(Terminals(g), w) && Derives(g, [x], w);
        assert IsSentence(g, w);
      }
      if w :| IsSentence(g, w) && Derives(g, [x], w) {
        var n: nat :| DerivesIn(g, [x], w, n);
        ClosedHasAll(g, s, [x], w, n);
        assert [x][0] in s;
      }
    }

    /** `infinite_cycles`: the nonterminals with productions that derive no string of terminals. */
    method InfiniteCycles() returns (infinite: seq<Symbol>)
      requires WellFormed(g)
      ensures forall x :: x in infinite <==>
                && x in g.nonterminals && ProdsOf(g, x, |g.productions|) != []
                && !exists w :: IsSentence(g, w) && Derives(g, [x], w)
    {
      var terminates := Terminals(g);
      forall x | x in terminates ensures DerivesInto(g, Terminals(g), [x]) {
        DerivesSelf(g, [x]);
        assert AllIn(Terminals(g), [x]);
      }
      hide DerivesInto, IsRule, RuleClosed;
      var change := true;
      while change
        invariant Terminals(g) <= terminates <= Terminals(g) + (set x | x in g.nonterminals)
        invariant DerivesOver(g, Terminals(g), terminates)
        invariant change || forall p :: IsRule(g, p) ==> RuleClosed(terminates, p)
        decreases (set x | x in g.nonterminals) - terminates, change
      {
        change, terminates := TerminationPass(terminates);
      }
      forall x | IsSymbol(g, x) ensures x in terminates <==> exists w :: IsSentence(g, w) && Derives(g, [x], w) {
        ProductiveExact(terminates, x);
      }
      infinite := Unfinished(terminates);
    }

    /** The nonterminals with productions that are not in `terminates`. */
    method Unfinished(terminates: set<Symbol>) returns (infinite: seq<Symbol>)
      ensures forall x :: x in infinite <==>
                x in g.nonterminals && ProdsOf(g, x, |g.productions|) != [] && x !in terminates
    {
      hide ProdsOf;
      infinite := [];
      for i := 0 to |g.nonterminals|
        invariant forall x :: x in infinite <==>
                    x in g.nonterminals[..i] && ProdsOf(g, x, |g.productions|) != [] && x !in terminates
      {
        var n := g.nonterminals[i];
        if n !in terminates && ProdsOf(g, n, |g.productions|) != [] { infinite := infinite + [n]; }
      }
      assert g.nonterminals[..|g.nonterminals|] == g.nonterminals;
    }

    /** One round: a nonterminal terminates as soon as one of its productions does. */
    method TerminationPass(terminates: set<Symbol>) returns (change: bool, next: set<Symbol>)
      requires WellFormed(g) && DerivesOver(g, Terminals(g), terminates)
      requires Terminals(g) <= terminates <= Terminals(g) + (set x | x in g.nonterminals)
      ensures DerivesOver(g, Terminals(g), next)
      ensures terminates <= next <= Terminals(g) + (set x | x in g.nonterminals)
      ensures if change then exists x :: x in next - terminates && x in g.nonterminals
              else next == terminates && forall p :: IsRule(g, p) ==> RuleClosed(next, p)
    {
      hide DerivesOver, RuleClosed, IsRule, ProdsOf;
      change, next := false, terminates;
      for i := 0 to |g.nonterminals|
        invariant DerivesOver(g, Terminals(g), next)
        invariant terminates <= next <= Terminals(g) + (set x | x in g.nonterminals)
        invariant if change then exists x :: x in next - terminates && x in g.nonterminals else next == terminates
        invariant !change ==> forall p :: IsRule(g, p) && p.name in g.nonterminals[..i] ==> RuleClosed(next, p)
      {
        var n := g.nonterminals[i];
        var ps := ProdsOf(g, n, |g.productions|);
        ProdsAreRules(g, n);
        assert n in g.nonterminals;
        var k := 0;
        while k < |ps| && !AllIn(next, ps[k].prod)
          invariant k <= |ps| && forall m :: 0 <= m < k ==> !AllIn(next, ps[m].prod)
        {
          k := k + 1;
        }
        ClosedByName(next, n, ps, k);
        if k < |ps| {
          assert ps[k] in ps;
          DerivesOverRule(g, Terminals(g), next, ps[k]);
          if n !in next {
            next := next + {n};
            change := true;
          }
        }
      }
      assert g.nonterminals[..|g.nonterminals|] == g.nonterminals;
      RulesHaveNames();
    }

    /** A nonterminal that has terminated, or none of whose productions does, is closed under its rules. */
    lemma ClosedByName(s: set<Symbol>, n: Symbol, ps: seq<Production>, k: nat)
      requires forall p :: p in ps <==> IsRule(g, p) && p.name == n
      requires k <= |ps| && forall m :: 0 <= m < k ==> !AllIn(s, ps[m].prod)
      ensures n in s || k == |ps| ==> forall p :: IsRule(g, p) && p.name == n ==> RuleClosed(s, p)
    {
      hide IsRule;
    }
  }

  function Terminals(g: Grammar): set<Symbol> {
    (set x | x in g.terminals) + {END}
  }
}
