/** The states of an LR(0) automaton: what their items have in common, and where their transitions are. */
module LR0Paths {
  import opened Grammars
  import opened LR0Items
  import Digraph

  lemma {:induction false} StatesAreItemSets(g: Grammar, a: Automaton, s: nat)
    requires WellFormed(g) && IsAutomaton(g, a) && s < |a.states|
    ensures IsItemSet(g, a.states[s])
    ensures s > 0 ==> Item(0, 0) !in a.states[s]
    decreases s
  {
    hide IsClosure, Kernel;
    if s == 0 {
      ClosureIsItemSet(g, [Item(0, 0)], a.states[0]);
    } else {
      assert EnteredFromBelow(a, s);
      var s0: nat, x :| s0 < s && (s0, x) in a.goto && a.goto[(s0, x)] == s;
      StatesAreItemSets(g, a, s0);
      KernelIsKernel(g, a.states[s0], x);
      ClosureIsItemSet(g, Kernel(g, a.states[s0], x), a.states[s]);
    }
  }

  /** Something in a closure has its dot before the name of each production that the closure predicts. */
  lemma PredictedBy(g: Grammar, kernel: seq<Item>, items: seq<Item>, q: nat)
    requires IsClosure(g, kernel, items) && Predicted(g, kernel, q)
    ensures exists i :: i in items && q in After(g, i)
  {
    var qs :| ClosureBy(g, kernel, items, qs);
    var i, q0 :| i in kernel && q0 in After(g, i) && Digraph.Reaches(Predictions(g), q0, q);
    var p :| Digraph.PathBetween(Predictions(g), p, q0, q);
    if |p| == 1 {
      assert i in items;
    } else {
      var r := p[|p| - 2];
      assert p[|p| - 2 + 1] in Predictions(g).related(r);
      PathPrefix(g, p);
      assert Predicted(g, kernel, r);
      assert Item(r, 0) in Heads(qs) && Item(r, 0) in items;
    }
  }

  lemma PathPrefix(g: Grammar, p: seq<nat>)
    requires |p| > 1 && Digraph.IsPath(Predictions(g), p)
    ensures Digraph.Reaches(Predictions(g), p[0], p[|p| - 2])
  {
    var init := p[..|p| - 1];
    forall i | 0 <= i < |init| - 1 ensures init[i + 1] in Predictions(g).related(init[i]) {
      assert p[i + 1] in Predictions(g).related(p[i]);
    }
    assert Digraph.PathBetween(Predictions(g), init, p[0], p[|p| - 2]);
  }

  /**
   A state with an item that has its dot in front has a transition over the item's name, unless it is the start item.
   */
  lemma GotoDefined(g: Grammar, a: Automaton, s: nat, q: nat)
    requires WellFormed(g) && IsAutomaton(g, a) && s < |a.states| && q > 0 && Item(q, 0) in a.states[s]
    ensures q < |g.productions| && (s, g.productions[q].name) in a.goto
  {
    hide IsClosure, IsItemSet, Kernel;
    StatesAreItemSets(g, a, s);
    if s == 0 {
      HeadPredicted(g, [Item(0, 0)], a.states[0], q);
      var i :| i in a.states[0] && q in After(g, i);
      KernelMember(g, a.states[s], i, q);
    } else {
      assert EnteredFromBelow(a, s);
      var s0: nat, x :| s0 < s && (s0, x) in a.goto && a.goto[(s0, x)] == s;
      HeadPredicted(g, Kernel(g, a.states[s0], x), a.states[s], q);
      var i :| i in a.states[s] && q in After(g, i);
      KernelMember(g, a.states[s], i, q);
    }
  }

  lemma HeadPredicted(g: Grammar, kernel: seq<Item>, items: seq<Item>, q: nat)
    requires IsClosure(g, kernel, items) && Item(q, 0) in items
    requires q > 0 && forall i :: i in kernel ==> i.dot > 0 || i == Item(0, 0)
    ensures exists i :: i in items && q in After(g, i)
  {
    var qs :| ClosureBy(g, kernel, items, qs);
    assert Item(q, 0) in Heads(qs);
    PredictedBy(g, kernel, items, q);
  }

  lemma KernelMember(g: Grammar, items: seq<Item>, i: Item, q: nat)
    requires i in items && q in After(g, i)
    ensures q < |g.productions| && Kernel(g, items, g.productions[q].name) != []
  {
    var x := g.productions[q].name;
    assert Item(i.number, i.dot + 1) in Kernel(g, items, x);
  }

  /** What an item of a state has after its dot, the state predicts. */
  lemma StatePredicts(g: Grammar, a: Automaton, s: nat, i: Item, q: nat)
    requires WellFormed(g) && IsAutomaton(g, a) && s < |a.states| && i in a.states[s] && q in After(g, i)
    ensures Item(q, 0) in a.states[s]
  {
    hide Kernel, After;
    if s == 0 {
      ClosurePredicts(g, [Item(0, 0)], a.states[0], i, q);
    } else {
      assert EnteredFromBelow(a, s);
      var s0: nat, x :| s0 < s && (s0, x) in a.goto && a.goto[(s0, x)] == s;
      ClosurePredicts(g, Kernel(g, a.states[s0], x), a.states[s], i, q);
    }
  }

  lemma ClosurePredicts(g: Grammar, kernel: seq<Item>, items: seq<Item>, i: Item, q: nat)
    requires IsClosure(g, kernel, items) && i in items && q in After(g, i)
    ensures Item(q, 0) in items
  {
    hide After, Predicted;
    var qs :| ClosureBy(g, kernel, items, qs);
    HeadsAreHeads(qs);
    if i in kernel {
      PredictedDirectly(g, kernel, i, q);
    } else {
      assert i in Heads(qs) && i == Item(i.number, 0);
      PredictedNext(g, kernel, i.number, q);
    }
  }

  /** Where there is a transition over a symbol, some item has its dot before it. */
  lemma ItemOver(g: Grammar, a: Automaton, s: nat, x: Symbol) returns (i: Item)
    requires IsAutomaton(g, a) && (s, x) in a.goto
    ensures s < |a.states| && i in a.states[s] && DotBefore(g, i, x)
  {
    hide IsClosure, EnteredFromBelow;
    var k := Kernel(g, a.states[s], x)[0];
    assert k in Kernel(g, a.states[s], x);
    i := Item(k.number, k.dot - 1);
  }
}
