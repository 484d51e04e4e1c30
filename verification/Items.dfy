/** LR(0) items: closures, kernels of transitions, and the automaton they make. */
module LR0Items {
  import opened Grammars
  import opened Digraph

  /** A production, by number, with a dot before its symbol at `dot`. */
  datatype Item = Item(number: nat, dot: nat)

  predicate IsItem(g: Grammar, i: Item) {
    i.number < |g.productions| && i.dot <= |g.productions[i.number].prod|
  }

  predicate IsComplete(g: Grammar, i: Item)
    requires i.number < |g.productions|
  {
    i.dot == |g.productions[i.number].prod|
  }

  /** What is after the dot. */
  function Rest(g: Grammar, i: Item): seq<Symbol>
    requires IsItem(g, i)
  {
    g.productions[i.number].prod[i.dot..]
  }

  function Name(g: Grammar, i: Item): Symbol
    requires IsItem(g, i)
  {
    g.productions[i.number].name
  }

  /** The right side of the item's production. */
  function ProdOf(g: Grammar, i: Item): seq<Symbol> {
    if i.number < |g.productions| then g.productions[i.number].prod else []
  }

  /** Is the dot of `i` before the symbol `x`? */
  predicate DotBefore(g: Grammar, i: Item, x: Symbol) {
    IsItem(g, i) && !IsComplete(g, i) && g.productions[i.number].prod[i.dot] == x
  }

  /** The numbers of the productions of `x`; the augmented production, number 0, is not among them. */
  function NumbersOf(g: Grammar, x: Symbol, end: nat): (r: seq<nat>)
    requires end <= |g.productions|
    ensures forall q :: q in r <==> 1 <= q < end && g.productions[q].name == x
  {
    if end <= 1 then [] else NumbersOf(g, x, end - 1) + (if g.productions[end - 1].name == x then [end - 1] else [])
  }

  /** `lr_after`: the productions of the symbol after the dot. */
  function After(g: Grammar, i: Item): (r: seq<nat>)
    ensures forall q :: q in r ==> 1 <= q < |g.productions|
  {
    if IsItem(g, i) && !IsComplete(g, i) then NumbersOf(g, g.productions[i.number].prod[i.dot], |g.productions|) else []
  }

  /** Production `q` predicts the productions of its first symbol. */
  function Predictions(g: Grammar): Graph<nat, ()> {
    Graph<nat, ()>.Graph(seq(|g.productions|, q => q), (q: nat) => After(g, Item(q, 0)), _ => [])
  }

  /** The kernel predicts `q`: directly, or through the first symbols of predicted productions. */
  ghost predicate Predicted(g: Grammar, kernel: seq<Item>, q: nat) {
    exists i, q0 :: i in kernel && q0 in After(g, i) && Reaches(Predictions(g), q0, q)
  }

  /** The items with the dot in front. */
  function Heads(qs: seq<nat>): (r: seq<Item>)
    ensures |r| == |qs|
    ensures forall q :: Item(q, 0) in r <==> q in qs
  {
    if qs == [] then [] else Heads(qs[..|qs| - 1]) + [Item(qs[|qs| - 1], 0)]
  }

  lemma {:induction false} HeadAt(qs: seq<nat>, k: nat)
    requires k < |qs|
    ensures Heads(qs)[k] == Item(qs[k], 0)
  {
    if k < |qs| - 1 {
      HeadAt(qs[..|qs| - 1], k);
    }
  }

  /** `items` is the closure of `kernel`: the kernel, then, once each and with the dot in front, what it predicts. */
  ghost predicate IsClosure(g: Grammar, kernel: seq<Item>, items: seq<Item>) {
    exists qs :: ClosureBy(g, kernel, items, qs)
  }

  ghost predicate ClosureBy(g: Grammar, kernel: seq<Item>, items: seq<Item>, qs: seq<nat>) {
    && items == kernel + Heads(qs)
    && Distinct(qs)
    && (forall q :: q in qs <==> Predicted(g, kernel, q))
  }

  /** The items that move over `x`, in order, with the dot moved. */
  function Kernel(g: Grammar, items: seq<Item>, x: Symbol): (r: seq<Item>)
    ensures forall i :: i in r <==>
              i.dot > 0 && Item(i.number, i.dot - 1) in items && DotBefore(g, Item(i.number, i.dot - 1), x)
  {
    if items == [] then []
    else
      var last := items[|items| - 1];
      Kernel(g, items[..|items| - 1], x) + (if DotBefore(g, last, x) then [Item(last.number, last.dot + 1)] else [])
  }

  ghost predicate Distinct<T>(s: seq<T>) {
    forall k, m :: 0 <= k < m < |s| ==> s[k] != s[m]
  }

  lemma DistinctMore<T>(s: seq<T>, x: T)
    requires Distinct(s) && x !in s
    ensures Distinct(s + [x])
  {
  }

  lemma {:induction false} KernelDistinct(g: Grammar, items: seq<Item>, x: Symbol)
    requires Distinct(items)
    ensures Distinct(Kernel(g, items, x))
  {
    if items != [] {
      var n := |items| - 1;
      var last, before := items[n], Kernel(g, items[..n], x);
      KernelDistinct(g, items[..n], x);
      assert items[n] !in items[..n];
      if DotBefore(g, last, x) {
        DistinctMore(before, Item(last.number, last.dot + 1));
      }
    }
  }

  lemma {:induction false} ReachStays(g: Grammar, s: set<nat>, p: seq<nat>)
    requires forall q, r :: q in s && r in After(g, Item(q, 0)) ==> r in s
    requires IsPath(Predictions(g), p) && p[0] in s
    ensures p[|p| - 1] in s
    decreases |p|
  {
    if |p| > 1 {
      assert p[1] in Predictions(g).related(p[0]);
      PathTail(Predictions(g), p, p[0], p[|p| - 1]);
      ReachStays(g, s, p[1..]);
    }
  }

  /** A set that has what the kernel predicts directly, and is closed under prediction, has all that is predicted. */
  lemma PredictedIn(g: Grammar, kernel: seq<Item>, s: set<nat>, q: nat)
    requires forall i, r :: i in kernel && r in After(g, i) ==> r in s
    requires forall p, r :: p in s && r in After(g, Item(p, 0)) ==> r in s
    requires Predicted(g, kernel, q)
    ensures q in s
  {
    var i, q0 :| i in kernel && q0 in After(g, i) && Reaches(Predictions(g), q0, q);
    var p :| PathBetween(Predictions(g), p, q0, q);
    ReachStays(g, s, p);
  }

  lemma PredictedDirectly(g: Grammar, kernel: seq<Item>, i: Item, q: nat)
    requires i in kernel && q in After(g, i)
    ensures Predicted(g, kernel, q)
  {
    ReachesSelf(Predictions(g), q);
  }

  lemma PredictedNext(g: Grammar, kernel: seq<Item>, p: nat, q: nat)
    requires Predicted(g, kernel, p) && q in After(g, Item(p, 0))
    ensures Predicted(g, kernel, q)
  {
    var i, q0 :| i in kernel && q0 in After(g, i) && Reaches(Predictions(g), q0, p);
    ReachesSelf(Predictions(g), q);
    assert q in Predictions(g).related(p);
    ReachesStep(Predictions(g), p, q, q);
    ReachesTransitive(Predictions(g), q0, p, q);
  }

  ghost predicate IsItemSet(g: Grammar, items: seq<Item>) {
    Distinct(items) && forall i :: i in items ==> IsItem(g, i)
  }

  lemma {:induction false} HeadsDistinct(qs: seq<nat>)
    requires Distinct(qs)
    ensures Distinct(Heads(qs))
  {
    if qs != [] {
      var n := |qs| - 1;
      HeadsDistinct(qs[..n]);
      assert qs[n] !in qs[..n];
      DistinctMore(Heads(qs[..n]), Item(qs[n], 0));
    }
  }

  lemma {:induction false} HeadsAreHeads(qs: seq<nat>)
    ensures forall i :: i in Heads(qs) ==> i.dot == 0 && i.number in qs
  {
    if qs != [] {
      HeadsAreHeads(qs[..|qs| - 1]);
    }
  }

  function ProductionNumbers(n: nat): (r: set<nat>)
    ensures forall q :: q in r <==> 1 <= q < n
  {
    if n <= 1 then {} else ProductionNumbers(n - 1) + {n - 1}
  }

  lemma AfterNumber(g: Grammar, i: Item, r: nat)
    requires r in After(g, i)
    ensures 1 <= r < |g.productions|
  {
  }

  lemma PredictedNumber(g: Grammar, kernel: seq<Item>, q: nat)
    requires Predicted(g, kernel, q)
    ensures 1 <= q < |g.productions|
  {
    hide After;
    var s := ProductionNumbers(|g.productions|);
    forall i, r | r in After(g, i) ensures r in s {
      AfterNumber(g, i, r);
    }
    PredictedIn(g, kernel, s, q);
  }

  /** A closure has no duplicates, and none of its own items is the start item. */
  lemma ClosureIsItemSet(g: Grammar, kernel: seq<Item>, items: seq<Item>)
    requires IsClosure(g, kernel, items) && IsItemSet(g, kernel)
    requires forall i :: i in kernel ==> i.dot > 0 || i == Item(0, 0)
    ensures IsItemSet(g, items)
    ensures forall i :: i in items ==> i in kernel || (i.dot == 0 && i.number > 0)
  {
    var qs :| ClosureBy(g, kernel, items, qs);
    HeadsDistinct(qs);
    HeadsAreHeads(qs);
    forall i | i in Heads(qs) ensures i.dot == 0 && 1 <= i.number < |g.productions| {
      PredictedNumber(g, kernel, i.number);
    }
    forall k, m | 0 <= k < m < |items| ensures items[k] != items[m] {
      assert k < |kernel| ==> items[k] == kernel[k] && kernel[k] in kernel;
      assert m < |kernel| ==> items[m] == kernel[m];
      assert k >= |kernel| ==> items[k] == Heads(qs)[k - |kernel|];
      assert m >= |kernel| ==> items[m] == Heads(qs)[m - |kernel|] && items[m] in Heads(qs);
    }
  }

  lemma KernelIsKernel(g: Grammar, items: seq<Item>, x: Symbol)
    requires IsItemSet(g, items) && Kernel(g, items, x) != []
    ensures IsKernel(g, x, Kernel(g, items, x))
  {
    KernelDistinct(g, items, x);
  }

  // ----- There are finitely many kernels -----

  function ItemsOf(g: Grammar, n: nat, dots: nat): (r: seq<Item>)
    ensures forall i :: i in r <==> i.number == n && i.dot < dots
  {
    if dots == 0 then [] else ItemsOf(g, n, dots - 1) + [Item(n, dots - 1)]
  }

  function AllItems(g: Grammar, end: nat): (r: seq<Item>)
    requires end <= |g.productions|
    ensures forall i :: i in r <==> IsItem(g, i) && i.number < end
  {
    if end == 0 then [] else AllItems(g, end - 1) + ItemsOf(g, end - 1, |g.productions[end - 1].prod| + 1)
  }

  /** The strings over `xs` of at most `n` elements. */
  ghost function Strings<T>(xs: seq<T>, n: nat): set<seq<T>> {
    if n == 0 then {[]}
    else Strings(xs, n - 1) + set x, s | x in xs && s in Strings(xs, n - 1) :: [x] + s
  }

  lemma {:induction false} InStrings<T>(xs: seq<T>, n: nat, s: seq<T>)
    requires |s| <= n && forall x :: x in s ==> x in xs
    ensures s in Strings(xs, n)
  {
    if s != [] {
      InStrings(xs, n - 1, s[1..]);
      assert s == [s[0]] + s[1..];
    } else if n > 0 {
      InStrings(xs, n - 1, s);
    }
  }

  lemma {:induction false} DistinctInSet<T>(xs: seq<T>, u: set<T>)
    requires Distinct(xs) && forall x :: x in xs ==> x in u
    ensures |xs| <= |u|
  {
    if xs != [] {
      var x, rest := xs[|xs| - 1], xs[..|xs| - 1];
      assert x in xs && x !in rest;
      DistinctInSet(rest, u - {x});
    }
  }

  /** A bound on the number of kernels. */
  ghost function KernelBound(g: Grammar): nat {
    |Strings(AllItems(g, |g.productions|), |AllItems(g, |g.productions|)|)|
  }

  ghost predicate IsKernel(g: Grammar, x: Symbol, gs: seq<Item>) {
    gs != [] && Distinct(gs)
    && forall i :: i in gs ==> i.dot > 0 && IsItem(g, i) && DotBefore(g, Item(i.number, i.dot - 1), x)
  }

  /** Distinct kernels, each over some symbol, are no more than the bound. */
  lemma KernelsBounded(g: Grammar, keys: seq<(Symbol, seq<Item>)>)
    requires Distinct(keys) && forall k :: 0 <= k < |keys| ==> IsKernel(g, keys[k].0, keys[k].1)
    ensures |keys| <= KernelBound(g)
  {
    var all := AllItems(g, |g.productions|);
    var gss := seq(|keys|, k requires 0 <= k < |keys| => keys[k].1);
    forall k, m | 0 <= k < m < |gss| ensures gss[k] != gss[m] {
      assert keys[k] != keys[m] && keys[k].1[0] in keys[k].1 && keys[m].1[0] in keys[m].1;
    }
    forall gs | gs in gss ensures gs in Strings(all, |all|) {
      var k :| 0 <= k < |keys| && gss[k] == gs;
      Digraph.DistinctSmall(gs, all);
      InStrings(all, |all|, gs);
    }
    DistinctInSet(gss, Strings(all, |all|));
  }

  // ----- Automata -----

  /** The item sets, in the order in which they were found, and the transitions between them. */
  datatype Automaton = Automaton(states: seq<seq<Item>>, goto: map<(nat, Symbol), nat>)

  /**
   State 0 is the closure of the start item; a state has a transition over a symbol exactly when some item moves over
   it, to the closure of the items that do; state 0 is never a target; and every other state is reached from below.
   */
  ghost predicate IsAutomaton(g: Grammar, a: Automaton) {
    && a.states != [] && IsClosure(g, [Item(0, 0)], a.states[0])
    && (forall s: nat, x :: (s, x) in a.goto <==> s < |a.states| && Kernel(g, a.states[s], x) != [])
    && (forall s: nat, x :: (s, x) in a.goto ==>
          0 < a.goto[(s, x)] < |a.states| && IsClosure(g, Kernel(g, a.states[s], x), a.states[a.goto[(s, x)]]))
    && (forall t :: 0 < t < |a.states| ==> EnteredFromBelow(a, t))
  }

  /** States from which the same items move over a symbol have the same target. */
  ghost predicate OneTarget(g: Grammar, a: Automaton) {
    forall s: nat, s': nat, x ::
      (s < |a.states| && s' < |a.states| && (s, x) in a.goto && (s', x) in a.goto
       && Kernel(g, a.states[s], x) == Kernel(g, a.states[s'], x)) ==>
        a.goto[(s, x)] == a.goto[(s', x)]
  }

  ghost predicate EnteredFromBelow(a: Automaton, t: nat) {
    exists s: nat, x :: s < t && (s, x) in a.goto && a.goto[(s, x)] == t
  }
}
