/**
 Which symbols derive a string over given symbols: the common core of the nullable and the productive nonterminals.
 */
module Reduction {
  import opened Grammars

  predicate AllIn(s: set<Symbol>, a: seq<Symbol>) {
    forall i :: 0 <= i < |a| ==> a[i] in s
  }

  lemma OverNothing(w: seq<Symbol>)
    ensures AllIn({}, w) ==> w == []
  {
    if w != [] {
      assert w == [w[0]] + w[1..];
    }
  }

  /** `a` derives a string over `base`. */
  ghost predicate DerivesInto(g: Grammar, base: set<Symbol>, a: seq<Symbol>) {
    exists w :: AllIn(base, w) && Derives(g, a, w)
  }

  /** Every symbol of `s` does. */
  ghost predicate DerivesOver(g: Grammar, base: set<Symbol>, s: set<Symbol>) {
    forall x :: x in s ==> DerivesInto(g, base, [x])
  }

  predicate RuleClosed(s: set<Symbol>, p: Production) {
    AllIn(s, p.prod) ==> p.name in s
  }

  lemma {:induction false} DerivesOverForm(g: Grammar, base: set<Symbol>, s: set<Symbol>, a: seq<Symbol>)
    requires DerivesOver(g, base, s) && AllIn(s, a)
    ensures DerivesInto(g, base, a)
  {
    if a == [] {
      DerivesSelf(g, []);
      assert AllIn(base, []);
    } else {
      DerivesOverForm(g, base, s, a[1..]);
      var v :| AllIn(base, v) && Derives(g, a[1..], v);
      assert DerivesInto(g, base, [a[0]]);
      var u :| AllIn(base, u) && Derives(g, [a[0]], u);
      DerivesBoth(g, [a[0]], u, a[1..], v);
      assert [a[0]] + a[1..] == a && AllIn(base, u + v);
    }
  }

  lemma DerivesOverRule(g: Grammar, base: set<Symbol>, s: set<Symbol>, p: Production)
    requires DerivesOver(g, base, s) && IsRule(g, p) && AllIn(s, p.prod)
    ensures DerivesOver(g, base, s + {p.name})
  {
    DerivesOverForm(g, base, s, p.prod);
    var w :| AllIn(base, w) && Derives(g, p.prod, w);
    DerivesRule(g, p);
    DerivesTransitive(g, [p.name], p.prod, w);
  }

  /** A set that is closed under the rules has every symbol that derives a string over it. */
  lemma {:induction false} ClosedHasAll(g: Grammar, s: set<Symbol>, a: seq<Symbol>, b: seq<Symbol>, n: nat)
    requires forall p :: IsRule(g, p) ==> RuleClosed(s, p)
    requires AllIn(s, b) && DerivesIn(g, a, b, n)
    ensures AllIn(s, a)
    decreases n
  {
    if n > 0 {
      var c :| Step(g, a, c) && DerivesIn(g, c, b, n - 1);
      ClosedHasAll(g, s, c, b, n - 1);
      var u, p, v :| StepAt(g, a, c, u, p, v);
      assert forall i :: 0 <= i < |p.prod| ==> p.prod[i] == c[|u| + i];
      assert RuleClosed(s, p);
      forall i | 0 <= i < |a| ensures a[i] in s {
        assert a[i] == if i < |u| then c[i] else if i == |u| then p.name else c[i - 1 + |p.prod|];
      }
    }
  }

  lemma SmallerSet(a: set<Symbol>, b: set<Symbol>)
    requires a < b
    ensures |a| < |b|
  {
    assert b == a + (b - a);
  }
}
