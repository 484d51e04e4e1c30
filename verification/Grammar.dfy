/** Context-free grammars, as the parser generator holds them, and what their productions derive. */
module Grammars {

  type Symbol = string

  /** The marker for the empty string in FIRST lists, and the end-of-input token. */
  const EMPTY: Symbol := "<empty>"
  const END: Symbol := "$end"

  datatype Production = Production(name: Symbol, prod: seq<Symbol>)

  /** `productions[0]` is the augmented one, S' -> start, which the analyses leave out. */
  datatype Grammar = Grammar(terminals: seq<Symbol>, nonterminals: seq<Symbol>, productions: seq<Production>)

  predicate IsTerminal(g: Grammar, x: Symbol) { x in g.terminals || x == END }

  predicate IsSymbol(g: Grammar, x: Symbol) { IsTerminal(g, x) || x in g.nonterminals }

  ghost predicate IsRule(g: Grammar, p: Production) {
    exists i :: 1 <= i < |g.productions| && g.productions[i] == p
  }

  /** Names are disjoint, and productions use declared names only. */
  ghost predicate WellFormed(g: Grammar) {
    && |g.productions| > 0
    && (forall x :: x in g.nonterminals ==> !IsTerminal(g, x))
    && !IsSymbol(g, EMPTY)
    && (forall p :: IsRule(g, p) ==> p.name in g.nonterminals && IsForm(g, p.prod))
    && |g.productions[0].prod| == 1 && g.productions[0].prod[0] in g.nonterminals
    && !IsSymbol(g, g.productions[0].name) && g.productions[0].name != EMPTY
  }

  predicate IsForm(g: Grammar, a: seq<Symbol>) {
    forall i :: 0 <= i < |a| ==> IsSymbol(g, a[i])
  }

  predicate IsSentence(g: Grammar, a: seq<Symbol>) {
    forall i :: 0 <= i < |a| ==> IsTerminal(g, a[i])
  }

  // ----- Derivations -----

  /** `b` is `a` with the nonterminal at position `|u|` replaced. */
  ghost predicate StepAt(g: Grammar, a: seq<Symbol>, b: seq<Symbol>, u: seq<Symbol>, p: Production, v: seq<Symbol>) {
    IsRule(g, p) && a == u + [p.name] + v && b == u + p.prod + v
  }

  ghost predicate Step(g: Grammar, a: seq<Symbol>, b: seq<Symbol>) {
    exists u, p, v :: StepAt(g, a, b, u, p, v)
  }

  ghost predicate DerivesIn(g: Grammar, a: seq<Symbol>, b: seq<Symbol>, n: nat)
    decreases n
  {
    if n == 0 then a == b else exists c :: Step(g, a, c) && DerivesIn(g, c, b, n - 1)
  }

  ghost predicate Derives(g: Grammar, a: seq<Symbol>, b: seq<Symbol>) {
    exists n: nat :: DerivesIn(g, a, b, n)
  }

  lemma DerivesSelf(g: Grammar, a: seq<Symbol>)
    ensures Derives(g, a, a)
  {
    assert DerivesIn(g, a, a, 0);
  }

  lemma {:induction false} ChainDerivations(g: Grammar, a: seq<Symbol>, b: seq<Symbol>, c: seq<Symbol>, m: nat, n: nat)
    requires DerivesIn(g, a, b, m) && DerivesIn(g, b, c, n)
    ensures DerivesIn(g, a, c, m + n)
    decreases m
  {
    if m > 0 {
      var d :| Step(g, a, d) && DerivesIn(g, d, b, m - 1);
      ChainDerivations(g, d, b, c, m - 1, n);
    }
  }

  lemma DerivesTransitive(g: Grammar, a: seq<Symbol>, b: seq<Symbol>, c: seq<Symbol>)
    requires Derives(g, a, b) && Derives(g, b, c)
    ensures Derives(g, a, c)
  {
    var m: nat :| DerivesIn(g, a, b, m);
    var n: nat :| DerivesIn(g, b, c, n);
    ChainDerivations(g, a, b, c, m, n);
  }

  lemma {:induction false} InContextIn(g: Grammar, u: seq<Symbol>, a: seq<Symbol>, b: seq<Symbol>, v: seq<Symbol>,
                                       n: nat)
    requires DerivesIn(g, a, b, n)
    ensures DerivesIn(g, u + a + v, u + b + v, n)
    decreases n
  {
    if n > 0 {
      var c :| Step(g, a, c) && DerivesIn(g, c, b, n - 1);
      var u', p, v' :| StepAt(g, a, c, u', p, v');
      assert u + a + v == (u + u') + [p.name] + (v' + v) && u + c + v == (u + u') + p.prod + (v' + v);
      assert StepAt(g, u + a + v, u + c + v, u + u', p, v' + v);
      assert Step(g, u + a + v, u + c + v);
      InContextIn(g, u, c, b, v, n - 1);
    }
  }

  /** Derivation works in any context. */
  lemma InContext(g: Grammar, u: seq<Symbol>, a: seq<Symbol>, b: seq<Symbol>, v: seq<Symbol>)
    requires Derives(g, a, b)
    ensures Derives(g, u + a + v, u + b + v)
  {
    var n: nat :| DerivesIn(g, a, b, n);
    InContextIn(g, u, a, b, v, n);
  }

  lemma DerivesRule(g: Grammar, p: Production)
    requires IsRule(g, p)
    ensures Derives(g, [p.name], p.prod)
  {
    assert [p.name] == [] + [p.name] + [] && p.prod == [] + p.prod + [];
    assert StepAt(g, [p.name], p.prod, [], p, []);
    assert Step(g, [p.name], p.prod) && DerivesIn(g, p.prod, p.prod, 0);
    assert DerivesIn(g, [p.name], p.prod, 1);
  }

  /** Two parts derive side by side. */
  lemma DerivesBoth(g: Grammar, a: seq<Symbol>, b: seq<Symbol>, c: seq<Symbol>, d: seq<Symbol>)
    requires Derives(g, a, b) && Derives(g, c, d)
    ensures Derives(g, a + c, b + d)
  {
    InContext(g, [], a, b, c);
    InContext(g, b, c, d, []);
    assert [] + a + c == a + c && [] + b + c == b + c && b + c + [] == b + c && b + d + [] == b + d;
    DerivesTransitive(g, a + c, b + c, b + d);
  }
}
