/** FIRST lists: the fixpoint computation finds exactly what derivations begin with. */
module FirstSets {
  import opened Grammars

  /** One list for each symbol, without duplicates. */
  type Table = map<Symbol, seq<Symbol>>

  ghost predicate HasAll(g: Grammar, t: Table) {
    forall x :: IsSymbol(g, x) ==> x in t
  }

  /** `a` is in FIRST of the form `beta`, going by the lists in `t`. */
  predicate InFirst(t: Table, beta: seq<Symbol>, a: Symbol)
    requires forall i :: 0 <= i < |beta| ==> beta[i] in t
  {
    if beta == [] then a == EMPTY
    else (a != EMPTY && a in t[beta[0]]) || (EMPTY in t[beta[0]] && InFirst(t, beta[1..], a))
  }

  /** The forms that derive from `beta` include the empty one, or one that begins with the terminal `a`. */
  ghost predicate Begins(g: Grammar, beta: seq<Symbol>, a: Symbol) {
    if a == EMPTY then Derives(g, beta, []) else IsTerminal(g, a) && exists rest :: Derives(g, beta, [a] + rest)
  }

  lemma BeginsTerminal(g: Grammar, beta: seq<Symbol>, a: Symbol)
    requires Begins(g, beta, a)
    ensures a == EMPTY || IsTerminal(g, a)
  {
  }

  lemma {:induction false} InFirstConcat(t: Table, u: seq<Symbol>, v: seq<Symbol>, a: Symbol)
    requires forall i :: 0 <= i < |u + v| ==> (u + v)[i] in t
    ensures (forall i :: 0 <= i < |u| ==> u[i] in t) && (forall i :: 0 <= i < |v| ==> v[i] in t)
    ensures InFirst(t, u + v, a) <==> (a != EMPTY && InFirst(t, u, a)) || (InFirst(t, u, EMPTY) && InFirst(t, v, a))
  {
    assert forall i :: 0 <= i < |u| ==> u[i] == (u + v)[i];
    assert forall i :: 0 <= i < |v| ==> v[i] == (u + v)[|u| + i];
    if u == [] {
      assert u + v == v;
    } else {
      assert (u + v)[1..] == u[1..] + v;
      InFirstConcat(t, u[1..], v, a);
    }
  }

  // ----- Soundness: what is in the lists is derived -----

  ghost predicate Sound(g: Grammar, t: Table) {
    forall x, a :: x in t && a in t[x] ==> Begins(g, [x], a)
  }

  lemma {:induction false} InFirstSound(g: Grammar, t: Table, beta: seq<Symbol>, a: Symbol)
    requires Sound(g, t) && forall i :: 0 <= i < |beta| ==> beta[i] in t
    requires InFirst(t, beta, a)
    ensures Begins(g, beta, a)
  {
    if beta == [] {
      DerivesSelf(g, []);
    } else if a != EMPTY && a in t[beta[0]] {
      BeginsHead(g, beta, a);
    } else {
      InFirstSound(g, t, beta[1..], a);
      BeginsTail(g, beta, a);
    }
  }

  lemma BeginsHead(g: Grammar, beta: seq<Symbol>, a: Symbol)
    requires beta != [] && a != EMPTY && Begins(g, [beta[0]], a)
    ensures Begins(g, beta, a)
  {
    var rest :| Derives(g, [beta[0]], [a] + rest);
    InContext(g, [], [beta[0]], [a] + rest, beta[1..]);
    assert [] + [beta[0]] + beta[1..] == beta && [] + ([a] + rest) + beta[1..] == [a] + (rest + beta[1..]);
  }

  lemma BeginsTail(g: Grammar, beta: seq<Symbol>, a: Symbol)
    requires beta != [] && Begins(g, [beta[0]], EMPTY) && Begins(g, beta[1..], a)
    ensures Begins(g, beta, a)
  {
    var tail := beta[1..];
    InContext(g, [], [beta[0]], [], tail);
    assert [] + [beta[0]] + tail == beta && [] + [] + tail == tail;
    if a == EMPTY {
      DerivesTransitive(g, beta, tail, []);
    } else {
      var rest :| Derives(g, tail, [a] + rest);
      DerivesTransitive(g, beta, tail, [a] + rest);
    }
  }

  lemma BeginsRule(g: Grammar, p: Production, a: Symbol)
    requires IsRule(g, p) && Begins(g, p.prod, a)
    ensures Begins(g, [p.name], a)
  {
    DerivesRule(g, p);
    if a == EMPTY {
      DerivesTransitive(g, [p.name], p.prod, []);
    } else {
      var rest :| Derives(g, p.prod, [a] + rest);
      DerivesTransitive(g, [p.name], p.prod, [a] + rest);
    }
  }

  // ----- Completeness: what is derived is in the lists, once nothing more can be added -----

  ghost predicate TerminalLists(g: Grammar, t: Table) {
    forall x :: IsTerminal(g, x) ==> x in t && t[x] == [x]
  }

  /** The list of the production's name has all of FIRST of its right side. */
  ghost predicate RuleAdded(t: Table, p: Production) {
    && p.name in t && (forall i :: 0 <= i < |p.prod| ==> p.prod[i] in t)
    && forall a :: InFirst(t, p.prod, a) ==> a in t[p.name]
  }

  ghost predicate ClosedUnderRules(g: Grammar, t: Table) {
    forall p :: IsRule(g, p) ==> RuleAdded(t, p)
  }

  /** A derivation step adds nothing to FIRST of a form. */
  lemma FirstOfStep(g: Grammar, t: Table, a: seq<Symbol>, b: seq<Symbol>, x: Symbol)
    requires WellFormed(g) && HasAll(g, t) && ClosedUnderRules(g, t)
    requires IsForm(g, a) && Step(g, a, b)
    ensures IsForm(g, b) && (InFirst(t, b, x) ==> InFirst(t, a, x))
  {
    var u, p, v :| StepAt(g, a, b, u, p, v);
    forall i | 0 <= i < |b| ensures IsSymbol(g, b[i]) {
      assert b[i] == if i < |u| then a[i] else if i < |u| + |p.prod| then p.prod[i - |u|] else a[i - |p.prod| + 1];
    }
    FirstSplit(t, u, p.prod, v, x);
    FirstSplit(t, u, [p.name], v, x);
    assert InFirst(t, [p.name][1..], EMPTY) && (InFirst(t, [p.name][1..], x) ==> x == EMPTY);
  }

  lemma FirstSplit(t: Table, u: seq<Symbol>, w: seq<Symbol>, v: seq<Symbol>, a: Symbol)
    requires forall i :: 0 <= i < |u + w + v| ==> (u + w + v)[i] in t
    ensures (forall i :: 0 <= i < |u| ==> u[i] in t) && (forall i :: 0 <= i < |w| ==> w[i] in t)
    ensures forall i :: 0 <= i < |v| ==> v[i] in t
    ensures InFirst(t, u + w + v, a) <==>
            (a != EMPTY && InFirst(t, u, a)) || (InFirst(t, u, EMPTY) && a != EMPTY && InFirst(t, w, a))
            || (InFirst(t, u, EMPTY) && InFirst(t, w, EMPTY) && InFirst(t, v, a))
  {
    assert forall i :: 0 <= i < |u + w| ==> (u + w)[i] == (u + w + v)[i];
    InFirstConcat(t, u + w, v, a);
    InFirstConcat(t, u, w, a);
    InFirstConcat(t, u, w, EMPTY);
  }

  lemma {:induction false} FirstOfDerivation(g: Grammar, t: Table, a: seq<Symbol>, b: seq<Symbol>, x: Symbol, n: nat)
    requires WellFormed(g) && HasAll(g, t) && ClosedUnderRules(g, t)
    requires IsForm(g, a) && DerivesIn(g, a, b, n)
    ensures IsForm(g, b) && (InFirst(t, b, x) ==> InFirst(t, a, x))
    decreases n
  {
    if n > 0 {
      var c :| Step(g, a, c) && DerivesIn(g, c, b, n - 1);
      FirstOfStep(g, t, a, c, x);
      FirstOfDerivation(g, t, c, b, x, n - 1);
    }
  }

  /** Lists that are sound and closed are exact, for every form. */
  lemma FirstExact(g: Grammar, t: Table, beta: seq<Symbol>, a: Symbol)
    requires WellFormed(g) && HasAll(g, t) && Sound(g, t) && ClosedUnderRules(g, t) && TerminalLists(g, t)
    requires IsForm(g, beta)
    ensures InFirst(t, beta, a) <==> Begins(g, beta, a)
  {
    if InFirst(t, beta, a) {
      InFirstSound(g, t, beta, a);
    }
    if Begins(g, beta, a) {
      if a == EMPTY {
        var n: nat :| DerivesIn(g, beta, [], n);
        FirstOfDerivation(g, t, beta, [], EMPTY, n);
      } else {
        var rest :| Derives(g, beta, [a] + rest);
        var n: nat :| DerivesIn(g, beta, [a] + rest, n);
        FirstOfDerivation(g, t, beta, [a] + rest, a, n);
      }
    }
  }
}
