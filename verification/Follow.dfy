/**
 FOLLOW lists: what the fixpoint computation finds follows a nonterminal is exactly what follows it in the forms that
 derive from some right side, or from the start symbol before the end of the input.
 */
module FollowSets {
  import opened Grammars
  import opened FirstSets

  ghost predicate IsRoot(g: Grammar, start: Symbol, root: seq<Symbol>) {
    root == [start, END] || exists p :: IsRule(g, p) && root == p.prod
  }

  /** The terminal `a` stands just after `x` in a form that derives from a root. */
  ghost predicate Follows(g: Grammar, start: Symbol, x: Symbol, a: Symbol) {
    IsTerminal(g, a) && exists root, u, v :: FollowsIn(g, start, x, a, root, u, v)
  }

  ghost predicate FollowsIn(g: Grammar, start: Symbol, x: Symbol, a: Symbol, root: seq<Symbol>, u: seq<Symbol>,
                            v: seq<Symbol>) {
    IsRoot(g, start, root) && Derives(g, root, u + [x] + ([a] + v))
  }

  lemma FollowsTerminal(g: Grammar, start: Symbol, x: Symbol, a: Symbol)
    requires Follows(g, start, x, a)
    ensures IsTerminal(g, a)
  {
  }

  // ----- Soundness -----

  lemma FollowsStart(g: Grammar, start: Symbol)
    ensures Follows(g, start, start, END)
  {
    DerivesSelf(g, [start, END]);
    assert [start, END] == [] + [start] + ([END] + []);
    assert FollowsIn(g, start, start, END, [start, END], [], []);
  }

  /** What the rest of a production begins with follows. */
  lemma FollowsByRest(g: Grammar, start: Symbol, p: Production, i: nat, a: Symbol)
    requires IsRule(g, p) && i < |p.prod| && a != EMPTY && Begins(g, p.prod[i + 1..], a)
    ensures Follows(g, start, p.prod[i], a)
  {
    var u, x := p.prod[..i], p.prod[i];
    var v :| Derives(g, p.prod[i + 1..], [a] + v);
    InContext(g, u + [x], p.prod[i + 1..], [a] + v, []);
    assert u + [x] + p.prod[i + 1..] + [] == p.prod && u + [x] + ([a] + v) + [] == u + [x] + ([a] + v);
    assert IsRoot(g, start, p.prod);
    assert FollowsIn(g, start, x, a, p.prod, u, v);
  }

  /** When the rest of a production can vanish, what follows the production's name follows. */
  lemma FollowsByName(g: Grammar, start: Symbol, p: Production, i: nat, a: Symbol)
    requires IsRule(g, p) && i < |p.prod| && Begins(g, p.prod[i + 1..], EMPTY) && Follows(g, start, p.name, a)
    ensures Follows(g, start, p.prod[i], a)
  {
    var root, u, v :| FollowsIn(g, start, p.name, a, root, u, v);
    var w, x := p.prod[..i], p.prod[i];
    InContext(g, w + [x], p.prod[i + 1..], [], []);
    assert w + [x] + p.prod[i + 1..] + [] == p.prod && w + [x] + [] + [] == w + [x];
    DerivesRule(g, p);
    DerivesTransitive(g, [p.name], p.prod, w + [x]);
    InContext(g, u, [p.name], w + [x], [a] + v);
    assert u + (w + [x]) + ([a] + v) == (u + w) + [x] + ([a] + v);
    DerivesTransitive(g, root, u + [p.name] + ([a] + v), (u + w) + [x] + ([a] + v));
    assert FollowsIn(g, start, x, a, root, u + w, v);
  }

  // ----- Completeness -----

  /** The list of every nonterminal of `form` has what FIRST lists find behind it. */
  ghost predicate FollowsListed(g: Grammar, first: Table, follow: Table, form: seq<Symbol>)
    requires HasAll(g, first) && IsForm(g, form)
  {
    forall i :: 0 <= i < |form| && form[i] in g.nonterminals ==> RestListed(first, follow, form[i], form[i + 1..])
  }

  ghost predicate RestListed(first: Table, follow: Table, x: Symbol, rest: seq<Symbol>)
    requires forall i :: 0 <= i < |rest| ==> rest[i] in first
  {
    x in follow && forall a :: a != EMPTY && InFirst(first, rest, a) ==> a in follow[x]
  }

  /** The equations of FOLLOW, for position `i` of a production. */
  ghost predicate FollowAdded(first: Table, follow: Table, p: Production, i: nat)
    requires i < |p.prod| && forall i :: 0 <= i < |p.prod| ==> p.prod[i] in first
  {
    && RestListed(first, follow, p.prod[i], p.prod[i + 1..])
    && (InFirst(first, p.prod[i + 1..], EMPTY) ==>
          p.name in follow && forall a :: a in follow[p.name] ==> a in follow[p.prod[i]])
  }

  /** The lists solve the equations. */
  ghost predicate FollowClosed(g: Grammar, first: Table, follow: Table, start: Symbol)
    requires WellFormed(g) && HasAll(g, first)
  {
    && start in follow && END in follow[start]
    && forall p, i :: IsRule(g, p) && 0 <= i < |p.prod| && p.prod[i] in g.nonterminals ==>
         FollowAdded(first, follow, p, i)
  }

  lemma FollowsOfStep(g: Grammar, first: Table, follow: Table, start: Symbol, a: seq<Symbol>, b: seq<Symbol>,
                      u: seq<Symbol>, p: Production, v: seq<Symbol>)
    requires WellFormed(g) && HasAll(g, first) && ClosedUnderRules(g, first) && FollowClosed(g, first, follow, start)
    requires IsForm(g, a) && FollowsListed(g, first, follow, a) && StepAt(g, a, b, u, p, v)
    ensures IsForm(g, b) && FollowsListed(g, first, follow, b)
  {
    assert Step(g, a, b);
    FirstOfStep(g, first, a, b, EMPTY);
    forall i | 0 <= i < |b| && b[i] in g.nonterminals ensures RestListed(first, follow, b[i], b[i + 1..]) {
      if i < |u| {
        SuffixStep(g, a, b, u, p, v, i);
        assert RestListed(first, follow, a[i], a[i + 1..]);
        forall x | x != EMPTY && InFirst(first, b[i + 1..], x) ensures x in follow[b[i]] {
          FirstOfStep(g, first, a[i + 1..], b[i + 1..], x);
        }
      } else if i < |u| + |p.prod| {
        var j := i - |u|;
        assert b[i] == p.prod[j] && b[i + 1..] == p.prod[j + 1..] + v;
        assert a[|u|] == p.name && a[|u| + 1..] == v;
        assert RestListed(first, follow, p.name, v) && FollowAdded(first, follow, p, j);
        forall x | x != EMPTY && InFirst(first, b[i + 1..], x) ensures x in follow[b[i]] {
          InFirstConcat(first, p.prod[j + 1..], v, x);
        }
      } else {
        var k := i - |p.prod| + 1;
        assert b[i] == a[k] && b[i + 1..] == a[k + 1..];
      }
    }
  }

  lemma SuffixStep(g: Grammar, a: seq<Symbol>, b: seq<Symbol>, u: seq<Symbol>, p: Production, v: seq<Symbol>, i: nat)
    requires StepAt(g, a, b, u, p, v) && i < |u|
    ensures a[i] == b[i] == u[i] && Step(g, a[i + 1..], b[i + 1..])
  {
    assert a[i + 1..] == u[i + 1..] + [p.name] + v && b[i + 1..] == u[i + 1..] + p.prod + v;
    assert StepAt(g, a[i + 1..], b[i + 1..], u[i + 1..], p, v);
  }

  lemma {:induction false} FollowsOfDerivation(g: Grammar, first: Table, follow: Table, start: Symbol, a: seq<Symbol>,
                                               b: seq<Symbol>, n: nat)
    requires WellFormed(g) && HasAll(g, first) && ClosedUnderRules(g, first) && FollowClosed(g, first, follow, start)
    requires IsForm(g, a) && FollowsListed(g, first, follow, a) && DerivesIn(g, a, b, n)
    ensures IsForm(g, b) && FollowsListed(g, first, follow, b)
    decreases n
  {
    if n > 0 {
      var c :| Step(g, a, c) && DerivesIn(g, c, b, n - 1);
      var u, p, v :| StepAt(g, a, c, u, p, v);
      FollowsOfStep(g, first, follow, start, a, c, u, p, v);
      FollowsOfDerivation(g, first, follow, start, c, b, n - 1);
    }
  }

  lemma RootListed(g: Grammar, first: Table, follow: Table, start: Symbol, root: seq<Symbol>)
    requires WellFormed(g) && HasAll(g, first) && TerminalLists(g, first) && FollowClosed(g, first, follow, start)
    requires start in g.nonterminals && IsRoot(g, start, root)
    ensures IsForm(g, root) && FollowsListed(g, first, follow, root)
  {
    if root == [start, END] {
      assert root[1..] == [END] && [END][1..] == [];
    } else {
      var p :| IsRule(g, p) && root == p.prod;
      assert forall i :: 0 <= i < |root| && root[i] in g.nonterminals ==> FollowAdded(first, follow, p, i);
    }
  }

  /** Lists that are sound and solve the equations are exact; so they are the least solution. */
  lemma FollowComplete(g: Grammar, first: Table, follow: Table, start: Symbol, x: Symbol, a: Symbol)
    requires WellFormed(g) && HasAll(g, first) && TerminalLists(g, first) && ClosedUnderRules(g, first)
    requires start in g.nonterminals && FollowClosed(g, first, follow, start)
    requires x in g.nonterminals && Follows(g, start, x, a)
    ensures x in follow && a in follow[x]
  {
    var root, u, v :| FollowsIn(g, start, x, a, root, u, v);
    var form := u + [x] + ([a] + v);
    var n: nat :| DerivesIn(g, root, form, n);
    RootListed(g, first, follow, start, root);
    FollowsOfDerivation(g, first, follow, start, root, form, n);
    assert form[|u|] == x && form[|u| + 1..] == [a] + v;
    assert RestListed(first, follow, x, [a] + v);
    assert InFirst(first, [a] + v, a);
  }
}
