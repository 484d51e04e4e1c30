/**
 The relation closure of the LALR generator: `digraph` and `traverse` compute, in one depth-first walk that collapses
 strongly connected components, the least solution of F(x) = FP(x) + union of F(y) over all y related to x. The walk
 adds to the lists of FP in place. That solves the equations when every node has a list of its own; nodes that share a
 list take in what the others collect.
 */
module Digraph {

  /** Nodes, a relation between them, and the initial list of each. */
  datatype Graph<!T, !A> = Graph(nodes: seq<T>, related: T -> seq<T>, initial: T -> seq<A>)

  /** Every related node is a node. */
  ghost predicate Closed<T(!new), A(!new)>(g: Graph<T, A>) {
    forall x, y :: x in g.nodes && y in g.related(x) ==> y in g.nodes
  }

  // ----- What is to be computed -----

  ghost predicate IsPath<T(!new), A(!new)>(g: Graph<T, A>, p: seq<T>) {
    p != [] && forall i :: 0 <= i < |p| - 1 ==> p[i + 1] in g.related(p[i])
  }

  ghost predicate PathBetween<T(!new), A(!new)>(g: Graph<T, A>, p: seq<T>, x: T, y: T) {
    IsPath(g, p) && p[0] == x && p[|p| - 1] == y
  }

  ghost predicate Reaches<T(!new), A(!new)>(g: Graph<T, A>, x: T, y: T) {
    exists p :: PathBetween(g, p, x, y)
  }

  /** `a` is in the initial list of a node reachable from `x`. */
  ghost predicate Collected<T(!new), A(!new)>(g: Graph<T, A>, x: T, a: A) {
    exists y :: Reaches(g, x, y) && a in g.initial(y)
  }

  lemma PathTail<T(!new), A(!new)>(g: Graph<T, A>, p: seq<T>, x: T, y: T)
    requires PathBetween(g, p, x, y) && |p| > 1
    ensures PathBetween(g, p[1..], p[1], y)
  {
    forall i | 0 <= i < |p[1..]| - 1 ensures p[1..][i + 1] in g.related(p[1..][i]) {
      assert p[i + 2] in g.related(p[i + 1]);
    }
  }

  lemma ReachesSelf<T(!new), A(!new)>(g: Graph<T, A>, x: T)
    ensures Reaches(g, x, x)
  {
    assert PathBetween(g, [x], x, x);
  }

  lemma ReachesStep<T(!new), A(!new)>(g: Graph<T, A>, x: T, y: T, z: T)
    requires y in g.related(x) && Reaches(g, y, z)
    ensures Reaches(g, x, z)
  {
    var p :| PathBetween(g, p, y, z);
    assert PathBetween(g, [x] + p, x, z);
  }

  lemma ReachesTransitive<T(!new), A(!new)>(g: Graph<T, A>, x: T, y: T, z: T)
    requires Reaches(g, x, y) && Reaches(g, y, z)
    ensures Reaches(g, x, z)
  {
    var p :| PathBetween(g, p, x, y);
    var q :| PathBetween(g, q, y, z);
    assert PathBetween(g, p + q[1..], x, z);
  }

  /** What the nodes that `x` reaches have collected, `x` collects. */
  lemma CollectedFrom<T(!new), A(!new)>(g: Graph<T, A>, x: T, y: T, a: A)
    requires Reaches(g, x, y) && Collected(g, y, a)
    ensures Collected(g, x, a)
  {
    var z :| Reaches(g, y, z) && a in g.initial(z);
    ReachesTransitive(g, x, y, z);
  }

  lemma CollectedIn<T(!new), A(!new)>(g: Graph<T, A>, x: T, y: T, a: A)
    requires Reaches(g, x, y) && a in g.initial(y)
    ensures Collected(g, x, a)
  {
  }

  lemma CollectedNext<T(!new), A(!new)>(g: Graph<T, A>, x: T, y: T, a: A)
    requires y in g.related(x) && Collected(g, y, a)
    ensures Collected(g, x, a)
  {
    ReachesSelf(g, y);
    ReachesStep(g, x, y, y);
    CollectedFrom(g, x, y, a);
  }

  /** Each reaches the other. */
  ghost predicate Mutual<T(!new), A(!new)>(g: Graph<T, A>, x: T, y: T) { Reaches(g, x, y) && Reaches(g, y, x) }

  // ----- Shared lists -----

  /** The nodes among `nodes` that have the same list as `x`. */
  function Sharers<T(!new, ==)>(nodes: seq<T>, home: map<T, nat>, x: T): (r: seq<T>)
    ensures forall y :: y in r <==> y in nodes && x in home && y in home && home[y] == home[x]
  {
    if nodes == [] then []
    else
      var y := nodes[0];
      (if x in home && y in home && home[y] == home[x] then [y] else []) + Sharers(nodes[1..], home, x)
  }

  /** The relation, with nodes that share a list related to each other. */
  ghost function Sharing<T(!new), A(!new)>(g: Graph<T, A>, home: map<T, nat>): Graph<T, A> {
    Graph(g.nodes, x => g.related(x) + Sharers(g.nodes, home, x), g.initial)
  }

  lemma {:induction false} ReachesSharing<T(!new), A(!new)>(g: Graph<T, A>, home: map<T, nat>, p: seq<T>, x: T, y: T)
    requires PathBetween(g, p, x, y)
    ensures PathBetween(Sharing(g, home), p, x, y)
  {
    forall i | 0 <= i < |p| - 1 ensures p[i + 1] in Sharing(g, home).related(p[i]) {
      assert p[i + 1] in g.related(p[i]);
    }
  }

  /**
   What is collected over shared lists passes from a node to the nodes that reach it, and to those that share its list.
   */
  lemma SharedFrom<T(!new), A(!new)>(g: Graph<T, A>, home: map<T, nat>, x: T, y: T, a: A)
    requires Reaches(g, x, y) && Collected(Sharing(g, home), y, a)
    ensures Collected(Sharing(g, home), x, a)
  {
    var p :| PathBetween(g, p, x, y);
    ReachesSharing(g, home, p, x, y);
    CollectedFrom(Sharing(g, home), x, y, a);
  }

  lemma SharedWith<T(!new), A(!new)>(g: Graph<T, A>, home: map<T, nat>, x: T, y: T, a: A)
    requires x in home && y in home && y in g.nodes && home[x] == home[y] && Collected(Sharing(g, home), y, a)
    ensures Collected(Sharing(g, home), x, a)
  {
    assert y in Sharing(g, home).related(x);
    CollectedNext(Sharing(g, home), x, y, a);
  }

  /** Sharing is harmless: nodes with the same list collect the same. */
  ghost predicate Harmless<T(!new), A(!new)>(g: Graph<T, A>, home: map<T, nat>) {
    forall x, y, a :: x in home && y in home && y in g.nodes && home[x] == home[y] && Collected(g, y, a) ==>
      Collected(g, x, a)
  }

  /** Harmless sharing adds nothing. */
  lemma {:induction false} SharingExact<T(!new), A(!new)>(g: Graph<T, A>, home: map<T, nat>, p: seq<T>, x: T, y: T,
                                                          a: A)
    requires Harmless(g, home) && PathBetween(Sharing(g, home), p, x, y) && a in g.initial(y)
    ensures Collected(g, x, a)
    decreases |p|
  {
    if |p| == 1 {
      ReachesSelf(g, x);
    } else {
      PathTail(Sharing(g, home), p, x, y);
      SharingExact(g, home, p[1..], p[1], y, a);
      assert p[1] in Sharing(g, home).related(p[0]);
      if p[1] in g.related(x) {
        CollectedNext(g, x, p[1], a);
      }
    }
  }

  // ----- The state of the walk -----

  /**
   `low` (the source's N) is 0 for a node not yet visited, and `done` for one that is finished. Lists have an identity,
   their place in `lists`: `home` is the list that FP gives a node, and `F` the one that the node has in the walk.
   */
  datatype State<!T, !A> = State(low: map<T, int>, stack: seq<T>, F: map<T, nat>, lists: seq<seq<A>>, home: map<T, nat>)

  ghost predicate Visited<T(!new), A(!new)>(s: State<T, A>, x: T) { x in s.low && s.low[x] != 0 }

  ghost predicate Finished<T(!new), A(!new)>(s: State<T, A>, x: T) { Visited(s, x) && x !in s.stack }

  /** `a` is in the list of `x`. */
  ghost predicate InList<T(!new), A(!new)>(s: State<T, A>, x: T, a: A) {
    x in s.F && s.F[x] < |s.lists| && a in s.lists[s.F[x]]
  }

  /** The lists of FP: they have the initial elements, and only what is collected over shared lists. */
  ghost predicate Homes<T(!new), A(!new)>(g: Graph<T, A>, s: State<T, A>) {
    (forall x :: x in s.home <==> x in g.nodes) && forall x :: x in g.nodes ==> Home(g, s, x)
  }

  ghost predicate Home<T(!new), A(!new)>(g: Graph<T, A>, s: State<T, A>, x: T) {
    && x in s.home && s.home[x] < |s.lists|
    && (forall a :: a in g.initial(x) ==> a in s.lists[s.home[x]])
    && (forall a :: a in s.lists[s.home[x]] ==> Collected(Sharing(g, s.home), x, a))
  }

  /** The lists of finished nodes are complete; the low links point down the stack. */
  ghost predicate Valid<T(!new), A(!new)>(g: Graph<T, A>, s: State<T, A>, done: int) {
    && Closed(g) && Homes(g, s)
    && (forall x :: x in g.nodes <==> x in s.low)
    && (forall x :: x in s.F ==> x in g.nodes)
    && (forall x :: x in g.nodes && Visited(s, x) ==> x in s.F)
    && (forall i, j :: 0 <= i < j < |s.stack| ==> s.stack[i] != s.stack[j])
    && (forall i :: 0 <= i < |s.stack| ==> StackNode(g, s, i))
    && (forall x :: x in g.nodes && Finished(s, x) ==> FinishedNode(g, s, done, x))
    && (forall x, y :: x in g.nodes && Finished(s, x) && Finished(s, y) && Mutual(g, x, y) ==> SameList(s, x, y))
  }

  ghost predicate SameList<T(!new), A(!new)>(s: State<T, A>, x: T, y: T) { x in s.F && y in s.F && s.F[x] == s.F[y] }

  ghost predicate StackNode<T(!new), A(!new)>(g: Graph<T, A>, s: State<T, A>, i: nat)
    requires i < |s.stack|
  {
    var x := s.stack[i];
    && x in g.nodes && x in s.low && x in s.F && x in s.home && s.F[x] == s.home[x] && 1 <= s.low[x] <= i + 1
    && Reaches(g, x, s.stack[s.low[x] - 1])
  }

  ghost predicate FinishedNode<T(!new), A(!new)>(g: Graph<T, A>, s: State<T, A>, done: int, x: T) {
    && x in s.low && s.low[x] == done
    && (forall y :: y in g.related(x) ==> Finished(s, y))
    && (forall a :: Collected(g, x, a) ==> InList(s, x, a))
    && FromComponent(g, s, x)
  }

  /** The list is the one that FP gave to a node of the same strongly connected component. */
  ghost predicate FromComponent<T(!new), A(!new)>(g: Graph<T, A>, s: State<T, A>, x: T) {
    exists k :: ListFrom(g, s, x, k)
  }

  ghost predicate ListFrom<T(!new), A(!new)>(g: Graph<T, A>, s: State<T, A>, x: T, k: T) {
    k in g.nodes && k in s.home && x in s.F && s.F[x] == s.home[k] && Mutual(g, x, k)
  }

  /** Whatever a node that was visited has is collected over shared lists. */
  lemma HasSound<T(!new), A(!new)>(g: Graph<T, A>, s: State<T, A>, done: int, x: T, a: A)
    requires Valid(g, s, done) && x in g.nodes && Visited(s, x) && InList(s, x, a)
    ensures Collected(Sharing(g, s.home), x, a)
  {
    if x in s.stack {
      var q :| 0 <= q < |s.stack| && s.stack[q] == x;
      assert StackNode(g, s, q) && Home(g, s, x);
    } else {
      assert FinishedNode(g, s, done, x);
      var k :| ListFrom(g, s, x, k);
      assert Home(g, s, k);
      SharedFrom(g, s.home, x, k, a);
    }
  }

  /**
   The node at stack position `i` has been left, and belongs to the part of the stack that starts with the node at
   `d`: that node reaches it, everything it contributes is in the list of that node, whose low link is below everything
   it is related to.
   */
  ghost predicate Left<T(!new), A(!new)>(g: Graph<T, A>, s: State<T, A>, d: nat, i: nat, count: nat)
    requires d <= i < |s.stack| && count <= |g.related(s.stack[i])|
  {
    var x, z := s.stack[d], s.stack[i];
    && x in s.low && z in s.low && s.low[x] <= s.low[z] && Reaches(g, x, z)
    && (forall a :: a in g.initial(z) ==> InList(s, x, a))
    && (forall k :: 0 <= k < count ==> Covered(g, s, x, g.related(z)[k]))
  }

  ghost predicate Covered<T(!new), A(!new)>(g: Graph<T, A>, s: State<T, A>, x: T, y: T)
    requires x in s.low
  {
    && Visited(s, y)
    && (forall q :: 0 <= q < |s.stack| && s.stack[q] == y ==> s.low[x] <= q + 1)
    && (Finished(s, y) ==> forall a :: Collected(g, y, a) ==> InList(s, x, a))
  }

  /** All nodes above position `d` have been left, and point further down. */
  ghost predicate LeftAbove<T(!new), A(!new)>(g: Graph<T, A>, s: State<T, A>, d: nat)
    requires d < |s.stack|
  {
    forall i :: d < i < |s.stack| ==>
      Left(g, s, d, i, |g.related(s.stack[i])|) && s.stack[i] in s.low && s.low[s.stack[i]] <= i
  }

  // ----- One step of the walk -----

  ghost predicate Grown<A(!new)>(lists: seq<seq<A>>, lists': seq<seq<A>>) {
    |lists| == |lists'| && forall l, a :: 0 <= l < |lists| && a in lists[l] ==> a in lists'[l]
  }

  /** Only the list `at` has new elements, and these are from `list`. */
  ghost predicate OnlyAdded<A(!new)>(lists: seq<seq<A>>, lists': seq<seq<A>>, at: nat, list: seq<A>) {
    |lists| == |lists'|
    && forall l :: 0 <= l < |lists| ==> forall a :: a in lists'[l] ==> a in lists[l] || (l == at && a in list)
  }

  lemma AddedOne<A(!new)>(lists0: seq<seq<A>>, lists: seq<seq<A>>, lists': seq<seq<A>>, at: nat, list: seq<A>, a: A)
    requires Grown(lists0, lists) && OnlyAdded(lists0, lists, at, list) && at < |lists| && a in list
    requires lists' == lists[at := lists[at] + [a]]
    ensures Grown(lists0, lists') && OnlyAdded(lists0, lists', at, list)
  {
    forall l, b | 0 <= l < |lists0| && b in lists0[l] ensures b in lists'[l] {
      assert b in lists[l];
    }
  }

  /** Nodes that were visited keep their low link and their list, and lists only grow. */
  ghost predicate Kept<T(!new), A(!new)>(s: State<T, A>, s': State<T, A>) {
    && s.stack <= s'.stack && s'.home == s.home && Grown(s.lists, s'.lists)
    && (forall x :: Visited(s, x) ==> x in s'.low && s'.low[x] == s.low[x] && (x in s'.stack <==> x in s.stack))
    && (forall x :: Visited(s, x) && x in s.F ==> x in s'.F && s'.F[x] == s.F[x])
  }

  /** A node is entered. */
  lemma Enter<T(!new), A(!new)>(g: Graph<T, A>, s: State<T, A>, done: int, x: T, s': State<T, A>)
    requires Valid(g, s, done) && x in g.nodes && !Visited(s, x) && x in s.home
    requires s' == State(s.low[x := |s.stack| + 1], s.stack + [x], s.F[x := s.home[x]], s.lists, s.home)
    ensures Valid(g, s', done) && LeftAbove(g, s', |s.stack|) && Kept(s, s')
    ensures Left(g, s', |s.stack|, |s.stack|, 0)
  {
    hide Collected, Reaches, Sharing, Mutual, Home, FinishedNode, StackNode;
    ReachesSelf(g, x);
    HomeHasInitial(g, s, x);
    forall i | 0 <= i < |s'.stack| ensures StackNode(g, s', i) && (i < |s.stack| ==> s.stack[i] != x) {
      EnterStack(g, s, done, x, s', i);
    }
    forall y | y in g.nodes ensures Home(g, s', y) {
      HomeSame(g, s, s', y);
    }
    forall y | y in g.nodes && Finished(s', y) ensures FinishedNode(g, s', done, y) {
      EnterFinished(g, s, done, x, s', y);
    }
    forall y, z | y in g.nodes && Finished(s', y) && Finished(s', z) && Mutual(g, y, z) ensures SameList(s', y, z) {
      assert y != x && z != x;
      assert Finished(s, y) && Finished(s, z) && SameList(s, y, z);
    }
  }

  lemma HomeHasInitial<T(!new), A(!new)>(g: Graph<T, A>, s: State<T, A>, x: T)
    requires Homes(g, s) && x in g.nodes
    ensures x in s.home && s.home[x] < |s.lists| && forall a :: a in g.initial(x) ==> a in s.lists[s.home[x]]
  {
    assert Home(g, s, x);
  }

  lemma EnterStack<T(!new), A(!new)>(g: Graph<T, A>, s: State<T, A>, done: int, x: T, s': State<T, A>, i: nat)
    requires Valid(g, s, done) && x in g.nodes && !Visited(s, x) && x in s.home
    requires s' == State(s.low[x := |s.stack| + 1], s.stack + [x], s.F[x := s.home[x]], s.lists, s.home)
    requires i < |s'.stack|
    ensures StackNode(g, s', i) && (i < |s.stack| ==> s.stack[i] != x)
  {
    hide Collected, Reaches, Sharing, Mutual, Homes, FinishedNode;
    ReachesSelf(g, x);
    if i < |s.stack| {
      assert s.stack[i] in s.stack && StackNode(g, s, i);
    }
  }

  lemma HomeSame<T(!new), A(!new)>(g: Graph<T, A>, s: State<T, A>, s': State<T, A>, v: T)
    requires Homes(g, s) && v in g.nodes && s'.home == s.home && s'.lists == s.lists
    ensures Home(g, s', v)
  {
    hide Sharing;
    assert Home(g, s, v);
  }

  lemma EnterFinished<T(!new), A(!new)>(g: Graph<T, A>, s: State<T, A>, done: int, x: T, s': State<T, A>, y: T)
    requires Valid(g, s, done) && x in g.nodes && !Visited(s, x) && x in s.home
    requires s' == State(s.low[x := |s.stack| + 1], s.stack + [x], s.F[x := s.home[x]], s.lists, s.home)
    requires y in g.nodes && Finished(s', y)
    ensures FinishedNode(g, s', done, y)
  {
    hide Collected, Reaches, Sharing, Homes;
    assert y != x && FinishedNode(g, s, done, y);
    var k :| ListFrom(g, s, y, k);
    assert ListFrom(g, s', y, k);
  }

  /** While the node at `d` goes through its related nodes: the first `count` of them are covered. */
  ghost predicate Visiting<T(!new), A(!new)>(g: Graph<T, A>, s: State<T, A>, done: int, d: nat, count: nat) {
    && Valid(g, s, done) && d < |s.stack| && count <= |g.related(s.stack[d])|
    && LeftAbove(g, s, d) && Left(g, s, d, d, count)
  }

  /** Position `e` starts what a visit to `y` has left on the stack, if anything. */
  ghost predicate LeftBehind<T(!new), A(!new)>(g: Graph<T, A>, s: State<T, A>, e: nat, y: T) {
    && e <= |s.stack| && Visited(s, y) && y in s.F
    && (e < |s.stack| ==>
          && s.stack[e] == y && s.low[y] <= e && LeftAbove(g, s, e) && Left(g, s, e, e, |g.related(y)|))
  }

  lemma HasKept<T(!new), A(!new)>(s: State<T, A>, s': State<T, A>, x: T, a: A)
    requires Kept(s, s') && Visited(s, x) && InList(s, x, a)
    ensures InList(s', x, a)
  {
  }

  lemma CoveredKept<T(!new), A(!new)>(g: Graph<T, A>, s: State<T, A>, s': State<T, A>, x: T, y: T)
    requires x in s.low && Visited(s, x) && Covered(g, s, x, y) && Kept(s, s')
    requires forall i, j :: 0 <= i < j < |s'.stack| ==> s'.stack[i] != s'.stack[j]
    ensures x in s'.low && Covered(g, s', x, y)
  {
    forall q | 0 <= q < |s'.stack| && s'.stack[q] == y ensures s'.low[x] <= q + 1 {
      assert y in s.stack;
      var q' :| 0 <= q' < |s.stack| && s.stack[q'] == y;
      assert s'.stack[q'] == y;
    }
    forall a | Finished(s', y) && Collected(g, y, a) ensures InList(s', x, a) {
      HasKept(s, s', x, a);
    }
  }

  lemma LeftKept<T(!new), A(!new)>(g: Graph<T, A>, s: State<T, A>, s': State<T, A>, d: nat, i: nat, count: nat)
    requires d <= i < |s.stack| && count <= |g.related(s.stack[i])| && Left(g, s, d, i, count) && Kept(s, s')
    requires Visited(s, s.stack[d]) && Visited(s, s.stack[i])
    requires forall i, j :: 0 <= i < j < |s'.stack| ==> s'.stack[i] != s'.stack[j]
    ensures Left(g, s', d, i, count)
  {
    assert s'.stack[d] == s.stack[d] && s'.stack[i] == s.stack[i];
    forall a | a in g.initial(s.stack[i]) ensures InList(s', s.stack[d], a) {
      HasKept(s, s', s.stack[d], a);
    }
    forall k | 0 <= k < count ensures Covered(g, s', s'.stack[d], g.related(s'.stack[i])[k]) {
      CoveredKept(g, s, s', s.stack[d], g.related(s.stack[i])[k]);
    }
  }

  /** The state after the node at `d` has taken in what the visited node `y` has. */
  ghost predicate Absorbed<T(!new), A(!new)>(s: State<T, A>, s': State<T, A>, x: T, y: T)
    requires x in s.low && x in s.F && y in s.low
  {
    && s'.stack == s.stack && s'.F == s.F && s'.home == s.home
    && s'.low == s.low[x := if s.low[y] < s.low[x] then s.low[y] else s.low[x]]
    && Grown(s.lists, s'.lists) && (forall a :: InList(s, y, a) ==> InList(s', x, a))
    && y in s.F && s.F[y] < |s.lists| && OnlyAdded(s.lists, s'.lists, s.F[x], s.lists[s.F[y]])
  }

  lemma CoveredLower<T(!new), A(!new)>(g: Graph<T, A>, s: State<T, A>, s': State<T, A>, x: T, y: T, u: T, v: T)
    requires x in s.low && x in s.F && y in s.low && Absorbed(s, s', x, y) && Visited(s, x)
    requires x in s.stack && 1 <= s.low[y]
    requires u in s.low && Covered(g, s, u, v)
    requires s'.low[x] <= s.low[u] && forall a :: InList(s, u, a) ==> InList(s', x, a)
    ensures Covered(g, s', x, v)
  {
  }

  /** Absorbing keeps the state valid. */
  lemma AbsorbValid<T(!new), A(!new)>(g: Graph<T, A>, s: State<T, A>, done: int, d: nat, y: T, s': State<T, A>)
    requires Valid(g, s, done) && d < |s.stack| <= done
    requires y in g.related(s.stack[d]) && Visited(s, y)
    requires StackNode(g, s, d) && Absorbed(s, s', s.stack[d], y)
    ensures Valid(g, s', done)
  {
    hide Collected, Reaches, Sharing, Homes, Mutual;
    var x := s.stack[d];
    assert y in g.nodes;
    assert 1 <= s.low[y] && (s.low[y] < s.low[x] ==> y in s.stack && Reaches(g, y, s.stack[s.low[y] - 1])) by {
      if y in s.stack {
        var q :| 0 <= q < |s.stack| && s.stack[q] == y;
        assert StackNode(g, s, q);
      } else {
        assert FinishedNode(g, s, done, y);
      }
    }
    forall i | 0 <= i < |s'.stack| ensures StackNode(g, s', i) {
      assert StackNode(g, s, i);
      if i == d {
        if s.low[y] < s.low[x] {
          ReachesStep(g, x, y, s.stack[s.low[y] - 1]);
        }
      } else {
        assert s.stack[i] != x;
      }
    }
    AbsorbHomes(g, s, done, d, y, s');
    forall v | v in g.nodes && Finished(s', v) ensures FinishedNode(g, s', done, v) {
      AbsorbFinished(g, s, done, x, y, s', v);
    }
    forall u, v | u in g.nodes && Finished(s', u) && Finished(s', v) && Mutual(g, u, v) ensures SameList(s', u, v) {
      assert Finished(s, u) && Finished(s, v) && SameList(s, u, v);
    }
  }

  lemma AbsorbFinished<T(!new), A(!new)>(g: Graph<T, A>, s: State<T, A>, done: int, x: T, y: T, s': State<T, A>, v: T)
    requires Valid(g, s, done) && x in s.stack && x in s.low && x in s.F && y in s.low && Visited(s, x)
    requires Absorbed(s, s', x, y) && v in g.nodes && Finished(s', v)
    requires forall u :: u != x ==> (Visited(s', u) <==> Visited(s, u))
    ensures FinishedNode(g, s', done, v)
  {
    hide Collected, Reaches, Sharing, Homes;
    assert v != x && FinishedNode(g, s, done, v);
    var k :| ListFrom(g, s, v, k);
    assert ListFrom(g, s', v, k);
  }

  lemma AbsorbHomes<T(!new), A(!new)>(g: Graph<T, A>, s: State<T, A>, done: int, d: nat, y: T, s': State<T, A>)
    requires Valid(g, s, done) && d < |s.stack| && y in g.related(s.stack[d]) && y in g.nodes && Visited(s, y)
    requires StackNode(g, s, d) && Absorbed(s, s', s.stack[d], y)
    ensures Homes(g, s')
  {
    hide Collected, Reaches, Sharing;
    var x := s.stack[d];
    forall v | v in g.nodes ensures Home(g, s', v) {
      assert Home(g, s, v);
      forall a | a in s'.lists[s.home[v]] ensures Collected(Sharing(g, s.home), v, a) {
        if a !in s.lists[s.home[v]] {
          HasSound(g, s, done, y, a);
          ReachesSelf(g, y);
          ReachesStep(g, x, y, y);
          SharedFrom(g, s.home, x, y, a);
          SharedWith(g, s.home, v, x, a);
        }
      }
    }
  }

  /** The nodes between `d` and `e` have been left, and `count` related nodes of the node at `d` are covered. */
  ghost predicate LeftBetween<T(!new), A(!new)>(g: Graph<T, A>, s: State<T, A>, d: nat, e: nat, count: nat) {
    && d < e <= |s.stack| && count <= |g.related(s.stack[d])| && Left(g, s, d, d, count)
    && forall i :: d < i < e ==>
         Left(g, s, d, i, |g.related(s.stack[i])|) && s.stack[i] in s.low && s.low[s.stack[i]] <= i
  }

  /** A related node was visited, and what it left behind now counts as left by the node at `d`. */
  lemma Absorb<T(!new), A(!new)>(g: Graph<T, A>, s: State<T, A>, done: int, d: nat, e: nat, count: nat, s': State<T, A>)
    requires Valid(g, s, done) && LeftBetween(g, s, d, e, count) && |s.stack| <= done
    requires count < |g.related(s.stack[d])| && StackNode(g, s, d)
    requires var y := g.related(s.stack[d])[count]; LeftBehind(g, s, e, y) && Absorbed(s, s', s.stack[d], y)
    ensures Visiting(g, s', done, d, count + 1)
  {
    hide Collected, Reaches, Sharing, Homes, Mutual;
    var x := s.stack[d];
    var y := g.related(x)[count];
    AbsorbValid(g, s, done, d, y, s');
    assert 1 <= s.low[y] by {
      if y in s.stack {
        var q :| 0 <= q < |s.stack| && s.stack[q] == y;
        assert StackNode(g, s, q);
      }
    }
    forall i | d < i < |s'.stack|
      ensures Left(g, s', d, i, |g.related(s'.stack[i])|) && s'.stack[i] in s'.low && s'.low[s'.stack[i]] <= i
    {
      AbsorbLeft(g, s, done, d, e, count, s', i);
    }
    forall k | 0 <= k < count + 1 ensures Covered(g, s', x, g.related(x)[k]) {
      if k < count {
        assert Covered(g, s, x, g.related(x)[k]);
        CoveredLower(g, s, s', x, y, x, g.related(x)[k]);
      } else {
        AbsorbCovers(g, s, done, x, y, s');
      }
    }
  }

  lemma AbsorbLeft<T(!new), A(!new)>(g: Graph<T, A>, s: State<T, A>, done: int, d: nat, e: nat, count: nat,
                                     s': State<T, A>, i: nat)
    requires Valid(g, s, done) && d < e <= |s.stack| && d < i < |s.stack| && StackNode(g, s, d)
    requires i < e ==> Left(g, s, d, i, |g.related(s.stack[i])|) && s.stack[i] in s.low && s.low[s.stack[i]] <= i
    requires count < |g.related(s.stack[d])| && Left(g, s, d, d, count)
    requires var y := g.related(s.stack[d])[count];
             LeftBehind(g, s, e, y) && 1 <= s.low[y] && Absorbed(s, s', s.stack[d], y)
    ensures Left(g, s', d, i, |g.related(s'.stack[i])|) && s'.stack[i] in s'.low && s'.low[s'.stack[i]] <= i
  {
    hide Collected, Reaches, Sharing, Homes, Mutual;
    var x, z := s.stack[d], s.stack[i];
    var y := g.related(x)[count];
    assert StackNode(g, s, i);
    assert s.stack[i] != s.stack[d];
    var u, j := if i < e then x else y, if i < e then d else e;
    assert Left(g, s, j, i, |g.related(z)|);
    if i >= e {
      ReachesStep(g, x, y, z);
    }
    forall k | 0 <= k < |g.related(z)| ensures Covered(g, s', x, g.related(z)[k]) {
      assert Covered(g, s, u, g.related(z)[k]);
      CoveredLower(g, s, s', x, y, u, g.related(z)[k]);
    }
  }

  lemma AbsorbCovers<T(!new), A(!new)>(g: Graph<T, A>, s: State<T, A>, done: int, x: T, y: T, s': State<T, A>)
    requires Valid(g, s, done) && x in s.stack && x in s.low && x in s.F && Visited(s, x) && y in g.nodes
    requires Visited(s, y) && 1 <= s.low[y] && Absorbed(s, s', x, y)
    ensures Covered(g, s', x, y)
  {
    forall q | 0 <= q < |s'.stack| && s'.stack[q] == y ensures s'.low[x] <= q + 1 {
      assert StackNode(g, s, q);
    }
    if y !in s.stack {
      assert FinishedNode(g, s, done, y);
    }
  }

  // ----- A strongly connected component is complete -----

  /** All related nodes of the node at `d` are covered. */
  ghost predicate Exhausted<T(!new), A(!new)>(g: Graph<T, A>, s: State<T, A>, done: int, d: nat) {
    d < |s.stack| && Visiting(g, s, done, d, |g.related(s.stack[d])|)
  }

  /** Everything a component reaches is in it, or finished. */
  lemma {:induction false} ComponentCollects<T(!new), A(!new)>(g: Graph<T, A>, s: State<T, A>, done: int, d: nat,
                                                               i: nat, p: seq<T>, a: A)
    requires Valid(g, s, done) && d <= i < |s.stack|
    requires LeftAbove(g, s, d) && Left(g, s, d, d, |g.related(s.stack[d])|) && s.low[s.stack[d]] == d + 1
    requires IsPath(g, p) && p[0] == s.stack[i] && a in g.initial(p[|p| - 1])
    ensures InList(s, s.stack[d], a)
    decreases |p|
  {
    var x, z := s.stack[d], s.stack[i];
    assert Left(g, s, d, i, |g.related(z)|);
    if |p| > 1 {
      assert p[1] in g.related(p[0]);
      var k :| 0 <= k < |g.related(z)| && g.related(z)[k] == p[1];
      assert Covered(g, s, x, p[1]);
      PathTail(g, p, z, p[|p| - 1]);
      if p[1] in s.stack {
        var q :| 0 <= q < |s.stack| && s.stack[q] == p[1];
        ComponentCollects(g, s, done, d, q, p[1..], a);
      } else {
        assert PathBetween(g, p[1..], p[1], p[|p| - 1]);
        assert Reaches(g, p[1], p[|p| - 1]) && Collected(g, p[1], a);
      }
    }
  }

  /** Every node of a component reaches the one it was entered by. */
  lemma {:induction false} ComponentReturns<T(!new), A(!new)>(g: Graph<T, A>, s: State<T, A>, done: int, d: nat, i: nat)
    requires Valid(g, s, done) && d <= i < |s.stack| && LeftAbove(g, s, d)
    requires s.stack[d] in s.low && s.low[s.stack[d]] == d + 1
    ensures Reaches(g, s.stack[i], s.stack[d])
    decreases i
  {
    assert StackNode(g, s, i);
    if i == d {
      ReachesSelf(g, s.stack[d]);
    } else {
      var j := s.low[s.stack[i]] - 1;
      assert Left(g, s, d, i, |g.related(s.stack[i])|);
      ComponentReturns(g, s, done, d, j);
      ReachesTransitive(g, s.stack[i], s.stack[j], s.stack[d]);
    }
  }

  /** The list of the node a component was entered by is complete for every node of the component. */
  lemma ComponentComplete<T(!new), A(!new)>(g: Graph<T, A>, s: State<T, A>, done: int, d: nat, i: nat, a: A)
    requires Exhausted(g, s, done, d) && d <= i < |s.stack|
    requires s.low[s.stack[d]] == d + 1 && Collected(g, s.stack[i], a)
    ensures InList(s, s.stack[d], a)
  {
    var y :| Reaches(g, s.stack[i], y) && a in g.initial(y);
    var p :| PathBetween(g, p, s.stack[i], y);
    ComponentCollects(g, s, done, d, i, p, a);
  }

  /** A finished node reaches finished nodes only. */
  lemma {:induction false} FinishedStays<T(!new), A(!new)>(g: Graph<T, A>, s: State<T, A>, done: int, p: seq<T>, x: T,
                                                           y: T)
    requires Valid(g, s, done) && x in g.nodes && Finished(s, x) && PathBetween(g, p, x, y)
    ensures Finished(s, y)
    decreases |p|
  {
    if |p| > 1 {
      assert FinishedNode(g, s, done, x) && p[1] in g.related(p[0]);
      PathTail(g, p, x, y);
      FinishedStays(g, s, done, p[1..], p[1], y);
    }
  }

  /** The nodes from position `d` of a stack on. */
  function From<T(==)>(stack: seq<T>, d: nat): set<T>
    requires d <= |stack|
  {
    set x | x in stack[d..]
  }

  function Mark<T(==), V>(m: map<T, V>, keys: set<T>, v: V): map<T, V> {
    map x | x in m :: if x in keys then v else m[x]
  }

  lemma MarkOne<T, V>(m: map<T, V>, keys: set<T>, v: V, x: T)
    requires x in m
    ensures Mark(m, keys, v)[x := v] == Mark(m, keys + {x}, v)
  {
  }

  lemma MarkNone<T, V>(m: map<T, V>, stack: seq<T>, v: V)
    ensures m == Mark(m, From(stack, |stack|), v)
  {
  }

  lemma FromStep<T>(stack: seq<T>, d: nat)
    requires d < |stack|
    ensures From(stack, d) == From(stack, d + 1) + {stack[d]}
  {
    assert stack[d..] == [stack[d]] + stack[d + 1..];
  }

  /** The state once the component from position `d` on is finished. */
  ghost predicate Popped<T(!new), A(!new)>(s: State<T, A>, done: int, d: nat, s': State<T, A>)
    requires d < |s.stack| && s.stack[d] in s.F
  {
    && s'.stack == s.stack[..d] && s'.lists == s.lists && s'.home == s.home
    && s'.low == Mark(s.low, From(s.stack, d), done)
    && s'.F == Mark(s.F, From(s.stack, d), s.F[s.stack[d]])
  }

  lemma Pop<T(!new), A(!new)>(g: Graph<T, A>, s: State<T, A>, done: int, d: nat, s': State<T, A>)
    requires Exhausted(g, s, done, d) && s.low[s.stack[d]] == d + 1
    requires done > 0 && s.stack[d] in s.F && Popped(s, done, d, s')
    ensures Valid(g, s', done) && Finished(s', s.stack[d])
  {
    hide Left, LeftAbove, FinishedNode, Home, Mutual, Reaches, StackNode;
    PopVisited(g, s, done, d, s');
    PopStack(g, s, done, d, s');
    forall v | v in g.nodes && Finished(s', v) ensures FinishedNode(g, s', done, v) {
      PoppedNode(g, s, done, d, s', v);
    }
    forall v | v in g.nodes ensures Home(g, s', v) {
      HomeSame(g, s, s', v);
    }
    forall u, v | u in g.nodes && Finished(s', u) && Finished(s', v) && Mutual(g, u, v) ensures SameList(s', u, v) {
      PoppedTogether(g, s, done, d, s', u, v);
    }
  }

  lemma PopVisited<T(!new), A(!new)>(g: Graph<T, A>, s: State<T, A>, done: int, d: nat, s': State<T, A>)
    requires Valid(g, s, done) && d < |s.stack| && s.stack[d] in s.F && Popped(s, done, d, s')
    ensures forall x :: x in g.nodes && Visited(s', x) ==> x in s'.F
  {
    hide Homes, FinishedNode;
    forall x | x in From(s.stack, d) ensures x in s.F {
      var i :| 0 <= i < |s.stack[d..]| && s.stack[d..][i] == x;
      assert StackNode(g, s, d + i);
    }
  }

  lemma PopStack<T(!new), A(!new)>(g: Graph<T, A>, s: State<T, A>, done: int, d: nat, s': State<T, A>)
    requires Exhausted(g, s, done, d) && s.low[s.stack[d]] == d + 1
    requires done > 0 && s.stack[d] in s.F && Popped(s, done, d, s')
    ensures forall i :: 0 <= i < |s'.stack| ==> StackNode(g, s', i)
    ensures Finished(s', s.stack[d])
  {
    hide Left, LeftAbove, FinishedNode, Homes, Reaches;
    forall i | 0 <= i < |s'.stack| ensures StackNode(g, s', i) {
      assert StackNode(g, s, i);
      var j := s.low[s.stack[i]] - 1;
      assert s'.stack[j] == s.stack[j];
      assert s.stack[i] !in From(s.stack, d) by {
        assert forall k :: 0 <= k < |s.stack[d..]| ==> s.stack[d..][k] == s.stack[d + k];
      }
    }
    assert s.stack[d] == s.stack[d..][0];
  }

  /** A node that is finished now was finished before, or is in the component. */
  lemma PoppedNode<T(!new), A(!new)>(g: Graph<T, A>, s: State<T, A>, done: int, d: nat, s': State<T, A>, v: T)
    requires Exhausted(g, s, done, d) && s.low[s.stack[d]] == d + 1
    requires done > 0 && s.stack[d] in s.F && Popped(s, done, d, s') && v in g.nodes && Finished(s', v)
    ensures FinishedNode(g, s', done, v)
    ensures if v in From(s.stack, d) then v in s.stack && v in s'.F && s'.F[v] == s.F[s.stack[d]]
            else Finished(s, v) && v in s'.F && v in s.F && s'.F[v] == s.F[v]
  {
    hide Left, LeftAbove, Homes, Reaches;
    if v in From(s.stack, d) {
      var k :| 0 <= k < |s.stack[d..]| && s.stack[d..][k] == v;
      assert StackNode(g, s, d + k);
      PopFinishes(g, s, done, d, s', d + k);
    } else {
      PopOther(s, d, v);
      assert Finished(s, v) && FinishedNode(g, s, done, v);
      StillFinished(g, s, done, d, s', v);
    }
  }

  lemma StillFinished<T(!new), A(!new)>(g: Graph<T, A>, s: State<T, A>, done: int, d: nat, s': State<T, A>, v: T)
    requires d < |s.stack| && done > 0 && s.stack[d] in s.F && Popped(s, done, d, s')
    requires FinishedNode(g, s, done, v) && v !in From(s.stack, d)
    ensures FinishedNode(g, s', done, v)
  {
    var k :| ListFrom(g, s, v, k);
    assert ListFrom(g, s', v, k);
    forall y | y in g.related(v) ensures Finished(s', y) {
      assert Finished(s, y) && y !in s.stack;
    }
  }

  lemma PoppedTogether<T(!new), A(!new)>(g: Graph<T, A>, s: State<T, A>, done: int, d: nat, s': State<T, A>, u: T, v: T)
    requires Exhausted(g, s, done, d) && s.low[s.stack[d]] == d + 1
    requires done > 0 && s.stack[d] in s.F && Popped(s, done, d, s')
    requires u in g.nodes && Finished(s', u) && Finished(s', v) && Mutual(g, u, v) && v in g.nodes
    ensures SameList(s', u, v)
  {
    hide Left, LeftAbove, FinishedNode, Homes;
    PoppedNode(g, s, done, d, s', u);
    PoppedNode(g, s, done, d, s', v);
    if u !in From(s.stack, d) {
      var p :| PathBetween(g, p, u, v);
      FinishedStays(g, s, done, p, u, v);
      assert SameList(s, u, v);
    } else if v !in From(s.stack, d) {
      var p :| PathBetween(g, p, v, u);
      FinishedStays(g, s, done, p, v, u);
    }
  }

  lemma PopOther<T(!new), A(!new)>(s: State<T, A>, d: nat, v: T)
    requires d < |s.stack| && v !in s.stack[..d] && v !in From(s.stack, d)
    ensures v !in s.stack
  {
    assert s.stack == s.stack[..d] + s.stack[d..];
  }

  lemma PopFinishes<T(!new), A(!new)>(g: Graph<T, A>, s: State<T, A>, done: int, d: nat, s': State<T, A>, i: nat)
    requires Exhausted(g, s, done, d) && s.low[s.stack[d]] == d + 1
    requires done > 0 && s.stack[d] in s.F && Popped(s, done, d, s') && d <= i < |s.stack|
    ensures FinishedNode(g, s', done, s.stack[i])
  {
    hide Collected, Reaches, Sharing, Homes, FinishedNode, Covered;
    var x, v := s.stack[d], s.stack[i];
    assert StackNode(g, s, i) && StackNode(g, s, d);
    assert v == s.stack[d..][i - d];
    assert Left(g, s, d, i, |g.related(v)|);
    forall y | y in g.related(v) ensures Finished(s', y) {
      var k :| 0 <= k < |g.related(v)| && g.related(v)[k] == y;
      PopRelated(g, s, done, d, s', y);
    }
    forall a | Collected(g, v, a) ensures InList(s', v, a) {
      ComponentComplete(g, s, done, d, i, a);
    }
    ComponentReturns(g, s, done, d, i);
    assert ListFrom(g, s', v, x);
    FinishedNow(g, s', done, v);
  }

  lemma FinishedNow<T(!new), A(!new)>(g: Graph<T, A>, s: State<T, A>, done: int, x: T)
    requires x in s.low && s.low[x] == done && FromComponent(g, s, x)
    requires forall y :: y in g.related(x) ==> Finished(s, y)
    requires forall a :: Collected(g, x, a) ==> InList(s, x, a)
    ensures FinishedNode(g, s, done, x)
  {
  }

  /** A node that is covered when the component is popped is finished then. */
  lemma PopRelated<T(!new), A(!new)>(g: Graph<T, A>, s: State<T, A>, done: int, d: nat, s': State<T, A>, y: T)
    requires Valid(g, s, done) && d < |s.stack| && s.stack[d] in s.low && s.low[s.stack[d]] == d + 1
    requires done > 0 && s.stack[d] in s.F && Popped(s, done, d, s') && Covered(g, s, s.stack[d], y)
    ensures Finished(s', y)
  {
    hide Collected, Homes, FinishedNode, StackNode, InList;
    if y in s.stack {
      var q :| 0 <= q < |s.stack| && s.stack[q] == y;
      assert y == s.stack[d..][q - d];
      assert forall j :: 0 <= j < d ==> s'.stack[j] == s.stack[j] != s.stack[q];
    }
  }

  // ----- The walk -----

  lemma {:induction false} StackSmall<T(!new), A(!new)>(g: Graph<T, A>, s: State<T, A>, done: int)
    requires Valid(g, s, done)
    ensures |s.stack| <= |g.nodes|
  {
    forall x | x in s.stack ensures x in g.nodes {
      var i :| 0 <= i < |s.stack| && s.stack[i] == x;
      assert StackNode(g, s, i);
    }
    DistinctSmall(s.stack, g.nodes);
  }

  lemma {:induction false} DistinctSmall<T>(xs: seq<T>, ys: seq<T>)
    requires forall i, j :: 0 <= i < j < |xs| ==> xs[i] != xs[j]
    requires forall x :: x in xs ==> x in ys
    ensures |xs| <= |ys|
  {
    if xs != [] {
      assert xs[0] in ys;
      var k :| 0 <= k < |ys| && ys[k] == xs[0];
      var rest := ys[..k] + ys[k + 1..];
      forall x | x in xs[1..] ensures x in rest {
        assert x in xs && x != xs[0];
        var i :| 0 <= i < |ys| && ys[i] == x;
        assert rest[if i < k then i else i - 1] == x;
      }
      DistinctSmall(xs[1..], rest);
    }
  }

  ghost function Unvisited<T(!new), A(!new)>(g: Graph<T, A>, s: State<T, A>): set<T> {
    set x | x in g.nodes && !Visited(s, x)
  }

  class Walk<T(!new, ==), A(!new, ==)> {
    const g: Graph<T, A>
    const maxint: int
    /** The list that FP gives to each node. */
    const home: map<T, nat>
    var low: map<T, int>
    var stack: seq<T>
    var F: map<T, nat>
    var lists: seq<seq<A>>

    constructor (g: Graph<T, A>, home: map<T, nat>, lists: seq<seq<A>>, maxint: int)
      ensures this.g == g && this.maxint == maxint && this.home == home && this.lists == lists
      ensures stack == [] && F == map[] && low == map x | x in g.nodes :: 0
    {
      this.g, this.maxint, this.home, this.lists := g, maxint, home, lists;
      low, stack, F := map x | x in g.nodes :: 0, [], map[];
    }

    ghost function S(): State<T, A>
      reads this
    {
      State(low, stack, F, lists, home)
    }

    /** Adds the elements of `F[y]` that `F[x]` does not have, to whatever list that is. */
    method Merge(x: T, y: T)
      requires x in F && y in F && F[x] < |lists| && F[y] < |lists|
      modifies this`lists
      ensures Grown(old(lists), lists) && OnlyAdded(old(lists), lists, F[x], old(lists)[F[y]])
      ensures forall a :: a in old(lists)[F[y]] ==> a in lists[F[x]]
    {
      var list := lists[F[y]];
      for i := 0 to |list|
        invariant Grown(old(lists), lists) && OnlyAdded(old(lists), lists, F[x], list)
        invariant forall a :: a in list[..i] ==> a in lists[F[x]]
      {
        assert list[..i + 1] == list[..i] + [list[i]];
        if list[i] !in lists[F[x]] {
          ghost var before := lists;
          lists := lists[F[x] := lists[F[x]] + [list[i]]];
          AddedOne(old(lists), before, lists, F[x], list, list[i]);
        }
      }
      assert list[..|list|] == list;
    }

    /** Finishes the component that starts at position `d` of the stack. */
    method PopComponent(d: nat)
      requires d < |stack| && forall i, j :: 0 <= i < j < |stack| ==> stack[i] != stack[j]
      requires forall i :: d <= i < |stack| ==> stack[i] in low && stack[i] in F
      modifies this`low, this`stack, this`F
      ensures Popped(old(S()), maxint, d, S())
    {
      hide From, Mark;
      ghost var s := S();
      var x := stack[d];
      ghost var c := |stack|;
      ghost var list := F[x];
      MarkNone(low, stack, maxint);
      MarkNone(F, stack, list);
      var element := PopOne(x, s, c, list);
      c := c - 1;
      while element != x
        invariant d <= c < |s.stack| && stack == s.stack[..c] && element == s.stack[c]
        invariant low == Mark(s.low, From(s.stack, c), maxint) && F == Mark(s.F, From(s.stack, c), list)
        decreases c
      {
        element := PopOne(x, s, c, list);
        c := c - 1;
      }
    }

    /** Gives the node on top of the stack the list of `x`, marks it as finished, and pops it. */
    method PopOne(x: T, ghost s: State<T, A>, ghost c: nat, ghost list: nat) returns (element: T)
      requires 0 < c <= |s.stack| && stack == s.stack[..c] && x in s.F && s.F[x] == list
      requires s.stack[c - 1] in s.low && s.stack[c - 1] in s.F
      requires low == Mark(s.low, From(s.stack, c), maxint) && F == Mark(s.F, From(s.stack, c), list)
      modifies this`low, this`stack, this`F
      ensures element == s.stack[c - 1] && stack == s.stack[..c - 1]
      ensures low == Mark(s.low, From(s.stack, c - 1), maxint) && F == Mark(s.F, From(s.stack, c - 1), list)
    {
      hide From;
      FromStep(s.stack, c - 1);
      MarkOne(s.low, From(s.stack, c), maxint, s.stack[c - 1]);
      MarkOne(s.F, From(s.stack, c), list, s.stack[c - 1]);
      low := low[stack[|stack| - 1] := maxint];
      F := F[stack[|stack| - 1] := F[x]];
      element := stack[|stack| - 1];
      stack := stack[..|stack| - 1];
    }

    /** Takes the low link and the list of the visited node `y` into those of `x`. */
    method TakeIn(x: T, y: T, ghost d: nat, ghost e: nat, ghost i: nat)
      requires Valid(g, S(), maxint) && LeftBetween(g, S(), d, e, i) && |g.nodes| < maxint
      requires stack[d] == x && i < |g.related(x)| && g.related(x)[i] == y && LeftBehind(g, S(), e, y)
      modifies this`low, this`lists
      ensures x in low && low == old(low)[x := low[x]] && Grown(old(lists), lists)
      ensures Visiting(g, S(), maxint, d, i + 1)
    {
      hide Valid, Kept, Left, LeftAbove, StackNode, FinishedNode, Covered, Grown, OnlyAdded;
      ghost var s := S();
      OnStack(g, s, maxint, d);
      HasList(g, s, maxint, y);
      low := low[x := if low[y] < low[x] then low[y] else low[x]];
      Merge(x, y);
      assert Absorbed(s, S(), x, y) by { TakenIn(s, S(), x, y); }
      Absorb(g, s, maxint, d, e, i, S());
    }

    method Traverse(x: T)
      requires Valid(g, S(), maxint) && x in g.nodes && !Visited(S(), x) && |g.nodes| < maxint
      modifies this`low, this`stack, this`F, this`lists
      ensures Valid(g, S(), maxint) && Kept(old(S()), S()) && LeftBehind(g, S(), |old(stack)|, x)
      decreases Unvisited(g, S())
    {
      hide Valid, Kept, Left, LeftAbove, LeftBetween, LeftBehind, StackNode, FinishedNode, Covered, Unvisited, Grown;
      ghost var s0 := S();
      HasHome(g, s0, maxint, x);
      stack := stack + [x];
      var d := |stack|;
      low := low[x := d];
      F := F[x := home[x]];
      Enter(g, s0, maxint, x, S());
      var rel := g.related(x);
      for i := 0 to |rel|
        invariant d == |s0.stack| + 1 <= |stack| && stack[d - 1] == x
        invariant Visiting(g, S(), maxint, d - 1, i) && Kept(s0, S())
      {
        var y := rel[i];
        ghost var s1 := S();
        OnStack(g, s1, maxint, d - 1);
        if low[y] == 0 {
          FewerUnvisited(g, s0, s1, x);
          Traverse(y);
        } else {
          AlreadyVisited(g, s1, maxint, y);
        }
        ghost var s2 := S();
        KeepLeft(g, s1, s2, maxint, d - 1, i);
        TakeIn(x, y, d - 1, |s1.stack|, i);
        KeptChain(s0, s1, s2, S(), x);
      }
      ghost var s3 := S();
      OnStack(g, s3, maxint, d - 1);
      if low[x] == d {
        PopReady(g, s3, maxint, d - 1);
        PopComponent(d - 1);
        Pop(g, s3, maxint, d - 1, S());
        PopKeeps(g, s0, s3, maxint, d - 1, S());
      } else {
        LeftBehindHere(g, s3, maxint, d - 1);
      }
    }
  }

  lemma OnStack<T(!new), A(!new)>(g: Graph<T, A>, s: State<T, A>, done: int, d: nat)
    requires Valid(g, s, done) && d < |s.stack|
    ensures StackNode(g, s, d)
    ensures var x := s.stack[d]; x in g.nodes && x in s.low && x in s.F && s.F[x] < |s.lists| && 1 <= s.low[x] <= d + 1
    ensures forall y :: y in g.related(s.stack[d]) ==> y in g.nodes && y in s.low
    ensures |s.stack| <= |g.nodes|
  {
    assert StackNode(g, s, d) && Home(g, s, s.stack[d]);
    StackSmall(g, s, done);
  }

  lemma HasHome<T(!new), A(!new)>(g: Graph<T, A>, s: State<T, A>, done: int, x: T)
    requires Valid(g, s, done) && x in g.nodes
    ensures x in s.home
  {
    assert Home(g, s, x);
  }

  lemma HasList<T(!new), A(!new)>(g: Graph<T, A>, s: State<T, A>, done: int, y: T)
    requires Valid(g, s, done) && y in g.nodes && Visited(s, y)
    ensures y in s.F && s.F[y] < |s.lists|
  {
    if y in s.stack {
      var q :| 0 <= q < |s.stack| && s.stack[q] == y;
      assert StackNode(g, s, q) && Home(g, s, y);
    } else {
      assert FinishedNode(g, s, done, y);
      var k :| ListFrom(g, s, y, k);
      assert Home(g, s, k);
    }
  }

  lemma TakenIn<T(!new), A(!new)>(s: State<T, A>, s': State<T, A>, x: T, y: T)
    requires x in s.low && x in s.F && y in s.low && y in s.F && s.F[x] < |s.lists| && s.F[y] < |s.lists|
    requires s'.stack == s.stack && s'.F == s.F && s'.home == s.home && Grown(s.lists, s'.lists)
    requires s'.low == s.low[x := if s.low[y] < s.low[x] then s.low[y] else s.low[x]]
    requires forall a :: a in s.lists[s.F[y]] ==> a in s'.lists[s.F[x]]
    requires OnlyAdded(s.lists, s'.lists, s.F[x], s.lists[s.F[y]])
    ensures Absorbed(s, s', x, y)
  {
  }

  lemma FewerUnvisited<T(!new), A(!new)>(g: Graph<T, A>, s: State<T, A>, s': State<T, A>, x: T)
    requires Kept(s, s') && !Visited(s, x) && Visited(s', x) && x in g.nodes
    ensures Unvisited(g, s') < Unvisited(g, s)
  {
    assert x in Unvisited(g, s) && x !in Unvisited(g, s');
  }

  lemma AlreadyVisited<T(!new), A(!new)>(g: Graph<T, A>, s: State<T, A>, done: int, y: T)
    requires Valid(g, s, done) && y in g.nodes && Visited(s, y)
    ensures Kept(s, s) && LeftBehind(g, s, |s.stack|, y)
  {
  }

  lemma KeptChain<T(!new), A(!new)>(s0: State<T, A>, s1: State<T, A>, s2: State<T, A>, s3: State<T, A>, x: T)
    requires Kept(s0, s1) && Kept(s1, s2) && !Visited(s0, x)
    requires s3.stack == s2.stack && x in s3.low && s3.low == s2.low[x := s3.low[x]]
    requires s3.F == s2.F && s3.home == s2.home && Grown(s2.lists, s3.lists)
    ensures Kept(s0, s3)
  {
  }

  lemma PopReady<T(!new), A(!new)>(g: Graph<T, A>, s: State<T, A>, done: int, d: nat)
    requires Valid(g, s, done) && d < |s.stack|
    ensures forall i, j :: 0 <= i < j < |s.stack| ==> s.stack[i] != s.stack[j]
    ensures forall i :: d <= i < |s.stack| ==> s.stack[i] in s.low && s.stack[i] in s.F
  {
    forall i | d <= i < |s.stack| ensures s.stack[i] in s.low && s.stack[i] in s.F {
      assert StackNode(g, s, i);
    }
  }

  lemma PopKeeps<T(!new), A(!new)>(g: Graph<T, A>, s0: State<T, A>, s: State<T, A>, done: int, d: nat, s': State<T, A>)
    requires Kept(s0, s) && Exhausted(g, s, done, d) && d == |s0.stack|
    requires s.stack[d] in s.F && Popped(s, done, d, s') && Finished(s', s.stack[d])
    ensures Kept(s0, s') && LeftBehind(g, s', d, s.stack[d])
  {
    hide Collected, Reaches, Sharing, Homes, Mutual;
    assert s0.stack == s'.stack;
    forall i | d <= i < |s.stack| ensures s.stack[i] !in s0.stack {
      assert forall j :: 0 <= j < |s0.stack| ==> s0.stack[j] == s.stack[j] != s.stack[i];
    }
  }

  lemma LeftBehindHere<T(!new), A(!new)>(g: Graph<T, A>, s: State<T, A>, done: int, d: nat)
    requires Exhausted(g, s, done, d) && s.stack[d] in s.low && s.low[s.stack[d]] <= d
    ensures LeftBehind(g, s, d, s.stack[d])
  {
    assert StackNode(g, s, d);
  }

  /** What was left on the stack stays left during another visit. */
  lemma KeepLeft<T(!new), A(!new)>(g: Graph<T, A>, s: State<T, A>, s': State<T, A>, done: int, d: nat, count: nat)
    requires Visiting(g, s, done, d, count) && Valid(g, s', done) && Kept(s, s')
    ensures d < |s.stack| <= |s'.stack| && s'.stack[d] == s.stack[d]
    ensures LeftBetween(g, s', d, |s.stack|, count)
  {
    hide Collected, Reaches, Sharing, Homes, Mutual;
    assert StackNode(g, s, d);
    LeftKept(g, s, s', d, d, count);
    forall i | d < i < |s.stack|
      ensures Left(g, s', d, i, |g.related(s'.stack[i])|) && s'.stack[i] in s'.low && s'.low[s'.stack[i]] <= i
    {
      assert StackNode(g, s, i);
      LeftKept(g, s, s', d, i, |g.related(s.stack[i])|);
    }
  }

  /** What the walk promises of the lists that it returns, `F` naming the list of each node. */
  ghost predicate Solved<T(!new), A(!new)>(g: Graph<T, A>, home: map<T, nat>, F: map<T, nat>, lists: seq<seq<A>>) {
    && F.Keys == (set x | x in g.nodes)
    && (forall x :: x in g.nodes ==> SolvedNode(g, home, F, lists, x))
    && (forall x, y :: x in g.nodes && y in g.nodes && Mutual(g, x, y) ==> F[x] == F[y])
  }

  ghost predicate SolvedNode<T(!new), A(!new)>(g: Graph<T, A>, home: map<T, nat>, F: map<T, nat>, lists: seq<seq<A>>,
                                               x: T) {
    && x in F && F[x] < |lists| && (exists k :: FromHome(g, home, F, x, k))
    && (forall a :: Collected(g, x, a) ==> Holds(F, lists, x, a))
    && (forall a :: Holds(F, lists, x, a) ==> Collected(Sharing(g, home), x, a))
  }

  ghost predicate FromHome<T(!new), A(!new)>(g: Graph<T, A>, home: map<T, nat>, F: map<T, nat>, x: T, k: T) {
    k in g.nodes && k in home && x in F && F[x] == home[k] && Mutual(g, x, k)
  }

  ghost predicate Holds<T(!new), A(!new)>(F: map<T, nat>, lists: seq<seq<A>>, x: T, a: A) {
    x in F && F[x] < |lists| && a in lists[F[x]]
  }

  /**
   `digraph` over lists that nodes may share: the list of every node has all that the node collects, and nothing that
   it does not collect when nodes that share a list are taken as related. A strongly connected component ends with one
   list, which was the list of one of its nodes.
   */
  method ComputeShared<T(!new, ==), A(!new, ==)>(g: Graph<T, A>, home: map<T, nat>, lists0: seq<seq<A>>, maxint: int)
    returns (F: map<T, nat>, lists: seq<seq<A>>)
    requires Closed(g) && |g.nodes| < maxint
    requires home.Keys == set x | x in g.nodes
    requires forall x :: x in g.nodes ==> home[x] < |lists0| && lists0[home[x]] == g.initial(x)
    ensures Solved(g, home, F, lists) && |lists| == |lists0|
  {
    hide Valid, LeftBehind, LeftAbove, Left, Kept, Solved;
    var w := new Walk(g, home, lists0, maxint);
    StartHomes(g, w.S(), maxint);
    for i := 0 to |g.nodes|
      invariant w.g == g && w.maxint == maxint && w.home == home && |w.lists| == |lists0|
      invariant w.stack == [] && Valid(g, w.S(), maxint)
      invariant forall j :: 0 <= j < i ==> Visited(w.S(), g.nodes[j])
    {
      ghost var s := w.S();
      Numbered(g, s, maxint, g.nodes[i]);
      if w.low[g.nodes[i]] == 0 {
        w.Traverse(g.nodes[i]);
        TraversedAll(g, s, w.S(), maxint, g.nodes[i]);
      }
    }
    F, lists := w.F, w.lists;
    AllSolved(g, w.S(), maxint);
  }

  lemma Numbered<T(!new), A(!new)>(g: Graph<T, A>, s: State<T, A>, done: int, x: T)
    requires Valid(g, s, done) && x in g.nodes
    ensures x in s.low
  {
  }

  /** After a visit from an empty stack, the stack is empty. */
  lemma TraversedAll<T(!new), A(!new)>(g: Graph<T, A>, s: State<T, A>, s': State<T, A>, done: int, x: T)
    requires Valid(g, s', done) && Kept(s, s') && LeftBehind(g, s', 0, x)
    ensures s'.stack == [] && Visited(s', x) && |s'.lists| == |s.lists|
    ensures forall y :: Visited(s, y) ==> Visited(s', y)
  {
    hide Homes, FinishedNode, LeftAbove, Left;
    assert s'.stack != [] ==> StackNode(g, s', 0);
  }

  lemma StartHomes<T(!new), A(!new)>(g: Graph<T, A>, s: State<T, A>, done: int)
    requires Closed(g) && s.stack == [] && s.F == map[] && s.low == map x | x in g.nodes :: 0
    requires s.home.Keys == set x | x in g.nodes
    requires forall x :: x in g.nodes ==> s.home[x] < |s.lists| && s.lists[s.home[x]] == g.initial(x)
    ensures Valid(g, s, done)
  {
    hide FinishedNode, Mutual;
    forall x | x in g.nodes ensures Home(g, s, x) {
      forall a | a in s.lists[s.home[x]] ensures Collected(Sharing(g, s.home), x, a) {
        ReachesSelf(Sharing(g, s.home), x);
        CollectedIn(Sharing(g, s.home), x, x, a);
      }
    }
  }

  lemma AllSolved<T(!new), A(!new)>(g: Graph<T, A>, s: State<T, A>, done: int)
    requires Valid(g, s, done) && s.stack == [] && forall x :: x in g.nodes ==> Visited(s, x)
    ensures Solved(g, s.home, s.F, s.lists)
  {
    hide Homes, FinishedNode, Collected, Sharing, Mutual, SolvedNode;
    forall x | x in g.nodes ensures SolvedNode(g, s.home, s.F, s.lists, x) {
      assert Finished(s, x);
      NodeSolved(g, s, done, x);
    }
    forall x, y | x in g.nodes && y in g.nodes && Mutual(g, x, y) ensures s.F[x] == s.F[y] {
      assert Finished(s, x) && Finished(s, y) && SameList(s, x, y);
    }
  }

  lemma NodeSolved<T(!new), A(!new)>(g: Graph<T, A>, s: State<T, A>, done: int, x: T)
    requires Valid(g, s, done) && x in g.nodes && Finished(s, x)
    ensures SolvedNode(g, s.home, s.F, s.lists, x)
  {
    hide Homes, Collected, Sharing, Mutual;
    assert FinishedNode(g, s, done, x);
    HasList(g, s, done, x);
    var k :| ListFrom(g, s, x, k);
    assert FromHome(g, s.home, s.F, x, k);
    forall a | Holds(s.F, s.lists, x, a) ensures Collected(Sharing(g, s.home), x, a) {
      HasSound(g, s, done, x, a);
    }
    forall a | Collected(g, x, a) ensures Holds(s.F, s.lists, x, a) {
      assert InList(s, x, a);
    }
  }

  /** Where sharing is harmless, the lists are exact. */
  lemma SolvedExactly<T(!new), A(!new)>(g: Graph<T, A>, home: map<T, nat>, F: map<T, nat>, lists: seq<seq<A>>, x: T,
                                        a: A)
    requires Solved(g, home, F, lists) && Harmless(g, home) && x in g.nodes
    ensures Holds(F, lists, x, a) <==> Collected(g, x, a)
  {
    hide Harmless, Sharing, Mutual, FromHome, PathBetween;
    assert SolvedNode(g, home, F, lists, x);
    if Holds(F, lists, x, a) {
      var y :| Reaches(Sharing(g, home), x, y) && a in Sharing(g, home).initial(y);
      var p :| PathBetween(Sharing(g, home), p, x, y);
      SharingInitial(g, home, y);
      SharingExact(g, home, p, x, y, a);
    }
  }

  lemma SharingInitial<T(!new), A(!new)>(g: Graph<T, A>, home: map<T, nat>, y: T)
    ensures Sharing(g, home).initial(y) == g.initial(y)
  {
  }

  /** `digraph` when FP makes a new list for every node: the list of every node holds exactly what the node collects. */
  method Compute<T(!new, ==), A(!new, ==)>(g: Graph<T, A>, maxint: int) returns (F: map<T, nat>, lists: seq<seq<A>>)
    requires Closed(g) && |g.nodes| < maxint
    ensures F.Keys == (set x | x in g.nodes) && forall x :: x in g.nodes ==> F[x] < |lists|
    ensures forall x, a :: x in g.nodes ==> (Holds(F, lists, x, a) <==> Collected(g, x, a))
    ensures forall x, y :: x in g.nodes && y in g.nodes ==> (F[x] == F[y] <==> Mutual(g, x, y))
  {
    var home: map<T, nat>, lists0: seq<seq<A>> := map[], [];
    for i := 0 to |g.nodes|
      invariant home.Keys == set x | x in g.nodes[..i]
      invariant forall x :: x in home ==> home[x] < |lists0| && lists0[home[x]] == g.initial(x)
      invariant forall x, y :: x in home && y in home && home[x] == home[y] ==> x == y
    {
      var x := g.nodes[i];
      assert g.nodes[..i + 1] == g.nodes[..i] + [x];
      if x !in home {
        home, lists0 := home[x := |lists0|], lists0 + [g.initial(x)];
      }
    }
    assert g.nodes[..|g.nodes|] == g.nodes;
    F, lists := ComputeShared(g, home, lists0, maxint);
    OwnListsExact(g, home, F, lists);
  }

  lemma OwnListsExact<T(!new), A(!new)>(g: Graph<T, A>, home: map<T, nat>, F: map<T, nat>, lists: seq<seq<A>>)
    requires Solved(g, home, F, lists) && forall x, y :: x in home && y in home && home[x] == home[y] ==> x == y
    ensures forall x :: x in g.nodes ==> x in F && F[x] < |lists|
    ensures forall x, a :: x in g.nodes ==> (Holds(F, lists, x, a) <==> Collected(g, x, a))
    ensures forall x, y :: x in g.nodes && y in g.nodes ==> (F[x] == F[y] <==> Mutual(g, x, y))
  {
    hide Collected, Sharing, Mutual, SolvedNode, Holds;
    forall x | x in g.nodes ensures x in F && F[x] < |lists| {
      SolvedList(g, home, F, lists, x);
    }
    forall x, a | x in g.nodes ensures Holds(F, lists, x, a) <==> Collected(g, x, a) {
      SolvedExactly(g, home, F, lists, x, a);
    }
    forall x, y | x in g.nodes && y in g.nodes && F[x] == F[y] ensures Mutual(g, x, y) {
      SolvedList(g, home, F, lists, x);
      SolvedList(g, home, F, lists, y);
      var k :| FromHome(g, home, F, x, k);
      var m :| FromHome(g, home, F, y, m);
      MutualThrough(g, x, k, y);
    }
  }

  lemma SolvedList<T(!new), A(!new)>(g: Graph<T, A>, home: map<T, nat>, F: map<T, nat>, lists: seq<seq<A>>, x: T)
    requires Solved(g, home, F, lists) && x in g.nodes
    ensures x in F && F[x] < |lists| && exists k :: FromHome(g, home, F, x, k)
  {
    hide Collected, Sharing, Holds, FromHome;
    assert SolvedNode(g, home, F, lists, x);
  }

  lemma MutualThrough<T(!new), A(!new)>(g: Graph<T, A>, x: T, k: T, y: T)
    requires Mutual(g, x, k) && Mutual(g, y, k)
    ensures Mutual(g, x, y)
  {
    ReachesTransitive(g, x, k, y);
    ReachesTransitive(g, y, k, x);
  }

  // ----- The least solution -----

  /**
   `sol` solves the equations: what is in it for `x` is in the initial list of `x`, or in `sol` for a related node.
   */
  ghost predicate Solves<T(!new), A(!new)>(g: Graph<T, A>, sol: (T, A) -> bool) {
    forall x, a :: sol(x, a) <==> a in g.initial(x) || exists y :: y in g.related(x) && sol(y, a)
  }

  lemma CollectedSolves<T(!new), A(!new)>(g: Graph<T, A>, x: T, a: A)
    ensures Collected(g, x, a) <==> a in g.initial(x) || exists y :: y in g.related(x) && Collected(g, y, a)
  {
    if Collected(g, x, a) {
      var z :| Reaches(g, x, z) && a in g.initial(z);
      var p :| PathBetween(g, p, x, z);
      if |p| > 1 {
        PathTail(g, p, x, z);
        assert Reaches(g, p[1], z) && Collected(g, p[1], a);
      }
    }
    if a in g.initial(x) {
      ReachesSelf(g, x);
    }
    if y :| y in g.related(x) && Collected(g, y, a) {
      CollectedNext(g, x, y, a);
    }
  }

  /** What is collected is in every solution. */
  lemma {:induction false} CollectedIsLeast<T(!new), A(!new)>(g: Graph<T, A>, sol: (T, A) -> bool, p: seq<T>, x: T,
                                                              y: T, a: A)
    requires Solves(g, sol) && PathBetween(g, p, x, y) && a in g.initial(y)
    ensures sol(x, a)
    decreases |p|
  {
    if |p| > 1 {
      assert p[1] in g.related(p[0]);
      PathTail(g, p, x, y);
      CollectedIsLeast(g, sol, p[1..], p[1], y, a);
    }
  }
}
