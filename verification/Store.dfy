/** The item sets that the collection of LR(0) item sets has made, and how they are found again. */
module LR0Store {
  import opened Wrappers
  import opened Grammars
  import opened LR0Items

  /** What the dictionaries of `lr0_goto` hold: the sets made for the lists of items that it collects. */
  type Trie = map<(Symbol, seq<Item>), nat>

  /**
   Every item set made so far, its position being its identity; the trie; the cache of transitions; and the state
   numbers of the sets (`lr0_cidhash`).
   */
  datatype Store = Store(sets: seq<seq<Item>>, trie: Trie, cache: map<(nat, Symbol), nat>, ids: map<nat, nat>)

  ghost predicate Valid(g: Grammar, w: Store) {
    SetsValid(g, w) && TrieValid(g, w) && CacheValid(g, w)
  }

  ghost predicate SetsValid(g: Grammar, w: Store) {
    forall h :: 0 <= h < |w.sets| ==> IsItemSet(g, w.sets[h])
  }

  /** Each list of items has a set of its own, and that is its closure. */
  ghost predicate TrieValid(g: Grammar, w: Store) {
    && (forall key :: key in w.trie ==>
          w.trie[key] < |w.sets| && IsKernel(g, key.0, key.1) && IsClosure(g, key.1, w.sets[w.trie[key]]))
    && (forall k, k' :: k in w.trie && k' in w.trie && w.trie[k] == w.trie[k'] ==> k == k')
  }

  ghost predicate CacheValid(g: Grammar, w: Store) {
    forall h: nat, x :: (h, x) in w.cache ==> Leads(g, w, h, x, w.cache[(h, x)])
  }

  /** The transition of set `h` over `x` leads to the set `t`. */
  ghost predicate Leads(g: Grammar, w: Store, h: nat, x: Symbol, t: nat) {
    h < |w.sets| && (x, Kernel(g, w.sets[h], x)) in w.trie && w.trie[(x, Kernel(g, w.sets[h], x))] == t
  }

  /** Older sets keep their place, and lists of items their sets; lists that are new have new sets. */
  ghost predicate Extended(w: Store, w': Store) {
    && w.sets <= w'.sets && (forall key :: key in w.trie ==> key in w'.trie && w'.trie[key] == w.trie[key])
    && (forall key :: key in w'.trie && key !in w.trie ==> w'.trie[key] >= |w.sets|)
  }

  lemma ItemSetAt(g: Grammar, w: Store, h: nat)
    requires SetsValid(g, w) && h < |w.sets|
    ensures IsItemSet(g, w.sets[h])
  {
  }

  lemma ValidItemSet(g: Grammar, w: Store, h: nat)
    requires Valid(g, w) && h < |w.sets|
    ensures IsItemSet(g, w.sets[h])
  {
  }

  lemma ValidTrie(g: Grammar, w: Store)
    requires Valid(g, w)
    ensures TrieValid(g, w)
  {
  }

  lemma ListedAt(w: Store, C: seq<nat>, k: nat)
    requires Listed(w, C) && k < |C|
    ensures C[k] < |w.sets|
  {
  }

  lemma TrieHit(g: Grammar, w: Store, x: Symbol, gs: seq<Item>)
    requires TrieValid(g, w) && (x, gs) in w.trie
    ensures w.trie[(x, gs)] < |w.sets| && IsClosure(g, gs, w.sets[w.trie[(x, gs)]]) && gs != []
  {
    hide IsClosure;
    assert IsKernel(g, x, gs);
  }

  lemma CacheHit(g: Grammar, w: Store, h: nat, x: Symbol)
    requires TrieValid(g, w) && CacheValid(g, w) && (h, x) in w.cache
    ensures Leads(g, w, h, x, w.cache[(h, x)]) && w.cache[(h, x)] < |w.sets|
    ensures Kernel(g, w.sets[h], x) != [] && IsClosure(g, Kernel(g, w.sets[h], x), w.sets[w.cache[(h, x)]])
  {
    hide IsClosure, Kernel;
    assert Leads(g, w, h, x, w.cache[(h, x)]);
    TrieHit(g, w, x, Kernel(g, w.sets[h], x));
  }

  lemma CacheMore(g: Grammar, w: Store, h: nat, x: Symbol, t: nat)
    requires Valid(g, w) && Leads(g, w, h, x, t)
    ensures Valid(g, w.(cache := w.cache[(h, x) := t]))
  {
    hide IsClosure, Kernel, IsItemSet, IsKernel;
    var w' := w.(cache := w.cache[(h, x) := t]);
    forall h': nat, y | (h', y) in w'.cache ensures Leads(g, w', h', y, w'.cache[(h', y)]) {
      assert (h', y) != (h, x) ==> Leads(g, w, h', y, w.cache[(h', y)]);
    }
  }

  /** Adds the closure of a list of items that has no set yet. */
  function WithSet(w: Store, x: Symbol, gs: seq<Item>, items: seq<Item>): Store {
    w.(sets := w.sets + [items], trie := w.trie[(x, gs) := |w.sets|])
  }

  lemma SetMade(g: Grammar, w: Store, x: Symbol, gs: seq<Item>, items: seq<Item>)
    requires Valid(g, w) && IsKernel(g, x, gs) && (x, gs) !in w.trie && IsClosure(g, gs, items)
    ensures Valid(g, WithSet(w, x, gs, items)) && Extended(w, WithSet(w, x, gs, items))
  {
    assert IsItemSet(g, items) by { ClosureIsItemSet(g, gs, items); }
    hide IsClosure, IsItemSet, IsKernel, TrieValid, CacheValid;
    TrieMade(g, w, x, gs, items);
    CacheMade(g, w, x, gs, items);
  }

  lemma TrieMade(g: Grammar, w: Store, x: Symbol, gs: seq<Item>, items: seq<Item>)
    requires TrieValid(g, w) && IsKernel(g, x, gs) && (x, gs) !in w.trie && IsClosure(g, gs, items)
    ensures TrieValid(g, WithSet(w, x, gs, items)) && Extended(w, WithSet(w, x, gs, items))
  {
    hide IsClosure, IsKernel;
  }

  lemma CacheMade(g: Grammar, w: Store, x: Symbol, gs: seq<Item>, items: seq<Item>)
    requires CacheValid(g, w) && (x, gs) !in w.trie
    ensures CacheValid(g, WithSet(w, x, gs, items))
  {
    hide Kernel;
    var w' := WithSet(w, x, gs, items);
    forall h: nat, y | (h, y) in w'.cache ensures Leads(g, w', h, y, w'.cache[(h, y)]) {
      assert Leads(g, w, h, y, w.cache[(h, y)]);
    }
  }

  // ----- Numbering -----

  /** The states found so far, with their numbers; `keys` tells which list of items each but the first was made for. */
  ghost predicate Numbered(g: Grammar, w: Store, C: seq<nat>, keys: seq<(Symbol, seq<Item>)>) {
    && |C| == |keys| + 1 && Listed(w, C)
    && (forall h :: h in w.ids ==> w.ids[h] < |C| && C[w.ids[h]] == h)
    && IsClosure(g, [Item(0, 0)], w.sets[C[0]])
    && (forall key :: key in w.trie ==> w.trie[key] != C[0])
    && (forall k :: 0 <= k < |keys| ==> keys[k] in w.trie && w.trie[keys[k]] == C[k + 1])
    && (forall k :: 0 < k < |C| ==> Entered(g, w, C, k))
  }

  ghost predicate Listed(w: Store, C: seq<nat>) {
    forall k :: 0 <= k < |C| ==> C[k] < |w.sets| && C[k] in w.ids && w.ids[C[k]] == k
  }

  ghost predicate Entered(g: Grammar, w: Store, C: seq<nat>, k: nat) {
    k < |C| && exists s: nat, x :: s < k && Leads(g, w, C[s], x, C[k])
  }

  /** The transition of an item set over `x` has been followed, if there is one. */
  ghost predicate Followed(g: Grammar, w: Store, h: nat, x: Symbol) {
    && h < |w.sets|
    && (Kernel(g, w.sets[h], x) != [] ==>
          (x, Kernel(g, w.sets[h], x)) in w.trie && w.trie[(x, Kernel(g, w.sets[h], x))] in w.ids)
  }

  ghost predicate AllFollowed(g: Grammar, w: Store, C: seq<nat>, i: nat) {
    i <= |C| && forall k, x :: 0 <= k < i ==> Followed(g, w, C[k], x)
  }

  ghost predicate FollowedOver(g: Grammar, w: Store, h: nat, xs: seq<Symbol>) {
    forall m :: 0 <= m < |xs| ==> Followed(g, w, h, xs[m])
  }

  lemma NumberedFacts(g: Grammar, w: Store, C: seq<nat>, keys: seq<(Symbol, seq<Item>)>)
    requires Numbered(g, w, C, keys)
    ensures |C| == |keys| + 1 && Listed(w, C)
  {
  }

  lemma NumberedBound(g: Grammar, w: Store, C: seq<nat>, keys: seq<(Symbol, seq<Item>)>)
    requires TrieValid(g, w) && Numbered(g, w, C, keys)
    ensures |C| <= KernelBound(g) + 1
  {
    forall k, m | 0 <= k < m < |keys| ensures keys[k] != keys[m] {
      assert w.ids[C[k + 1]] == k + 1 && w.ids[C[m + 1]] == m + 1;
    }
    KernelsBounded(g, keys);
  }

  /** Making sets disturbs nothing that was numbered. */
  lemma NumberedKept(g: Grammar, w: Store, w': Store, C: seq<nat>, keys: seq<(Symbol, seq<Item>)>, i: nat)
    requires Numbered(g, w, C, keys) && AllFollowed(g, w, C, i) && Extended(w, w') && w'.ids == w.ids
    ensures Numbered(g, w', C, keys) && AllFollowed(g, w', C, i)
  {
    hide Kernel, IsClosure;
    forall k | 0 < k < |C| ensures Entered(g, w', C, k) {
      assert Entered(g, w, C, k);
      var s: nat, x :| s < k && Leads(g, w, C[s], x, C[k]);
      assert Leads(g, w', C[s], x, C[k]);
    }
    forall k, x | 0 <= k < i ensures Followed(g, w', C[k], x) {
      assert Followed(g, w, C[k], x);
    }
  }

  lemma StillFollowed(g: Grammar, w: Store, w': Store, h: nat, xs: seq<Symbol>)
    requires FollowedOver(g, w, h, xs) && Extended(w, w') && w.ids.Keys <= w'.ids.Keys
    ensures FollowedOver(g, w', h, xs)
  {
    hide Kernel;
    forall m | 0 <= m < |xs| ensures Followed(g, w', h, xs[m]) {
      assert Followed(g, w, h, xs[m]);
    }
  }

  lemma FollowedNow(g: Grammar, w: Store, h: nat, x: Symbol, r: Option<nat>)
    requires h < |w.sets| && (r.None? <==> Kernel(g, w.sets[h], x) == [])
    requires r.Some? ==> Leads(g, w, h, x, r.value) && r.value in w.ids
    ensures Followed(g, w, h, x)
  {
  }

  /** A symbol that no item of the set has after the dot needs no following. */
  lemma AllFollowedMore(g: Grammar, w: Store, C: seq<nat>, i: nat, xs: seq<Symbol>)
    requires i < |C| && Listed(w, C) && AllFollowed(g, w, C, i) && FollowedOver(g, w, C[i], xs)
    requires forall x :: Kernel(g, w.sets[C[i]], x) != [] ==> x in xs
    ensures AllFollowed(g, w, C, i + 1)
  {
    hide Kernel;
    forall x ensures Followed(g, w, C[i], x) {
      if Kernel(g, w.sets[C[i]], x) != [] {
        var m :| 0 <= m < |xs| && xs[m] == x;
        assert Followed(g, w, C[i], xs[m]);
      }
    }
  }

  function WithId(w: Store, h: nat, k: nat): Store { w.(ids := w.ids[h := k]) }

  /** A new state is numbered. */
  lemma NumberedMore(g: Grammar, w: Store, C: seq<nat>, keys: seq<(Symbol, seq<Item>)>, i: nat, x: Symbol, h: nat)
    requires i < |C| && Numbered(g, w, C, keys) && AllFollowed(g, w, C, i) && TrieValid(g, w)
    requires h !in w.ids && Leads(g, w, C[i], x, h)
    ensures (var w' := WithId(w, h, |C|);
      && Numbered(g, w', C + [h], keys + [(x, Kernel(g, w.sets[C[i]], x))]) && AllFollowed(g, w', C + [h], i)
      && Extended(w, w'))
  {
    hide Kernel, IsClosure, IsKernel;
    var w' := WithId(w, h, |C|);
    var D := C + [h];
    forall k | 0 < k < |D| ensures Entered(g, w', D, k) {
      if k < |C| {
        assert Entered(g, w, C, k);
        var s: nat, y :| s < k && Leads(g, w, C[s], y, C[k]);
        assert Leads(g, w', D[s], y, D[k]);
      } else {
        assert Leads(g, w', D[i], x, D[k]);
      }
    }
    forall k, y | 0 <= k < i ensures Followed(g, w', D[k], y) {
      assert Followed(g, w, C[k], y);
    }
  }

  // ----- The automaton of the numbered sets -----

  ghost function Built(g: Grammar, w: Store, C: seq<nat>): Automaton
    requires Listed(w, C) && AllFollowed(g, w, C, |C|)
  {
    Automaton(seq(|C|, k requires 0 <= k < |C| && C[k] < |w.sets| => w.sets[C[k]]),
              map k, x | 0 <= k < |C| && x in SymbolSet(g) && Kernel(g, w.sets[C[k]], x) != [] ::
                (k, x) := TargetOf(g, w, C, k, x))
  }

  ghost function TargetOf(g: Grammar, w: Store, C: seq<nat>, k: nat, x: Symbol): nat
    requires k < |C| && Followed(g, w, C[k], x) && Kernel(g, w.sets[C[k]], x) != []
  {
    w.ids[w.trie[(x, Kernel(g, w.sets[C[k]], x))]]
  }

  ghost function SymbolSet(g: Grammar): set<Symbol> {
    set i: nat, d: nat | i < |g.productions| && d < |g.productions[i].prod| :: g.productions[i].prod[d]
  }

  lemma KernelSymbol(g: Grammar, items: seq<Item>, x: Symbol)
    requires Kernel(g, items, x) != []
    ensures x in SymbolSet(g)
  {
    var i := Kernel(g, items, x)[0];
    assert i in Kernel(g, items, x);
    assert g.productions[i.number].prod[i.dot - 1] == x;
  }

  lemma BuiltFacts(g: Grammar, w: Store, C: seq<nat>)
    requires Listed(w, C) && AllFollowed(g, w, C, |C|)
    ensures |Built(g, w, C).states| == |C| && forall k :: 0 <= k < |C| ==> Built(g, w, C).states[k] == w.sets[C[k]]
    ensures forall s: nat, x :: (s, x) in Built(g, w, C).goto <==> s < |C| && Kernel(g, w.sets[C[s]], x) != []
  {
    hide Kernel;
    forall s: nat, x | s < |C| && Kernel(g, w.sets[C[s]], x) != [] ensures (s, x) in Built(g, w, C).goto {
      KernelSymbol(g, w.sets[C[s]], x);
    }
  }

  lemma TargetFacts(g: Grammar, w: Store, C: seq<nat>, keys: seq<(Symbol, seq<Item>)>, s: nat, x: Symbol)
    requires TrieValid(g, w) && Numbered(g, w, C, keys) && AllFollowed(g, w, C, |C|)
    requires s < |C| && Kernel(g, w.sets[C[s]], x) != []
    ensures Followed(g, w, C[s], x)
    ensures (var t := TargetOf(g, w, C, s, x);
      0 < t < |C| && Leads(g, w, C[s], x, C[t]) && IsClosure(g, Kernel(g, w.sets[C[s]], x), w.sets[C[t]]))
  {
    hide Kernel, IsClosure, IsKernel;
    assert Followed(g, w, C[s], x);
    TrieHit(g, w, x, Kernel(g, w.sets[C[s]], x));
  }

  lemma EnteredBuilt(g: Grammar, w: Store, C: seq<nat>, keys: seq<(Symbol, seq<Item>)>, t: nat)
    requires TrieValid(g, w) && Numbered(g, w, C, keys) && AllFollowed(g, w, C, |C|) && 0 < t < |C|
    ensures EnteredFromBelow(Built(g, w, C), t)
  {
    hide Kernel, IsClosure, IsKernel, TrieValid;
    assert Entered(g, w, C, t);
    var s: nat, x :| s < t && Leads(g, w, C[s], x, C[t]);
    TrieHit(g, w, x, Kernel(g, w.sets[C[s]], x));
    BuiltFacts(g, w, C);
    TargetFacts(g, w, C, keys, s, x);
    assert (s, x) in Built(g, w, C).goto && Built(g, w, C).goto[(s, x)] == t;
  }

  lemma BuiltIsAutomaton(g: Grammar, w: Store, C: seq<nat>, keys: seq<(Symbol, seq<Item>)>)
    requires TrieValid(g, w) && Numbered(g, w, C, keys) && AllFollowed(g, w, C, |C|)
    ensures Listed(w, C) && IsAutomaton(g, Built(g, w, C))
  {
    hide Kernel, IsClosure, IsKernel, Followed, TrieValid, Leads, Entered;
    var a := Built(g, w, C);
    BuiltFacts(g, w, C);
    forall s: nat, x | (s, x) in a.goto
      ensures 0 < a.goto[(s, x)] < |a.states|
      ensures IsClosure(g, Kernel(g, a.states[s], x), a.states[a.goto[(s, x)]])
    {
      TargetFacts(g, w, C, keys, s, x);
    }
    forall t | 0 < t < |a.states| ensures EnteredFromBelow(a, t) {
      EnteredBuilt(g, w, C, keys, t);
    }
  }

  /** The same list of items has the same set, and so the same number. */
  lemma BuiltHasOneTarget(g: Grammar, w: Store, C: seq<nat>)
    requires Listed(w, C) && AllFollowed(g, w, C, |C|)
    ensures OneTarget(g, Built(g, w, C))
  {
    hide Kernel;
    var a := Built(g, w, C);
    BuiltFacts(g, w, C);
    forall s: nat, s': nat, x | s < |a.states| && s' < |a.states| && (s, x) in a.goto && (s', x) in a.goto
                                && Kernel(g, a.states[s], x) == Kernel(g, a.states[s'], x)
      ensures a.goto[(s, x)] == a.goto[(s', x)]
    {
      assert Followed(g, w, C[s], x) && Followed(g, w, C[s'], x);
    }
  }

  lemma AllFollowedKept(g: Grammar, w: Store, w': Store, C: seq<nat>)
    requires Listed(w, C) && AllFollowed(g, w, C, |C|) && Extended(w, w') && w'.ids == w.ids
    ensures Listed(w', C) && AllFollowed(g, w', C, |C|)
    ensures forall k :: 0 <= k < |C| ==> w'.sets[C[k]] == w.sets[C[k]]
  {
    hide Kernel;
    forall k, x | 0 <= k < |C| ensures Followed(g, w', C[k], x) {
      assert Followed(g, w, C[k], x);
    }
  }

  lemma TargetKept(g: Grammar, w: Store, w': Store, C: seq<nat>, k: nat, x: Symbol)
    requires Listed(w, C) && AllFollowed(g, w, C, |C|) && Extended(w, w') && w'.ids == w.ids
    requires Listed(w', C) && AllFollowed(g, w', C, |C|) && (k, x) in Built(g, w, C).goto
    ensures (k, x) in Built(g, w', C).goto && Built(g, w', C).goto[(k, x)] == Built(g, w, C).goto[(k, x)]
  {
    hide Kernel;
    assert Followed(g, w, C[k], x) && Followed(g, w', C[k], x);
    BuiltFacts(g, w', C);
  }

  /** Making sets does not change the automaton of the sets that are numbered. */
  lemma BuiltKept(g: Grammar, w: Store, w': Store, C: seq<nat>)
    requires Listed(w, C) && AllFollowed(g, w, C, |C|) && Extended(w, w') && w'.ids == w.ids
    ensures Listed(w', C) && AllFollowed(g, w', C, |C|) && Built(g, w', C) == Built(g, w, C)
  {
    hide Kernel, AllFollowed, Built, Extended;
    AllFollowedKept(g, w, w', C);
    BuiltFacts(g, w, C);
    BuiltFacts(g, w', C);
    assert Built(g, w, C).states == Built(g, w', C).states;
    var b, b' := Built(g, w, C).goto, Built(g, w', C).goto;
    forall key | key in b ensures key in b' && b'[key] == b[key] {
      TargetKept(g, w, w', C, key.0, key.1);
    }
    forall key | key in b' ensures key in b {
      assert (key.0, key.1) in b;
    }
    assert b == b';
  }
}
