/** The collection of LR(0) item sets, with its stamp counter, its goto cache and its work list. */
module LR0Automaton {
  import opened Wrappers
  import opened Grammars
  import opened LR0Items
  import opened LR0Store
  import opened LR0Trie

  class Collection {
    const g: Grammar
    /** `_add_count`, and the stamps it leaves on productions. */
    var addCount: nat
    var added: map<nat, nat>
    var sets: seq<seq<Item>>
    /** `lr_goto_cache`: its dictionaries, and its entries for item sets and symbols. */
    var dicts: Dicts
    /** What the dictionaries hold, and the places of all of them. */
    ghost var trie: Trie
    ghost var places: seq<(Symbol, seq<Item>)>
    var gotoCache: map<(nat, Symbol), nat>
    var cidhash: map<nat, nat>

    constructor (g: Grammar)
      ensures this.g == g && IsNew()
    {
      this.g := g;
      addCount, added, sets, gotoCache, cidhash := 0, map[], [], map[], map[];
      dicts, trie, places := Dicts(map[], []), map[], [];
    }

    ghost predicate IsNew()
      reads this
    {
      && addCount == 0 && added == map[] && sets == [] && trie == map[] && gotoCache == map[] && cidhash == map[]
      && dicts == Dicts(map[], []) && places == []
    }

    ghost function Now(): Store
      reads this`sets, this`trie, this`gotoCache, this`cidhash
    {
      Store(sets, trie, gotoCache, cidhash)
    }

    ghost predicate Valid()
      reads this
    {
      Stamped() && LR0Store.Valid(g, Now()) && Cached()
    }

    /** The dictionaries hold what the cache is to hold. */
    ghost predicate Cached()
      reads this`dicts, this`trie, this`places
    {
      && Placed(dicts, places)
      && forall x, gs :: LR0Trie.Found(dicts, x, gs) == if (x, gs) in trie then Some(trie[(x, gs)]) else None
    }

    ghost predicate Stamped()
      reads this`addCount, this`added
    {
      forall q :: q in added ==> added[q] <= addCount
    }

    /** Productions that the current count has not stamped. */
    ghost function Unstamped(): set<nat>
      reads this`addCount, this`added
    {
      set q | 0 <= q < |g.productions| && !(q in added && added[q] == addCount)
    }

    /** `qs` are the productions stamped with the current count, once each. */
    ghost predicate StampsAre(qs: seq<nat>)
      reads this`addCount, this`added
    {
      && Distinct(qs)
      && (forall q: nat :: q in qs <==> q in added && added[q] == addCount)
    }

    ghost predicate AllStamped(qs: seq<nat>)
      reads this`addCount, this`added
    {
      forall q :: q in qs ==> q in added && added[q] == addCount
    }

    ghost predicate AllPredicted(kernel: seq<Item>, qs: seq<nat>) {
      forall q :: q in qs ==> Predicted(g, kernel, q)
    }

    /** `lr0_closure`. */
    method Closure(kernel: seq<Item>) returns (items: seq<Item>)
      requires Stamped()
      modifies this`addCount, this`added
      ensures Stamped() && IsClosure(g, kernel, items)
    {
      hide After, Heads, AllPredicted, Unstamped;
      addCount := addCount + 1;
      items := kernel;
      ghost var qs: seq<nat> := [];
      NothingYet(kernel);
      var didAdd := true;
      while didAdd
        invariant Stamped() && items == kernel + Heads(qs) && StampsAre(qs) && AllPredicted(kernel, qs)
        invariant didAdd || forall k :: 0 <= k < |items| ==> AllStamped(After(g, items[k]))
        decreases Unstamped(), didAdd
      {
        didAdd := false;
        ghost var u := Unstamped();
        var i := 0;
        while i < |items|
          invariant Stamped() && items == kernel + Heads(qs) && StampsAre(qs) && AllPredicted(kernel, qs)
          invariant i <= |items|
          invariant forall k :: 0 <= k < i ==> AllStamped(After(g, items[k]))
          invariant if didAdd then Unstamped() < u else Unstamped() == u
          decreases Unstamped(), |items| - i
        {
          ghost var before := items;
          var more;
          items, more, qs := AddAfter(kernel, items, qs, i);
          assert forall k :: 0 <= k <= i ==> items[k] == before[k];
          didAdd := didAdd || more;
          i := i + 1;
        }
      }
      ClosureDone(kernel, qs, items);
    }

    lemma ClosureDone(kernel: seq<Item>, qs: seq<nat>, items: seq<Item>)
      requires items == kernel + Heads(qs) && StampsAre(qs) && AllPredicted(kernel, qs)
      requires forall k :: 0 <= k < |items| ==> AllStamped(After(g, items[k]))
      ensures IsClosure(g, kernel, items)
    {
      forall q | Predicted(g, kernel, q) ensures q in qs {
        ClosureComplete(kernel, qs, q);
      }
      assert ClosureBy(g, kernel, items, qs);
    }

    lemma NothingYet(kernel: seq<Item>)
      ensures kernel == kernel + Heads([]) && AllPredicted(kernel, [])
    {
    }

    lemma ClosureComplete(kernel: seq<Item>, qs: seq<nat>, q: nat)
      requires StampsAre(qs) && Predicted(g, kernel, q)
      requires forall k :: 0 <= k < |kernel + Heads(qs)| ==> AllStamped(After(g, (kernel + Heads(qs))[k]))
      ensures q in qs
    {
      var items := kernel + Heads(qs);
      var s := set p | p in qs;
      forall i, r | i in kernel && r in After(g, i) ensures r in s {
        var k :| 0 <= k < |kernel| && kernel[k] == i;
        assert items[k] == i;
      }
      forall p, r | p in s && r in After(g, Item(p, 0)) ensures r in s {
        var k :| 0 <= k < |qs| && qs[k] == p;
        HeadAt(qs, k);
        assert items[|kernel| + k] == Item(p, 0);
      }
      PredictedIn(g, kernel, s, q);
    }

    /** Adds, with the dot in front, the productions after the dot of item `i` that have no current stamp. */
    method AddAfter(ghost kernel: seq<Item>, items0: seq<Item>, ghost qs0: seq<nat>, i: nat)
      returns (items: seq<Item>, more: bool, ghost qs: seq<nat>)
      requires Stamped() && items0 == kernel + Heads(qs0) && StampsAre(qs0) && AllPredicted(kernel, qs0) && i < |items0|
      modifies this`added
      ensures Stamped() && items == kernel + Heads(qs) && items0 <= items && StampsAre(qs) && AllPredicted(kernel, qs)
      ensures forall q :: q in old(added) && old(added[q]) == addCount ==> q in added && added[q] == addCount
      ensures AllStamped(After(g, items0[i]))
      ensures if more then Unstamped() < old(Unstamped()) else Unstamped() == old(Unstamped()) && items == items0
    {
      hide AllPredicted, Heads, After, Predicted;
      items, more, qs := items0, false, qs0;
      var next := After(g, items0[i]);
      for k := 0 to |next|
        invariant Stamped() && items == kernel + Heads(qs) && items0 <= items && StampsAre(qs)
        invariant AllPredicted(kernel, qs)
        invariant forall q :: q in old(added) && old(added[q]) == addCount ==> q in added && added[q] == addCount
        invariant AllStamped(next[..k])
        invariant if more then Unstamped() < old(Unstamped()) else added == old(added) && items == items0
      {
        var q := next[k];
        assert q in next;
        if !(q in added && added[q] == addCount) {
          PredictedAfter(kernel, qs0, items0, i, q);
          AllPredictedMore(kernel, qs, q);
          HeadsMore(qs, q);
          StampMore(qs, q);
          items := items + [Item(q, 0)];
          qs := qs + [q];
          added := added[q := addCount];
          more := true;
        }
      }
      assert next[..|next|] == next;
    }

    lemma StampMore(qs: seq<nat>, q: nat)
      requires StampsAre(qs) && 1 <= q < |g.productions| && !(q in added && added[q] == addCount)
      ensures q !in qs && q in Unstamped()
    {
    }

    lemma AllPredictedMore(kernel: seq<Item>, qs: seq<nat>, q: nat)
      requires AllPredicted(kernel, qs) && Predicted(g, kernel, q)
      ensures AllPredicted(kernel, qs + [q])
    {
    }

    lemma HeadsMore(qs: seq<nat>, q: nat)
      ensures Heads(qs + [q]) == Heads(qs) + [Item(q, 0)]
    {
      assert (qs + [q])[..|qs|] == qs;
    }

    lemma PredictedAfter(kernel: seq<Item>, qs: seq<nat>, items: seq<Item>, i: nat, q: nat)
      requires items == kernel + Heads(qs) && i < |items| && q in After(g, items[i]) && AllPredicted(kernel, qs)
      ensures Predicted(g, kernel, q)
    {
      hide After, Heads;
      if i < |kernel| {
        PredictedDirectly(g, kernel, items[i], q);
      } else {
        HeadAt(qs, i - |kernel|);
        PredictedNext(g, kernel, qs[i - |kernel|], q);
      }
    }

    /**
     The walk along the dictionaries: the items of a set that move over `x`, and the dictionary that they lead to, made
     on the way where there is none.
     */
    method Collect(items: seq<Item>, x: Symbol) returns (gs: seq<Item>, d: nat)
      requires Cached()
      modifies this`dicts, this`places
      ensures Cached() && gs == Kernel(g, items, x) && At(dicts, x, gs) == Some(d) && d < |dicts.all|
    {
      hide At, LR0Trie.Found, Placed;
      gs := [];
      d := RootFor(x);
      for k := 0 to |items|
        invariant Cached() && gs == Kernel(g, items[..k], x) && At(dicts, x, gs) == Some(d) && d < |dicts.all|
      {
        assert items[..k + 1][..k] == items[..k];
        if DotBefore(g, items[k], x) {
          var i := Item(items[k].number, items[k].dot + 1);
          d := Under(x, gs, d, i);
          gs := gs + [i];
        }
      }
      assert items[..|items|] == items;
    }

    /** The dictionary of a symbol. */
    method RootFor(x: Symbol) returns (d: nat)
      requires Cached()
      modifies this`dicts, this`places
      ensures Cached() && At(dicts, x, []) == Some(d) && d < |dicts.all|
    {
      if x !in dicts.roots || IsEmpty(dicts.all[dicts.roots[x]]) {
        RootPlaced(dicts, places, x);
        dicts, places := WithRoot(dicts, x), places + [(x, [])];
      }
      d := dicts.roots[x];
    }

    /** The dictionary under an item. */
    method Under(x: Symbol, ghost gs: seq<Item>, d0: nat, i: Item) returns (d: nat)
      requires Cached() && At(dicts, x, gs) == Some(d0) && d0 < |dicts.all|
      modifies this`dicts, this`places
      ensures Cached() && At(dicts, x, gs + [i]) == Some(d) && d < |dicts.all|
    {
      hide At, LR0Trie.Found;
      PlaceOf(dicts, places, x, gs);
      if i !in dicts.all[d0].next || IsEmpty(dicts.all[dicts.all[d0].next[i]]) {
        NextPlaced(dicts, places, d0, i);
        dicts, places := WithNext(dicts, d0, i), places + [(x, gs + [i])];
      } else {
        AtNext(dicts, x, gs, i);
      }
      d := dicts.all[d0].next[i];
    }

    lemma EndIs(x: Symbol, gs: seq<Item>, d: nat)
      requires Cached() && At(dicts, x, gs) == Some(d) && d < |dicts.all|
      ensures dicts.all[d].end == if (x, gs) in trie then Some(trie[(x, gs)]) else None
    {
      hide At;
      assert LR0Trie.Found(dicts, x, gs) == dicts.all[d].end;
    }

    /** `lr0_goto`: the same set as computing afresh, and always the same one for the same items. */
    method Goto(h: nat, x: Symbol) returns (r: Option<nat>)
      requires Valid() && h < |sets|
      modifies this`addCount, this`added, this`sets, this`trie, this`gotoCache, this`dicts, this`places
      ensures Valid() && Extended(old(Now()), Now())
      ensures r.None? <==> Kernel(g, sets[h], x) == []
      ensures r.Some? ==> r.value < |sets| && IsClosure(g, Kernel(g, sets[h], x), sets[r.value])
      ensures r.Some? ==> Leads(g, Now(), h, x, r.value)
    {
      hide IsClosure, IsItemSet, IsKernel, Kernel, SetsValid, TrieValid, CacheValid, Stamped, Cached;
      if (h, x) in gotoCache {
        CacheHit(g, Now(), h, x);
        return Some(gotoCache[(h, x)]);
      }
      var gs, d := Collect(sets[h], x);
      EndIs(x, gs, d);
      if dicts.all[d].end == None {
        if gs == [] { return None; }
        ItemSetAt(g, Now(), h);
        KernelIsKernel(g, sets[h], x);
        MakeSet(x, gs, d);
      }
      EndIs(x, gs, d);
      TrieHit(g, Now(), x, gs);
      CacheMore(g, Now(), h, x, trie[(x, gs)]);
      gotoCache := gotoCache[(h, x) := dicts.all[d].end.value];
      r := dicts.all[d].end;
    }

    /** Makes the set for a list of items that has none. */
    method MakeSet(x: Symbol, gs: seq<Item>, d: nat)
      requires Valid() && IsKernel(g, x, gs) && (x, gs) !in trie && At(dicts, x, gs) == Some(d) && d < |dicts.all|
      modifies this`addCount, this`added, this`sets, this`trie, this`dicts
      ensures Valid() && Extended(old(Now()), Now()) && (x, gs) in trie
      ensures At(dicts, x, gs) == Some(d) && d < |dicts.all|
    {
      hide IsClosure, IsItemSet, IsKernel, Kernel, LR0Store.Valid, Extended, Placed, LR0Trie.Found, At;
      ghost var w := Now();
      var items := Closure(gs);
      SetMade(g, w, x, gs, items);
      EndPlaced(dicts, places, x, gs, d, |sets|);
      EndSame(dicts, d, |sets|, x, gs);
      sets := sets + [items];
      dicts := WithEnd(dicts, d, |sets| - 1);
      trie := trie[(x, gs) := |sets| - 1];
      assert Now() == WithSet(w, x, gs, items);
    }

    /** A transition of a numbered set, by number: what `lr0_cidhash` says of what `lr0_goto` returns. */
    method Transition(C: seq<nat>, k: nat, x: Symbol) returns (j: Option<nat>)
      requires Valid() && Listed(Now(), C) && AllFollowed(g, Now(), C, |C|) && k < |C|
      modifies this`addCount, this`added, this`sets, this`trie, this`gotoCache, this`dicts, this`places
      ensures Valid() && Listed(Now(), C) && AllFollowed(g, Now(), C, |C|)
      ensures Built(g, Now(), C) == old(Built(g, Now(), C))
      ensures (k, x) in Built(g, Now(), C).goto <==> j.Some?
      ensures j.Some? ==> Built(g, Now(), C).goto[(k, x)] == j.value
    {
      hide IsClosure, IsItemSet, Kernel, LR0Store.Valid, Extended;
      ghost var w := Now();
      var r := Goto(C[k], x);
      BuiltKept(g, w, Now(), C);
      BuiltFacts(g, Now(), C);
      assert Followed(g, Now(), C[k], x);
      j := if r.Some? && r.value in cidhash then Some(cidhash[r.value]) else None;
    }

    /** The symbols of the productions of a set's items, once each. */
    method SymbolsOf(items: seq<Item>) returns (xs: seq<Symbol>)
      requires IsItemSet(g, items)
      ensures forall x :: Kernel(g, items, x) != [] ==> x in xs
    {
      xs := [];
      for k := 0 to |items|
        invariant forall m :: 0 <= m < k ==> AllIn(ProdOf(g, items[m]), xs)
      {
        assert items[k] in items;
        var prod := ProdOf(g, items[k]);
        for d := 0 to |prod|
          invariant forall m :: 0 <= m < k ==> AllIn(ProdOf(g, items[m]), xs)
          invariant AllIn(prod[..d], xs)
        {
          assert prod[..d + 1] == prod[..d] + [prod[d]];
          if prod[d] !in xs { xs := xs + [prod[d]]; }
        }
        assert prod[..|prod|] == prod;
      }
      forall x | Kernel(g, items, x) != [] ensures x in xs {
        var i := Kernel(g, items, x)[0];
        assert i in Kernel(g, items, x);
        var m :| 0 <= m < |items| && items[m] == Item(i.number, i.dot - 1);
        assert ProdOf(g, items[m])[i.dot - 1] == x;
      }
    }

    predicate AllIn(xs: seq<Symbol>, ys: seq<Symbol>) {
      forall d :: 0 <= d < |xs| ==> xs[d] in ys
    }

    /**
     `lr0_items`: the collection. Its item sets are the states of the LR(0) automaton, each found once, and
     `cidhash` has their numbers.
     */
    method ItemSets() returns (C: seq<nat>)
      requires |g.productions| > 0 && IsNew()
      modifies this
      ensures Valid() && Listed(Now(), C) && AllFollowed(g, Now(), C, |C|)
      ensures IsAutomaton(g, Built(g, Now(), C)) && |Built(g, Now(), C).states| == |C| <= KernelBound(g) + 1
      ensures OneTarget(g, Built(g, Now(), C))
    {
      hide IsClosure, IsItemSet, IsKernel, Kernel, Numbered, AllFollowed, IsAutomaton, Built, OneTarget, LR0Store.Valid,
           Cached, Stamped, Listed;
      NewReady();
      var items := Closure([Item(0, 0)]);
      C := FirstState(items);
      ghost var keys: seq<(Symbol, seq<Item>)> := [];
      NumberedFacts(g, Now(), C, keys);
      var i := 0;
      while i < |C|
        invariant Valid() && Numbered(g, Now(), C, keys) && Listed(Now(), C)
        invariant i <= |C| && AllFollowed(g, Now(), C, i)
        decreases KernelBound(g) + 1 - |C|, |C| - i
      {
        ListedAt(Now(), C, i);
        ValidItemSet(g, Now(), C[i]);
        var xs := SymbolsOf(sets[C[i]]);
        C, keys := FollowAll(C, keys, i, xs);
        NumberedFacts(g, Now(), C, keys);
        AllFollowedMore(g, Now(), C, i, xs);
        ValidTrie(g, Now());
        NumberedBound(g, Now(), C, keys);
        i := i + 1;
      }
      ValidTrie(g, Now());
      NumberedBound(g, Now(), C, keys);
      BuiltIsAutomaton(g, Now(), C, keys);
      BuiltHasOneTarget(g, Now(), C);
      BuiltFacts(g, Now(), C);
    }

    lemma NewReady()
      requires IsNew()
      ensures Stamped() && Cached()
    {
    }

    /** The automaton as a value: every answer of `Transition`, for every numbered set and every symbol that matters. */
    method Tabulate(C: seq<nat>) returns (a: Automaton)
      requires Valid() && Listed(Now(), C) && AllFollowed(g, Now(), C, |C|)
      modifies this`addCount, this`added, this`sets, this`trie, this`gotoCache, this`dicts, this`places
      ensures Valid() && Listed(Now(), C) && AllFollowed(g, Now(), C, |C|)
      ensures a == Built(g, Now(), C) == old(Built(g, Now(), C))
    {
      hide LR0Store.Valid, AllFollowed, Built, Kernel, IsItemSet;
      ghost var b := Built(g, Now(), C);
      var states: seq<seq<Item>>, goto: map<(nat, Symbol), nat> := [], map[];
      for k := 0 to |C|
        invariant Valid() && Listed(Now(), C) && AllFollowed(g, Now(), C, |C|) && Built(g, Now(), C) == b
        invariant |states| == k <= |b.states| && states == b.states[..k]
        invariant TabulatedTo(goto, b, k)
      {
        BuiltFacts(g, Now(), C);
        ValidItemSet(g, Now(), C[k]);
        states := states + [sets[C[k]]];
        var xs := SymbolsOf(sets[C[k]]);
        goto := TabulateRow(C, k, xs, goto, b);
      }
      BuiltFacts(g, Now(), C);
      TabulatedAll(goto, b);
      assert states == b.states;
      a := Automaton(states, goto);
    }

    ghost predicate TabulatedTo(goto: map<(nat, Symbol), nat>, b: Automaton, k: nat) {
      && (forall s: nat, x :: (s, x) in goto <==> (s, x) in b.goto && s < k)
      && (forall s: nat, x :: (s, x) in goto ==> goto[(s, x)] == b.goto[(s, x)])
    }

    lemma TabulatedAll(goto: map<(nat, Symbol), nat>, b: Automaton)
      requires TabulatedTo(goto, b, |b.states|) && forall s: nat, x :: (s, x) in b.goto ==> s < |b.states|
      ensures goto == b.goto
    {
      forall t | t in goto ensures t in b.goto && goto[t] == b.goto[t] { assert (t.0, t.1) in goto; }
      forall t | t in b.goto ensures t in goto { assert (t.0, t.1) in b.goto; }
    }

    method TabulateRow(C: seq<nat>, k: nat, xs: seq<Symbol>, goto0: map<(nat, Symbol), nat>, ghost b: Automaton)
      returns (goto: map<(nat, Symbol), nat>)
      requires Valid() && Listed(Now(), C) && AllFollowed(g, Now(), C, |C|) && Built(g, Now(), C) == b
      requires k < |C| && TabulatedTo(goto0, b, k)
      requires forall x :: Kernel(g, sets[C[k]], x) != [] ==> x in xs
      modifies this`addCount, this`added, this`sets, this`trie, this`gotoCache, this`dicts, this`places
      ensures Valid() && Listed(Now(), C) && AllFollowed(g, Now(), C, |C|) && Built(g, Now(), C) == b
      ensures TabulatedTo(goto, b, k + 1)
    {
      hide LR0Store.Valid, AllFollowed, Built, Kernel;
      BuiltFacts(g, Now(), C);
      goto := goto0;
      for m := 0 to |xs|
        invariant Valid() && Listed(Now(), C) && AllFollowed(g, Now(), C, |C|) && Built(g, Now(), C) == b
        invariant forall s: nat, x :: (s, x) in goto <==> (s, x) in b.goto && (s < k || (s == k && x in xs[..m]))
        invariant forall s: nat, x :: (s, x) in goto ==> goto[(s, x)] == b.goto[(s, x)]
      {
        var j := Transition(C, k, xs[m]);
        assert forall x :: x in xs[..m + 1] <==> x in xs[..m] || x == xs[m];
        if j.Some? { goto := goto[(k, xs[m]) := j.value]; }
      }
      assert xs[..|xs|] == xs;
    }

    method FirstState(items: seq<Item>) returns (C: seq<nat>)
      requires |g.productions| > 0 && Stamped() && IsClosure(g, [Item(0, 0)], items)
      requires Now() == Store([], map[], map[], map[]) && Cached()
      modifies this`sets, this`cidhash
      ensures Valid() && Numbered(g, Now(), C, []) && AllFollowed(g, Now(), C, 0)
    {
      hide IsClosure;
      assert IsItemSet(g, items) by { ClosureIsItemSet(g, [Item(0, 0)], items); }
      sets := [items];
      C := [0];
      cidhash := cidhash[0 := 0];
    }

    /** Follows the transitions of state `i` over the symbols `xs`, and appends to the states what is new. */
    method FollowAll(C0: seq<nat>, ghost keys0: seq<(Symbol, seq<Item>)>, i: nat, xs: seq<Symbol>)
      returns (C: seq<nat>, ghost keys: seq<(Symbol, seq<Item>)>)
      requires Valid() && i < |C0| && Numbered(g, Now(), C0, keys0) && AllFollowed(g, Now(), C0, i)
      modifies this
      ensures Valid() && C0 <= C && Numbered(g, Now(), C, keys) && AllFollowed(g, Now(), C, i)
      ensures FollowedOver(g, Now(), C[i], xs) && old(sets) <= sets
    {
      hide LR0Store.Valid, Numbered, AllFollowed, Followed, Stamped;
      C, keys := C0, keys0;
      for k := 0 to |xs|
        invariant Valid() && C0 <= C && Numbered(g, Now(), C, keys) && AllFollowed(g, Now(), C, i)
        invariant FollowedOver(g, Now(), C[i], xs[..k]) && old(sets) <= sets
      {
        C, keys := FollowOne(C, keys, i, xs[k], xs[..k]);
        assert xs[..k + 1] == xs[..k] + [xs[k]];
      }
      assert xs[..|xs|] == xs;
    }

    method FollowOne(C0: seq<nat>, ghost keys0: seq<(Symbol, seq<Item>)>, i: nat, x: Symbol, ghost done: seq<Symbol>)
      returns (C: seq<nat>, ghost keys: seq<(Symbol, seq<Item>)>)
      requires Valid() && i < |C0| && Numbered(g, Now(), C0, keys0) && AllFollowed(g, Now(), C0, i)
      requires FollowedOver(g, Now(), C0[i], done)
      modifies this
      ensures Valid() && C0 <= C && Numbered(g, Now(), C, keys) && AllFollowed(g, Now(), C, i)
      ensures FollowedOver(g, Now(), C[i], done + [x]) && old(sets) <= sets
    {
      hide IsClosure, IsItemSet, IsKernel, Kernel, TrieValid, SetsValid, Numbered, AllFollowed, Followed;
      C, keys := C0, keys0;
      NumberedFacts(g, Now(), C, keys);
      ghost var w := Now();
      var r := Goto(C[i], x);
      NumberedKept(g, w, Now(), C, keys, i);
      StillFollowed(g, w, Now(), C[i], done);
      if r.Some? && r.value !in cidhash {
        w := Now();
        NumberedMore(g, w, C, keys, i, x, r.value);
        keys := keys + [(x, Kernel(g, sets[C[i]], x))];
        cidhash := cidhash[r.value := |C|];
        C := C + [r.value];
        assert Now() == WithId(w, r.value, |C| - 1);
        StillFollowed(g, w, Now(), C[i], done);
        Renumbered(g, w, Now());
      }
      NumberedFacts(g, Now(), C, keys);
      FollowedNow(g, Now(), C[i], x, r);
    }
  }

  /** Numbers do not matter for the validity of the sets. */
  lemma Renumbered(g: Grammar, w: Store, w': Store)
    requires LR0Store.Valid(g, w) && w' == w.(ids := w'.ids)
    ensures LR0Store.Valid(g, w')
  {
    hide IsClosure, IsItemSet, IsKernel, Kernel;
    forall h: nat, y | (h, y) in w'.cache ensures Leads(g, w', h, y, w'.cache[(h, y)]) {
      assert Leads(g, w, h, y, w.cache[(h, y)]);
    }
  }
}
