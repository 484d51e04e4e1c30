/**
 The goto cache: dictionaries in dictionaries. The items that a transition collects lead, one after the other, from the
 dictionary of its symbol to another dictionary, which names the item set made for them.
 */
module LR0Trie {
  import opened Wrappers
  import opened Grammars
  import opened LR0Items

  /** A dictionary: the dictionaries under items, and the item set under `$end`. */
  datatype Dict = Dict(next: map<Item, nat>, end: Option<nat>)

  /** `lr_goto_cache`, its part for symbols: the dictionaries by identity, and which one each symbol has. */
  datatype Dicts = Dicts(roots: map<Symbol, nat>, all: seq<Dict>)

  predicate IsEmpty(d: Dict) { d.next == map[] && d.end == None }

  /** The dictionary that the items lead to. */
  function At(t: Dicts, x: Symbol, gs: seq<Item>): Option<nat> {
    if gs == [] then (if x in t.roots then Some(t.roots[x]) else None)
    else
      var d := At(t, x, gs[..|gs| - 1]);
      var i := gs[|gs| - 1];
      if d.Some? && d.value < |t.all| && i in t.all[d.value].next then Some(t.all[d.value].next[i]) else None
  }

  /** The item set that was made for the items. */
  function Found(t: Dicts, x: Symbol, gs: seq<Item>): Option<nat> {
    var d := At(t, x, gs);
    if d.Some? && d.value < |t.all| then t.all[d.value].end else None
  }

  /** Every dictionary has one place: the symbol and the items that lead to it. */
  ghost predicate Placed(t: Dicts, places: seq<(Symbol, seq<Item>)>) {
    && |places| == |t.all|
    && (forall x :: x in t.roots ==> t.roots[x] < |t.all| && places[t.roots[x]] == (x, []))
    && forall d, i :: 0 <= d < |t.all| && i in t.all[d].next ==>
         t.all[d].next[i] < |t.all| && places[t.all[d].next[i]] == (places[d].0, places[d].1 + [i])
  }

  lemma {:induction false} PlaceOf(t: Dicts, places: seq<(Symbol, seq<Item>)>, x: Symbol, gs: seq<Item>)
    requires Placed(t, places) && At(t, x, gs).Some?
    ensures At(t, x, gs).value < |t.all| && places[At(t, x, gs).value] == (x, gs)
    decreases |gs|
  {
    if gs != [] {
      PlaceOf(t, places, x, gs[..|gs| - 1]);
      assert gs == gs[..|gs| - 1] + [gs[|gs| - 1]];
    }
  }

  /** The same item sets are found. */
  ghost predicate SameFinds(t: Dicts, t': Dicts) {
    forall x, gs :: Found(t', x, gs) == Found(t, x, gs)
  }

  // ----- A new dictionary -----

  /** A new dictionary for a symbol that has none, or an empty one. */
  function WithRoot(t: Dicts, x: Symbol): Dicts { Dicts(t.roots[x := |t.all|], t.all + [Dict(map[], None)]) }

  /** A new dictionary under an item. */
  function WithNext(t: Dicts, d: nat, i: Item): Dicts
    requires d < |t.all|
  {
    Dicts(t.roots, t.all[d := Dict(t.all[d].next[i := |t.all|], t.all[d].end)] + [Dict(map[], None)])
  }

  ghost predicate NothingAt(t: Dicts, d: Option<nat>) { d.None? || (d.value < |t.all| && IsEmpty(t.all[d.value])) }

  /** The same dictionary, or nothing in either. */
  ghost predicate Alike(t: Dicts, t': Dicts, x: Symbol, gs: seq<Item>) {
    || (NothingAt(t, At(t, x, gs)) && NothingAt(t', At(t', x, gs)))
    || (At(t', x, gs) == At(t, x, gs) && At(t, x, gs).Some? && At(t, x, gs).value < |t.all|)
  }

  lemma {:induction false} RootAlike(t: Dicts, places: seq<(Symbol, seq<Item>)>, x: Symbol, y: Symbol, gs: seq<Item>)
    requires Placed(t, places) && (x in t.roots ==> IsEmpty(t.all[t.roots[x]]))
    ensures Alike(t, WithRoot(t, x), y, gs)
    decreases |gs|
  {
    if gs != [] {
      RootAlike(t, places, x, y, gs[..|gs| - 1]);
    }
  }

  lemma RootPlaced(t: Dicts, places: seq<(Symbol, seq<Item>)>, x: Symbol)
    requires Placed(t, places) && (x in t.roots ==> IsEmpty(t.all[t.roots[x]]))
    ensures Placed(WithRoot(t, x), places + [(x, [])]) && SameFinds(t, WithRoot(t, x))
  {
    hide At;
    forall y, gs ensures Found(WithRoot(t, x), y, gs) == Found(t, y, gs) {
      RootAlike(t, places, x, y, gs);
    }
  }

  lemma {:induction false} NextAlike(t: Dicts, places: seq<(Symbol, seq<Item>)>, d: nat, i: Item, y: Symbol,
                                     gs: seq<Item>)
    requires Placed(t, places) && d < |t.all| && (i in t.all[d].next ==> IsEmpty(t.all[t.all[d].next[i]]))
    requires At(t, places[d].0, places[d].1) == Some(d)
    ensures Alike(t, WithNext(t, d, i), y, gs) || At(WithNext(t, d, i), y, gs) == At(t, y, gs) == Some(d)
    decreases |gs|
  {
    if gs != [] {
      NextAlike(t, places, d, i, y, gs[..|gs| - 1]);
    }
  }

  /** The way to the dictionary does not pass through what is new under it. */
  lemma {:induction false} WayKept(t: Dicts, places: seq<(Symbol, seq<Item>)>, d: nat, i: Item, gs: seq<Item>)
    requires Placed(t, places) && d < |t.all| && gs <= places[d].1 && At(t, places[d].0, gs).Some?
    ensures At(WithNext(t, d, i), places[d].0, gs) == At(t, places[d].0, gs)
    decreases |gs|
  {
    if gs != [] {
      var before := gs[..|gs| - 1];
      WayKept(t, places, d, i, before);
      PlaceOf(t, places, places[d].0, before);
    }
  }

  lemma NextPlaced(t: Dicts, places: seq<(Symbol, seq<Item>)>, d: nat, i: Item)
    requires Placed(t, places) && d < |t.all| && (i in t.all[d].next ==> IsEmpty(t.all[t.all[d].next[i]]))
    requires At(t, places[d].0, places[d].1) == Some(d)
    ensures (var t' := WithNext(t, d, i);
      && Placed(t', places + [(places[d].0, places[d].1 + [i])]) && SameFinds(t, t')
      && At(t', places[d].0, places[d].1 + [i]) == Some(|t.all|))
  {
    hide At;
    var t' := WithNext(t, d, i);
    forall y, gs ensures Found(t', y, gs) == Found(t, y, gs) {
      NextAlike(t, places, d, i, y, gs);
    }
    WayKept(t, places, d, i, places[d].1);
    AtNext(t', places[d].0, places[d].1, i);
  }

  lemma AtNext(t: Dicts, x: Symbol, gs: seq<Item>, i: Item)
    ensures (var d := At(t, x, gs);
      At(t, x, gs + [i]) ==
        if d.Some? && d.value < |t.all| && i in t.all[d.value].next then Some(t.all[d.value].next[i]) else None)
  {
    assert (gs + [i])[..|gs|] == gs;
  }

  // ----- A new item set -----

  function WithEnd(t: Dicts, d: nat, h: nat): Dicts
    requires d < |t.all|
  {
    Dicts(t.roots, t.all[d := Dict(t.all[d].next, Some(h))])
  }

  lemma {:induction false} EndSame(t: Dicts, d: nat, h: nat, y: Symbol, gs: seq<Item>)
    requires d < |t.all|
    ensures At(WithEnd(t, d, h), y, gs) == At(t, y, gs)
    decreases |gs|
  {
    if gs != [] {
      EndSame(t, d, h, y, gs[..|gs| - 1]);
    }
  }

  /** Naming an item set for some items changes nothing for others. */
  lemma EndPlaced(t: Dicts, places: seq<(Symbol, seq<Item>)>, x: Symbol, gs: seq<Item>, d: nat, h: nat)
    requires Placed(t, places) && At(t, x, gs) == Some(d) && d < |t.all|
    ensures Placed(WithEnd(t, d, h), places)
    ensures forall y, hs :: Found(WithEnd(t, d, h), y, hs) == if (y, hs) == (x, gs) then Some(h) else Found(t, y, hs)
  {
    hide At;
    PlaceOf(t, places, x, gs);
    forall y, hs ensures Found(WithEnd(t, d, h), y, hs) == if (y, hs) == (x, gs) then Some(h) else Found(t, y, hs) {
      EndSame(t, d, h, y, hs);
      if At(t, y, hs).Some? { PlaceOf(t, places, y, hs); }
    }
  }
}
