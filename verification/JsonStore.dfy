/** The values that the JSON reader makes: payloads in a store, named by their positions. */
module JsonStore {
  import opened JsonNumbers
  import opened JsonGrammar

  /** What a value is; the values in it are named by their positions in the store. */
  datatype Payload =
    | NullValue
    | BoolValue(b: bool)
    | NumberValue(number: Decoded)
    | StringValue(text: string)
    | ArrayValue(elements: seq<nat>)
    | ObjectValue(members: map<string, nat>)

  ghost predicate Inside(p: Payload, id: nat, count: nat) {
    match p
    case ArrayValue(elements) => forall k :: 0 <= k < |elements| ==> id < elements[k] < count
    case ObjectValue(members) =>
      && (forall name :: name in members ==> id < members[name] < count)
      && (forall m, n :: m in members && n in members && members[m] == members[n] ==> m == n)
    case _ => true
  }

  /** Values are made after the values that they are in. */
  ghost predicate Ordered(values: seq<Payload>) {
    forall id :: 0 <= id < |values| ==> Inside(values[id], id, |values|)
  }

  ghost predicate ChildOf(values: seq<Payload>, p: nat, c: nat) {
    && p < |values|
    && match values[p]
       case ArrayValue(elements) => c in elements
       case ObjectValue(members) => exists name :: name in members && members[name] == c
       case _ => false
  }

  /** A value is in one other value at most. */
  ghost predicate Apart(values: seq<Payload>) {
    forall p, q, c :: ChildOf(values, p, c) && ChildOf(values, q, c) ==> p == q
  }

  ghost predicate IsStore(values: seq<Payload>) { Ordered(values) && Apart(values) }

  lemma InsideAt(values: seq<Payload>, id: nat)
    requires Ordered(values) && id < |values|
    ensures Inside(values[id], id, |values|)
  {
  }

  /** The value that the payloads make up. */
  ghost function TreeOf(values: seq<Payload>, id: nat): Json
    requires Ordered(values) && id < |values|
    decreases |values| - id
  {
    InsideAt(values, id);
    match values[id]
    case NullValue => JNull
    case BoolValue(b) => JBool(b)
    case NumberValue(number) => JNumber(number)
    case StringValue(text) => JString(text)
    case ArrayValue(elements) => JArray(seq(|elements|, k requires 0 <= k < |elements| => TreeOf(values, elements[k])))
    case ObjectValue(members) => JObject(map name | name in members :: TreeOf(values, members[name]))
  }

  /** Below `base`, nothing but `top` has changed. */
  ghost predicate Kept(before: seq<Payload>, after: seq<Payload>, top: nat, base: nat) {
    top < |before| <= |after| && base <= |before| && forall k :: 0 <= k < base && k != top ==> after[k] == before[k]
  }

  /** Nothing but `top` and its child `c` has changed. */
  ghost predicate OnlyChild(before: seq<Payload>, after: seq<Payload>, top: nat, c: nat) {
    && |before| <= |after| && (c < |before| ==> ChildOf(before, top, c))
    && forall k :: 0 <= k < |before| && k != top && k != c ==> after[k] == before[k]
  }

  lemma ChildInside(values: seq<Payload>, p: nat, c: nat)
    requires Ordered(values) && ChildOf(values, p, c)
    ensures p < c < |values|
  {
    InsideAt(values, p);
  }

  /** The other values in `top`, and the values in them, are as before. */
  lemma {:induction false} TreeKept(before: seq<Payload>, after: seq<Payload>, top: nat, c: nat, id: nat)
    requires IsStore(before) && Ordered(after) && OnlyChild(before, after, top, c)
    requires top < id < |before| && id != c
    ensures TreeOf(after, id) == TreeOf(before, id)
    decreases |before| - id
  {
    hide Ordered, Apart, OnlyChild;
    SameAt(before, after, top, c, id);
    forall e: nat | ChildOf(before, id, e)
      ensures top < e < |before| && e != c && TreeOf(after, e) == TreeOf(before, e)
    {
      ChildInside(before, id, e);
      NotThatChild(before, after, top, c, id, e);
      TreeKept(before, after, top, c, e);
    }
    SameTree(before, after, id);
  }

  lemma SameAt(before: seq<Payload>, after: seq<Payload>, top: nat, c: nat, id: nat)
    requires OnlyChild(before, after, top, c) && id < |before| && id != top && id != c
    ensures |before| <= |after| && after[id] == before[id]
  {
  }

  lemma NotThatChild(before: seq<Payload>, after: seq<Payload>, top: nat, c: nat, id: nat, e: nat)
    requires Ordered(before) && Apart(before) && OnlyChild(before, after, top, c) && id != top && ChildOf(before, id, e)
    ensures e != c
  {
    ChildInside(before, id, e);
  }

  lemma SameTree(before: seq<Payload>, after: seq<Payload>, id: nat)
    requires Ordered(before) && Ordered(after) && id < |before| <= |after| && after[id] == before[id]
    requires forall e: nat :: ChildOf(before, id, e) ==> e < |before| && TreeOf(after, e) == TreeOf(before, e)
    ensures TreeOf(after, id) == TreeOf(before, id)
  {
    InsideAt(before, id);
    hide Ordered;
    match before[id]
    case ArrayValue(elements) =>
      forall k | 0 <= k < |elements| ensures TreeOf(after, elements[k]) == TreeOf(before, elements[k]) {
        assert ChildOf(before, id, elements[k]);
      }
    case ObjectValue(members) =>
      forall name | name in members ensures TreeOf(after, members[name]) == TreeOf(before, members[name]) {
        assert ChildOf(before, id, members[name]);
      }
    case _ =>
  }

  // ----- Changes -----

  /** A payload with nothing in it. */
  predicate IsPlain(p: Payload) { (p.ArrayValue? ==> p.elements == []) && (p.ObjectValue? ==> p.members == map[]) }

  function PlainTree(p: Payload): Json {
    match p
    case NullValue => JNull
    case BoolValue(b) => JBool(b)
    case NumberValue(number) => JNumber(number)
    case StringValue(text) => JString(text)
    case ArrayValue(_) => JArray([])
    case ObjectValue(_) => JObject(map[])
  }

  lemma PlainSet(values: seq<Payload>, top: nat, p: Payload)
    requires IsStore(values) && top < |values| && IsPlain(p)
    ensures IsStore(values[top := p]) && TreeOf(values[top := p], top) == PlainTree(p)
  {
    var after := values[top := p];
    assert Ordered(after);
    forall q, r, c | ChildOf(after, q, c) && ChildOf(after, r, c) ensures q == r {
      assert ChildOf(values, q, c) && ChildOf(values, r, c);
    }
  }

  function WithElement(values: seq<Payload>, top: nat): seq<Payload>
    requires top < |values| && values[top].ArrayValue?
  {
    values[top := ArrayValue(values[top].elements + [|values|])] + [NullValue]
  }

  function WithMember(values: seq<Payload>, top: nat, name: string): seq<Payload>
    requires top < |values| && values[top].ObjectValue?
  {
    values[top := ObjectValue(values[top].members[name := |values|])] + [NullValue]
  }

  /** A new value in `top`: its position is new, so it is in nothing else. */
  lemma ChildMade(values: seq<Payload>, after: seq<Payload>, top: nat)
    requires IsStore(values) && top < |values| && |after| == |values| + 1 && after[|values|] == NullValue
    requires forall k :: 0 <= k < |values| && k != top ==> after[k] == values[k]
    requires Inside(after[top], top, |after|)
    requires forall c :: ChildOf(after, top, c) ==> c == |values| || ChildOf(values, top, c)
    requires ChildOf(after, top, |values|)
    ensures IsStore(after) && OnlyChild(values, after, top, |values|)
  {
    forall id | 0 <= id < |after| ensures Inside(after[id], id, |after|) {
      assert id < |values| ==> Inside(values[id], id, |values|);
    }
    forall q, r, c: nat | ChildOf(after, q, c) && ChildOf(after, r, c) ensures q == r {
      if c < |values| {
        assert ChildOf(values, q, c) && ChildOf(values, r, c);
      } else {
        NoOldParent(values, after, top, q);
        NoOldParent(values, after, top, r);
      }
    }
  }

  lemma NoOldParent(values: seq<Payload>, after: seq<Payload>, top: nat, q: nat)
    requires Ordered(values) && top < |values| && |after| == |values| + 1 && after[|values|] == NullValue
    requires forall k :: 0 <= k < |values| && k != top ==> after[k] == values[k]
    ensures forall c :: c >= |values| && ChildOf(after, q, c) ==> q == top
  {
    forall c | c >= |values| && ChildOf(after, q, c) ensures q == top {
      if q != top {
        assert ChildOf(values, q, c);
        ChildInside(values, q, c);
      }
    }
  }

  lemma ElementMade(values: seq<Payload>, top: nat)
    requires IsStore(values) && top < |values| && values[top].ArrayValue?
    ensures IsStore(WithElement(values, top)) && OnlyChild(values, WithElement(values, top), top, |values|)
    ensures ChildOf(WithElement(values, top), top, |values|)
  {
    var after := WithElement(values, top);
    InsideAt(values, top);
    assert after[top].elements[|values[top].elements|] == |values|;
    ChildMade(values, after, top);
  }

  lemma MemberMade(values: seq<Payload>, top: nat, name: string)
    requires IsStore(values) && top < |values| && values[top].ObjectValue? && name !in values[top].members
    ensures IsStore(WithMember(values, top, name)) && OnlyChild(values, WithMember(values, top, name), top, |values|)
    ensures ChildOf(WithMember(values, top, name), top, |values|)
  {
    var after := WithMember(values, top, name);
    InsideAt(values, top);
    assert after[top].members[name] == |values|;
    ChildMade(values, after, top);
  }

  // ----- Arrays and objects grow -----

  /** After its last element was read, an array has one value more. */
  lemma ArrayGrows(values: seq<Payload>, made: seq<Payload>, after: seq<Payload>, top: nat)
    requires IsStore(values) && top < |values| && values[top].ArrayValue? && made == WithElement(values, top)
    requires IsStore(made) && IsStore(after) && |made| <= |after|
    requires forall k :: 0 <= k < |made| && k != |values| ==> after[k] == made[k]
    ensures TreeOf(values, top).JArray?
    ensures TreeOf(after, top) == JArray(TreeOf(values, top).elements + [TreeOf(after, |values|)])
  {
    var es := values[top].elements;
    InsideAt(values, top);
    InsideAt(after, top);
    hide Ordered, Apart, ChildOf, TreeOf;
    ArrayTree(values, top);
    ArrayTree(after, top);
    forall k | 0 <= k < |es| ensures TreeOf(after, es[k]) == TreeOf(values, es[k]) {
      ElementMade(values, top);
      assert OnlyChild(values, after, top, |values|);
      TreeKept(values, after, top, |values|, es[k]);
    }
  }

  lemma ArrayTree(values: seq<Payload>, top: nat)
    requires Ordered(values) && top < |values| && values[top].ArrayValue?
    ensures (var es := values[top].elements;
      && (forall k :: 0 <= k < |es| ==> top < es[k] < |values|)
      && TreeOf(values, top).JArray? && |TreeOf(values, top).elements| == |es|
      && forall k :: 0 <= k < |es| ==> TreeOf(values, top).elements[k] == TreeOf(values, es[k]))
  {
    InsideAt(values, top);
  }

  lemma ObjectTree(values: seq<Payload>, top: nat)
    requires Ordered(values) && top < |values| && values[top].ObjectValue?
    ensures (var ms := values[top].members;
      && (forall name :: name in ms ==> top < ms[name] < |values|)
      && TreeOf(values, top).JObject? && TreeOf(values, top).members.Keys == ms.Keys
      && forall name :: name in ms ==> TreeOf(values, top).members[name] == TreeOf(values, ms[name]))
  {
    InsideAt(values, top);
  }

  /**
   After the value of a member was read, an object has that value under the member's name, and the others as before.
   */
  lemma ObjectGrows(values: seq<Payload>, made: seq<Payload>, after: seq<Payload>, top: nat, name: string, c: nat)
    requires IsStore(values) && top < |values| && values[top].ObjectValue?
    requires made == if name in values[top].members then values else WithMember(values, top, name)
    requires c == if name in values[top].members then values[top].members[name] else |values|
    requires IsStore(made) && IsStore(after) && c < |made| <= |after| && top != c
    requires forall k :: 0 <= k < |made| && k != c ==> after[k] == made[k]
    ensures TreeOf(values, top).JObject?
    ensures TreeOf(after, top) == JObject(TreeOf(values, top).members[name := TreeOf(after, c)])
  {
    hide Ordered, Apart, TreeOf, ChildOf, OnlyChild, WithMember;
    OnlyThatMember(values, made, after, top, name, c);
    ObjectTree(values, top);
    MembersGrow(values, after, top, name, c);
    MapGrows(TreeOf(values, top).members, TreeOf(after, top).members, name, TreeOf(after, c));
  }

  lemma MembersGrow(values: seq<Payload>, after: seq<Payload>, top: nat, name: string, c: nat)
    requires IsStore(values) && Ordered(after) && OnlyChild(values, after, top, c)
    requires top < |values| <= |after| && top < c < |after| && values[top].ObjectValue?
    requires after[top] == ObjectValue(values[top].members[name := c])
    requires forall m :: m in values[top].members && m != name ==> values[top].members[m] != c
    ensures TreeOf(values, top).JObject? && TreeOf(after, top).JObject?
    ensures TreeOf(after, top).members.Keys == TreeOf(values, top).members.Keys + {name}
    ensures TreeOf(after, top).members[name] == TreeOf(after, c)
    ensures forall m :: m in TreeOf(values, top).members && m != name ==>
              TreeOf(after, top).members[m] == TreeOf(values, top).members[m]
  {
    hide Ordered, Apart, TreeOf, ChildOf, OnlyChild;
    var ms := values[top].members;
    ObjectTree(values, top);
    ObjectTree(after, top);
    forall m | m in ms && m != name ensures TreeOf(after, ms[m]) == TreeOf(values, ms[m]) {
      TreeKept(values, after, top, c, ms[m]);
    }
  }

  lemma MapGrows<K, V>(before: map<K, V>, after: map<K, V>, name: K, v: V)
    requires after.Keys == before.Keys + {name} && after[name] == v
    requires forall m :: m in before && m != name ==> after[m] == before[m]
    ensures after == before[name := v]
  {
  }

  lemma OnlyThatMember(values: seq<Payload>, made: seq<Payload>, after: seq<Payload>, top: nat, name: string, c: nat)
    requires IsStore(values) && top < |values| && values[top].ObjectValue?
    requires made == if name in values[top].members then values else WithMember(values, top, name)
    requires c == if name in values[top].members then values[top].members[name] else |values|
    requires |made| <= |after| && forall k :: 0 <= k < |made| && k != c ==> after[k] == made[k]
    ensures OnlyChild(values, after, top, c) && top < c && after[top] == ObjectValue(values[top].members[name := c])
    ensures forall m :: m in values[top].members && m != name ==> values[top].members[m] != c
  {
    InsideAt(values, top);
    assert name in values[top].members ==> values[top].members == values[top].members[name := c];
  }
}
