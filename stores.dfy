/**
 * The value model of the world's component storage (engine/ecs/world.py,
 * `_components`) and of the filter a view pass runs (engine/ecs/view.py).
 *
 * A Python dict remembers insertion order, and that order decides the order
 * of every view, so a store is a map together with the sequence of its keys in
 * insertion order. Overwriting a key keeps its place; deleting a key and
 * adding it again moves it to the end.
 */
module Stores {
  import opened Wrappers
  import opened Components

  datatype Store = Store(vals: map<EntityId, Component>, order: seq<EntityId>)

  const Empty := Store(map[], [])

  /** `_components`: one store per kind that has been touched. */
  type Stores = map<Kind, Store>

  predicate NoDup(s: seq<EntityId>) {
    forall i, j :: 0 <= i < j < |s| ==> s[i] != s[j]
  }

  /** A store's order lists each key exactly once, and every value has the store's kind. */
  ghost predicate WellFormed(st: Store, k: Kind) {
    && NoDup(st.order)
    && (forall e :: e in st.vals <==> e in st.order)
    && (forall e | e in st.vals :: KindOf(st.vals[e]) == k)
  }

  ghost predicate ValidStores(ss: Stores) {
    forall k | k in ss :: WellFormed(ss[k], k)
  }

  /** A kind never touched behaves as an empty store. */
  function StoreOf(ss: Stores, k: Kind): Store {
    if k in ss then ss[k] else Empty
  }

  /** `get_components(k).get(e)`. */
  function Lookup(ss: Stores, k: Kind, e: EntityId): Option<Component> {
    var st := StoreOf(ss, k);
    if e in st.vals then Some(st.vals[e]) else None
  }

  predicate Has(ss: Stores, k: Kind, e: EntityId) {
    e in StoreOf(ss, k).vals
  }

  /** The sequence with every occurrence of `e` removed. */
  function Without(s: seq<EntityId>, e: EntityId): (r: seq<EntityId>)
    ensures forall x :: x in r <==> x in s && x != e
    ensures NoDup(s) ==> NoDup(r)
    ensures e !in s ==> r == s
  {
    if s == [] then []
    else
      var rest := Without(s[1..], e);
      if s[0] == e then rest
      else
        assert NoDup(s) ==> s[0] !in s[1..];
        [s[0]] + rest
  }

  /** `store[e] = c`: overwriting keeps the key's place, a new key goes last. */
  function Put(st: Store, e: EntityId, c: Component): (r: Store)
    ensures r.vals == st.vals[e := c]
    ensures e in st.vals ==> r.order == st.order
    ensures e !in st.vals ==> r.order == st.order + [e]
  {
    if e in st.vals then Store(st.vals[e := c], st.order)
    else Store(st.vals[e := c], st.order + [e])
  }

  /** `store.pop(e, None)`: the key leaves both the map and the order. */
  function Del(st: Store, e: EntityId): (r: Store)
    ensures r.vals == st.vals - {e}
    ensures forall x :: x in r.order <==> x in st.order && x != e
  {
    Store(st.vals - {e}, Without(st.order, e))
  }

  lemma PutWellFormed(st: Store, k: Kind, e: EntityId, c: Component)
    requires WellFormed(st, k) && KindOf(c) == k
    ensures WellFormed(Put(st, e, c), k)
  {
    var r := Put(st, e, c);
    if e !in st.vals {
      forall i, j | 0 <= i < j < |r.order| ensures r.order[i] != r.order[j] {
        if j == |st.order| {
          assert r.order[i] == st.order[i];
        }
      }
    }
  }

  lemma DelWellFormed(st: Store, k: Kind, e: EntityId)
    requires WellFormed(st, k)
    ensures WellFormed(Del(st, e), k)
  {
  }

  /** A value found under a kind has that kind. */
  lemma LookupKind(ss: Stores, k: Kind, e: EntityId)
    requires ValidStores(ss) && Has(ss, k, e)
    ensures Lookup(ss, k, e).Some? && KindOf(Lookup(ss, k, e).value) == k
  {
    assert k in ss;
    assert WellFormed(ss[k], k);
  }

  /** The store effect of `add_component(e, c)`: only (kind of c, e) changes, and it now holds c. */
  function AddTo(ss: Stores, e: EntityId, c: Component): (r: Stores)
    ensures Lookup(r, KindOf(c), e) == Some(c)
    ensures forall k, x :: (k != KindOf(c) || x != e) ==> Lookup(r, k, x) == Lookup(ss, k, x)
    ensures r.Keys == ss.Keys + {KindOf(c)}
    ensures forall k | k != KindOf(c) :: StoreOf(r, k) == StoreOf(ss, k)
  {
    var k := KindOf(c);
    ss[k := Put(StoreOf(ss, k), e, c)]
  }

  lemma AddToValid(ss: Stores, e: EntityId, c: Component)
    requires ValidStores(ss)
    ensures ValidStores(AddTo(ss, e, c))
  {
    var k := KindOf(c);
    assert WellFormed(StoreOf(ss, k), k);
    PutWellFormed(StoreOf(ss, k), k, e, c);
  }

  /** Overwriting an existing entry changes no key set. */
  lemma AddExistingKeepsKeys(ss: Stores, e: EntityId, c: Component)
    requires Has(ss, KindOf(c), e)
    ensures forall k, x :: Has(AddTo(ss, e, c), k, x) <==> Has(ss, k, x)
  {
    forall k, x ensures Has(AddTo(ss, e, c), k, x) <==> Has(ss, k, x) {
      assert Has(AddTo(ss, e, c), k, x) <==> Lookup(AddTo(ss, e, c), k, x).Some?;
      assert Has(ss, k, x) <==> Lookup(ss, k, x).Some?;
    }
  }

  /**
   * The store effect of `remove_component(e, k)`: when the entry exists it
   * alone is removed; otherwise nothing changes.
   */
  function RemoveFrom(ss: Stores, e: EntityId, k: Kind): (r: Stores)
    ensures Lookup(r, k, e) == None
    ensures forall k', x :: (k' != k || x != e) ==> Lookup(r, k', x) == Lookup(ss, k', x)
    ensures !Has(ss, k, e) ==> r == ss
    ensures forall k' | k' != k :: StoreOf(r, k') == StoreOf(ss, k')
  {
    if k in ss && e in ss[k].vals then ss[k := Del(ss[k], e)] else ss
  }

  lemma RemoveFromValid(ss: Stores, e: EntityId, k: Kind)
    requires ValidStores(ss)
    ensures ValidStores(RemoveFrom(ss, e, k))
  {
    if k in ss { DelWellFormed(ss[k], k, e); }
  }

  /** The store effect of `destroy_entity(e)`: e leaves every store, nothing else changes. */
  function DestroyIn(ss: Stores, e: EntityId): (r: Stores)
    ensures r.Keys == ss.Keys
    ensures forall k :: Lookup(r, k, e) == None
    ensures forall k, x | x != e :: Lookup(r, k, x) == Lookup(ss, k, x)
  {
    map k | k in ss :: Del(ss[k], e)
  }

  lemma DestroyInValid(ss: Stores, e: EntityId)
    requires ValidStores(ss)
    ensures ValidStores(DestroyIn(ss, e))
  {
    var r := DestroyIn(ss, e);
    forall k | k in r ensures WellFormed(r[k], k) { DelWellFormed(ss[k], k, e); }
  }

  // ------------------------------------------------------------------
  // View passes
  // ------------------------------------------------------------------

  /** The entity has an entry under every listed kind. */
  predicate Matches(ss: Stores, kinds: seq<Kind>, e: EntityId) {
    forall k | k in kinds :: e in StoreOf(ss, k).vals
  }

  /** The ids a pass walks: the first kind's keys in store order; nothing for no kinds. */
  function BaseOrder(ss: Stores, kinds: seq<Kind>): seq<EntityId> {
    if kinds == [] then [] else StoreOf(ss, kinds[0]).order
  }

  /** The walked ids that hold every kind, in walk order. */
  function Filter(ss: Stores, kinds: seq<Kind>, ids: seq<EntityId>): (r: seq<EntityId>)
    ensures forall e :: e in r <==> e in ids && Matches(ss, kinds, e)
    ensures NoDup(ids) ==> NoDup(r)
    ensures |r| <= |ids|
  {
    if ids == [] then []
    else
      var rest := Filter(ss, kinds, ids[1..]);
      if Matches(ss, kinds, ids[0]) then
        assert NoDup(ids) ==> ids[0] !in ids[1..];
        [ids[0]] + rest
      else rest
  }

  /** The entities one full pass of `view(kinds)` yields, in yield order. */
  function ViewIds(ss: Stores, kinds: seq<Kind>): seq<EntityId> {
    Filter(ss, kinds, BaseOrder(ss, kinds))
  }

  /** The components a pass yields beside `e`: one per listed kind, in the listed order. */
  function RowOf(ss: Stores, kinds: seq<Kind>, e: EntityId): (r: seq<Component>)
    requires Matches(ss, kinds, e)
    ensures |r| == |kinds|
    ensures forall i | 0 <= i < |kinds| :: Lookup(ss, kinds[i], e) == Some(r[i])
  {
    seq(|kinds|, i requires 0 <= i < |kinds| => StoreOf(ss, kinds[i]).vals[e])
  }

  /** `r` is `s` with some elements dropped and the rest in their original order. */
  predicate IsSubseq(r: seq<EntityId>, s: seq<EntityId>)
    decreases |s|
  {
    if r == [] then true
    else if s == [] then false
    else if r[0] == s[0] then IsSubseq(r[1..], s[1..])
    else IsSubseq(r, s[1..])
  }

  lemma {:induction false} FilterIsSubseq(ss: Stores, kinds: seq<Kind>, ids: seq<EntityId>)
    ensures IsSubseq(Filter(ss, kinds, ids), ids)
  {
    if ids != [] {
      FilterIsSubseq(ss, kinds, ids[1..]);
    }
  }

  lemma {:induction false} SubseqSkip(r: seq<EntityId>, s: seq<EntityId>)
    requires s != [] && IsSubseq(r, s[1..])
    ensures IsSubseq(r, s)
    decreases |s|, 0
  {
    if r != [] && r[0] == s[0] {
      // IsSubseq(r, s) reduces to IsSubseq(r[1..], s[1..]), which follows from IsSubseq(r, s[1..]).
      SubseqTail(r, s[1..]);
    }
  }

  lemma {:induction false} SubseqTail(r: seq<EntityId>, s: seq<EntityId>)
    requires r != [] && IsSubseq(r, s)
    ensures IsSubseq(r[1..], s)
    decreases |s|, 1
  {
    assert s != [];
    if r[0] == s[0] {
      SubseqSkip(r[1..], s);
    } else {
      SubseqTail(r, s[1..]);
      SubseqSkip(r[1..], s);
    }
  }

  /**
   * A full pass of `view(kinds)` yields exactly the entities holding every
   * listed kind, each once, in the first kind's store order; a view over no
   * kinds yields nothing.
   */
  lemma ViewIdsSpec(ss: Stores, kinds: seq<Kind>)
    requires ValidStores(ss)
    ensures kinds == [] ==> ViewIds(ss, kinds) == []
    ensures forall e :: e in ViewIds(ss, kinds) <==> kinds != [] && Matches(ss, kinds, e)
    ensures NoDup(ViewIds(ss, kinds))
    ensures IsSubseq(ViewIds(ss, kinds), BaseOrder(ss, kinds))
  {
    FilterIsSubseq(ss, kinds, BaseOrder(ss, kinds));
    if kinds != [] {
      var k := kinds[0];
      assert WellFormed(StoreOf(ss, k), k) by {
        if k !in ss { assert StoreOf(ss, k) == Empty; }
      }
    }
  }
}
