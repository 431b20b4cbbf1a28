/**
 * The per-tank population rules (engine/game/rules/population.py): counting
 * the fish linked to a tank, the `max_fish` cap, and spawning a fish into a
 * tank only when the cap allows it.
 */
module Population {
  import opened Wrappers
  import opened Components
  import opened Stores
  import opened Ecs
  import opened EcsFacts
  import opened Factories

  const PopKinds := [FishKind, InTankKind]

  /** The entity is linked to `tank` by its InTank record. */
  predicate LinkedTo(ss: Stores, e: EntityId, tank: EntityId) {
    Lookup(ss, InTankKind, e) == Some(CInTank(InTank(tank)))
  }

  /** How many of the listed entities are linked to `tank`. */
  function CountLinked(ss: Stores, ids: seq<EntityId>, tank: EntityId): nat
    decreases |ids|
  {
    if ids == [] then 0 else (if LinkedTo(ss, ids[0], tank) then 1 else 0) + CountLinked(ss, ids[1..], tank)
  }

  /** What `count_fish_in_tank` returns: the linked entities among those the (Fish, InTank) view yields. */
  function FishCount(ss: Stores, tank: EntityId): nat {
    CountLinked(ss, ViewIds(ss, PopKinds), tank)
  }

  /** The fish of a tank as a set: entities holding Fish whose InTank names the tank. */
  function TankFish(ss: Stores, tank: EntityId): set<EntityId> {
    set e | e in StoreOf(ss, FishKind).vals && LinkedTo(ss, e, tank)
  }

  /** `world.view(Fish, InTank)`: a first request caches the new view `v`; a later one finds the cached view. */
  function CacheView(views: map<seq<Kind>, View>, v: View): map<seq<Kind>, View> {
    if PopKinds in views then views else views[PopKinds := v]
  }

  /**
   * `count_fish_in_tank`: requests the (Fish, InTank) view, which caches `v`
   * when no view of that key is cached, runs one `for` pass over it to the
   * end, and counts the yielded entities whose InTank names the tank.
   */
  method CountFishInTank(world: World, tank: EntityId) returns (count: nat, ghost v: View)
    requires world.Valid()
    modifies world`views, world.views.Values
    ensures world.Valid()
    ensures count == FishCount(world.stores, tank)
    ensures world.views == CacheView(old(world.views), v)
    ensures v.pass == Some([])
    ensures forall u | u in old(world.views.Values) && u != v :: u.pass == old(u.pass)
  {
    var view := world.View(PopKinds);
    v := view;
    view.Iter();
    ghost var ss := world.stores;
    count := 0;
    var done := false;
    while !done
      invariant view.world == world && view.kinds == PopKinds && world.stores == ss
      invariant world.Valid() && world.views == CacheView(old(world.views), v)
      invariant forall u | u in old(world.views.Values) && u != v :: u.pass == old(u.pass)
      invariant view.pass.Some? && (done ==> view.pass == Some([]))
      invariant count + CountLinked(ss, Filter(ss, PopKinds, view.pass.value), tank) == FishCount(ss, tank)
      decreases !done, |Filter(ss, PopKinds, view.pass.value)|
    {
      ghost var owed := Filter(ss, PopKinds, view.pass.value);
      var row := view.Next();
      match row {
        case None =>
          done := true;
        case Some(Row(eid, comps)) =>
          assert owed[1..] == Filter(ss, PopKinds, view.pass.value);
          assert Lookup(ss, PopKinds[1], eid) == Some(comps[1]);
          if comps[1] == CInTank(InTank(tank)) {
            count := count + 1;
          }
      }
    }
  }

  lemma {:induction false} CountLinkedSet(ss: Stores, ids: seq<EntityId>, tank: EntityId)
    requires NoDup(ids)
    ensures CountLinked(ss, ids, tank) == |set e | e in ids && LinkedTo(ss, e, tank)|
    decreases |ids|
  {
    if ids == [] {
      assert (set e | e in ids && LinkedTo(ss, e, tank)) == {};
    } else {
      var rest := set e | e in ids[1..] && LinkedTo(ss, e, tank);
      assert NoDup(ids[1..]);
      CountLinkedSet(ss, ids[1..], tank);
      assert ids[0] !in ids[1..];
      if LinkedTo(ss, ids[0], tank) {
        assert (set e | e in ids && LinkedTo(ss, e, tank)) == rest + {ids[0]};
      } else {
        assert (set e | e in ids && LinkedTo(ss, e, tank)) == rest;
      }
    }
  }

  /** The count is the number of entities holding both Fish and an InTank naming the tank. */
  lemma CountSpec(ss: Stores, tank: EntityId)
    requires ValidStores(ss)
    ensures FishCount(ss, tank) == |TankFish(ss, tank)|
  {
    ViewIdsSpec(ss, PopKinds);
    CountLinkedSet(ss, ViewIds(ss, PopKinds), tank);
    assert (set e | e in ViewIds(ss, PopKinds) && LinkedTo(ss, e, tank)) == TankFish(ss, tank);
  }

  /** `get_components(Tank)` on a world that has no Tank store yet adds an empty one. */
  function Touch(ss: Stores, k: Kind): Stores {
    if k in ss then ss else ss[k := Empty]
  }

  lemma TouchSpec(ss: Stores, k: Kind)
    requires ValidStores(ss)
    ensures ValidStores(Touch(ss, k))
    ensures forall k', x :: Lookup(Touch(ss, k), k', x) == Lookup(ss, k', x)
    ensures forall tank :: FishCount(Touch(ss, k), tank) == FishCount(ss, tank)
  {
    var t := Touch(ss, k);
    assert forall k' :: StoreOf(t, k') == StoreOf(ss, k');
    forall tank ensures FishCount(t, tank) == FishCount(ss, tank) {
      CountSpec(ss, tank);
      CountSpec(t, tank);
      assert TankFish(t, tank) == TankFish(ss, tank);
    }
  }

  /** The `max_fish` of the tank's Tank record, if it has one. */
  function CapOf(ss: Stores, tank: EntityId): Option<int> {
    match Lookup(ss, TankKind, tank)
    case Some(CTank(t)) => Some(t.maxFish)
    case _ => None
  }

  /** `can_spawn_fish_in_tank` as a predicate: no Tank record means no cap. */
  predicate CanSpawnOn(ss: Stores, tank: EntityId) {
    match Lookup(ss, TankKind, tank)
    case Some(CTank(t)) => FishCount(ss, tank) < t.maxFish
    case _ => true
  }

  /**
   * The state `can_spawn_fish_in_tank` leaves: the Tank store is touched and,
   * when the tank has a record, the count's view request caches `v`.
   */
  function Checked(w: Kernel, tank: EntityId, v: View?): Kernel
    requires Lookup(w.stores, TankKind, tank).Some? ==> v != null
  {
    var w1 := w.(stores := Touch(w.stores, TankKind));
    if Lookup(w.stores, TankKind, tank).Some? then w1.(views := CacheView(w.views, v)) else w1
  }

  /** `can_spawn_fish_in_tank`. */
  method CanSpawnFishInTank(world: World, tank: EntityId) returns (ok: bool, ghost v: View?)
    requires world.Valid()
    modifies world`stores, world`views, world.views.Values
    ensures world.Valid()
    ensures Lookup(old(world.stores), TankKind, tank).Some? ==> v != null && v.pass == Some([])
    ensures world.State() == Checked(old(world.State()), tank, v)
    ensures ok == CanSpawnOn(old(world.stores), tank)
  {
    TouchSpec(world.stores, TankKind);
    ghost var s0 := world.stores;
    var tankStore := world.GetComponents(TankKind);
    v := null;
    if tank !in tankStore.vals {
      return true, v;
    }
    var current;
    current, v := CountFishInTank(world, tank);
    assert current == FishCount(s0, tank);
    match tankStore.vals[tank] {
      case CTank(t) => ok := current < t.maxFish;
      case _ => ok := true;
    }
  }

  /**
   * `spawn_fish_in_tank_if_allowed` as a state transition: the cap check
   * runs first; a disallowed spawn returns None; an allowed one creates the
   * fish (or raises its KeyError) and links it to the tank.
   */
  function Spawn(w: Kernel, tank: EntityId, cfg: map<string, SpeciesEntry>, speciesId: string, x: real, y: real,
                 v: View?): (Kernel, Result<Option<EntityId>>)
    requires Lookup(w.stores, TankKind, tank).Some? ==> v != null
  {
    var w1 := Checked(w, tank, v);
    if !CanSpawnOn(w.stores, tank) then (w1, Success(None))
    else
      match FishSprite(cfg, speciesId)
      case Failure(err) => (w1, Failure(err))
      case Success(sprite) =>
        (AddStep(ApplyCreate(w1, FishBundle(speciesId, x, y, sprite)), w.nextId, CInTank(InTank(tank))),
         Success(Some(w.nextId)))
  }

  /** `spawn_fish_in_tank_if_allowed`. */
  method SpawnFishInTankIfAllowed(world: World, tank: EntityId, cfg: map<string, SpeciesEntry>, speciesId: string,
                                  x: real, y: real) returns (r: Result<Option<EntityId>>, ghost v: View?)
    requires world.Valid()
    modifies world`nextId, world`stores, world`views, world.views.Values
    ensures world.Valid()
    ensures Lookup(old(world.stores), TankKind, tank).Some? ==> v != null && v.pass == Some([])
    ensures (world.State(), r) == Spawn(old(world.State()), tank, cfg, speciesId, x, y, v)
  {
    var ok;
    ok, v := CanSpawnFishInTank(world, tank);
    if !ok {
      return Success(None), v;
    }
    var fish := CreateFish(world, cfg, speciesId, x, y);
    if fish.Failure? {
      return Failure(fish.error), v;
    }
    world.AddComponent(fish.value, CInTank(InTank(tank)));
    r := Success(Some(fish.value));
  }

  /**
   * A disallowed spawn returns None and changes no entry and no id; the only
   * change to the view cache is the (Fish, InTank) view the count requested.
   */
  lemma SpawnDisallowed(w: Kernel, tank: EntityId, cfg: map<string, SpeciesEntry>, speciesId: string, x: real, y: real,
                        v: View)
    requires ValidStores(w.stores) && !CanSpawnOn(w.stores, tank)
    ensures var (r, out) := Spawn(w, tank, cfg, speciesId, x, y, v);
            && out == Success(None)
            && r.nextId == w.nextId && r.views == CacheView(w.views, v)
            && (forall k, e :: Lookup(r.stores, k, e) == Lookup(w.stores, k, e))
  {
    TouchSpec(w.stores, TankKind);
  }

  /**
   * An allowed spawn with a well-formed species entry, in a world whose
   * unallocated ids are unused, returns the new id, and the tank gains
   * exactly that fish: its count rises by exactly one.
   */
  lemma {:induction false} SpawnAllowed(w: Kernel, tank: EntityId, cfg: map<string, SpeciesEntry>, speciesId: string, x: real, y: real,
                     v: View)
    requires ValidStores(w.stores) && Fresh(w)
    requires CanSpawnOn(w.stores, tank) && FishSprite(cfg, speciesId).Success?
    ensures var (r, out) := Spawn(w, tank, cfg, speciesId, x, y, v);
            && out == Success(Some(w.nextId))
            && r.nextId == w.nextId + 1
            && w.nextId !in TankFish(w.stores, tank)
            && TankFish(r.stores, tank) == TankFish(w.stores, tank) + {w.nextId}
            && FishCount(r.stores, tank) == FishCount(w.stores, tank) + 1
            && LinkedTo(r.stores, w.nextId, tank)
            && (forall k, e | e != w.nextId :: Lookup(r.stores, k, e) == Lookup(w.stores, k, e))
            && ValidStores(r.stores) && Fresh(r)
  {
    var sprite := FishSprite(cfg, speciesId).value;
    var w1 := Checked(w, tank, v);
    var r := Spawn(w, tank, cfg, speciesId, x, y, v).0;
    assert r == AddStep(ApplyCreate(w1, FishBundle(speciesId, x, y, sprite)), w.nextId, CInTank(InTank(tank)));
    SpawnedEntity(w, w1, tank, speciesId, x, y, sprite);
    TankFishGains(w.stores, r.stores, w.nextId, tank, CFish(Fish(speciesId)));
    CountSpec(w.stores, tank);
    CountSpec(r.stores, tank);
  }

  /** A fish of a tank is created and linked at a fresh id: the tank's fish set gains exactly that id. */
  lemma TankFishGains(ss: Stores, rs: Stores, n: EntityId, tank: EntityId, fish: Component)
    requires Lookup(ss, FishKind, n) == None
    requires forall k, e | e != n :: Lookup(rs, k, e) == Lookup(ss, k, e)
    requires Lookup(rs, FishKind, n) == Some(fish) && LinkedTo(rs, n, tank)
    ensures n !in TankFish(ss, tank)
    ensures TankFish(rs, tank) == TankFish(ss, tank) + {n}
  {
    forall e ensures e in TankFish(rs, tank) <==> e in TankFish(ss, tank) + {n} {
      if e != n {
        assert Lookup(rs, FishKind, e) == Lookup(ss, FishKind, e);
        assert Lookup(rs, InTankKind, e) == Lookup(ss, InTankKind, e);
      }
    }
  }

  /**
   * Entries change only at `n`, where the entity is now linked to `u`: every
   * tank other than `u` keeps at most its fish, and `u` gains at most `n`.
   */
  lemma TankFishAtMost(ss: Stores, rs: Stores, n: EntityId, u: EntityId, tank: EntityId)
    requires forall k, e | e != n :: Lookup(rs, k, e) == Lookup(ss, k, e)
    requires LinkedTo(rs, n, u)
    ensures tank != u ==> TankFish(rs, tank) <= TankFish(ss, tank)
    ensures TankFish(rs, tank) <= TankFish(ss, tank) + {n}
  {
    forall e | e in TankFish(rs, tank) && e != n ensures e in TankFish(ss, tank) {
      assert Lookup(rs, FishKind, e) == Lookup(ss, FishKind, e);
      assert Lookup(rs, InTankKind, e) == Lookup(ss, InTankKind, e);
    }
  }

  /**
   * Entries change only at `n`, which had none and is now linked to `u`:
   * every other tank keeps exactly its fish.
   */
  lemma TankFishOther(ss: Stores, rs: Stores, n: EntityId, u: EntityId, tank: EntityId)
    requires forall k :: Lookup(ss, k, n) == None
    requires forall k, e | e != n :: Lookup(rs, k, e) == Lookup(ss, k, e)
    requires LinkedTo(rs, n, u) && tank != u
    ensures TankFish(rs, tank) == TankFish(ss, tank)
  {
    TankFishAtMost(ss, rs, n, u, tank);
    forall e | e in TankFish(ss, tank) ensures e in TankFish(rs, tank) {
      assert e != n by { assert Lookup(ss, FishKind, e).Some?; }
      assert Lookup(rs, FishKind, e) == Lookup(ss, FishKind, e);
      assert Lookup(rs, InTankKind, e) == Lookup(ss, InTankKind, e);
    }
  }

  /**
   * A spawn attempt into one tank, in a world whose unallocated ids are
   * unused, leaves every other tank with exactly the fish it had.
   */
  lemma SpawnElsewhere(w: Kernel, tank: EntityId, cfg: map<string, SpeciesEntry>, speciesId: string, x: real, y: real,
                       v: View, other: EntityId)
    requires ValidStores(w.stores) && Fresh(w) && other != tank
    ensures var r := Spawn(w, tank, cfg, speciesId, x, y, v).0;
            && TankFish(r.stores, other) == TankFish(w.stores, other)
            && FishCount(r.stores, other) == FishCount(w.stores, other)
  {
    var r := Spawn(w, tank, cfg, speciesId, x, y, v).0;
    TouchSpec(w.stores, TankKind);
    if CanSpawnOn(w.stores, tank) && FishSprite(cfg, speciesId).Success? {
      SpawnAllowed(w, tank, cfg, speciesId, x, y, v);
      TankFishOther(w.stores, r.stores, w.nextId, tank, other);
    } else {
      assert r.stores == Touch(w.stores, TankKind);
      SameEntriesSameFish(w.stores, r.stores, other);
    }
    CountSpec(w.stores, other);
    CountSpec(r.stores, other);
  }

  /** Stores with the same entries have the same fish in every tank. */
  lemma SameEntriesSameFish(ss: Stores, rs: Stores, tank: EntityId)
    requires forall k, e :: Lookup(rs, k, e) == Lookup(ss, k, e)
    ensures TankFish(rs, tank) == TankFish(ss, tank)
  {
    forall e ensures e in TankFish(rs, tank) <==> e in TankFish(ss, tank) {
      assert Lookup(rs, FishKind, e) == Lookup(ss, FishKind, e);
    }
  }

  /**
   * The entries an allowed spawn leaves, from the checked state `w1`: a fish
   * at the new id, linked to the tank, and nothing else changed; ids not yet
   * handed out stay unused.
   */
  lemma {:induction false} SpawnedEntity(w: Kernel, w1: Kernel, tank: EntityId, speciesId: string, x: real, y: real, sprite: RectSprite)
    requires ValidStores(w.stores)
    requires w1.nextId == w.nextId && w1.stores == Touch(w.stores, TankKind)
    ensures var r := AddStep(ApplyCreate(w1, FishBundle(speciesId, x, y, sprite)), w.nextId, CInTank(InTank(tank)));
            && r.nextId == w.nextId + 1
            && (forall k, e | e != w.nextId :: Lookup(r.stores, k, e) == Lookup(w.stores, k, e))
            && Lookup(r.stores, FishKind, w.nextId) == Some(CFish(Fish(speciesId)))
            && LinkedTo(r.stores, w.nextId, tank)
            && ValidStores(r.stores)
            && (Fresh(w) ==> Fresh(r))
  {
    var n := w.nextId;
    TouchSpec(w.stores, TankKind);
    var w2 := ApplyCreate(w1, FishBundle(speciesId, x, y, sprite));
    FishBundleSpec(w1, speciesId, x, y, sprite);
    forall k, e | e != n ensures Lookup(w2.stores, k, e) == Lookup(w.stores, k, e) {
      assert Lookup(w2.stores, k, e) == Lookup(w1.stores, k, e);
    }
    LinkNewEntity(w, w2, tank, CFish(Fish(speciesId)));
  }

  /** A create followed by a link leaves every entry of a kind that neither the bundle nor the link holds. */
  lemma CreateLinkKeepsKind(w1: Kernel, bundle: seq<(Kind, Component)>, c: Component, k: Kind)
    requires LastOfKind(bundle, k).None? && KindOf(c) != k
    ensures forall e :: Lookup(AddStep(ApplyCreate(w1, bundle), w1.nextId, c).stores, k, e) == Lookup(w1.stores, k, e)
  {
    ApplyCreateSpec(w1, bundle);
  }

  /** An allowed spawn changes no Tank entry: the fish bundle and the link hold no Tank. */
  lemma {:induction false} SpawnedTanks(w: Kernel, w1: Kernel, tank: EntityId, speciesId: string, x: real, y: real, sprite: RectSprite)
    requires ValidStores(w.stores)
    requires w1.nextId == w.nextId && w1.stores == Touch(w.stores, TankKind)
    ensures var r := AddStep(ApplyCreate(w1, FishBundle(speciesId, x, y, sprite)), w.nextId, CInTank(InTank(tank)));
            forall e :: Lookup(r.stores, TankKind, e) == Lookup(w.stores, TankKind, e)
  {
    TouchSpec(w.stores, TankKind);
    var bundle := FishBundle(speciesId, x, y, sprite);
    assert forall i | 0 <= i < |bundle| :: KindOf(bundle[i].1) in FishKinds;
    CreateLinkKeepsKind(w1, bundle, CInTank(InTank(tank)), TankKind);
  }

  /** Linking the just-created entity to the tank keeps every other entity's entries and the freshness of later ids. */
  lemma {:induction false} LinkNewEntity(w: Kernel, w2: Kernel, tank: EntityId, fish: Component)
    requires ValidStores(w2.stores) && w2.nextId == w.nextId + 1
    requires forall k, e | e != w.nextId :: Lookup(w2.stores, k, e) == Lookup(w.stores, k, e)
    requires Lookup(w2.stores, FishKind, w.nextId) == Some(fish)
    ensures var r := AddStep(w2, w.nextId, CInTank(InTank(tank)));
            && r.nextId == w.nextId + 1
            && (forall k, e | e != w.nextId :: Lookup(r.stores, k, e) == Lookup(w.stores, k, e))
            && Lookup(r.stores, FishKind, w.nextId) == Some(fish)
            && LinkedTo(r.stores, w.nextId, tank)
            && (forall k | k != InTankKind :: Lookup(r.stores, k, w.nextId) == Lookup(w2.stores, k, w.nextId))
            && ValidStores(r.stores)
            && (Fresh(w) ==> Fresh(r))
  {
    var n := w.nextId;
    var s3 := AddTo(w2.stores, n, CInTank(InTank(tank)));
    AddToValid(w2.stores, n, CInTank(InTank(tank)));
    var r := AddStep(w2, n, CInTank(InTank(tank)));
    assert r.stores == s3;
    assert forall k, e | e != n :: Lookup(s3, k, e) == Lookup(w.stores, k, e);
    if Fresh(w) {
      forall k, e | e >= n + 1 ensures Lookup(s3, k, e) == None {
        assert Lookup(s3, k, e) == Lookup(w.stores, k, e);
      }
    }
  }

  /** Every tank with a Tank record holds at most its `max_fish` fish. */
  ghost predicate CapsHold(ss: Stores) {
    forall tank | CapOf(ss, tank).Some? :: FishCount(ss, tank) <= CapOf(ss, tank).value
  }

  lemma SubsetCard(a: set<EntityId>, b: set<EntityId>)
    requires a <= b
    ensures |a| <= |b|
  {
    assert b == a + (b - a);
  }

  /** Tank records are unchanged when every Tank entry is. */
  lemma SameTankEntriesSameCaps(ss: Stores, rs: Stores)
    requires forall e :: Lookup(rs, TankKind, e) == Lookup(ss, TankKind, e)
    ensures forall e :: CapOf(rs, e) == CapOf(ss, e)
  {
    forall e ensures CapOf(rs, e) == CapOf(ss, e) {
      assert Lookup(rs, TankKind, e) == Lookup(ss, TankKind, e);
    }
  }

  /**
   * Linking entity `n` to tank `u`, when `u` was below its cap and nothing
   * else but `n`'s entries changed, keeps every tank at or below its cap.
   */
  lemma LinkKeepsCaps(ss: Stores, rs: Stores, n: EntityId, u: EntityId)
    requires ValidStores(ss) && ValidStores(rs) && CapsHold(ss)
    requires forall k, e | e != n :: Lookup(rs, k, e) == Lookup(ss, k, e)
    requires forall e :: Lookup(rs, TankKind, e) == Lookup(ss, TankKind, e)
    requires LinkedTo(rs, n, u)
    requires CapOf(ss, u).Some? ==> FishCount(ss, u) < CapOf(ss, u).value
    ensures CapsHold(rs)
  {
    SameTankEntriesSameCaps(ss, rs);
    forall t | CapOf(rs, t).Some? ensures FishCount(rs, t) <= CapOf(rs, t).value {
      CountSpec(ss, t);
      CountSpec(rs, t);
      TankFishAtMost(ss, rs, n, u, t);
      if t == u {
        SubsetCard(TankFish(rs, t), TankFish(ss, t) + {n});
      } else {
        SubsetCard(TankFish(rs, t), TankFish(ss, t));
      }
    }
  }

  /** Stores with the same entries satisfy the same caps. */
  lemma SameEntriesKeepCaps(ss: Stores, rs: Stores)
    requires ValidStores(ss) && ValidStores(rs) && CapsHold(ss)
    requires forall k, e :: Lookup(rs, k, e) == Lookup(ss, k, e)
    ensures CapsHold(rs)
    ensures forall e :: CapOf(rs, e) == CapOf(ss, e)
  {
    SameTankEntriesSameCaps(ss, rs);
    forall t | CapOf(rs, t).Some? ensures FishCount(rs, t) <= CapOf(rs, t).value {
      CountSpec(ss, t);
      CountSpec(rs, t);
      SameEntriesSameFish(ss, rs, t);
    }
  }

  /**
   * The cap is an invariant of spawning, for every tank at once: one spawn
   * attempt into any tank keeps every tank at or below its `max_fish`,
   * changes no Tank record and keeps the stores well formed.
   */
  lemma {:induction false} SpawnKeepsCap(w: Kernel, tank: EntityId, cfg: map<string, SpeciesEntry>, speciesId: string,
                      x: real, y: real, v: View)
    requires ValidStores(w.stores) && CapsHold(w.stores)
    ensures var r := Spawn(w, tank, cfg, speciesId, x, y, v).0;
            && CapsHold(r.stores)
            && (forall e :: CapOf(r.stores, e) == CapOf(w.stores, e))
            && ValidStores(r.stores)
            && (Fresh(w) ==> Fresh(r))
  {
    var r := Spawn(w, tank, cfg, speciesId, x, y, v).0;
    TouchSpec(w.stores, TankKind);
    if CanSpawnOn(w.stores, tank) && FishSprite(cfg, speciesId).Success? {
      var sprite := FishSprite(cfg, speciesId).value;
      var w1 := Checked(w, tank, v);
      assert r == AddStep(ApplyCreate(w1, FishBundle(speciesId, x, y, sprite)), w.nextId, CInTank(InTank(tank)));
      SpawnedEntity(w, w1, tank, speciesId, x, y, sprite);
      SpawnedTanks(w, w1, tank, speciesId, x, y, sprite);
      SameTankEntriesSameCaps(w.stores, r.stores);
      LinkKeepsCaps(w.stores, r.stores, w.nextId, tank);
    } else {
      assert r.stores == Touch(w.stores, TankKind) && r.nextId == w.nextId;
      SameEntriesKeepCaps(w.stores, r.stores);
    }
  }

  /** One spawn request: the tank, the species and the position. */
  datatype Request = Request(tank: EntityId, speciesId: string, x: real, y: real)

  /**
   * Serving spawn requests, each into its own tank, front to back. `v` is
   * the view object a first (Fish, InTank) request caches; which object it
   * is changes no entry and no count.
   */
  function SpawnAll(w: Kernel, cfg: map<string, SpeciesEntry>, reqs: seq<Request>, v: View): Kernel
    decreases |reqs|
  {
    if reqs == [] then w
    else SpawnAll(Spawn(w, reqs[0].tank, cfg, reqs[0].speciesId, reqs[0].x, reqs[0].y, v).0, cfg, reqs[1..], v)
  }

  /** No sequence of spawns, into any tanks, pushes any capped tank over its `max_fish`. */
  lemma {:induction false} SpawnAllKeepsCap(w: Kernel, cfg: map<string, SpeciesEntry>, reqs: seq<Request>, v: View)
    requires ValidStores(w.stores) && CapsHold(w.stores)
    ensures CapsHold(SpawnAll(w, cfg, reqs, v).stores)
    ensures forall e :: CapOf(SpawnAll(w, cfg, reqs, v).stores, e) == CapOf(w.stores, e)
    decreases |reqs|
  {
    if reqs != [] {
      var q := reqs[0];
      SpawnKeepsCap(w, q.tank, cfg, q.speciesId, q.x, q.y, v);
      SpawnAllKeepsCap(Spawn(w, q.tank, cfg, q.speciesId, q.x, q.y, v).0, cfg, reqs[1..], v);
    }
  }
}
