/**
 * The entity factories (engine/game/factories/): the pellet command bundle,
 * and the fish and tank entities built by `create_entity` followed by one
 * `add_component` per component.
 */
module Factories {
  import opened Wrappers
  import opened Components
  import opened Stores
  import opened Ecs
  import opened EcsFacts

  const DefaultPelletSize: real := 12.0
  const DefaultPelletColor := Color(210, 180, 90)

  /** Every entry is keyed by its value's kind and no kind occurs twice. */
  predicate KeyedByKind(bundle: seq<(Kind, Component)>) {
    && (forall i | 0 <= i < |bundle| :: bundle[i].0 == KindOf(bundle[i].1))
    && (forall i, j | 0 <= i < j < |bundle| :: bundle[i].0 != bundle[j].0)
  }

  // ------------------------------------------------------------------
  // Pellets (pellet_factory.py)
  // ------------------------------------------------------------------

  const PelletKinds := {PositionKind, RectSpriteKind, InTankKind, PelletKind}

  function PelletBundle(x: real, y: real, tank: EntityId, size: real, color: Color): seq<(Kind, Component)> {
    [(PositionKind, CPosition(Position(x, y))),
     (RectSpriteKind, CRectSprite(RectSprite(size, size, color))),
     (InTankKind, CInTank(InTank(tank))),
     (PelletKind, CPellet(Pellet(size)))]
  }

  /**
   * `create_pellet_cmd`: a command value and nothing else. Its bundle holds
   * exactly Position, RectSprite, InTank and Pellet, each under its own kind.
   */
  function CreatePelletCmd(x: real, y: real, tank: EntityId, size: real, color: Color): (r: Command)
    ensures r.CreateEntityCmd? && KeyedByKind(r.components)
    ensures |r.components| == 4
    ensures forall i | 0 <= i < 4 :: r.components[i].0 in {PositionKind, RectSpriteKind, InTankKind, PelletKind}
  {
    CreateEntityCmd(PelletBundle(x, y, tank, size, color))
  }

  /**
   * Flushing a lone pellet command succeeds, allocates one id and gives it a
   * Position at (x, y), a size-by-size sprite, an InTank link to the tank
   * and a Pellet of that size; every other entity is unchanged.
   */
  lemma {:induction false} PelletFlushSpec(w: Kernel, x: real, y: real, tank: EntityId, size: real, color: Color)
    ensures var (r, rest, outcome) := Flush(w, [CreatePelletCmd(x, y, tank, size, color)]);
            && outcome == Pass && rest == []
            && r.nextId == w.nextId + 1
            && Lookup(r.stores, PositionKind, w.nextId) == Some(CPosition(Position(x, y)))
            && Lookup(r.stores, RectSpriteKind, w.nextId) == Some(CRectSprite(RectSprite(size, size, color)))
            && Lookup(r.stores, InTankKind, w.nextId) == Some(CInTank(InTank(tank)))
            && Lookup(r.stores, PelletKind, w.nextId) == Some(CPellet(Pellet(size)))
            && (forall k | k !in PelletKinds :: Lookup(r.stores, k, w.nextId) == Lookup(w.stores, k, w.nextId))
            && (forall k, e | e != w.nextId :: Lookup(r.stores, k, e) == Lookup(w.stores, k, e))
  {
    FlushOneCreate(w, PelletBundle(x, y, tank, size, color));
    PelletBundleSpec(w, x, y, tank, size, color);
  }

  /** The pellet bundle applied to a world: the four components on the new id, nothing else changed. */
  lemma {:induction false} PelletBundleSpec(w: Kernel, x: real, y: real, tank: EntityId, size: real, color: Color)
    ensures var r := ApplyCreate(w, PelletBundle(x, y, tank, size, color));
            && r.nextId == w.nextId + 1
            && Lookup(r.stores, PositionKind, w.nextId) == Some(CPosition(Position(x, y)))
            && Lookup(r.stores, RectSpriteKind, w.nextId) == Some(CRectSprite(RectSprite(size, size, color)))
            && Lookup(r.stores, InTankKind, w.nextId) == Some(CInTank(InTank(tank)))
            && Lookup(r.stores, PelletKind, w.nextId) == Some(CPellet(Pellet(size)))
            && (forall k | k !in PelletKinds :: Lookup(r.stores, k, w.nextId) == Lookup(w.stores, k, w.nextId))
            && (forall k, e | e != w.nextId :: Lookup(r.stores, k, e) == Lookup(w.stores, k, e))
  {
    var bundle := PelletBundle(x, y, tank, size, color);
    var kinds := [PositionKind, RectSpriteKind, InTankKind, PelletKind];
    assert forall i | 0 <= i < 4 :: KindOf(bundle[i].1) == kinds[i];
    ApplyCreateAt(w, bundle, 0);
    ApplyCreateAt(w, bundle, 1);
    ApplyCreateAt(w, bundle, 2);
    ApplyCreateAt(w, bundle, 3);
    PelletBundleFrame(w, x, y, tank, size, color);
  }

  /** The pellet bundle touches only its own four kinds on the new id, and no other id. */
  lemma {:induction false} PelletBundleFrame(w: Kernel, x: real, y: real, tank: EntityId, size: real, color: Color)
    ensures var r := ApplyCreate(w, PelletBundle(x, y, tank, size, color));
            && r.nextId == w.nextId + 1
            && (forall k | k !in PelletKinds :: Lookup(r.stores, k, w.nextId) == Lookup(w.stores, k, w.nextId))
            && (forall k, e | e != w.nextId :: Lookup(r.stores, k, e) == Lookup(w.stores, k, e))
  {
    var bundle := PelletBundle(x, y, tank, size, color);
    ApplyCreateOutside(w, bundle, PelletKinds);
    ApplyCreateFrame(w, bundle);
  }

  // ------------------------------------------------------------------
  // Fish (fish_factory.py)
  // ------------------------------------------------------------------

  /** Reading the species entry: `species_cfg[species_id]`, then its width, height and color. */
  function FishSprite(cfg: map<string, SpeciesEntry>, speciesId: string): (r: Result<RectSprite>)
    ensures r.Success? <==> speciesId in cfg && cfg[speciesId].width.Some? && cfg[speciesId].height.Some?
                            && cfg[speciesId].color.Some?
    ensures r.Success? ==> r.value == RectSprite(cfg[speciesId].width.value, cfg[speciesId].height.value,
                                                 cfg[speciesId].color.value)
    ensures speciesId !in cfg ==> r == Failure(KeyError(speciesId))
    ensures r.Failure? ==> r.error.KeyError?
  {
    if speciesId !in cfg then Failure(KeyError(speciesId))
    else
      var spec := cfg[speciesId];
      if spec.width.None? then Failure(KeyError("width"))
      else if spec.height.None? then Failure(KeyError("height"))
      else if spec.color.None? then Failure(KeyError("color"))
      else Success(RectSprite(spec.width.value, spec.height.value, spec.color.value))
  }

  const FishKinds := {PositionKind, VelocityKind, RectSpriteKind, FishKind, BrainKind, MovementIntentKind}

  function FishBundle(speciesId: string, x: real, y: real, sprite: RectSprite): seq<(Kind, Component)> {
    [(PositionKind, CPosition(Position(x, y))),
     (VelocityKind, CVelocity(Velocity(0.0, 0.0))),
     (RectSpriteKind, CRectSprite(sprite)),
     (FishKind, CFish(Fish(speciesId))),
     (BrainKind, CBrain(DefaultBrain)),
     (MovementIntentKind, CMovementIntent(DefaultIntent))]
  }

  /**
   * `create_fish`. A species that is not configured, or an entry lacking a
   * width, height or color, raises KeyError before any id is allocated.
   */
  method CreateFish(world: World, cfg: map<string, SpeciesEntry>, speciesId: string, x: real, y: real)
    returns (r: Result<EntityId>)
    requires world.Valid()
    modifies world`nextId, world`stores, world`views
    ensures world.Valid()
    ensures FishSprite(cfg, speciesId).Failure? ==>
              r == Failure(FishSprite(cfg, speciesId).error) && world.State() == old(world.State())
    ensures FishSprite(cfg, speciesId).Success? ==>
              && r == Success(old(world.nextId))
              && world.State() == ApplyCreate(old(world.State()), FishBundle(speciesId, x, y, FishSprite(cfg, speciesId).value))
  {
    var sprite := FishSprite(cfg, speciesId);
    if sprite.Failure? {
      return Failure(sprite.error);
    }
    // create_entity, then one add_component per bundle value in bundle order
    var eid := world.ApplyCreateEntity(FishBundle(speciesId, x, y, sprite.value));
    r := Success(eid);
  }

  /** The fish bundle's six values have six different kinds. */
  lemma FishBundleDistinct(speciesId: string, x: real, y: real, sprite: RectSprite)
    ensures var bundle := FishBundle(speciesId, x, y, sprite);
            forall a, b | 0 <= a < b < |bundle| :: KindOf(bundle[a].1) != KindOf(bundle[b].1)
  {
  }

  lemma FishBundleBody(w: Kernel, speciesId: string, x: real, y: real, sprite: RectSprite)
    ensures var r := ApplyCreate(w, FishBundle(speciesId, x, y, sprite));
            && Lookup(r.stores, PositionKind, w.nextId) == Some(CPosition(Position(x, y)))
            && Lookup(r.stores, VelocityKind, w.nextId) == Some(CVelocity(Velocity(0.0, 0.0)))
            && Lookup(r.stores, RectSpriteKind, w.nextId) == Some(CRectSprite(sprite))
  {
    var bundle := FishBundle(speciesId, x, y, sprite);
    FishBundleDistinct(speciesId, x, y, sprite);
    ApplyCreateAt(w, bundle, 0);
    ApplyCreateAt(w, bundle, 1);
    ApplyCreateAt(w, bundle, 2);
  }

  lemma FishBundleMind(w: Kernel, speciesId: string, x: real, y: real, sprite: RectSprite)
    ensures var r := ApplyCreate(w, FishBundle(speciesId, x, y, sprite));
            && Lookup(r.stores, FishKind, w.nextId) == Some(CFish(Fish(speciesId)))
            && Lookup(r.stores, BrainKind, w.nextId) == Some(CBrain(Brain("idle", 0.0, 0.0, false)))
            && Lookup(r.stores, MovementIntentKind, w.nextId) == Some(CMovementIntent(MovementIntent(0.0, 0.0)))
  {
    var bundle := FishBundle(speciesId, x, y, sprite);
    FishBundleDistinct(speciesId, x, y, sprite);
    assert DefaultBrain == Brain("idle", 0.0, 0.0, false) && DefaultIntent == MovementIntent(0.0, 0.0);
    ApplyCreateAt(w, bundle, 3);
    assert bundle[4].1 == CBrain(DefaultBrain);
    ApplyCreateAt(w, bundle, 4);
    assert bundle[5].1 == CMovementIntent(DefaultIntent);
    ApplyCreateAt(w, bundle, 5);
  }

  /**
   * A created fish holds Position (x, y), zero Velocity, the species'
   * sprite, Fish(species_id), the default Brain and a zero MovementIntent,
   * under one new id; no other entity changes.
   */
  lemma {:induction false} FishBundleSpec(w: Kernel, speciesId: string, x: real, y: real, sprite: RectSprite)
    ensures var r := ApplyCreate(w, FishBundle(speciesId, x, y, sprite));
            && r.nextId == w.nextId + 1
            && Lookup(r.stores, PositionKind, w.nextId) == Some(CPosition(Position(x, y)))
            && Lookup(r.stores, VelocityKind, w.nextId) == Some(CVelocity(Velocity(0.0, 0.0)))
            && Lookup(r.stores, RectSpriteKind, w.nextId) == Some(CRectSprite(sprite))
            && Lookup(r.stores, FishKind, w.nextId) == Some(CFish(Fish(speciesId)))
            && Lookup(r.stores, BrainKind, w.nextId) == Some(CBrain(Brain("idle", 0.0, 0.0, false)))
            && Lookup(r.stores, MovementIntentKind, w.nextId) == Some(CMovementIntent(MovementIntent(0.0, 0.0)))
            && (forall k | k !in FishKinds :: Lookup(r.stores, k, w.nextId) == Lookup(w.stores, k, w.nextId))
            && (forall k, e | e != w.nextId :: Lookup(r.stores, k, e) == Lookup(w.stores, k, e))
            && (ValidStores(w.stores) ==> ValidStores(r.stores))
  {
    var bundle := FishBundle(speciesId, x, y, sprite);
    ApplyCreateFrame(w, bundle);
    ApplyCreateKeepsValid(w, bundle);
    ApplyCreateOutside(w, bundle, FishKinds);
    FishBundleBody(w, speciesId, x, y, sprite);
    FishBundleMind(w, speciesId, x, y, sprite);
  }

  // ------------------------------------------------------------------
  // Tanks (tank_factory.py)
  // ------------------------------------------------------------------

  function TankBundle(tankId: string, maxFish: int, x: real, y: real, width: real, height: real): seq<(Kind, Component)> {
    [(TankKind, CTank(Tank(tankId, maxFish))), (TankBoundsKind, CTankBounds(TankBounds(x, y, width, height)))]
  }

  /** `create_tank`. */
  method CreateTank(world: World, tankId: string, maxFish: int, x: real, y: real, width: real, height: real)
    returns (eid: EntityId)
    requires world.Valid()
    modifies world`nextId, world`stores, world`views
    ensures world.Valid()
    ensures eid == old(world.nextId)
    ensures world.State() == ApplyCreate(old(world.State()), TankBundle(tankId, maxFish, x, y, width, height))
  {
    eid := world.ApplyCreateEntity(TankBundle(tankId, maxFish, x, y, width, height));
  }

  /** A created tank holds exactly the given Tank and TankBounds under one new id; no other entity changes. */
  lemma {:induction false} TankBundleSpec(w: Kernel, tankId: string, maxFish: int, x: real, y: real, width: real, height: real)
    ensures var r := ApplyCreate(w, TankBundle(tankId, maxFish, x, y, width, height));
            && r.nextId == w.nextId + 1
            && Lookup(r.stores, TankKind, w.nextId) == Some(CTank(Tank(tankId, maxFish)))
            && Lookup(r.stores, TankBoundsKind, w.nextId) == Some(CTankBounds(TankBounds(x, y, width, height)))
            && (forall k | k != TankKind && k != TankBoundsKind :: Lookup(r.stores, k, w.nextId) == Lookup(w.stores, k, w.nextId))
            && (forall k, e | e != w.nextId :: Lookup(r.stores, k, e) == Lookup(w.stores, k, e))
            && (ValidStores(w.stores) ==> ValidStores(r.stores))
  {
    var bundle := TankBundle(tankId, maxFish, x, y, width, height);
    ApplyCreateSpec(w, bundle);
    ApplyCreateAt(w, bundle, 0);
    ApplyCreateAt(w, bundle, 1);
    forall k | k != TankKind && k != TankBoundsKind ensures LastOfKind(bundle, k).None? {
      assert KindOf(bundle[0].1) != k && KindOf(bundle[1].1) != k;
    }
  }
}
