/**
 * The entries of one entity that the movement system reads and writes
 * (engine/game/systems/movement_system.py): the Position, Velocity and
 * RectSprite its view yields, the optional Falling and Bobbing records it
 * fetches beside them, and the write-back of the changed fields.
 */
module MoveRows {
  import opened Wrappers
  import opened Components
  import opened Stores

  /** The parts of an entity a movement step may change. */
  datatype Body = Body(pos: Position, vel: Velocity, falling: Option<Falling>, bob: Option<Bobbing>)

  /** The body and sprite of `e` as the view row and the side stores hold them. */
  function BodyAt(ss: Stores, e: EntityId): Option<(Body, RectSprite)> {
    match (Lookup(ss, PositionKind, e), Lookup(ss, VelocityKind, e), Lookup(ss, RectSpriteKind, e))
    case (Some(CPosition(p)), Some(CVelocity(v)), Some(CRectSprite(s))) =>
      Some((Body(p, v, FallingIn(ss, e), BobIn(ss, e)), s))
    case _ => None
  }

  /** `world.get_component(e, Falling)`: the entity's Falling record, if any. */
  function FallingIn(ss: Stores, e: EntityId): Option<Falling> {
    match Lookup(ss, FallingKind, e)
    case Some(CFalling(f)) => Some(f)
    case _ => None
  }

  /** `world.get_component(e, Bobbing)`: the entity's Bobbing record, if any. */
  function BobIn(ss: Stores, e: EntityId): Option<Bobbing> {
    match Lookup(ss, BobbingKind, e)
    case Some(CBobbing(bb)) => Some(bb)
    case _ => None
  }

  function IntentAt(ss: Stores, e: EntityId): Option<MovementIntent> {
    match Lookup(ss, MovementIntentKind, e)
    case Some(CMovementIntent(i)) => Some(i)
    case _ => None
  }

  /** Writes a new position and velocity over the entity's entries. */
  function WriteMotion(ss: Stores, e: EntityId, p: Position, v: Velocity): Stores {
    AddTo(AddTo(ss, e, CPosition(p)), e, CVelocity(v))
  }

  /** Writes the component when there is one; otherwise changes nothing. */
  function WriteOpt(ss: Stores, e: EntityId, c: Option<Component>): Stores {
    if c.Some? then AddTo(ss, e, c.value) else ss
  }

  function FallingEntry(f: Option<Falling>): Option<Component> {
    if f.Some? then Some(CFalling(f.value)) else None
  }

  function BobEntry(bob: Option<Bobbing>): Option<Component> {
    if bob.Some? then Some(CBobbing(bob.value)) else None
  }

  /** Writes a body back into the entity's existing entries. */
  function WriteBody(ss: Stores, e: EntityId, b: Body): Stores {
    WriteOpt(WriteOpt(WriteMotion(ss, e, b.pos, b.vel), e, FallingEntry(b.falling)), e, BobEntry(b.bob))
  }

  /** A motion write sets exactly the Position and Velocity entries of `e`. */
  lemma WriteMotionLookup(ss: Stores, e: EntityId, p: Position, v: Velocity)
    ensures forall k, x :: Lookup(WriteMotion(ss, e, p, v), k, x) ==
              if x == e && k == PositionKind then Some(CPosition(p))
              else if x == e && k == VelocityKind then Some(CVelocity(v))
              else Lookup(ss, k, x)
    ensures ValidStores(ss) ==> ValidStores(WriteMotion(ss, e, p, v))
  {
    if ValidStores(ss) {
      AddToValid(ss, e, CPosition(p));
      AddToValid(AddTo(ss, e, CPosition(p)), e, CVelocity(v));
    }
  }

  /** An optional Falling write sets at most the Falling entry of `e`. */
  lemma WriteFallingLookup(ss: Stores, e: EntityId, f: Option<Falling>)
    ensures forall k, x :: Lookup(WriteOpt(ss, e, FallingEntry(f)), k, x) ==
              if f.Some? && x == e && k == FallingKind then Some(CFalling(f.value)) else Lookup(ss, k, x)
    ensures ValidStores(ss) ==> ValidStores(WriteOpt(ss, e, FallingEntry(f)))
  {
    if f.Some? && ValidStores(ss) {
      AddToValid(ss, e, CFalling(f.value));
    }
  }

  /** An optional Bobbing write sets at most the Bobbing entry of `e`. */
  lemma WriteBobLookup(ss: Stores, e: EntityId, bob: Option<Bobbing>)
    ensures forall k, x :: Lookup(WriteOpt(ss, e, BobEntry(bob)), k, x) ==
              if bob.Some? && x == e && k == BobbingKind then Some(CBobbing(bob.value)) else Lookup(ss, k, x)
    ensures ValidStores(ss) ==> ValidStores(WriteOpt(ss, e, BobEntry(bob)))
  {
    if bob.Some? && ValidStores(ss) {
      AddToValid(ss, e, CBobbing(bob.value));
    }
  }

  /** What a lookup finds after a body write: the body's parts at `e`, everything else as before. */
  function Written(ss: Stores, e: EntityId, b: Body, k: Kind, x: EntityId): Option<Component> {
    if x == e && k == PositionKind then Some(CPosition(b.pos))
    else if x == e && k == VelocityKind then Some(CVelocity(b.vel))
    else if x == e && k == FallingKind && b.falling.Some? then Some(CFalling(b.falling.value))
    else if x == e && k == BobbingKind && b.bob.Some? then Some(CBobbing(b.bob.value))
    else Lookup(ss, k, x)
  }

  /** The three layers of a body write compose to `Written`. */
  lemma ComposeWritten(ss: Stores, s1: Stores, s2: Stores, s3: Stores, e: EntityId, b: Body)
    requires forall k, x :: Lookup(s1, k, x) ==
               if x == e && k == PositionKind then Some(CPosition(b.pos))
               else if x == e && k == VelocityKind then Some(CVelocity(b.vel))
               else Lookup(ss, k, x)
    requires forall k, x :: Lookup(s2, k, x) ==
               if b.falling.Some? && x == e && k == FallingKind then Some(CFalling(b.falling.value)) else Lookup(s1, k, x)
    requires forall k, x :: Lookup(s3, k, x) ==
               if b.bob.Some? && x == e && k == BobbingKind then Some(CBobbing(b.bob.value)) else Lookup(s2, k, x)
    ensures forall k, x :: Lookup(s3, k, x) == Written(ss, e, b, k, x)
  {
  }

  /** A body write sets the entity's Position and Velocity, and Falling and Bobbing where the body has them. */
  lemma WriteBodyLookup(ss: Stores, e: EntityId, b: Body)
    ensures forall k, x :: Lookup(WriteBody(ss, e, b), k, x) == Written(ss, e, b, k, x)
    ensures ValidStores(ss) ==> ValidStores(WriteBody(ss, e, b))
  {
    var s1 := WriteMotion(ss, e, b.pos, b.vel);
    var s2 := WriteOpt(s1, e, FallingEntry(b.falling));
    var s3 := WriteOpt(s2, e, BobEntry(b.bob));
    WriteMotionLookup(ss, e, b.pos, b.vel);
    WriteFallingLookup(s1, e, b.falling);
    WriteBobLookup(s2, e, b.bob);
    ComposeWritten(ss, s1, s2, s3, e, b);
  }

  lemma WriteBodyValid(ss: Stores, e: EntityId, b: Body)
    requires ValidStores(ss)
    ensures ValidStores(WriteBody(ss, e, b))
  {
    WriteBodyLookup(ss, e, b);
  }

  /**
   * Any store whose lookups are those of a body write holds the written body
   * and the old sprite at `e`, provided the optional parts it writes are the
   * ones the entity already had.
   */
  lemma {:induction false} BodyAfterWrite(ss: Stores, r: Stores, e: EntityId, b: Body)
    requires BodyAt(ss, e).Some?
    requires b.falling.Some? <==> BodyAt(ss, e).value.0.falling.Some?
    requires b.bob.Some? <==> BodyAt(ss, e).value.0.bob.Some?
    requires forall k, x :: Lookup(r, k, x) == Written(ss, e, b, k, x)
    ensures BodyAt(r, e) == Some((b, BodyAt(ss, e).value.1))
  {
    var s := BodyAt(ss, e).value.1;
    assert Lookup(ss, RectSpriteKind, e) == Some(CRectSprite(s));
    assert Lookup(r, RectSpriteKind, e) == Some(CRectSprite(s));
    assert Lookup(r, PositionKind, e) == Some(CPosition(b.pos));
    assert Lookup(r, VelocityKind, e) == Some(CVelocity(b.vel));
    assert FallingIn(r, e) == b.falling by {
      if b.falling.None? {
        assert Lookup(r, FallingKind, e) == Lookup(ss, FallingKind, e);
      }
    }
    assert BobIn(r, e) == b.bob by {
      if b.bob.None? {
        assert Lookup(r, BobbingKind, e) == Lookup(ss, BobbingKind, e);
      }
    }
  }

  /** Which lookups a write of `e`'s body leaves alone, and what it leaves at `e`. */
  lemma WriteBodySpec(ss: Stores, e: EntityId, b: Body)
    requires BodyAt(ss, e).Some?
    requires b.falling.Some? <==> BodyAt(ss, e).value.0.falling.Some?
    requires b.bob.Some? <==> BodyAt(ss, e).value.0.bob.Some?
    ensures forall k, x | x != e :: Lookup(WriteBody(ss, e, b), k, x) == Lookup(ss, k, x)
    ensures forall k | k !in {PositionKind, VelocityKind, FallingKind, BobbingKind} ::
              Lookup(WriteBody(ss, e, b), k, e) == Lookup(ss, k, e)
    ensures BodyAt(WriteBody(ss, e, b), e) == Some((b, BodyAt(ss, e).value.1))
    ensures ValidStores(ss) ==> ValidStores(WriteBody(ss, e, b))
  {
    WriteBodyLookup(ss, e, b);
    BodyAfterWrite(ss, WriteBody(ss, e, b), e, b);
  }
}
