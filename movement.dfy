/**
 * The movement system (engine/game/systems/movement_system.py): intent to
 * velocity, the optional bobbing term, the choice of bounds, Euler
 * integration, and clamp-and-bounce against the bounds with stop-on-floor.
 *
 * The system assigns to fields of the Position, Velocity, Falling and
 * Bobbing objects it holds; here one entity's step is a function on a `Body`
 * value, and the system writes the new values back over the entity's entries.
 */
module Movement {
  import opened Wrappers
  import opened Components
  import opened Stores
  import opened Ecs
  import opened MoveRows

  /** The rectangle the sprite's box must stay in. */
  datatype Area = Area(left: real, top: real, right: real, bottom: real)

  /**
   * What the step needs from outside the entity: the logical size (the
   * system takes it from `LogicalSize` of the two resources), and the
   * bobbing term `amplitude * sin(2 pi frequency t + phase)` as a function of
   * the advanced Bobbing record.
   */
  datatype MoveEnv = MoveEnv(logicalSize: (real, real), bobTerm: Bobbing -> real)

  const FallbackScreenSize := (800.0, 600.0)

  /** `try_get("logical_size", try_get("screen_size", FALLBACK_SCREEN_SIZE))`. */
  function LogicalSize(logical: Option<(real, real)>, screen: Option<(real, real)>): (r: (real, real))
    ensures logical.Some? ==> r == logical.value
    ensures logical.None? && screen.Some? ==> r == screen.value
    ensures logical.None? && screen.None? ==> r == (800.0, 600.0)
  {
    logical.GetOr(screen.GetOr(FallbackScreenSize))
  }

  /** Landed: stops on the floor and grounded. */
  predicate Frozen(b: Body) {
    b.falling.Some? && Stops(b.falling.value) && b.falling.value.grounded
  }

  /** The tank `e`'s InTank names, if it has one. */
  function TankOf(ss: Stores, e: EntityId): Option<EntityId> {
    match Lookup(ss, InTankKind, e)
    case Some(CInTank(it)) => Some(it.tank)
    case _ => None
  }

  /** The TankBounds record of `t`, if it has one. */
  function BoundsOf(ss: Stores, t: EntityId): Option<TankBounds> {
    match Lookup(ss, TankBoundsKind, t)
    case Some(CTankBounds(b)) => Some(b)
    case _ => None
  }

  /** The rectangle a TankBounds record covers. */
  function TankRect(b: TankBounds): Area {
    Area(b.x, b.y, b.x + b.width, b.y + b.height)
  }

  /** The tank's rectangle when `e` is in a tank that has TankBounds, else the logical area. */
  function AreaFor(ss: Stores, e: EntityId, size: (real, real)): (r: Area)
    ensures TankOf(ss, e).Some? && BoundsOf(ss, TankOf(ss, e).value).Some? ==>
              r == TankRect(BoundsOf(ss, TankOf(ss, e).value).value)
    ensures !(TankOf(ss, e).Some? && BoundsOf(ss, TankOf(ss, e).value).Some?) ==>
              r == Area(0.0, 0.0, size.0, size.1)
  {
    match Lookup(ss, InTankKind, e)
    case Some(CInTank(it)) =>
      (match Lookup(ss, TankBoundsKind, it.tank)
       case Some(CTankBounds(b)) => Area(b.x, b.y, b.x + b.width, b.y + b.height)
       case _ => Area(0.0, 0.0, size.0, size.1))
    case _ => Area(0.0, 0.0, size.0, size.1)
  }

  /** Clamp-and-bounce on one axis: an overshoot is clamped to the edge it crossed and the speed reversed. */
  function Bounce(p: real, v: real, lo: real, hi: real): (r: (real, real))
    ensures lo <= p <= hi ==> r == (p, v)
    ensures p < lo ==> r == (lo, -v)
    ensures !(p < lo) && p > hi ==> r == (hi, -v)
    ensures lo <= hi ==> lo <= r.0 <= hi
  {
    if p < lo then (lo, -v) else if p > hi then (hi, -v) else (p, v)
  }

  /**
   * The velocity the step integrates, and the advanced Bobbing record: the
   * intent's target replaces the velocity when there is an intent, then the
   * bobbing term is added to vy after advancing the bobbing clock by dt.
   */
  function Drive(vel: Velocity, intent: Option<MovementIntent>, bob: Option<Bobbing>, dt: real,
                 bobTerm: Bobbing -> real): (r: (Velocity, Option<Bobbing>))
    ensures r.0.vx == if intent.Some? then intent.value.targetVx else vel.vx
    ensures bob.None? ==> r.1.None? && r.0.vy == if intent.Some? then intent.value.targetVy else vel.vy
    ensures bob.Some? ==> r.1 == Some(bob.value.(t := bob.value.t + dt))
    ensures bob.Some? ==> r.0.vy == (if intent.Some? then intent.value.targetVy else vel.vy) + bobTerm(r.1.value)
  {
    var v1 := if intent.Some? then Velocity(intent.value.targetVx, intent.value.targetVy) else vel;
    match bob
    case None => (v1, None)
    case Some(bb) =>
      var bb' := bb.(t := bb.t + dt);
      (v1.(vy := v1.vy + bobTerm(bb')), Some(bb'))
  }

  /**
   * The vertical clamp: the top edge bounces; the floor stops and grounds a
   * stop-on-floor entity (zeroing both speeds) and bounces any other.
   */
  function Floor(y: real, v: Velocity, minY: real, maxY: real, falling: Option<Falling>): (r: (real, Velocity, Option<Falling>))
    ensures minY <= y <= maxY ==> r == (y, v, falling)
    ensures y < minY ==> r == (minY, v.(vy := -v.vy), falling)
    ensures !(y < minY) && y > maxY && falling.Some? && Stops(falling.value) ==>
              r == (maxY, Velocity(0.0, 0.0), Some(falling.value.(grounded := true)))
    ensures !(y < minY) && y > maxY && !(falling.Some? && Stops(falling.value)) ==>
              r == (maxY, v.(vy := -v.vy), falling)
    ensures minY <= maxY ==> minY <= r.0 <= maxY
    ensures r.2.Some? <==> falling.Some?
  {
    if y < minY then (minY, v.(vy := -v.vy), falling)
    else if y > maxY then
      if falling.Some? && Stops(falling.value) then (maxY, Velocity(0.0, 0.0), Some(falling.value.(grounded := true)))
      else (maxY, v.(vy := -v.vy), falling)
    else (y, v, falling)
  }

  /** One entity's step in `MovementSystem.update`. */
  function Step(b: Body, sprite: RectSprite, intent: Option<MovementIntent>, area: Area, dt: real,
                bobTerm: Bobbing -> real): (r: Body)
  {
    if Frozen(b) then b.(vel := Velocity(0.0, 0.0))
    else
      var (v, bob) := Drive(b.vel, intent, b.bob, dt, bobTerm);
      var (x, vx) := Bounce(b.pos.x + v.vx * dt, v.vx, area.left, area.right - sprite.width);
      var (y, v', falling) := Floor(b.pos.y + v.vy * dt, Velocity(vx, v.vy), area.top, area.bottom - sprite.height, b.falling);
      Body(Position(x, y), v', falling, bob)
  }

  /** A landed entity only has its velocity zeroed. */
  lemma StepFrozen(b: Body, sprite: RectSprite, intent: Option<MovementIntent>, area: Area, dt: real,
                   bobTerm: Bobbing -> real)
    requires Frozen(b)
    ensures Step(b, sprite, intent, area, dt, bobTerm) == b.(vel := Velocity(0.0, 0.0))
  {
  }

  /**
   * A moving entity integrates the driven velocity over dt before any
   * clamp: an axis that stays in range keeps the integrated coordinate and
   * its speed, and with no bounds hit the new velocity is the driven one.
   */
  lemma {:induction false} StepMoving(b: Body, sprite: RectSprite, intent: Option<MovementIntent>, area: Area, dt: real,
                   bobTerm: Bobbing -> real)
    requires !Frozen(b)
    ensures var r := Step(b, sprite, intent, area, dt, bobTerm);
            var (v, bob) := Drive(b.vel, intent, b.bob, dt, bobTerm);
            var x, y := b.pos.x + v.vx * dt, b.pos.y + v.vy * dt;
            var maxX, maxY := area.right - sprite.width, area.bottom - sprite.height;
            && r.bob == bob
            && (area.left <= x <= maxX ==> r.pos.x == x)
            && (area.top <= y <= maxY ==> r.pos.y == y && r.falling == b.falling)
            && (area.left <= x <= maxX && area.top <= y <= maxY ==> r.vel == v)
            && (!(y < area.top) && y > maxY && b.falling.Some? && Stops(b.falling.value) ==>
                  r.pos.y == maxY && r.vel == Velocity(0.0, 0.0) && r.falling.value.grounded)
  {
    var (v, bob) := Drive(b.vel, intent, b.bob, dt, bobTerm);
    var px, py := b.pos.x + v.vx * dt, b.pos.y + v.vy * dt;
    var maxX, maxY := area.right - sprite.width, area.bottom - sprite.height;
    var (x, vx) := Bounce(px, v.vx, area.left, maxX);
    var (y, v', falling) := Floor(py, Velocity(vx, v.vy), area.top, maxY, b.falling);
    var r := Step(b, sprite, intent, area, dt, bobTerm);
    assert r == Body(Position(x, y), v', falling, bob);
    if area.left <= px <= maxX {
      assert x == px && vx == v.vx;
    }
    if area.top <= py <= maxY {
      assert y == py && v' == Velocity(vx, v.vy) && falling == b.falling;
    }
    if !(py < area.top) && py > maxY && b.falling.Some? && Stops(b.falling.value) {
      assert y == maxY && v' == Velocity(0.0, 0.0) && falling == Some(b.falling.value.(grounded := true));
    }
  }

  /** Where a moving entity's step puts it: the bounced x and the floor-clamped y of the driven step. */
  lemma StepPosition(b: Body, sprite: RectSprite, intent: Option<MovementIntent>, area: Area, dt: real,
                     bobTerm: Bobbing -> real)
    requires !Frozen(b)
    ensures var d := Drive(b.vel, intent, b.bob, dt, bobTerm);
            var bx := Bounce(b.pos.x + d.0.vx * dt, d.0.vx, area.left, area.right - sprite.width);
            var fy := Floor(b.pos.y + d.0.vy * dt, Velocity(bx.1, d.0.vy), area.top, area.bottom - sprite.height, b.falling);
            Step(b, sprite, intent, area, dt, bobTerm).pos == Position(bx.0, fy.0)
  {
  }

  /** When the area is at least as large as the sprite, the step ends inside it. */
  lemma StepContained(b: Body, sprite: RectSprite, intent: Option<MovementIntent>, area: Area, dt: real,
                      bobTerm: Bobbing -> real)
    requires !Frozen(b)
    requires area.left <= area.right - sprite.width && area.top <= area.bottom - sprite.height
    ensures var r := Step(b, sprite, intent, area, dt, bobTerm);
            area.left <= r.pos.x <= area.right - sprite.width && area.top <= r.pos.y <= area.bottom - sprite.height
  {
    StepPosition(b, sprite, intent, area, dt, bobTerm);
  }

  // ------------------------------------------------------------------
  // The system over the world
  // ------------------------------------------------------------------

  const MoveKinds := [PositionKind, VelocityKind, RectSpriteKind]

  /** `Step` for one entity of the world, reading its row and bounds now. */
  function MoveOne(ss: Stores, e: EntityId, env: MoveEnv, dt: real): Stores {
    match Moved(ss, e, env, dt)
    case None => ss
    case Some(next) => WriteBody(ss, e, next)
  }

  /** The body `e` moves to, if the view yields it. */
  function Moved(ss: Stores, e: EntityId, env: MoveEnv, dt: real): Option<Body> {
    match BodyAt(ss, e)
    case None => None
    case Some((b, sprite)) => Some(Step(b, sprite, IntentAt(ss, e), AreaFor(ss, e, env.logicalSize), dt, env.bobTerm))
  }

  function MoveAll(ss: Stores, ids: seq<EntityId>, env: MoveEnv, dt: real): Stores
    decreases |ids|
  {
    if ids == [] then ss else MoveAll(MoveOne(ss, ids[0], env, dt), ids[1..], env, dt)
  }

  /** `MovementSystem.update`. */
  method Update(world: World, logical: Option<(real, real)>, screen: Option<(real, real)>, bobTerm: Bobbing -> real,
                dt: real)
    requires world.Valid()
    modifies world`stores
    ensures world.Valid()
    ensures world.stores == MoveAll(old(world.stores), ViewIds(old(world.stores), MoveKinds),
                                    MoveEnv(LogicalSize(logical, screen), bobTerm), dt)
  {
    var env := MoveEnv(LogicalSize(logical, screen), bobTerm);
    var ids := ViewIds(world.stores, MoveKinds);
    ghost var target := MoveAll(world.stores, ids, env, dt);
    for i := 0 to |ids|
      invariant world.Valid()
      invariant MoveAll(world.stores, ids[i..], env, dt) == target
    {
      var eid := ids[i];
      assert ids[i..][1..] == ids[i + 1..];
      MoveEntity(world, eid, env, dt);
    }
  }

  /** The loop body of `MovementSystem.update` for one yielded entity. */
  method MoveEntity(world: World, eid: EntityId, env: MoveEnv, dt: real)
    requires world.Valid()
    modifies world`stores
    ensures world.Valid()
    ensures world.stores == MoveOne(old(world.stores), eid, env, dt)
  {
    var ss := world.stores;
    var next := Moved(ss, eid, env, dt);
    if next.Some? {
      WriteBodyValid(ss, eid, next.value);
      world.stores := WriteBody(ss, eid, next.value);
    }
  }

  /** The step never adds or drops a Falling or Bobbing record. */
  lemma StepKeepsParts(b: Body, sprite: RectSprite, intent: Option<MovementIntent>, area: Area, dt: real,
                       bobTerm: Bobbing -> real)
    ensures Step(b, sprite, intent, area, dt, bobTerm).falling.Some? <==> b.falling.Some?
    ensures Step(b, sprite, intent, area, dt, bobTerm).bob.Some? <==> b.bob.Some?
  {
  }

  /**
   * A movement update over duplicate-free ids moves each listed entity that
   * has a body exactly once, by `Step` on its own original row, intent and
   * bounds (no entity's step sees another's); entities outside the list and
   * every kind the system does not write are unchanged.
   */
  lemma {:induction false} MoveAllSpec(ss: Stores, ids: seq<EntityId>, env: MoveEnv, dt: real)
    requires NoDup(ids)
    ensures var r := MoveAll(ss, ids, env, dt);
            && (forall k, x | x !in ids :: Lookup(r, k, x) == Lookup(ss, k, x))
            && (forall k, x | k !in {PositionKind, VelocityKind, FallingKind, BobbingKind} ::
                  Lookup(r, k, x) == Lookup(ss, k, x))
            && (forall x | x in ids && BodyAt(ss, x).Some? ::
                  BodyAt(r, x) == Some((Step(BodyAt(ss, x).value.0, BodyAt(ss, x).value.1, IntentAt(ss, x),
                                             AreaFor(ss, x, env.logicalSize), dt, env.bobTerm),
                                        BodyAt(ss, x).value.1)))
            && (ValidStores(ss) ==> ValidStores(r))
    decreases |ids|
  {
    if ids != [] {
      var e := ids[0];
      assert NoDup(ids[1..]);
      assert e !in ids[1..];
      var s1 := MoveOne(ss, e, env, dt);
      match BodyAt(ss, e) {
        case None =>
          assert s1 == ss;
        case Some((b, sprite)) =>
          var next := Step(b, sprite, IntentAt(ss, e), AreaFor(ss, e, env.logicalSize), dt, env.bobTerm);
          StepKeepsParts(b, sprite, IntentAt(ss, e), AreaFor(ss, e, env.logicalSize), dt, env.bobTerm);
          WriteBodySpec(ss, e, next);
          forall x | x != e ensures BodyAt(s1, x) == BodyAt(ss, x) && IntentAt(s1, x) == IntentAt(ss, x)
                                 && AreaFor(s1, x, env.logicalSize) == AreaFor(ss, x, env.logicalSize)
          {
            SameRowSameBody(ss, s1, x, env.logicalSize);
          }
      }
      MoveAllSpec(s1, ids[1..], env, dt);
      var r := MoveAll(s1, ids[1..], env, dt);
      forall x | x in ids && BodyAt(ss, x).Some?
        ensures BodyAt(r, x) == Some((Step(BodyAt(ss, x).value.0, BodyAt(ss, x).value.1, IntentAt(ss, x),
                                           AreaFor(ss, x, env.logicalSize), dt, env.bobTerm),
                                      BodyAt(ss, x).value.1))
      {
        if x == e {
          SameRowSameBody(s1, r, e, env.logicalSize);
        }
      }
    }
  }

  /**
   * Two store maps that agree on every entry of `x` and on every tank's
   * bounds give `x` the same body, intent and bounds.
   */
  lemma SameRowSameBody(a: Stores, b: Stores, x: EntityId, size: (real, real))
    requires forall k :: Lookup(a, k, x) == Lookup(b, k, x)
    requires forall y :: Lookup(a, TankBoundsKind, y) == Lookup(b, TankBoundsKind, y)
    ensures BodyAt(a, x) == BodyAt(b, x) && IntentAt(a, x) == IntentAt(b, x) && AreaFor(a, x, size) == AreaFor(b, x, size)
  {
    assert Lookup(a, InTankKind, x) == Lookup(b, InTankKind, x);
    match Lookup(a, InTankKind, x)
    case Some(CInTank(it)) =>
      assert Lookup(a, TankBoundsKind, it.tank) == Lookup(b, TankBoundsKind, it.tank);
    case _ =>
  }

  /**
   * After a movement update, every entity of the view that was not landed
   * and sits in a tank with TankBounds at least as large as its sprite has
   * its sprite box inside that tank's rectangle.
   */
  lemma UpdateKeepsTankBodiesInside(ss: Stores, env: MoveEnv, dt: real, x: EntityId, t: EntityId)
    requires ValidStores(ss)
    requires x in ViewIds(ss, MoveKinds)
    requires BodyAt(ss, x).Some? && !Frozen(BodyAt(ss, x).value.0)
    requires TankOf(ss, x) == Some(t) && BoundsOf(ss, t).Some?
    requires BodyAt(ss, x).value.1.width <= BoundsOf(ss, t).value.width
    requires BodyAt(ss, x).value.1.height <= BoundsOf(ss, t).value.height
    ensures var r := MoveAll(ss, ViewIds(ss, MoveKinds), env, dt);
            var tb, sprite := BoundsOf(ss, t).value, BodyAt(ss, x).value.1;
            && BodyAt(r, x).Some?
            && tb.x <= BodyAt(r, x).value.0.pos.x <= tb.x + tb.width - sprite.width
            && tb.y <= BodyAt(r, x).value.0.pos.y <= tb.y + tb.height - sprite.height
  {
    var ids := ViewIds(ss, MoveKinds);
    ViewIdsSpec(ss, MoveKinds);
    MoveAllSpec(ss, ids, env, dt);
    var (b, sprite) := BodyAt(ss, x).value;
    var area := AreaFor(ss, x, env.logicalSize);
    assert area == TankRect(BoundsOf(ss, t).value);
    StepContained(b, sprite, IntentAt(ss, x), area, dt, env.bobTerm);
  }
}
