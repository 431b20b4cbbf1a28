/**
 * The falling system (engine/game/systems/falling_system.py): gravity and a
 * sign-aware terminal-velocity clamp for every entity holding Velocity and
 * Falling, in view order, skipping entities that have landed for good.
 */
module Gravity {
  import opened Wrappers
  import opened Components
  import opened Stores
  import opened Ecs

  /** The `falling_config["defaults"]` values after their conversions. */
  datatype FallDefaults = FallDefaults(gravity: real, terminal: real, stop: bool)

  /** Each absent configuration key falls back to gravity 0, terminal velocity 0 and stop-on-floor true. */
  function DefaultsOf(gravity: Option<real>, terminal: Option<real>, stop: Option<bool>): (r: FallDefaults)
    ensures r.gravity == (if gravity.Some? then gravity.value else 0.0)
    ensures r.terminal == (if terminal.Some? then terminal.value else 0.0)
    ensures r.stop == (stop.None? || stop.value)
  {
    FallDefaults(gravity.GetOr(0.0), terminal.GetOr(0.0), stop.GetOr(true))
  }

  /**
   * The terminal-velocity clamp: under downward gravity vy is capped at
   * `term`, under upward gravity it is floored at `-term`, and a
   * non-positive `term` disables the clamp.
   */
  function Clamp(vy: real, g: real, term: real): (r: real)
    ensures term > 0.0 && g >= 0.0 ==> r <= term && (r == vy || r == term) && r <= vy
    ensures term > 0.0 && g < 0.0 ==> r >= -term && (r == vy || r == -term) && r >= vy
    ensures term > 0.0 && -term <= vy <= term ==> r == vy
    ensures term <= 0.0 ==> r == vy
  {
    if term > 0.0 then
      if g >= 0.0 then (if vy <= term then vy else term)
      else (if vy >= -term then vy else -term)
    else vy
  }

  /** One entity's step: new velocity and normalised Falling record. */
  function Fall(d: FallDefaults, vel: Velocity, f: Falling, dt: real): (Velocity, Falling) {
    if Stops(f) && f.grounded then (vel, f)
    else
      var g := f.gravity.GetOr(d.gravity);
      var term := f.terminalVelocity.GetOr(d.terminal);
      var stop := f.stopOnFloor.GetOr(d.stop);
      (Velocity(vel.vx, Clamp(vel.vy + g * dt, g, term)), f.(stopOnFloor := Some(stop)))
  }

  /**
   * A landed stop-on-floor entity is left alone. Any other entity keeps vx,
   * gets vy + g*dt with the per-entity override winning over the default,
   * clamped by the effective terminal velocity; its stop-on-floor flag is
   * no longer None (keeping its own value when it had one) and nothing else
   * of the record changes.
   */
  lemma FallSpec(d: FallDefaults, vel: Velocity, f: Falling, dt: real)
    ensures Stops(f) && f.grounded ==> Fall(d, vel, f, dt) == (vel, f)
    ensures !(Stops(f) && f.grounded) ==>
              var g := if f.gravity.Some? then f.gravity.value else d.gravity;
              var term := if f.terminalVelocity.Some? then f.terminalVelocity.value else d.terminal;
              var (v, f') := Fall(d, vel, f, dt);
              && v.vx == vel.vx
              && v.vy == Clamp(vel.vy + g * dt, g, term)
              && f'.stopOnFloor.Some?
              && (f.stopOnFloor.Some? ==> f'.stopOnFloor == f.stopOnFloor)
              && (f.stopOnFloor.None? ==> f'.stopOnFloor == Some(d.stop))
              && f'.gravity == f.gravity && f'.terminalVelocity == f.terminalVelocity && f'.grounded == f.grounded
  {
  }

  /** Gravity 10 and terminal velocity 5 over one second from rest give vy = 5. */
  lemma FallTerminalExample()
    ensures Fall(DefaultsOf(None, None, None), Velocity(0.0, 0.0), Falling(Some(10.0), Some(5.0), Some(true), false), 1.0)
            == (Velocity(0.0, 5.0), Falling(Some(10.0), Some(5.0), Some(true), false))
  {
  }

  // ------------------------------------------------------------------
  // The system over the world
  // ------------------------------------------------------------------

  const FallKinds := [VelocityKind, FallingKind]

  function FallAt(ss: Stores, e: EntityId): Option<(Velocity, Falling)> {
    match (Lookup(ss, VelocityKind, e), Lookup(ss, FallingKind, e))
    case (Some(CVelocity(v)), Some(CFalling(f))) => Some((v, f))
    case _ => None
  }

  function WriteFall(ss: Stores, e: EntityId, vf: (Velocity, Falling)): Stores {
    AddTo(AddTo(ss, e, CVelocity(vf.0)), e, CFalling(vf.1))
  }

  function FallOne(d: FallDefaults, ss: Stores, e: EntityId, dt: real): Stores {
    match FallAt(ss, e)
    case None => ss
    case Some((v, f)) => WriteFall(ss, e, Fall(d, v, f, dt))
  }

  function FallAll(d: FallDefaults, ss: Stores, ids: seq<EntityId>, dt: real): Stores
    decreases |ids|
  {
    if ids == [] then ss else FallAll(d, FallOne(d, ss, ids[0], dt), ids[1..], dt)
  }

  /** `FallingSystem.update`. */
  method Update(world: World, d: FallDefaults, dt: real)
    requires world.Valid()
    modifies world`stores
    ensures world.Valid()
    ensures world.stores == FallAll(d, old(world.stores), ViewIds(old(world.stores), FallKinds), dt)
  {
    var ids := ViewIds(world.stores, FallKinds);
    ghost var target := FallAll(d, world.stores, ids, dt);
    for i := 0 to |ids|
      invariant world.Valid()
      invariant FallAll(d, world.stores, ids[i..], dt) == target
    {
      assert ids[i..][1..] == ids[i + 1..];
      FallEntity(world, d, ids[i], dt);
    }
  }

  /** The loop body of `FallingSystem.update` for one yielded entity. */
  method FallEntity(world: World, d: FallDefaults, eid: EntityId, dt: real)
    requires world.Valid()
    modifies world`stores
    ensures world.Valid()
    ensures world.stores == FallOne(d, old(world.stores), eid, dt)
  {
    match FallAt(world.stores, eid) {
      case None =>
      case Some((vel, falling)) =>
        var next := Fall(d, vel, falling, dt);
        world.Replace(eid, CVelocity(next.0));
        assert Lookup(world.stores, FallingKind, eid) == Lookup(old(world.stores), FallingKind, eid);
        world.Replace(eid, CFalling(next.1));
    }
  }

  lemma {:induction false} WriteFallSpec(ss: Stores, e: EntityId, vf: (Velocity, Falling))
    ensures FallAt(WriteFall(ss, e, vf), e) == Some(vf)
    ensures forall k, x | x != e || (k != VelocityKind && k != FallingKind) ::
              Lookup(WriteFall(ss, e, vf), k, x) == Lookup(ss, k, x)
    ensures ValidStores(ss) ==> ValidStores(WriteFall(ss, e, vf))
  {
    var s1 := AddTo(ss, e, CVelocity(vf.0));
    assert Lookup(WriteFall(ss, e, vf), VelocityKind, e) == Some(CVelocity(vf.0));
    if ValidStores(ss) {
      AddToValid(ss, e, CVelocity(vf.0));
      AddToValid(s1, e, CFalling(vf.1));
    }
  }

  /**
   * A falling update over duplicate-free ids applies `Fall` exactly once to
   * each listed entity holding Velocity and Falling, using its own original
   * values; every other entity and every other kind is unchanged.
   */
  lemma {:induction false} FallAllSpec(d: FallDefaults, ss: Stores, ids: seq<EntityId>, dt: real)
    requires NoDup(ids)
    ensures var r := FallAll(d, ss, ids, dt);
            && (forall x | x in ids && FallAt(ss, x).Some? ::
                  FallAt(r, x) == Some(Fall(d, FallAt(ss, x).value.0, FallAt(ss, x).value.1, dt)))
            && (forall k, x | x !in ids :: Lookup(r, k, x) == Lookup(ss, k, x))
            && (forall k, x | k != VelocityKind && k != FallingKind :: Lookup(r, k, x) == Lookup(ss, k, x))
            && (ValidStores(ss) ==> ValidStores(r))
    decreases |ids|
  {
    if ids != [] {
      var e := ids[0];
      assert NoDup(ids[1..]);
      assert e !in ids[1..];
      var s1 := FallOne(d, ss, e, dt);
      match FallAt(ss, e) {
        case None =>
        case Some((v, f)) =>
          WriteFallSpec(ss, e, Fall(d, v, f, dt));
      }
      assert forall x | x != e :: FallAt(s1, x) == FallAt(ss, x) by {
        forall x | x != e ensures FallAt(s1, x) == FallAt(ss, x) {
          assert Lookup(s1, VelocityKind, x) == Lookup(ss, VelocityKind, x);
          assert Lookup(s1, FallingKind, x) == Lookup(ss, FallingKind, x);
        }
      }
      FallAllSpec(d, s1, ids[1..], dt);
      var r := FallAll(d, s1, ids[1..], dt);
      assert FallAt(r, e) == FallAt(s1, e) by {
        assert Lookup(r, VelocityKind, e) == Lookup(s1, VelocityKind, e);
        assert Lookup(r, FallingKind, e) == Lookup(s1, FallingKind, e);
      }
    }
  }

  /** The effective gravity and terminal velocity of a record under the defaults. */
  function Effective(d: FallDefaults, f: Falling): (real, real) {
    (f.gravity.GetOr(d.gravity), f.terminalVelocity.GetOr(d.terminal))
  }

  /**
   * After a step, an entity that was not landed and whose effective terminal
   * velocity is positive under downward gravity falls no faster than that
   * terminal velocity.
   */
  predicate Capped(d: FallDefaults, before: (Velocity, Falling), after: Option<(Velocity, Falling)>) {
    var (g, term) := Effective(d, before.1);
    !(Stops(before.1) && before.1.grounded) && term > 0.0 && g >= 0.0 ==> after.Some? && after.value.0.vy <= term
  }

  /** Every entity a falling update steps satisfies the downward cap. */
  lemma UpdateCapsDownwardSpeed(d: FallDefaults, ss: Stores, dt: real)
    requires ValidStores(ss)
    ensures var ids := ViewIds(ss, FallKinds);
            var r := FallAll(d, ss, ids, dt);
            forall x | x in ids && FallAt(ss, x).Some? :: Capped(d, FallAt(ss, x).value, FallAt(r, x))
  {
    var ids := ViewIds(ss, FallKinds);
    var r := FallAll(d, ss, ids, dt);
    ViewIdsSpec(ss, FallKinds);
    FallAllSpec(d, ss, ids, dt);
    forall x | x in ids && FallAt(ss, x).Some? ensures Capped(d, FallAt(ss, x).value, FallAt(r, x)) {
      var (v, f) := FallAt(ss, x).value;
      assert FallAt(r, x) == Some(Fall(d, v, f, dt));
      FallSpec(d, v, f, dt);
    }
  }
}
