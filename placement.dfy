/**
 * The pellet placement system (engine/game/systems/placement_system.py):
 * clicks are buffered by the ClickWorld subscription, and each update turns
 * every buffered click inside a tank into one queued pellet command.
 */
module Placement {
  import opened Wrappers
  import opened Components
  import opened Stores
  import opened Ecs
  import opened Factories
  import Events

  /** A ClickWorld event: a point in logical coordinates. */
  datatype Click = Click(x: real, y: real)

  const PlaceKinds := [TankKind, TankBoundsKind]

  function Max(a: real, b: real): real { if a >= b then a else b }
  function Min(a: real, b: real): real { if a <= b then a else b }

  /** The closed rectangle test of `_find_tank_at`. */
  predicate Inside(b: TankBounds, x: real, y: real) {
    b.x <= x <= b.x + b.width && b.y <= y <= b.y + b.height
  }

  /** The entity's bounds contain the point. */
  predicate HitAt(ss: Stores, e: EntityId, x: real, y: real) {
    match Lookup(ss, TankBoundsKind, e)
    case Some(CTankBounds(b)) => Inside(b, x, y)
    case _ => false
  }

  /** The first listed entity whose bounds contain the point, with those bounds. */
  function FirstHit(ss: Stores, ids: seq<EntityId>, x: real, y: real): (r: Option<(EntityId, TankBounds)>)
    ensures r.None? <==> forall i | 0 <= i < |ids| :: !HitAt(ss, ids[i], x, y)
    ensures r.Some? ==>
              && Lookup(ss, TankBoundsKind, r.value.0) == Some(CTankBounds(r.value.1))
              && Inside(r.value.1, x, y)
              && exists i | 0 <= i < |ids| :: ids[i] == r.value.0 && forall j | 0 <= j < i :: !HitAt(ss, ids[j], x, y)
    decreases |ids|
  {
    if ids == [] then None
    else if HitAt(ss, ids[0], x, y) then
      var b := Lookup(ss, TankBoundsKind, ids[0]).value.bounds;
      Some((ids[0], b))
    else
      var r := FirstHit(ss, ids[1..], x, y);
      assert forall i | 0 < i < |ids| :: ids[i] == ids[1..][i - 1];
      if r.Some? then
        assert exists i | 0 <= i < |ids[1..]| :: ids[1..][i] == r.value.0 && forall j | 0 <= j < i :: !HitAt(ss, ids[1..][j], x, y);
        var i :| 0 <= i < |ids[1..]| && ids[1..][i] == r.value.0 && forall j | 0 <= j < i :: !HitAt(ss, ids[1..][j], x, y);
        assert ids[i + 1] == r.value.0 && forall j | 0 <= j < i + 1 :: !HitAt(ss, ids[j], x, y);
        r
      else r
  }

  /** `max(lo, min(v, lo + span - size))`: the pellet's coordinate on one axis. */
  function ClampInto(v: real, lo: real, span: real, size: real): (r: real)
    ensures span >= size ==> lo <= r <= lo + span - size
    ensures lo <= v <= lo + span - size ==> r == v
    ensures r >= lo
  {
    Max(lo, Min(v, lo + span - size))
  }

  /** The command queued for a click that hit the tank `tank` with bounds `b`. */
  function PelletFor(tank: EntityId, b: TankBounds, c: Click): Command {
    CreatePelletCmd(ClampInto(c.x, b.x, b.width, DefaultPelletSize), ClampInto(c.y, b.y, b.height, DefaultPelletSize),
                    tank, DefaultPelletSize, DefaultPelletColor)
  }

  /** The commands one buffered click queues: none on a miss, one pellet for the first tank hit. */
  function QueuedFor(ss: Stores, c: Click): seq<Command> {
    match FirstHit(ss, ViewIds(ss, PlaceKinds), c.x, c.y)
    case None => []
    case Some((tank, b)) => [PelletFor(tank, b, c)]
  }

  /** The commands an update queues for the buffered clicks, in click order. */
  function Queued(ss: Stores, clicks: seq<Click>): seq<Command>
    decreases |clicks|
  {
    if clicks == [] then [] else QueuedFor(ss, clicks[0]) + Queued(ss, clicks[1..])
  }

  class PlacementSystem {
    var pending: seq<Click>

    /** Subscribes the click callback to ClickWorld on the event bus; nothing is buffered yet. */
    constructor (bus: Events.EventBus<string>, onClick: Events.CallbackId)
      modifies bus
      ensures pending == []
      ensures bus.subs == Events.Subscribed(old(bus.subs), "ClickWorld", onClick)
    {
      pending := [];
      bus.Subscribe("ClickWorld", onClick);
    }

    /** `_on_click`: buffer the event. */
    method OnClick(c: Click)
      modifies this
      ensures pending == old(pending) + [c]
    {
      pending := pending + [c];
    }

    /** `_find_tank_at`: the first tank, in view order, whose rectangle contains the point. */
    method FindTankAt(world: World, x: real, y: real) returns (r: Option<(EntityId, TankBounds)>)
      ensures r == FirstHit(world.stores, ViewIds(world.stores, PlaceKinds), x, y)
    {
      var ids := ViewIds(world.stores, PlaceKinds);
      for i := 0 to |ids|
        invariant FirstHit(world.stores, ids[i..], x, y) == FirstHit(world.stores, ids, x, y)
      {
        assert ids[i..][1..] == ids[i + 1..];
        var eid := ids[i];
        match Lookup(world.stores, TankBoundsKind, eid) {
          case Some(CTankBounds(b)) =>
            if Inside(b, x, y) {
              return Some((eid, b));
            }
          case _ =>
        }
      }
      assert ids[|ids|..] == [];
      return None;
    }

    /** The body of `update`'s loop for one click: queue a pellet when it hits a tank. */
    method HandleClick(world: World, evt: Click)
      modifies world`queue
      ensures world.queue == old(world.queue) + QueuedFor(world.stores, evt)
    {
      var hit := FindTankAt(world, evt.x, evt.y);
      if hit.Some? {
        world.QueueCommand(PelletFor(hit.value.0, hit.value.1, evt));
      }
    }

    /**
     * `update`: the buffer is swapped out for an empty one, and every click
     * that hits a tank queues one pellet command; nothing is applied yet.
     */
    method Update(world: World)
      modifies this, world`queue
      ensures pending == []
      ensures world.queue == old(world.queue) + Queued(world.stores, old(pending))
    {
      if pending == [] {
        return;
      }
      var events := pending;
      pending := [];
      for i := 0 to |events|
        invariant pending == []
        invariant world.queue == old(world.queue) + Queued(world.stores, events[..i])
      {
        var evt := events[i];
        ghost var done := Queued(world.stores, events[..i]);
        HandleClick(world, evt);
        assert events[..i + 1] == events[..i] + [evt];
        QueuedSnoc(world.stores, events[..i], evt);
        CommandsAssoc(old(world.queue), done, QueuedFor(world.stores, evt));
      }
      assert events[..|events|] == events;
    }
  }

  lemma CommandsAssoc(a: seq<Command>, b: seq<Command>, c: seq<Command>)
    ensures a + b + c == a + (b + c)
  {
  }

  /** Handling one more click appends that click's commands. */
  lemma QueuedSnoc(ss: Stores, a: seq<Click>, c: Click)
    ensures Queued(ss, a + [c]) == Queued(ss, a) + QueuedFor(ss, c)
  {
    QueuedAppend(ss, a, [c]);
    assert [c][1..] == [];
    assert Queued(ss, [c]) == QueuedFor(ss, c) + [];
  }

  /** Queuing distributes over the click buffer: clicks are handled one by one, in order. */
  lemma {:induction false} QueuedAppend(ss: Stores, a: seq<Click>, b: seq<Click>)
    ensures Queued(ss, a + b) == Queued(ss, a) + Queued(ss, b)
    decreases |a|
  {
    if a == [] {
      assert a + b == b;
    } else {
      assert (a + b)[0] == a[0] && (a + b)[1..] == a[1..] + b;
      QueuedAppend(ss, a[1..], b);
      var head := QueuedFor(ss, a[0]);
      assert Queued(ss, a + b) == head + Queued(ss, a[1..] + b);
      assert Queued(ss, a) == head + Queued(ss, a[1..]);
      CommandsAssoc(head, Queued(ss, a[1..]), Queued(ss, b));
    }
  }

  /**
   * One click queues nothing when it misses every tank, and otherwise
   * exactly one pellet command for the first tank hit: a pellet at the
   * clamped point, inside that tank's rectangle when the tank is at least a
   * pellet wide and high, at the click itself when that already fits.
   */
  lemma OneClick(ss: Stores, c: Click)
    ensures var hit := FirstHit(ss, ViewIds(ss, PlaceKinds), c.x, c.y);
            && (hit.None? ==> Queued(ss, [c]) == [])
            && (hit.Some? ==>
                  var (tank, b) := hit.value;
                  var cmd := Queued(ss, [c]);
                  && |cmd| == 1
                  && cmd[0] == CreatePelletCmd(ClampInto(c.x, b.x, b.width, 12.0), ClampInto(c.y, b.y, b.height, 12.0),
                                               tank, 12.0, Color(210, 180, 90))
                  && (b.width >= 12.0 ==> b.x <= ClampInto(c.x, b.x, b.width, 12.0) <= b.x + b.width - 12.0)
                  && (b.height >= 12.0 ==> b.y <= ClampInto(c.y, b.y, b.height, 12.0) <= b.y + b.height - 12.0)
                  && (b.x <= c.x <= b.x + b.width - 12.0 ==> ClampInto(c.x, b.x, b.width, 12.0) == c.x)
                  && (b.y <= c.y <= b.y + b.height - 12.0 ==> ClampInto(c.y, b.y, b.height, 12.0) == c.y))
  {
    assert [c][1..] == [];
    assert Queued(ss, [c]) == QueuedFor(ss, c) + [];
  }

  /** Every queued command is a pellet creation, and there are at most as many as clicks. */
  lemma {:induction false} QueuedArePellets(ss: Stores, clicks: seq<Click>)
    ensures |Queued(ss, clicks)| <= |clicks|
    ensures forall i | 0 <= i < |Queued(ss, clicks)| :: Queued(ss, clicks)[i].CreateEntityCmd?
    decreases |clicks|
  {
    if clicks != [] {
      QueuedArePellets(ss, clicks[1..]);
    }
  }
}
