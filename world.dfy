/**
 * The entity-component world (engine/ecs/world.py), its cached views
 * (engine/ecs/view.py) and its deferred command queue (engine/ecs/commands.py).
 */
module Ecs {
  import opened Wrappers
  import opened Components
  import opened Stores

  /**
   * A queued command. A create command's bundle is a dict from kind to value,
   * kept here as its items in insertion order; flushing uses only the values.
   * `OtherCmd` is any other object put in the queue.
   */
  datatype Command =
    | CreateEntityCmd(components: seq<(Kind, Component)>)
    | DestroyEntityCmd(entity: EntityId)
    | OtherCmd(typeName: string)

  /** One item a view pass yields: the entity and one component per kind. */
  datatype Row = Row(eid: EntityId, components: seq<Component>)

  /** The view cache after dropping every view whose key mentions `k`. */
  function Invalidated(views: map<seq<Kind>, View>, k: Kind): (r: map<seq<Kind>, View>)
    ensures forall key :: key in r <==> key in views && k !in key
    ensures forall key | key in r :: r[key] == views[key]
  {
    map key | key in views && k !in key :: views[key]
  }

  /** Everything a flush can change: the id counter, the stores and the view cache. */
  datatype Kernel = Kernel(nextId: nat, stores: Stores, views: map<seq<Kind>, View>)

  /** No store holds an entry for the next id or any later one: ids not yet handed out are unused. */
  ghost predicate Fresh(w: Kernel) {
    forall k, x | x >= w.nextId :: Lookup(w.stores, k, x) == None
  }

  /** `add_component(e, c)` as a state transition. */
  function AddStep(w: Kernel, e: EntityId, c: Component): Kernel {
    Kernel(w.nextId, AddTo(w.stores, e, c), Invalidated(w.views, KindOf(c)))
  }

  /** Adding every bundle value to `e`, front to back. */
  function AddAll(w: Kernel, e: EntityId, bundle: seq<(Kind, Component)>): Kernel
    decreases |bundle|
  {
    if bundle == [] then w else AddAll(AddStep(w, e, bundle[0].1), e, bundle[1..])
  }

  /** `_apply_create_entity`: allocate the next id, then add every bundle value to it. */
  function ApplyCreate(w: Kernel, bundle: seq<(Kind, Component)>): Kernel {
    AddAll(w.(nextId := w.nextId + 1), w.nextId, bundle)
  }

  /**
   * `flush_commands` as a function of the state and the queue: the final
   * state, what is left in the queue and whether it raised.
   */
  function Flush(w: Kernel, q: seq<Command>): (Kernel, seq<Command>, Outcome)
    decreases |q|
  {
    if q == [] then (w, [], Pass)
    else
      match q[0]
      case CreateEntityCmd(bundle) => Flush(ApplyCreate(w, bundle), q[1..])
      case DestroyEntityCmd(e) => Flush(w.(stores := DestroyIn(w.stores, e)), q[1..])
      case OtherCmd(t) => (w, q[1..], Fail(TypeError("Unknown command type: " + t)))
  }

  // ------------------------------------------------------------------
  // The destroy command's field name (world.py:116 against commands.py:17)
  // ------------------------------------------------------------------

  /** The attributes a DestroyEntityCmd instance has: only `entity`. */
  function DestroyAttributes(e: EntityId): map<string, EntityId> {
    map["entity" := e]
  }

  /** `getattr(cmd, name)` on a DestroyEntityCmd(entity=e). */
  function ReadDestroyAttribute(e: EntityId, name: string): Result<EntityId> {
    var attrs := DestroyAttributes(e);
    if name in attrs then Success(attrs[name]) else Failure(AttributeError(name))
  }

  /** world.py:116 as written reads `cmd.entity_id`, which a DestroyEntityCmd lacks. */
  lemma DestroyTargetAsWrittenFails(e: EntityId)
    ensures ReadDestroyAttribute(e, "entity_id") == Failure(AttributeError("entity_id"))
    ensures ReadDestroyAttribute(e, "entity") == Success(e)
  {
  }

  /**
   * `flush_commands` exactly as written: a destroy command reads its target
   * through `cmd.entity_id`, after the command has been popped. Only a queue
   * of create commands gets through.
   */
  function FlushAsWritten(w: Kernel, q: seq<Command>): (r: (Kernel, seq<Command>, Outcome))
    ensures r.2 == Pass <==> forall j | 0 <= j < |q| :: q[j].CreateEntityCmd?
    ensures r.2 == Pass ==> r.1 == []
    decreases |q|
  {
    if q == [] then (w, [], Pass)
    else
      match q[0]
      case CreateEntityCmd(bundle) =>
        var r := FlushAsWritten(ApplyCreate(w, bundle), q[1..]);
        assert forall j | 1 <= j < |q| :: q[j] == q[1..][j - 1];
        r
      case DestroyEntityCmd(e) =>
        // `destroy_entity(cmd.entity_id)`: the read raises before destroy_entity is reached
        (w, q[1..], Fail(ReadDestroyAttribute(e, "entity_id").error))
      case OtherCmd(t) => (w, q[1..], Fail(TypeError("Unknown command type: " + t)))
  }

  class World {
    var nextId: nat
    var stores: Stores
    var views: map<seq<Kind>, View>
    var queue: seq<Command>

    ghost predicate Valid()
      reads this
    {
      && nextId >= 1
      && ValidStores(stores)
      && (forall key | key in views :: views[key].world == this && views[key].kinds == key)
    }

    function State(): Kernel
      reads this
    {
      Kernel(nextId, stores, views)
    }

    constructor ()
      ensures Valid() && Fresh(State())
      ensures nextId == 1 && stores == map[] && views == map[] && queue == []
    {
      nextId := 1;
      stores := map[];
      views := map[];
      queue := [];
    }

    /** Hands out the counter's value and advances it; ids are never reused. */
    method CreateEntity() returns (eid: EntityId)
      requires Valid()
      modifies this`nextId
      ensures Valid()
      ensures eid == old(nextId) && nextId == old(nextId) + 1
      ensures Fresh(old(State())) ==> Fresh(State()) && forall k :: Lookup(stores, k, eid) == None
    {
      eid := nextId;
      nextId := nextId + 1;
    }

    /** Removes `eid` from every store; the counter and the view cache are untouched. */
    method DestroyEntity(eid: EntityId)
      requires Valid()
      modifies this`stores
      ensures Valid()
      ensures stores == DestroyIn(old(stores), eid)
    {
      ghost var s0 := stores;
      var kinds := stores.Keys;
      while kinds != {}
        invariant kinds <= s0.Keys && stores.Keys == s0.Keys
        invariant forall k | k in s0 :: stores[k] == if k in kinds then s0[k] else Del(s0[k], eid)
        decreases kinds
      {
        var k :| k in kinds;
        stores := stores[k := Del(stores[k], eid)];
        kinds := kinds - {k};
      }
      assert stores == DestroyIn(s0, eid);
      DestroyInValid(s0, eid);
    }

    /** Stores `c` under its kind for `eid` and drops the views depending on that kind. */
    method AddComponent(eid: EntityId, c: Component)
      requires Valid()
      modifies this`stores, this`views
      ensures Valid()
      ensures stores == AddTo(old(stores), eid, c)
      ensures views == Invalidated(old(views), KindOf(c))
    {
      AddToValid(stores, eid, c);
      var k := KindOf(c);
      stores := stores[k := Put(StoreOf(stores, k), eid, c)];
      InvalidateViewsInvolving(k);
    }

    /** Removes the (eid, k) entry if there is one, and only then drops the dependent views. */
    method RemoveComponent(eid: EntityId, k: Kind)
      requires Valid()
      modifies this`stores, this`views
      ensures Valid()
      ensures stores == RemoveFrom(old(stores), eid, k)
      ensures views == if Has(old(stores), k, eid) then Invalidated(old(views), k) else old(views)
    {
      RemoveFromValid(stores, eid, k);
      if k in stores && eid in stores[k].vals {
        stores := stores[k := Del(stores[k], eid)];
        InvalidateViewsInvolving(k);
      }
    }

    /** `get_components(k)`: the store for `k`, created empty on first access. */
    method GetComponents(k: Kind) returns (st: Store)
      requires Valid()
      modifies this`stores
      ensures Valid()
      ensures stores == if k in old(stores) then old(stores) else old(stores)[k := Empty]
      ensures st == stores[k] && st == StoreOf(old(stores), k)
    {
      if k !in stores {
        stores := stores[k := Empty];
      }
      st := stores[k];
    }

    /**
     * A system assigning to a field of a component it holds: the entry for
     * `eid` is overwritten in place, keeping its place in the store order;
     * no view is dropped, since the dict itself is not touched.
     */
    method Replace(eid: EntityId, c: Component)
      requires Valid() && Has(stores, KindOf(c), eid)
      modifies this`stores
      ensures Valid()
      ensures stores == AddTo(old(stores), eid, c)
      ensures StoreOf(stores, KindOf(c)).order == StoreOf(old(stores), KindOf(c)).order
    {
      AddToValid(stores, eid, c);
      var k := KindOf(c);
      stores := stores[k := Put(stores[k], eid, c)];
    }

    /** The cached view for exactly this ordered tuple of kinds, made on first request. */
    method View(kinds: seq<Kind>) returns (v: View)
      requires Valid()
      modifies this`views
      ensures Valid()
      ensures kinds in old(views) ==> v == old(views)[kinds] && views == old(views)
      ensures kinds !in old(views) ==> fresh(v) && v.pass == None && views == old(views)[kinds := v]
      ensures v.world == this && v.kinds == kinds
    {
      if kinds in views {
        v := views[kinds];
      } else {
        v := new View(this, kinds);
        views := views[kinds := v];
      }
    }

    /** Drops exactly the cached views whose key mentions `k`. */
    method InvalidateViewsInvolving(k: Kind)
      modifies this`views
      ensures views == Invalidated(old(views), k)
    {
      var toDelete := set key | key in views && k in key;
      ghost var doomed := toDelete;
      ghost var v0 := views;
      while toDelete != {}
        invariant toDelete <= doomed
        invariant views.Keys == v0.Keys - (doomed - toDelete)
        invariant forall key | key in views :: views[key] == v0[key]
        decreases toDelete
      {
        var key :| key in toDelete;
        views := views - {key};
        toDelete := toDelete - {key};
      }
      assert views == Invalidated(v0, k);
    }

    method QueueCommand(cmd: Command)
      modifies this`queue
      ensures queue == old(queue) + [cmd]
    {
      queue := queue + [cmd];
    }

    /** Allocates one id and adds every bundle value to it, front to back. */
    method ApplyCreateEntity(bundle: seq<(Kind, Component)>) returns (eid: EntityId)
      requires Valid()
      modifies this`nextId, this`stores, this`views
      ensures Valid()
      ensures eid == old(nextId)
      ensures State() == ApplyCreate(old(State()), bundle)
    {
      ghost var target := ApplyCreate(State(), bundle);
      eid := CreateEntity();
      var i := 0;
      while i < |bundle|
        invariant 0 <= i <= |bundle|
        invariant Valid()
        invariant AddAll(State(), eid, bundle[i..]) == target
      {
        assert bundle[i..][1..] == bundle[i + 1..];
        AddComponent(eid, bundle[i].1);
        i := i + 1;
      }
    }

    /**
     * Applies the queue front to back until it is empty; an unknown command
     * raises TypeError after being taken off the queue, leaving the rest queued.
     */
    method FlushCommands() returns (outcome: Outcome)
      requires Valid()
      modifies this`nextId, this`stores, this`views, this`queue
      ensures Valid()
      ensures (State(), queue, outcome) == Flush(old(State()), old(queue))
    {
      ghost var target := Flush(State(), queue);
      while queue != []
        invariant Valid()
        invariant Flush(State(), queue) == target
        decreases |queue|
      {
        var cmd := queue[0];
        queue := queue[1..];
        match cmd {
          case CreateEntityCmd(bundle) =>
            var _ := ApplyCreateEntity(bundle);
          case DestroyEntityCmd(e) =>
            DestroyEntity(e);
          case OtherCmd(t) =>
            outcome := Fail(TypeError("Unknown command type: " + t));
            return;
        }
      }
      outcome := Pass;
    }
  }

  /**
   * A view (engine/ecs/view.py): the world, the ordered kinds, and the pass
   * in progress (`_gen`) as the ids it has still to walk.
   */
  class View {
    const world: World
    const kinds: seq<Kind>
    var pass: Option<seq<EntityId>>

    constructor (world: World, kinds: seq<Kind>)
      ensures this.world == world && this.kinds == kinds && pass == None
    {
      this.world := world;
      this.kinds := kinds;
      pass := None;
    }

    /** `iter(view)`: always starts a fresh pass over the first kind's store. */
    method Iter()
      modifies this`pass
      ensures pass == Some(BaseOrder(world.stores, kinds))
    {
      pass := Some(BaseOrder(world.stores, kinds));
    }

    /**
     * `next(view)`: starts a pass first if none is in progress, then yields the
     * next walked entity that holds every kind, reading its components now;
     * `None` is StopIteration, and a finished pass stays finished.
     */
    method Next() returns (row: Option<Row>)
      modifies this`pass
      ensures var p := if old(pass).None? then BaseOrder(world.stores, kinds) else old(pass).value;
              (row, pass) == (NextMatch(world.stores, kinds, p).0, Some(NextMatch(world.stores, kinds, p).1))
    {
      var p := if pass.None? then BaseOrder(world.stores, kinds) else pass.value;
      ghost var target := NextMatch(world.stores, kinds, p);
      while p != [] && !Matches(world.stores, kinds, p[0])
        invariant NextMatch(world.stores, kinds, p) == target
        decreases |p|
      {
        p := p[1..];
      }
      if p == [] {
        row := None;
        pass := Some([]);
      } else {
        row := Some(Row(p[0], RowOf(world.stores, kinds, p[0])));
        pass := Some(p[1..]);
      }
    }
  }

  /**
   * One step of a pass over `pending`: the next item and the ids left. The item
   * is the first of the ids the pass still owes (Filter), and the ids left owe
   * exactly the rest.
   */
  function NextMatch(ss: Stores, kinds: seq<Kind>, pending: seq<EntityId>): (r: (Option<Row>, seq<EntityId>))
    ensures r.0.None? <==> Filter(ss, kinds, pending) == []
    ensures r.0.None? ==> r.1 == []
    ensures r.0.Some? ==>
              && r.0.value.eid == Filter(ss, kinds, pending)[0]
              && Matches(ss, kinds, r.0.value.eid)
              && r.0.value.components == RowOf(ss, kinds, r.0.value.eid)
              && Filter(ss, kinds, r.1) == Filter(ss, kinds, pending)[1..]
    decreases |pending|
  {
    if pending == [] then (None, [])
    else if Matches(ss, kinds, pending[0]) then
      (Some(Row(pending[0], RowOf(ss, kinds, pending[0]))), pending[1..])
    else NextMatch(ss, kinds, pending[1..])
  }
}
