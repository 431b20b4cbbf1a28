/**
 * The FSM driver's `update` (engine/game/systems/fish_fsm_system.py): every
 * entity holding Fish, Brain and MovementIntent, in view order, gets one
 * tick; the new Brain and MovementIntent are written back in place.
 */
module FsmSystem {
  import opened Wrappers
  import opened Components
  import opened Stores
  import opened Ecs
  import opened Rand
  import opened Fsm

  const FsmKinds := [FishKind, BrainKind, MovementIntentKind]

  /** The fish and its mind as the view row for `e` holds them, if it has all three. */
  function MindAt(ss: Stores, e: EntityId): Option<(Fish, Mind)> {
    match (Lookup(ss, FishKind, e), Lookup(ss, BrainKind, e), Lookup(ss, MovementIntentKind, e))
    case (Some(CFish(f)), Some(CBrain(b)), Some(CMovementIntent(i))) => Some((f, Mind(b, i)))
    case _ => None
  }

  /** Writing a mind back: the brain and the intent of `e` are overwritten. */
  function StoreMind(ss: Stores, e: EntityId, m: Mind): Stores {
    AddTo(AddTo(ss, e, CBrain(m.brain)), e, CMovementIntent(m.intent))
  }

  /** Ticking the listed entities front to back, threading the random stream. */
  function TickAll(cfg: FsmConfig, ss: Stores, ids: seq<EntityId>, dt: real, g: Rng): (Stores, Rng)
    decreases |ids|
  {
    if ids == [] then (ss, g)
    else
      match MindAt(ss, ids[0])
      case None => TickAll(cfg, ss, ids[1..], dt, g)
      case Some((fish, m)) =>
        var (m', g1) := Tick(cfg, fish, m, dt, g);
        TickAll(cfg, StoreMind(ss, ids[0], m'), ids[1..], dt, g1)
  }

  /** `FishFSMSystem.update`. */
  method Update(world: World, cfg: FsmConfig, dt: real, g: Rng) returns (g': Rng)
    requires world.Valid()
    modifies world`stores
    ensures world.Valid()
    ensures (world.stores, g') == TickAll(cfg, old(world.stores), ViewIds(old(world.stores), FsmKinds), dt, g)
  {
    var ids := ViewIds(world.stores, FsmKinds);
    ghost var target := TickAll(cfg, world.stores, ids, dt, g);
    g' := g;
    for i := 0 to |ids|
      invariant world.Valid()
      invariant TickAll(cfg, world.stores, ids[i..], dt, g') == target
    {
      var eid := ids[i];
      assert ids[i..][1..] == ids[i + 1..];
      match MindAt(world.stores, eid) {
        case None =>
        case Some((fish, m)) =>
          var r := Tick(cfg, fish, m, dt, g');
          world.Replace(eid, CBrain(r.0.brain));
          world.Replace(eid, CMovementIntent(r.0.intent));
          g' := r.1;
      }
    }
  }

  /** Every entity a pass over (Fish, Brain, MovementIntent) yields has a fish and a mind. */
  lemma ViewMindPresent(ss: Stores, e: EntityId)
    requires ValidStores(ss) && e in ViewIds(ss, FsmKinds)
    ensures MindAt(ss, e).Some?
  {
    ViewIdsSpec(ss, FsmKinds);
    assert Matches(ss, FsmKinds, e);
    assert FsmKinds[0] == FishKind && FsmKinds[1] == BrainKind && FsmKinds[2] == MovementIntentKind;
    MindPresent(ss, e);
  }

  /** An entity with an entry under each of the three kinds has a fish and a mind. */
  lemma MindPresent(ss: Stores, e: EntityId)
    requires ValidStores(ss) && Has(ss, FishKind, e) && Has(ss, BrainKind, e) && Has(ss, MovementIntentKind, e)
    ensures MindAt(ss, e).Some?
  {
    LookupKind(ss, FishKind, e);
    LookupKind(ss, BrainKind, e);
    LookupKind(ss, MovementIntentKind, e);
  }

  lemma StoreMindSpec(ss: Stores, e: EntityId, m: Mind)
    requires MindAt(ss, e).Some?
    ensures MindAt(StoreMind(ss, e, m), e) == Some((MindAt(ss, e).value.0, m))
    ensures forall x | x != e :: MindAt(StoreMind(ss, e, m), x) == MindAt(ss, x)
    ensures forall k, x | (k != BrainKind && k != MovementIntentKind) || x != e ::
              Lookup(StoreMind(ss, e, m), k, x) == Lookup(ss, k, x)
    ensures forall k, x :: Has(StoreMind(ss, e, m), k, x) <==> Has(ss, k, x)
    ensures ValidStores(ss) ==> ValidStores(StoreMind(ss, e, m))
  {
    var s1 := AddTo(ss, e, CBrain(m.brain));
    var s2 := AddTo(s1, e, CMovementIntent(m.intent));
    assert s2 == StoreMind(ss, e, m);
    assert Lookup(s2, FishKind, e) == Lookup(ss, FishKind, e);
    assert Lookup(s2, BrainKind, e) == Some(CBrain(m.brain));
    assert Lookup(s2, MovementIntentKind, e) == Some(CMovementIntent(m.intent));
    forall x | x != e ensures MindAt(s2, x) == MindAt(ss, x) {
      assert Lookup(s2, FishKind, x) == Lookup(ss, FishKind, x);
      assert Lookup(s2, BrainKind, x) == Lookup(ss, BrainKind, x);
      assert Lookup(s2, MovementIntentKind, x) == Lookup(ss, MovementIntentKind, x);
    }
    AddExistingKeepsKeys(ss, e, CBrain(m.brain));
    AddExistingKeepsKeys(s1, e, CMovementIntent(m.intent));
    if ValidStores(ss) {
      AddToValid(ss, e, CBrain(m.brain));
      AddToValid(s1, e, CMovementIntent(m.intent));
    }
  }

  /**
   * One FSM update over any duplicate-free list of entities: afterwards
   * every listed entity that has a fish and a mind holds the mind one `Tick`
   * of its own old mind gives, for the random stream as it stood when its
   * turn came, and so has an initialised brain naming a registered state;
   * its Fish record is kept; nothing outside the list changes; no kind
   * other than Brain and MovementIntent changes; and no entry is added or
   * removed.
   */
  lemma {:induction false} TickAllSpec(cfg: FsmConfig, ss: Stores, ids: seq<EntityId>, dt: real, g: Rng)
    requires NoDup(ids)
    ensures var r := TickAll(cfg, ss, ids, dt, g).0;
            && (forall x | x in ids && MindAt(ss, x).Some? ::
                  MindAt(r, x).Some? && MindAt(r, x).value.1.brain.initialized
                  && StateNamed(MindAt(r, x).value.1.brain.state).Some?
                  && MindAt(r, x).value.0 == MindAt(ss, x).value.0)
            && (forall x | x in ids && MindAt(ss, x).Some? ::
                  exists g0: Rng :: MindAt(r, x) == Some((MindAt(ss, x).value.0,
                                                         Tick(cfg, MindAt(ss, x).value.0, MindAt(ss, x).value.1, dt, g0).0)))
            && (forall k, x | x !in ids :: Lookup(r, k, x) == Lookup(ss, k, x))
            && (forall k, x | k != BrainKind && k != MovementIntentKind :: Lookup(r, k, x) == Lookup(ss, k, x))
            && (forall k, x :: Has(r, k, x) <==> Has(ss, k, x))
            && (ValidStores(ss) ==> ValidStores(r))
    decreases |ids|
  {
    if ids != [] {
      var e := ids[0];
      assert NoDup(ids[1..]);
      assert e !in ids[1..];
      match MindAt(ss, e)
      case None =>
        TickAllSpec(cfg, ss, ids[1..], dt, g);
      case Some((fish, m)) =>
        var (m', g1) := Tick(cfg, fish, m, dt, g);
        TickKnownState(cfg, fish, m, dt, g);
        var s1 := StoreMind(ss, e, m');
        StoreMindSpec(ss, e, m');
        TickAllSpec(cfg, s1, ids[1..], dt, g1);
        var r := TickAll(cfg, s1, ids[1..], dt, g1).0;
        assert MindAt(r, e) == MindAt(s1, e) by {
          assert forall k :: Lookup(r, k, e) == Lookup(s1, k, e);
        }
        assert MindAt(r, e) == Some((fish, Tick(cfg, fish, m, dt, g).0));
    }
  }

  /** After one FSM update every fish the view yields is initialised and in a registered state. */
  lemma UpdateInitialisesEveryFish(cfg: FsmConfig, ss: Stores, dt: real, g: Rng)
    requires ValidStores(ss)
    ensures var r := TickAll(cfg, ss, ViewIds(ss, FsmKinds), dt, g).0;
            forall x | x in ViewIds(ss, FsmKinds) ::
              MindAt(r, x).Some? && MindAt(r, x).value.1.brain.initialized
              && StateNamed(MindAt(r, x).value.1.brain.state).Some?
  {
    ViewIdsSpec(ss, FsmKinds);
    TickAllSpec(cfg, ss, ViewIds(ss, FsmKinds), dt, g);
    forall x | x in ViewIds(ss, FsmKinds) ensures MindAt(ss, x).Some? {
      ViewMindPresent(ss, x);
    }
  }
}
