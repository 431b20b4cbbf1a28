/**
 * What the world's operations promise, stated over the state-transition
 * functions the World methods are proved against (engine/ecs/world.py).
 */
module EcsFacts {
  import opened Wrappers
  import opened Components
  import opened Stores
  import opened Ecs

  /** The value of the last bundle item whose value has kind `k`: the one `add_component` leaves in place. */
  function LastOfKind(bundle: seq<(Kind, Component)>, k: Kind): (r: Option<Component>)
    ensures r.Some? ==> KindOf(r.value) == k && exists i | 0 <= i < |bundle| :: bundle[i].1 == r.value
    ensures r.None? <==> forall i | 0 <= i < |bundle| :: KindOf(bundle[i].1) != k
    decreases |bundle|
  {
    if bundle == [] then None
    else
      var last := bundle[|bundle| - 1];
      if KindOf(last.1) == k then Some(last.1)
      else
        var r := LastOfKind(bundle[..|bundle| - 1], k);
        assert forall i | 0 <= i < |bundle| - 1 :: bundle[..|bundle| - 1][i] == bundle[i];
        r
  }

  /** No bundle value has a kind the key mentions. */
  predicate Untouched(bundle: seq<(Kind, Component)>, key: seq<Kind>) {
    forall i | 0 <= i < |bundle| :: KindOf(bundle[i].1) !in key
  }

  lemma {:induction false} AddAllSpec(w: Kernel, e: EntityId, bundle: seq<(Kind, Component)>)
    ensures AddAll(w, e, bundle).nextId == w.nextId
    ensures forall k, x | x != e :: Lookup(AddAll(w, e, bundle).stores, k, x) == Lookup(w.stores, k, x)
    ensures forall k :: Lookup(AddAll(w, e, bundle).stores, k, e)
                        == if LastOfKind(bundle, k).Some? then LastOfKind(bundle, k) else Lookup(w.stores, k, e)
    ensures forall key :: key in AddAll(w, e, bundle).views <==> key in w.views && Untouched(bundle, key)
    ensures forall key | key in AddAll(w, e, bundle).views :: AddAll(w, e, bundle).views[key] == w.views[key]
    ensures ValidStores(w.stores) ==> ValidStores(AddAll(w, e, bundle).stores)
    decreases |bundle|
  {
    if bundle != [] {
      var w1 := AddStep(w, e, bundle[0].1);
      var rest := bundle[1..];
      AddAllSpec(w1, e, rest);
      if ValidStores(w.stores) { AddToValid(w.stores, e, bundle[0].1); }
      forall k ensures Lookup(AddAll(w, e, bundle).stores, k, e)
                       == if LastOfKind(bundle, k).Some? then LastOfKind(bundle, k) else Lookup(w.stores, k, e)
      {
        LastOfKindCons(bundle, k);
      }
      forall key ensures Untouched(bundle, key) <==> KindOf(bundle[0].1) !in key && Untouched(rest, key) {
        if KindOf(bundle[0].1) !in key && Untouched(rest, key) {
          forall i | 0 <= i < |bundle| ensures KindOf(bundle[i].1) !in key {
            if i > 0 { assert bundle[i] == rest[i - 1]; }
          }
        }
      }
    }
  }

  /** LastOfKind read from the front: the rest's answer wins, else the head's. */
  lemma {:induction false} LastOfKindCons(bundle: seq<(Kind, Component)>, k: Kind)
    requires bundle != []
    ensures LastOfKind(bundle, k)
            == if LastOfKind(bundle[1..], k).Some? then LastOfKind(bundle[1..], k)
               else if KindOf(bundle[0].1) == k then Some(bundle[0].1) else None
    decreases |bundle|
  {
    var n := |bundle|;
    if n > 1 && KindOf(bundle[n - 1].1) != k {
      LastOfKindCons(bundle[..n - 1], k);
      assert bundle[..n - 1][1..] == bundle[1..][..n - 2];
      assert bundle[..n - 1][0] == bundle[0];
      assert bundle[1..][n - 2] == bundle[n - 1];
    } else if n > 1 {
      assert bundle[1..][n - 2] == bundle[n - 1];
    }
  }

  /**
   * One create command: exactly one fresh id (the counter's value) is taken;
   * that entity ends up holding, per kind, the last bundle value of that kind;
   * every other entity's entries are unchanged; and the cached views that
   * survive are those whose kinds no bundle value has.
   */
  lemma {:induction false} ApplyCreateSpec(w: Kernel, bundle: seq<(Kind, Component)>)
    ensures ApplyCreate(w, bundle).nextId == w.nextId + 1
    ensures forall k, x | x != w.nextId :: Lookup(ApplyCreate(w, bundle).stores, k, x) == Lookup(w.stores, k, x)
    ensures forall i | 0 <= i < |bundle| ::
              LastOfKind(bundle, KindOf(bundle[i].1)).Some? &&
              Lookup(ApplyCreate(w, bundle).stores, KindOf(bundle[i].1), w.nextId) == LastOfKind(bundle, KindOf(bundle[i].1))
    ensures forall k | LastOfKind(bundle, k).None? ::
              Lookup(ApplyCreate(w, bundle).stores, k, w.nextId) == Lookup(w.stores, k, w.nextId)
    ensures forall key :: key in ApplyCreate(w, bundle).views <==> key in w.views && Untouched(bundle, key)
    ensures ValidStores(w.stores) ==> ValidStores(ApplyCreate(w, bundle).stores)
  {
    var w0 := w.(nextId := w.nextId + 1);
    AddAllSpec(w0, w.nextId, bundle);
    forall i | 0 <= i < |bundle| ensures LastOfKind(bundle, KindOf(bundle[i].1)).Some? {
    }
  }

  /** A create leaves the new entity's entries of every kind outside the bundle's kinds as they were. */
  lemma ApplyCreateOutside(w: Kernel, bundle: seq<(Kind, Component)>, ks: set<Kind>)
    requires forall i | 0 <= i < |bundle| :: KindOf(bundle[i].1) in ks
    ensures forall k | k !in ks :: Lookup(ApplyCreate(w, bundle).stores, k, w.nextId) == Lookup(w.stores, k, w.nextId)
  {
    ApplyCreateSpec(w, bundle);
  }

  /** A create takes one id and changes no entry of any other entity. */
  lemma ApplyCreateFrame(w: Kernel, bundle: seq<(Kind, Component)>)
    ensures ApplyCreate(w, bundle).nextId == w.nextId + 1
    ensures forall k, x | x != w.nextId :: Lookup(ApplyCreate(w, bundle).stores, k, x) == Lookup(w.stores, k, x)
  {
    ApplyCreateSpec(w, bundle);
  }

  /** A create keeps every store well formed. */
  lemma ApplyCreateKeepsValid(w: Kernel, bundle: seq<(Kind, Component)>)
    ensures ValidStores(w.stores) ==> ValidStores(ApplyCreate(w, bundle).stores)
  {
    ApplyCreateSpec(w, bundle);
  }

  /** Flushing a lone create command applies it and passes. */
  lemma FlushOneCreate(w: Kernel, bundle: seq<(Kind, Component)>)
    ensures Flush(w, [CreateEntityCmd(bundle)]) == (ApplyCreate(w, bundle), [], Pass)
  {
    assert [CreateEntityCmd(bundle)][1..] == [];
  }

  /** A create command takes one id and keeps the stores well formed. */
  lemma ApplyCreateCounts(w: Kernel, bundle: seq<(Kind, Component)>)
    ensures ApplyCreate(w, bundle).nextId == w.nextId + 1
    ensures ValidStores(w.stores) ==> ValidStores(ApplyCreate(w, bundle).stores)
  {
    AddAllSpec(w.(nextId := w.nextId + 1), w.nextId, bundle);
  }

  /** A bundle whose values have distinct kinds leaves every one of them on the new entity. */
  lemma ApplyCreateDistinct(w: Kernel, bundle: seq<(Kind, Component)>)
    requires forall i, j | 0 <= i < j < |bundle| :: KindOf(bundle[i].1) != KindOf(bundle[j].1)
    ensures forall i | 0 <= i < |bundle| ::
              Lookup(ApplyCreate(w, bundle).stores, KindOf(bundle[i].1), w.nextId) == Some(bundle[i].1)
  {
    ApplyCreateSpec(w, bundle);
    forall i | 0 <= i < |bundle| ensures LastOfKind(bundle, KindOf(bundle[i].1)) == Some(bundle[i].1) {
      LastOfDistinct(bundle, i);
    }
  }

  /** One value of a bundle with distinct kinds, read back from the new entity. */
  lemma ApplyCreateAt(w: Kernel, bundle: seq<(Kind, Component)>, i: nat)
    requires forall a, b | 0 <= a < b < |bundle| :: KindOf(bundle[a].1) != KindOf(bundle[b].1)
    requires i < |bundle|
    ensures Lookup(ApplyCreate(w, bundle).stores, KindOf(bundle[i].1), w.nextId) == Some(bundle[i].1)
  {
    ApplyCreateSpec(w, bundle);
    LastOfDistinct(bundle, i);
  }

  lemma {:induction false} LastOfDistinct(bundle: seq<(Kind, Component)>, i: nat)
    requires i < |bundle|
    requires forall a, b | 0 <= a < b < |bundle| :: KindOf(bundle[a].1) != KindOf(bundle[b].1)
    ensures LastOfKind(bundle, KindOf(bundle[i].1)) == Some(bundle[i].1)
    decreases |bundle|
  {
    var n := |bundle|;
    if i < n - 1 {
      var front := bundle[..n - 1];
      assert front[i] == bundle[i];
      LastOfDistinct(front, i);
    }
  }

  /** The position of the first command flush rejects, if any. */
  function FirstUnknown(q: seq<Command>): (r: Option<nat>)
    ensures r.Some? ==> r.value < |q| && q[r.value].OtherCmd? && forall j | 0 <= j < r.value :: !q[j].OtherCmd?
    ensures r.None? <==> forall j | 0 <= j < |q| :: !q[j].OtherCmd?
    decreases |q|
  {
    if q == [] then None
    else if q[0].OtherCmd? then Some(0)
    else
      match FirstUnknown(q[1..])
      case None => None
      case Some(i) => Some(i + 1)
  }

  function CountCreates(q: seq<Command>): nat
    decreases |q|
  {
    if q == [] then 0 else (if q[0].CreateEntityCmd? then 1 else 0) + CountCreates(q[1..])
  }

  /** How far a flush gets: up to the first unknown command, else the whole queue. */
  function Reached(q: seq<Command>): nat {
    match FirstUnknown(q)
    case None => |q|
    case Some(i) => i
  }

  /** Which commands a flush leaves queued, and whether it raises. */
  lemma {:induction false} FlushOutcome(w: Kernel, q: seq<Command>)
    ensures Flush(w, q).2 == Pass <==> FirstUnknown(q).None?
    ensures Flush(w, q).2 == Pass ==> Flush(w, q).1 == []
    ensures Flush(w, q).2.Fail? ==> Flush(w, q).2.error.TypeError?
    ensures FirstUnknown(q).Some? ==> Flush(w, q).1 == q[FirstUnknown(q).value + 1..]
    decreases |q|
  {
    if q != [] {
      match q[0]
      case CreateEntityCmd(b) => FlushOutcome(ApplyCreate(w, b), q[1..]);
      case DestroyEntityCmd(e) => FlushOutcome(w.(stores := DestroyIn(w.stores, e)), q[1..]);
      case OtherCmd(_) =>
    }
  }

  /** A flush takes one id per create it applies, and keeps the stores well formed. */
  lemma {:induction false} FlushCounts(w: Kernel, q: seq<Command>)
    ensures Reached(q) <= |q|
    ensures Flush(w, q).0.nextId == w.nextId + CountCreates(q[..Reached(q)])
    ensures ValidStores(w.stores) ==> ValidStores(Flush(w, q).0.stores)
    decreases |q|
  {
    if q != [] {
      assert q[..Reached(q)] != [] ==> q[..Reached(q)][0] == q[0];
      match q[0]
      case CreateEntityCmd(b) =>
        var w1 := ApplyCreate(w, b);
        ApplyCreateCounts(w, b);
        FlushCounts(w1, q[1..]);
        assert q[..Reached(q)][1..] == q[1..][..Reached(q[1..])];
      case DestroyEntityCmd(e) =>
        if ValidStores(w.stores) { DestroyInValid(w.stores, e); }
        FlushCounts(w.(stores := DestroyIn(w.stores, e)), q[1..]);
        assert q[..Reached(q)][1..] == q[1..][..Reached(q[1..])];
      case OtherCmd(_) =>
    }
  }

  /** Flushing a destroy command takes the entity out of every store and leaves the rest alone. */
  lemma FlushDestroy(w: Kernel, e: EntityId)
    ensures Flush(w, [DestroyEntityCmd(e)]).2 == Pass
    ensures forall k :: Lookup(Flush(w, [DestroyEntityCmd(e)]).0.stores, k, e) == None
    ensures forall k, x | x != e :: Lookup(Flush(w, [DestroyEntityCmd(e)]).0.stores, k, x) == Lookup(w.stores, k, x)
    ensures Flush(w, [DestroyEntityCmd(e)]).0.nextId == w.nextId
  {
    assert [DestroyEntityCmd(e)][1..] == [];
  }

  /** Without destroy commands the flush as written and the intended flush agree. */
  lemma {:induction false} FlushAsWrittenAgrees(w: Kernel, q: seq<Command>)
    requires forall j | 0 <= j < |q| :: !q[j].DestroyEntityCmd?
    ensures FlushAsWritten(w, q) == Flush(w, q)
    decreases |q|
  {
    if q != [] && q[0].CreateEntityCmd? {
      assert forall j | 0 <= j < |q| - 1 :: q[1..][j] == q[j + 1];
      FlushAsWrittenAgrees(ApplyCreate(w, q[0].components), q[1..]);
    }
  }

  /**
   * As written, the first destroy command stops the flush with AttributeError:
   * the creates before it are applied, the destroy is popped and lost, and
   * every command after it stays queued.
   */
  lemma {:induction false} FlushAsWrittenStops(w: Kernel, q: seq<Command>, i: nat)
    requires i < |q| && q[i].DestroyEntityCmd?
    requires forall j | 0 <= j < i :: q[j].CreateEntityCmd?
    ensures FlushAsWritten(w, q) == (Flush(w, q[..i]).0, q[i + 1..], Fail(AttributeError("entity_id")))
    decreases i
  {
    DestroyTargetAsWrittenFails(q[i].entity);
    if i == 0 {
      assert q[..0] == [];
    } else {
      var w1 := ApplyCreate(w, q[0].components);
      assert forall j | 0 <= j < i - 1 :: q[1..][j] == q[j + 1];
      FlushAsWrittenStops(w1, q[1..], i - 1);
      assert q[..i][1..] == q[1..][..i - 1];
      assert q[1..][i - 1 + 1..] == q[i + 1..];
      assert q[..i][0] == q[0];
    }
  }

  /**
   * A lone destroy command: as written the flush raises AttributeError and
   * leaves every store as it was; intended, it passes and the entity is gone.
   */
  lemma FlushAsWrittenDiffers(w: Kernel, e: EntityId)
    ensures FlushAsWritten(w, [DestroyEntityCmd(e)]) == (w, [], Fail(AttributeError("entity_id")))
    ensures Flush(w, [DestroyEntityCmd(e)]).2 == Pass
    ensures forall k :: Lookup(Flush(w, [DestroyEntityCmd(e)]).0.stores, k, e) == None
    ensures FlushAsWritten(w, [DestroyEntityCmd(e)]) != Flush(w, [DestroyEntityCmd(e)])
  {
    FlushAsWrittenStops(w, [DestroyEntityCmd(e)], 0);
    FlushDestroy(w, e);
  }

  // ------------------------------------------------------------------
  // Unused ids stay unused
  // ------------------------------------------------------------------

  /** Adding to an id already handed out keeps every later id unused. */
  lemma AddStepKeepsFresh(w: Kernel, e: EntityId, c: Component)
    requires Fresh(w) && e < w.nextId
    ensures Fresh(AddStep(w, e, c))
  {
  }

  /** A create writes only at the id it takes, so every later id stays unused. */
  lemma ApplyCreateKeepsFresh(w: Kernel, bundle: seq<(Kind, Component)>)
    requires Fresh(w)
    ensures Fresh(ApplyCreate(w, bundle))
  {
    ApplyCreateSpec(w, bundle);
  }

  /** Flushing any queue keeps every id not yet handed out unused. */
  lemma {:induction false} FlushKeepsFresh(w: Kernel, q: seq<Command>)
    requires Fresh(w)
    ensures Fresh(Flush(w, q).0)
    decreases |q|
  {
    if q != [] {
      match q[0]
      case CreateEntityCmd(b) =>
        ApplyCreateKeepsFresh(w, b);
        FlushKeepsFresh(ApplyCreate(w, b), q[1..]);
      case DestroyEntityCmd(e) =>
        FlushKeepsFresh(w.(stores := DestroyIn(w.stores, e)), q[1..]);
      case OtherCmd(_) =>
    }
  }
}
