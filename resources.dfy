/**
 * The string-keyed registry of global singletons (engine/resources/store.py).
 * Values are of an arbitrary type `V`.
 */
module Resources {
  import opened Wrappers

  /** `register` on a map: a key already present is an error and keeps its value. */
  function Registered<V>(items: map<string, V>, key: string, value: V): (r: (map<string, V>, Outcome))
  {
    if key in items then (items, Fail(KeyError("Resource '" + key + "' is already registered")))
    else (items[key := value], Pass)
  }

  /** `get` on a map: the value, or KeyError for an absent key. */
  function Get<V>(items: map<string, V>, key: string): Result<V> {
    if key in items then Success(items[key]) else Failure(KeyError(key))
  }

  /** `try_get` on a map: the value, or the caller's default. */
  function TryGet<V>(items: map<string, V>, key: string, default: V): V {
    if key in items then items[key] else default
  }

  class ResourceStore<V> {
    var items: map<string, V>

    constructor ()
      ensures items == map[]
    {
      items := map[];
    }

    method Register(key: string, value: V) returns (outcome: Outcome)
      modifies this
      ensures (items, outcome) == Registered(old(items), key, value)
    {
      if key in items {
        return Fail(KeyError("Resource '" + key + "' is already registered"));
      }
      items := items[key := value];
      outcome := Pass;
    }

    /** `set`: replace or create, never an error. */
    method Set(key: string, value: V)
      modifies this
      ensures items == old(items)[key := value]
    {
      items := items[key := value];
    }

    method Lookup(key: string) returns (r: Result<V>)
      ensures r == Get(items, key)
    {
      if key in items {
        r := Success(items[key]);
      } else {
        r := Failure(KeyError(key));
      }
    }

    method TryLookup(key: string, default: V) returns (v: V)
      ensures v == TryGet(items, key, default)
    {
      v := if key in items then items[key] else default;
    }
  }

  /**
   * `register` succeeds exactly on a fresh key, which it then holds; on a
   * taken key it raises and the stored value stays; no other key changes.
   */
  lemma RegisterSpec<V>(items: map<string, V>, key: string, value: V)
    ensures var (after, outcome) := Registered(items, key, value);
            && (outcome == Pass <==> key !in items)
            && (outcome.Fail? ==> outcome.error.KeyError? && after == items)
            && Get(after, key) == (if key in items then Success(items[key]) else Success(value))
            && (forall k | k != key :: Get(after, k) == Get(items, k))
            && after.Keys == items.Keys + {key}
  {
  }

  /** `set` then `get` returns the value set; no other key changes. */
  lemma SetThenGet<V>(items: map<string, V>, key: string, value: V)
    ensures Get(items[key := value], key) == Success(value)
    ensures forall k | k != key :: Get(items[key := value], k) == Get(items, k)
  {
  }

  /** `get` raises exactly on absent keys, and `try_get` falls back exactly then. */
  lemma GetAgreesWithTryGet<V>(items: map<string, V>, key: string, default: V)
    ensures Get(items, key).Failure? <==> key !in items
    ensures Get(items, key).Failure? ==> Get(items, key).error == KeyError(key) && TryGet(items, key, default) == default
    ensures Get(items, key).Success? ==> TryGet(items, key, default) == Get(items, key).value
  {
  }
}
