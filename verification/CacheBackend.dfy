/** The in-memory cache backend that every cache of the process shares. */
module CacheBackend {
  import opened Wrappers
  import opened CacheKeys

  datatype AclRow = AclRow(
    id: nat,
    resource: ResourceRef,
    subjectType: string,
    subjectId: string,
    action: string,
    effect: string)

  datatype RelationshipRow = RelationshipRow(subjectType: string, subjectId: string, relation: string)

  /** The moments at which the rows behind a value were read from the database. */
  datatype Provenance = Provenance(aclReadAt: real, relationsReadAt: real)

  // An access index: the ACL rows of a resource and action, and its relationships.
  datatype Index = Index(acl: seq<AclRow>, relations: seq<RelationshipRow>, read: Provenance)

  // What the caches keep under their keys.
  datatype Value =
    | Counter(n: nat)
    | AclRows(rows: seq<AclRow>, readAt: real)
    | IndexRows(index: Index)
    | DecisionOn(index: Index)

  datatype Item = Item(value: Value, expiresAt: Option<real>)

  type Store = map<string, Item>

  predicate Expired(i: Item, now: real) {
    i.expiresAt.Some? && i.expiresAt.value <= now
  }

  // What `get` returns.
  function Lookup(s: Store, key: string, now: real): Option<Value> {
    if key !in s || Expired(s[key], now) then None else Some(s[key].value)
  }

  // What `get` leaves behind.
  function Purged(s: Store, key: string, now: real): Store {
    if key in s && Expired(s[key], now) then s - {key} else s
  }

  function Stored(s: Store, key: string, value: Value, ttl: Option<int>, now: real): Store {
    var expiresAt := if ttl.Some? then Some(now + (if ttl.value < 1 then 1 else ttl.value) as real) else None;
    s[key := Item(value, expiresAt)]
  }

  function Count(s: Store, key: string, now: real): nat {
    match Lookup(s, key, now)
    case Some(Counter(n)) => n
    case _ => 0
  }

  // What `incr` can count on from: nothing, or a count.
  predicate Countable(s: Store, key: string, now: real) {
    match Lookup(s, key, now)
    case None => true
    case Some(v) => v.Counter?
  }

  // `incr` stores the next count without a lifetime.
  function Incremented(s: Store, key: string, now: real): Store {
    Stored(s, key, Counter(Count(s, key, now) + 1), None, now)
  }

  class InMemoryCacheBackend {
    var values: Store

    constructor ()
      ensures values == map[]
    {
      values := map[];
    }

    method Get(key: string, now: real) returns (v: Option<Value>)
      modifies this
      ensures v == Lookup(old(values), key, now)
      ensures values == Purged(old(values), key, now)
    {
      if key !in values {
        return None;
      }
      var item := values[key];
      if item.expiresAt.Some? && item.expiresAt.value <= now {
        values := values - {key};
        return None;
      }
      return Some(item.value);
    }

    method Set(key: string, value: Value, ttl: Option<int>, now: real)
      modifies this
      ensures values == Stored(old(values), key, value, ttl, now)
    {
      var expiresAt := None;
      if ttl.Some? {
        expiresAt := Some(now + (if ttl.value < 1 then 1 else ttl.value) as real);
      }
      values := values[key := Item(value, expiresAt)];
    }

    method Delete(key: string)
      modifies this
      ensures values == old(values) - {key}
    {
      values := values - {key};
    }

    // None where the source raises: a live value that is no count.
    method Incr(key: string, now: real) returns (n: Option<nat>)
      modifies this
      ensures n.Some? <==> Countable(old(values), key, now)
      ensures n.Some? ==> n.value == Count(old(values), key, now) + 1 && values == Incremented(old(values), key, now)
      ensures n.None? ==> values == old(values)
    {
      var current := Get(key, now);
      if current.Some? && !current.value.Counter? {
        return None;
      }
      var next := (if current.Some? then current.value.n else 0) + 1;
      Set(key, Counter(next), None, now);
      return Some(next);
    }
  }

  /** A value stored for some seconds is found until they have passed, and for one second
      at least; one stored without a lifetime is found for good; other keys are as before. */
  lemma StoredIsFound(s: Store, key: string, value: Value, ttl: Option<int>, now: real, k: string, later: real)
    ensures Lookup(Stored(s, key, value, ttl, now), k, later) ==
      if k != key then Lookup(s, k, later)
      else if ttl.None? || later - now < 1.0 || later - now < ttl.value as real then Some(value)
      else None
  {
  }

  // A count goes up by one, starts at one, and stays until it is counted on.
  lemma IncrementedCounts(s: Store, key: string, now: real, later: real)
    ensures Count(Incremented(s, key, now), key, later) == Count(s, key, now) + 1
    ensures key !in s ==> Count(Incremented(s, key, now), key, later) == 1
    ensures forall k :: k != key ==> Lookup(Incremented(s, key, now), k, later) == Lookup(s, k, later)
  {
    StoredIsFound(s, key, Counter(Count(s, key, now) + 1), None, now, key, later);
  }

  // Expiry is monotone: what one look finds gone, a later one finds gone.
  lemma PurgeIsInvisible(s: Store, key: string, now: real, k: string, later: real)
    requires now <= later
    ensures Lookup(Purged(s, key, now), k, later) == Lookup(s, k, later)
  {
  }
}
