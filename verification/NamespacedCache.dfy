/** The ACL cache and the access-index cache: entries keyed under a namespace
    counter, invalidated by raising a counter at one of up to three levels. */
module NamespacedCache {
  import opened Wrappers
  import opened CacheKeys
  import opened CacheBackend

  datatype Family = AclFamily | IndexFamily
  {
    function Prefix(): string {
      match this
      case AclFamily => "acl"
      case IndexFamily => "idx"
    }
  }

  datatype Level = ResourceLevel | TenantLevel | GlobalLevel

  const TTL_SECONDS := 30

  function LevelKey(f: Family, level: Level, r: ResourceRef): string {
    match level
    case ResourceLevel => ResourceKey(f.Prefix(), r)
    case TenantLevel => TenantKey(f.Prefix(), r.tenant)
    case GlobalLevel => GlobalKey(f.Prefix())
  }

  // The first counter present decides; the ACL cache has no tenant level.
  function Namespace(f: Family, s: Store, r: ResourceRef, now: real): nat {
    if Count(s, LevelKey(f, ResourceLevel, r), now) > 0 then Count(s, LevelKey(f, ResourceLevel, r), now)
    else if f.IndexFamily? && Count(s, LevelKey(f, TenantLevel, r), now) > 0 then Count(s, LevelKey(f, TenantLevel, r), now)
    else Count(s, LevelKey(f, GlobalLevel, r), now)
  }

  function KeyOf(f: Family, s: Store, r: ResourceRef, action: string, now: real): string {
    EntryKey(f.Prefix(), r, Namespace(f, s, r, now), action)
  }

  function Fetch(f: Family, s: Store, r: ResourceRef, action: string, now: real): Option<Value> {
    Lookup(s, KeyOf(f, s, r, action, now), now)
  }

  function Filled(f: Family, s: Store, r: ResourceRef, action: string, value: Value, now: real): Store {
    Stored(s, KeyOf(f, s, r, action, now), value, Some(TTL_SECONDS), now)
  }

  function Raised(f: Family, s: Store, level: Level, r: ResourceRef, now: real): Store {
    Incremented(s, LevelKey(f, level, r), now)
  }

  // Two stores that no later lookup can tell apart.
  ghost predicate SameView(s: Store, t: Store, now: real) {
    forall k, later {:trigger Lookup(s, k, later)} {:trigger Lookup(t, k, later)} ::
      now <= later ==> Lookup(s, k, later) == Lookup(t, k, later)
  }

  // A look at a key leaves a store that looks the same.
  lemma PurgeKeepsView(s: Store, t: Store, key: string, now: real)
    requires s == t || SameView(s, t, now)
    ensures SameView(s, Purged(t, key, now), now)
  {
    forall k, later | now <= later ensures Lookup(s, k, later) == Lookup(Purged(t, key, now), k, later) {
      PurgeIsInvisible(t, key, now, k, later);
    }
  }

  lemma SameLookup(s: Store, t: Store, key: string, now: real)
    requires SameView(s, t, now)
    ensures Lookup(s, key, now) == Lookup(t, key, now)
  {
  }

  lemma ViewAfterStoring(s: Store, t: Store, key: string, value: Value, now: real)
    requires SameView(s, t, now)
    ensures SameView(Stored(s, key, value, Some(TTL_SECONDS), now), Stored(t, key, value, Some(TTL_SECONDS), now), now)
  {
    var s', t' := Stored(s, key, value, Some(TTL_SECONDS), now), Stored(t, key, value, Some(TTL_SECONDS), now);
    forall k, later | now <= later ensures Lookup(s', k, later) == Lookup(t', k, later) {
      if k != key {
        assert Lookup(s, k, later) == Lookup(t, k, later);
      }
    }
  }

  class Cache {
    const family: Family
    const backend: InMemoryCacheBackend

    constructor (family: Family, backend: InMemoryCacheBackend)
      ensures this.family == family && this.backend == backend
    {
      this.family := family;
      this.backend := backend;
    }

    method NamespaceOf(r: ResourceRef, now: real) returns (n: nat)
      modifies backend
      ensures n == Namespace(family, old(backend.values), r, now)
      ensures SameView(old(backend.values), backend.values, now)
    {
      hide LevelKey, Lookup, Purged, SameView;
      ghost var s := backend.values;
      var own := backend.Get(LevelKey(family, ResourceLevel, r), now);
      PurgeKeepsView(s, s, LevelKey(family, ResourceLevel, r), now);
      if own.Some? && own.value.Counter? && own.value.n > 0 {
        return own.value.n;
      }
      if family.IndexFamily? {
        SameLookup(s, backend.values, LevelKey(family, TenantLevel, r), now);
        PurgeKeepsView(s, backend.values, LevelKey(family, TenantLevel, r), now);
        var tenant := backend.Get(LevelKey(family, TenantLevel, r), now);
        if tenant.Some? && tenant.value.Counter? && tenant.value.n > 0 {
          return tenant.value.n;
        }
      }
      SameLookup(s, backend.values, LevelKey(family, GlobalLevel, r), now);
      PurgeKeepsView(s, backend.values, LevelKey(family, GlobalLevel, r), now);
      var all := backend.Get(LevelKey(family, GlobalLevel, r), now);
      return if all.Some? && all.value.Counter? then all.value.n else 0;
    }

    method Get(r: ResourceRef, action: string, now: real) returns (v: Option<Value>)
      modifies backend
      ensures v == Fetch(family, old(backend.values), r, action, now)
      ensures SameView(old(backend.values), backend.values, now)
    {
      var n := NamespaceOf(r, now);
      v := backend.Get(EntryKey(family.Prefix(), r, n, action), now);
    }

    method Set(r: ResourceRef, action: string, value: Value, now: real)
      modifies backend
      ensures SameView(Filled(family, old(backend.values), r, action, value, now), backend.values, now)
    {
      var n := NamespaceOf(r, now);
      ViewAfterStoring(old(backend.values), backend.values, EntryKey(family.Prefix(), r, n, action), value, now);
      backend.Set(EntryKey(family.Prefix(), r, n, action), value, Some(TTL_SECONDS), now);
    }

    method Invalidate(level: Level, r: ResourceRef, now: real) returns (ok: bool)
      modifies backend
      ensures ok <==> Countable(old(backend.values), LevelKey(family, level, r), now)
      ensures backend.values == if ok then Raised(family, old(backend.values), level, r, now) else old(backend.values)
    {
      var n := backend.Incr(LevelKey(family, level, r), now);
      return n.Some?;
    }
  }

  // --------------------------------------------------------------- histories

  /** What can happen to the shared store: a fill or an invalidation of this cache,
      the disappearance of an expired entry, or anything done by another cache,
      whose keys start with another family name. */
  datatype Op =
    | Fill(resource: ResourceRef, action: string, value: Value, now: real)
    | Invalidate(level: Level, resource: ResourceRef, now: real)
    | Purge(key: string, now: real)
    | Foreign(key: string, item: Option<Item>)

  ghost predicate OpOk(f: Family, op: Op) {
    match op
    case Fill(r, _, _, _) => r.Plainly()
    case Invalidate(_, r, _) => r.Plainly()
    case Purge(_, _) => true
    case Foreign(key, _) => !InFamily(f.Prefix(), key) && !InFamily(f.Prefix() + "ns", key)
  }

  function Apply(f: Family, s: Store, op: Op): Store {
    match op
    case Fill(r, a, v, now) => Filled(f, s, r, a, v, now)
    case Invalidate(level, r, now) => Raised(f, s, level, r, now)
    case Purge(key, now) => Purged(s, key, now)
    case Foreign(key, item) => if item.Some? then s[key := item.value] else s - {key}
  }

  predicate Covers(op: Op, r: ResourceRef) {
    && op.Invalidate?
    && (match op.level
        case ResourceLevel => op.resource == r
        case TenantLevel => op.resource.tenant == r.tenant
        case GlobalLevel => true)
  }

  type Slot = (ResourceRef, string)

  /** The cache the code is meant to be: a fill replaces the entry, an invalidation
      forgets every entry it covers. */
  function ApplyIdeal(m: map<Slot, Value>, op: Op): map<Slot, Value> {
    match op
    case Fill(r, a, v, _) => m[(r, a) := v]
    case Invalidate(_, _, _) => map slot | slot in m && !Covers(op, slot.0) :: m[slot]
    case _ => m
  }

  function After(f: Family, ops: seq<Op>, n: nat): Store
    requires n <= |ops|
  {
    if n == 0 then map[] else Apply(f, After(f, ops, n - 1), ops[n - 1])
  }

  function IdealAfter(ops: seq<Op>, n: nat): map<Slot, Value>
    requires n <= |ops|
  {
    if n == 0 then map[] else ApplyIdeal(IdealAfter(ops, n - 1), ops[n - 1])
  }

  // --------------------------------------------------------------- coherence

  // Resource r is only ever invalidated at one level.
  ghost predicate OneLevel(ops: seq<Op>, r: ResourceRef, level: Level) {
    forall i :: 0 <= i < |ops| && Covers(ops[i], r) ==> ops[i].level == level
  }

  ghost predicate CounterAt(s: Store, key: string) {
    key in s ==> s[key].value.Counter? && s[key].value.n > 0 && s[key].expiresAt.None?
  }

  function CountIn(s: Store, key: string): nat {
    if key in s && s[key].value.Counter? then s[key].value.n else 0
  }

  ghost predicate Coherent(f: Family, s: Store, ideal: map<Slot, Value>, r: ResourceRef, level: Level) {
    && CounterAt(s, LevelKey(f, level, r))
    && (forall other: Level :: other != level ==> LevelKey(f, other, r) !in s)
    && (forall n: nat, a: string :: EntryKey(f.Prefix(), r, n, a) in s ==>
          && n <= CountIn(s, LevelKey(f, level, r))
          && (n == CountIn(s, LevelKey(f, level, r)) ==>
                (r, a) in ideal && s[EntryKey(f.Prefix(), r, n, a)].value == ideal[(r, a)]))
  }

  lemma CoherentNamespace(f: Family, s: Store, ideal: map<Slot, Value>, r: ResourceRef, level: Level, now: real)
    requires Coherent(f, s, ideal, r, level) && (f.AclFamily? ==> level != TenantLevel)
    ensures Namespace(f, s, r, now) == CountIn(s, LevelKey(f, level, r))
  {
    hide EntryKey, LevelKey;
    assert forall other: Level :: other != level ==> LevelKey(f, other, r) !in s;
  }

  lemma PrefixPlain(f: Family)
    ensures Plain(f.Prefix()) && Plain(f.Prefix() + "ns") && f.Prefix() != f.Prefix() + "ns"
  {
    PlainPrefix(f.Prefix());
  }

  lemma LevelKeyIsNoEntry(f: Family, level: Level, r: ResourceRef, q: ResourceRef, n: nat, a: string)
    ensures LevelKey(f, level, r) != EntryKey(f.Prefix(), q, n, a)
  {
    PrefixPlain(f);
    KeyFamilies(f.Prefix(), q, n, a);
    KeyFamilies(f.Prefix(), r, n, a);
    FamiliesDisjoint(f.Prefix(), f.Prefix() + "ns", EntryKey(f.Prefix(), q, n, a));
  }

  // Counter keys coincide only where the one invalidation covers the other's resource.
  lemma LevelKeysMeet(f: Family, op: Op, level: Level, r: ResourceRef)
    requires op.Invalidate? && op.resource.Plainly() && r.Plainly()
    ensures LevelKey(f, op.level, op.resource) == LevelKey(f, level, r) <==> op.level == level && Covers(op, r)
  {
    PrefixPlain(f);
    LevelsDisjoint(f.Prefix(), r, op.resource.tenant);
    LevelsDisjoint(f.Prefix(), op.resource, r.tenant);
    if LevelKey(f, op.level, op.resource) == LevelKey(f, level, r) {
      if op.level == level == ResourceLevel {
        ResourceKeyInjective(f.Prefix(), op.resource, r);
      } else if op.level == level == TenantLevel {
        TenantKeyInjective(f.Prefix(), op.resource.tenant, r.tenant);
      }
    }
  }

  lemma FillKeeps(f: Family, s: Store, ideal: map<Slot, Value>, r: ResourceRef, level: Level, op: Op)
    requires Coherent(f, s, ideal, r, level) && r.Plainly() && op.Fill? && OpOk(f, op)
    requires f.AclFamily? ==> level != TenantLevel
    ensures Coherent(f, Apply(f, s, op), ApplyIdeal(ideal, op), r, level)
  {
    CoherentNamespace(f, s, ideal, r, level, op.now);
    PrefixPlain(f);
    var m := Namespace(f, s, op.resource, op.now);
    var key := EntryKey(f.Prefix(), op.resource, m, op.action);
    forall l: Level ensures LevelKey(f, l, r) != key {
      LevelKeyIsNoEntry(f, l, r, op.resource, m, op.action);
    }
    forall n: nat, a: string | EntryKey(f.Prefix(), r, n, a) == key
      ensures r == op.resource && n == m && a == op.action
    {
      EntryKeyInjective(f.Prefix(), r, n, a, op.resource, m, op.action);
    }
    hide EntryKey, LevelKey, Namespace;
  }

  lemma InvalidateKeeps(f: Family, s: Store, ideal: map<Slot, Value>, r: ResourceRef, level: Level, op: Op)
    requires Coherent(f, s, ideal, r, level) && r.Plainly() && op.Invalidate? && OpOk(f, op)
    requires Covers(op, r) ==> op.level == level
    ensures Coherent(f, Apply(f, s, op), ApplyIdeal(ideal, op), r, level)
  {
    var key := LevelKey(f, op.level, op.resource);
    forall l: Level ensures LevelKey(f, l, r) == key <==> op.level == l && Covers(op, r) {
      LevelKeysMeet(f, op, l, r);
    }
    forall n: nat, a: string ensures EntryKey(f.Prefix(), r, n, a) != key {
      LevelKeyIsNoEntry(f, op.level, op.resource, r, n, a);
    }
    hide EntryKey, LevelKey;
  }

  lemma OtherKeeps(f: Family, s: Store, ideal: map<Slot, Value>, r: ResourceRef, level: Level, op: Op)
    requires Coherent(f, s, ideal, r, level) && (op.Purge? || op.Foreign?) && OpOk(f, op)
    ensures Coherent(f, Apply(f, s, op), ApplyIdeal(ideal, op), r, level)
  {
    if op.Foreign? {
      forall n: nat, a: string ensures EntryKey(f.Prefix(), r, n, a) != op.key {
        KeyFamilies(f.Prefix(), r, n, a);
      }
      KeyFamilies(f.Prefix(), r, 0, "");
    }
    hide EntryKey, InFamily;
    assert op.Foreign? ==> forall l: Level :: LevelKey(f, l, r) != op.key;
    hide LevelKey;
  }

  lemma {:induction false} RunCoherent(f: Family, ops: seq<Op>, n: nat, r: ResourceRef, level: Level)
    requires n <= |ops| && r.Plainly() && OneLevel(ops, r, level)
    requires f.AclFamily? ==> level != TenantLevel
    requires forall i :: 0 <= i < |ops| ==> OpOk(f, ops[i])
    ensures Coherent(f, After(f, ops, n), IdealAfter(ops, n), r, level)
  {
    if n == 0 {
    } else {
      RunCoherent(f, ops, n - 1, r, level);
      hide Coherent, OpOk, Apply, ApplyIdeal, Covers;
      var s, ideal, op := After(f, ops, n - 1), IdealAfter(ops, n - 1), ops[n - 1];
      match op
      case Fill(_, _, _, _) => FillKeeps(f, s, ideal, r, level, op);
      case Invalidate(_, _, _) => InvalidateKeeps(f, s, ideal, r, level, op);
      case _ => OtherKeeps(f, s, ideal, r, level, op);
    }
  }

  /** Over every history in which a resource is invalidated at one level only, the
      cache answers for it like the ideal cache or not at all; so nothing stored
      before the last invalidation that covers it is ever served. */
  lemma ServesOnlyTheIdeal(f: Family, ops: seq<Op>, n: nat, r: ResourceRef, level: Level, action: string, now: real)
    requires n <= |ops| && r.Plainly() && OneLevel(ops, r, level)
    requires f.AclFamily? ==> level != TenantLevel
    requires forall i :: 0 <= i < |ops| ==> OpOk(f, ops[i])
    ensures
      var v := Fetch(f, After(f, ops, n), r, action, now);
      v.Some? ==> (r, action) in IdealAfter(ops, n) && v.value == IdealAfter(ops, n)[(r, action)]
  {
    RunCoherent(f, ops, n, r, level);
    CoherentNamespace(f, After(f, ops, n), IdealAfter(ops, n), r, level, now);
    hide After, IdealAfter, EntryKey, LevelKey, Namespace;
  }

  // What was filled is served until its lifetime ends or a counter moves.
  lemma FilledIsServed(f: Family, s: Store, r: ResourceRef, action: string, value: Value, now: real, later: real)
    requires now <= later < now + TTL_SECONDS as real
    requires forall level: Level :: CounterAt(s, LevelKey(f, level, r))
    ensures Fetch(f, Filled(f, s, r, action, value, now), r, action, later) == Some(value)
  {
    var n := Namespace(f, s, r, now);
    forall level: Level ensures LevelKey(f, level, r) != EntryKey(f.Prefix(), r, n, action) {
      LevelKeyIsNoEntry(f, level, r, r, n, action);
    }
    hide LevelKey, EntryKey;
    assert CounterAt(s, LevelKey(f, ResourceLevel, r)) && CounterAt(s, LevelKey(f, TenantLevel, r)) && CounterAt(s, LevelKey(f, GlobalLevel, r));
  }

  // ------------------------------------------------------------ mixing levels

  // What is served right after an invalidation: whatever live entry lies under the
  // namespace that is in force then.
  lemma ServedAfterInvalidation(f: Family, s: Store, level: Level, r: ResourceRef, action: string, now: real)
    ensures
      var t := Raised(f, s, level, r, now);
      Fetch(f, t, r, action, now) == Lookup(s, EntryKey(f.Prefix(), r, Namespace(f, t, r, now), action), now)
  {
    LevelKeyIsNoEntry(f, level, r, r, Namespace(f, Raised(f, s, level, r, now), r, now), action);
    hide EntryKey, LevelKey, Namespace;
  }

  /** A relationship change raises the tenant counter, an index is stored, and an ACL
      change raises the resource counter: both counters are 1, so the index stored
      before the ACL change is served after it. */
  lemma MixedLevelsServeStale(r: ResourceRef, action: string, value: Value, now: real)
    requires r.Plainly()
    ensures
      var ops := [Invalidate(TenantLevel, r, now), Fill(r, action, value, now), Invalidate(ResourceLevel, r, now)];
      && (r, action) !in IdealAfter(ops, 3)
      && Fetch(IndexFamily, After(IndexFamily, ops, 3), r, action, now) == Some(value)
  {
    var f := IndexFamily;
    var ops := [Invalidate(TenantLevel, r, now), Fill(r, action, value, now), Invalidate(ResourceLevel, r, now)];
    PrefixPlain(f);
    LevelsDisjoint(f.Prefix(), r, r.tenant);
    var own, tenant, all := LevelKey(f, ResourceLevel, r), LevelKey(f, TenantLevel, r), LevelKey(f, GlobalLevel, r);
    var key := EntryKey(f.Prefix(), r, 1, action);
    forall level: Level ensures LevelKey(f, level, r) != key {
      LevelKeyIsNoEntry(f, level, r, r, 1, action);
    }
    hide EntryKey, ResourceKey, TenantKey, GlobalKey, Family.Prefix;
    assert After(f, ops, 0) == map[];
    assert After(f, ops, 1) == map[tenant := Item(Counter(1), None)];
    assert Namespace(f, After(f, ops, 1), r, now) == 1;
    assert After(f, ops, 2) == map[tenant := Item(Counter(1), None), key := Item(value, Some(now + 30.0))];
    assert After(f, ops, 3)[own] == Item(Counter(1), None);
    assert Namespace(f, After(f, ops, 3), r, now) == 1;
    assert Covers(ops[2], r);
    assert IdealAfter(ops, 3) == ApplyIdeal(IdealAfter(ops, 2), ops[2]);
  }
}
