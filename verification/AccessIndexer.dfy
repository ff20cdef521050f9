/** How old the rows behind a served decision can be: the ACL cache, the index cache,
    the short memo, background refresh and the decision cache stacked up.

    A rebuild and a call are atomic steps; the database rows a rebuild reads are a
    parameter of the step, stamped with its moment. */
module AccessIndexer {
  import opened Wrappers
  import opened CacheKeys
  import opened CacheBackend
  import C = NamespacedCache

  type Slot = (ResourceRef, string)

  // What the database holds for the slot at the moment of a step.
  datatype Database = Database(acl: seq<AclRow>, relations: seq<RelationshipRow>)

  datatype Memo = Memo(expiresAt: real, index: Index)

  const MEMO_SECONDS := 5.0

  datatype World = World(store: Store, memo: map<Slot, Memo>, inflight: set<Slot>)

  // The rows for a rebuild, with the moment they were read, and the store after.
  function ReadAcl(s: Store, slot: Slot, now: real, db: Database): (seq<AclRow>, real, Store) {
    match C.Fetch(C.AclFamily, s, slot.0, slot.1, now)
    case Some(AclRows(rows, readAt)) => (rows, readAt, s)
    case _ => (db.acl, now, C.Filled(C.AclFamily, s, slot.0, slot.1, AclRows(db.acl, now), now))
  }

  function Rebuild(s: Store, slot: Slot, now: real, db: Database): (Index, Store) {
    var (rows, readAt, afterAcl) := ReadAcl(s, slot, now, db);
    var index := Index(rows, db.relations, Provenance(readAt, now));
    (index, C.Filled(C.IndexFamily, afterAcl, slot.0, slot.1, IndexRows(index), now))
  }

  function Recall(memo: map<Slot, Memo>, slot: Slot, now: real): Option<Index> {
    if slot in memo && memo[slot].expiresAt > now then Some(memo[slot].index) else None
  }

  function Forget(memo: map<Slot, Memo>, slot: Slot, now: real): map<Slot, Memo> {
    if slot in memo && memo[slot].expiresAt <= now then memo - {slot} else memo
  }

  function Remember(memo: map<Slot, Memo>, slot: Slot, now: real, index: Index): map<Slot, Memo> {
    memo[slot := Memo(now + MEMO_SECONDS, index)]
  }

  function Build(w: World, slot: Slot, now: real, db: Database): (Index, World) {
    match C.Fetch(C.IndexFamily, w.store, slot.0, slot.1, now)
    case Some(IndexRows(index)) => (index, w)
    case _ =>
      match Recall(w.memo, slot, now)
      case Some(index) => (index, w.(inflight := w.inflight + {slot}))
      case None =>
        var (index, store) := Rebuild(w.store, slot, now, db);
        (index, w.(store := store, memo := Remember(Forget(w.memo, slot, now), slot, now, index)))
  }

  // The thread started for a memoized answer.
  function Refresh(w: World, slot: Slot, now: real, db: Database): World {
    if slot !in w.inflight then w
    else
      var (index, store) := Rebuild(w.store, slot, now, db);
      World(store, Remember(w.memo, slot, now, index), w.inflight - {slot})
  }

  function DropMemo(memo: map<Slot, Memo>, gone: Slot -> bool): map<Slot, Memo> {
    map k | k in memo && !gone(k) :: memo[k]
  }

  function InvalidateResource(w: World, r: ResourceRef, now: real): World {
    var store := C.Raised(C.AclFamily, w.store, C.ResourceLevel, r, now);
    w.(store := C.Raised(C.IndexFamily, store, C.ResourceLevel, r, now), memo := DropMemo(w.memo, (k: Slot) => k.0 == r))
  }

  function InvalidateTenant(w: World, r: ResourceRef, now: real): World {
    w.(store := C.Raised(C.IndexFamily, w.store, C.TenantLevel, r, now),
       memo := DropMemo(w.memo, (k: Slot) => k.0.tenant == r.tenant))
  }

  /** The index behind the decision of a call. The input is built first; then the
      decision cache is asked under `key`, unless the call is fully consistent, and
      filled when it does not answer. */
  function Authorize(w: World, slot: Slot, key: Option<string>, ttl: int, now: real, db: Database): (Index, World) {
    var (index, next) := Build(w, slot, now, db);
    if key.None? then (index, next)
    else
      match Lookup(next.store, key.value, now)
      case Some(DecisionOn(older)) => (older, next)
      case _ => (index, next.(store := Stored(next.store, key.value, DecisionOn(index), Some(ttl), now)))
  }

  // ------------------------------------------------------ the indexer as written

  class Indexer {
    const backend: InMemoryCacheBackend
    const aclCache: C.Cache
    const indexCache: C.Cache
    var memo: map<Slot, Memo>
    var inflight: set<Slot>

    ghost predicate Wired() {
      && aclCache.backend == backend && aclCache.family == C.AclFamily
      && indexCache.backend == backend && indexCache.family == C.IndexFamily
    }

    constructor (backend: InMemoryCacheBackend)
      ensures Wired() && this.backend == backend && memo == map[] && inflight == {}
    {
      this.backend := backend;
      aclCache := new C.Cache(C.AclFamily, backend);
      indexCache := new C.Cache(C.IndexFamily, backend);
      memo := map[];
      inflight := {};
    }

    method RebuildResourceIndex(slot: Slot, now: real, db: Database) returns (index: Index)
      requires Wired()
      modifies backend
      ensures index == Rebuild(old(backend.values), slot, now, db).0
      ensures C.SameView(Rebuild(old(backend.values), slot, now, db).1, backend.values, now)
    {
      ghost var s0 := backend.values;
      var found := aclCache.Get(slot.0, slot.1, now);
      var rows, readAt := db.acl, now;
      if found.Some? && found.value.AclRows? {
        rows, readAt := found.value.rows, found.value.readAt;
      } else {
        label BeforeFill:
        aclCache.Set(slot.0, slot.1, AclRows(db.acl, now), now);
        SameViewFilled(C.AclFamily, s0, old@BeforeFill(backend.values), slot, AclRows(db.acl, now), now);
      }
      index := Index(rows, db.relations, Provenance(readAt, now));
      label BeforeIndex:
      indexCache.Set(slot.0, slot.1, IndexRows(index), now);
      SameViewFilled(C.IndexFamily, ReadAcl(s0, slot, now, db).2, old@BeforeIndex(backend.values), slot, IndexRows(index), now);
    }

    method BuildResourceIndex(slot: Slot, now: real, db: Database) returns (index: Index)
      requires Wired()
      modifies this, backend
      ensures
        var (answer, w) := Build(World(old(backend.values), old(memo), old(inflight)), slot, now, db);
        && index == answer && memo == w.memo && inflight == w.inflight
        && C.SameView(w.store, backend.values, now)
    {
      var cached := indexCache.Get(slot.0, slot.1, now);
      if cached.Some? && cached.value.IndexRows? {
        return cached.value.index;
      }
      if slot in memo {
        if memo[slot].expiresAt <= now {
          memo := memo - {slot};
        } else {
          inflight := inflight + {slot};
          return memo[slot].index;
        }
      }
      label BeforeRebuild:
      index := RebuildResourceIndex(slot, now, db);
      SameViewRebuilt(old(backend.values), old@BeforeRebuild(backend.values), slot, now, db);
      memo := memo[slot := Memo(now + MEMO_SECONDS, index)];
    }

    method RunRefresh(slot: Slot, now: real, db: Database)
      requires Wired() && slot in inflight
      modifies this, backend
      ensures
        var w := Refresh(World(old(backend.values), old(memo), old(inflight)), slot, now, db);
        C.SameView(w.store, backend.values, now) && memo == w.memo && inflight == w.inflight
    {
      var index := RebuildResourceIndex(slot, now, db);
      memo := memo[slot := Memo(now + MEMO_SECONDS, index)];
      inflight := inflight - {slot};
    }

    // False where a counter's key holds no count, which raises.
    method InvalidateResourceIndex(r: ResourceRef, now: real) returns (ok: bool)
      requires Wired()
      modifies this, backend
      ensures ok ==>
        World(backend.values, memo, inflight) == InvalidateResource(World(old(backend.values), old(memo), old(inflight)), r, now)
      ensures !ok ==> memo == old(memo) && inflight == old(inflight)
      ensures
        (forall f: C.Family :: Counts(old(backend.values), C.LevelKey(f, C.ResourceLevel, r))) ==> ok
    {
      hide C.LevelKey;
      ok := aclCache.Invalidate(C.ResourceLevel, r, now);
      if !ok {
        return;
      }
      ok := indexCache.Invalidate(C.ResourceLevel, r, now);
      if !ok {
        return;
      }
      memo := map k | k in memo && !(k.0 == r) :: memo[k];
    }
  }

  // Nothing but counts is ever kept under the key.
  predicate Counts(s: Store, key: string) {
    key in s ==> s[key].value.Counter?
  }

  lemma SameViewNamespace(f: C.Family, s: Store, t: Store, r: ResourceRef, now: real)
    requires C.SameView(s, t, now)
    ensures C.Namespace(f, s, r, now) == C.Namespace(f, t, r, now)
  {
    forall level: C.Level ensures Count(s, C.LevelKey(f, level, r), now) == Count(t, C.LevelKey(f, level, r), now) {
      assert Lookup(s, C.LevelKey(f, level, r), now) == Lookup(t, C.LevelKey(f, level, r), now);
    }
    hide C.LevelKey, Count;
  }

  // Stores that look the same answer the same, and still look the same once filled.
  lemma SameViewFilled(f: C.Family, s: Store, t: Store, slot: Slot, value: Value, now: real)
    requires C.SameView(s, t, now)
    ensures C.Fetch(f, s, slot.0, slot.1, now) == C.Fetch(f, t, slot.0, slot.1, now)
    ensures forall u :: C.SameView(C.Filled(f, t, slot.0, slot.1, value, now), u, now)
                   ==> C.SameView(C.Filled(f, s, slot.0, slot.1, value, now), u, now)
  {
    SameViewNamespace(f, s, t, slot.0, now);
    C.ViewAfterStoring(s, t, C.KeyOf(f, s, slot.0, slot.1, now), value, now);
    hide EntryKey, C.Namespace, Lookup, Stored;
  }

  lemma SameViewRebuilt(s: Store, t: Store, slot: Slot, now: real, db: Database)
    requires C.SameView(s, t, now)
    ensures Rebuild(s, slot, now, db).0 == Rebuild(t, slot, now, db).0
    ensures forall u :: C.SameView(Rebuild(t, slot, now, db).1, u, now) ==> C.SameView(Rebuild(s, slot, now, db).1, u, now)
  {
    SameViewFilled(C.AclFamily, s, t, slot, AclRows(db.acl, now), now);
    var a, b := ReadAcl(s, slot, now, db).2, ReadAcl(t, slot, now, db).2;
    SameViewReflexive(b, now);
    hide C.SameView, C.Filled, C.Fetch;
    assert C.SameView(a, b, now);
    SameViewFilled(C.IndexFamily, a, b, slot, IndexRows(Rebuild(s, slot, now, db).0), now);
  }

  lemma SameViewReflexive(s: Store, now: real)
    ensures C.SameView(s, s, now)
  {
  }

  // ------------------------------------------------------------- how old it gets

  function Lifetime(ttl: int): real {
    (if ttl < 1 then 1 else ttl) as real
  }

  // A value with these rows, good until x, is never older than the limits while it is served.
  ghost predicate Within(read: Provenance, x: real, acl: real, relations: real) {
    x <= read.aclReadAt + acl && x <= read.relationsReadAt + relations
  }

  ghost predicate ItemOk(i: Item, ttl: int) {
    match i.value
    case AclRows(_, readAt) => i.expiresAt.Some? && i.expiresAt.value <= readAt + 30.0
    case IndexRows(index) => i.expiresAt.Some? && Within(index.read, i.expiresAt.value, 60.0, 30.0)
    case DecisionOn(index) =>
      i.expiresAt.Some? && Within(index.read, i.expiresAt.value, 60.0 + Lifetime(ttl), 30.0 + Lifetime(ttl))
    case Counter(_) => true
  }

  ghost predicate StoreOk(s: Store, ttl: int) {
    forall k :: k in s ==> ItemOk(s[k], ttl)
  }

  ghost predicate WorldOk(w: World, ttl: int) {
    && StoreOk(w.store, ttl)
    && forall k :: k in w.memo ==> Within(w.memo[k].index.read, w.memo[k].expiresAt, 60.0, 30.0)
  }

  // An index used now has ACL rows read less than 60 seconds ago, and relationships less than 30.
  ghost predicate Recent(read: Provenance, now: real, acl: real, relations: real) {
    now < read.aclReadAt + acl && now < read.relationsReadAt + relations
  }

  lemma StoringKeeps(s: Store, key: string, value: Value, lifetime: Option<int>, now: real, ttl: int)
    requires StoreOk(s, ttl) && ItemOk(Stored(s, key, value, lifetime, now)[key], ttl)
    ensures StoreOk(Stored(s, key, value, lifetime, now), ttl)
  {
    hide ItemOk;
  }

  lemma RebuildKeeps(s: Store, slot: Slot, now: real, db: Database, ttl: int)
    requires StoreOk(s, ttl)
    ensures StoreOk(Rebuild(s, slot, now, db).1, ttl)
    ensures Within(Rebuild(s, slot, now, db).0.read, now + MEMO_SECONDS, 60.0, 30.0)
  {
    var (rows, readAt, afterAcl) := ReadAcl(s, slot, now, db);
    StoringKeeps(s, C.KeyOf(C.AclFamily, s, slot.0, slot.1, now), AclRows(db.acl, now), Some(C.TTL_SECONDS), now, ttl);
    var index := Rebuild(s, slot, now, db).0;
    StoringKeeps(afterAcl, C.KeyOf(C.IndexFamily, afterAcl, slot.0, slot.1, now), IndexRows(index), Some(C.TTL_SECONDS), now, ttl);
  }

  lemma BuildKeeps(w: World, slot: Slot, now: real, db: Database, ttl: int)
    requires WorldOk(w, ttl)
    ensures WorldOk(Build(w, slot, now, db).1, ttl)
    ensures Recent(Build(w, slot, now, db).0.read, now, 60.0, 30.0)
  {
    RebuildKeeps(w.store, slot, now, db, ttl);
    hide EntryKey, Rebuild, C.Namespace;
  }

  lemma AuthorizeKeeps(w: World, slot: Slot, key: Option<string>, ttl: int, now: real, db: Database)
    requires WorldOk(w, ttl)
    ensures WorldOk(Authorize(w, slot, key, ttl, now, db).1, ttl)
    ensures Recent(Authorize(w, slot, key, ttl, now, db).0.read, now, 60.0 + Lifetime(ttl), 30.0 + Lifetime(ttl))
  {
    BuildKeeps(w, slot, now, db, ttl);
    hide Build;
  }

  lemma RaisingKeeps(f: C.Family, s: Store, level: C.Level, r: ResourceRef, now: real, ttl: int)
    requires StoreOk(s, ttl)
    ensures StoreOk(C.Raised(f, s, level, r, now), ttl)
  {
    hide C.LevelKey;
  }

  // -------------------------------------------------------------------- runs

  datatype Op =
    | Call(slot: Slot, key: Option<string>, now: real, db: Database)
    | BackgroundRefresh(slot: Slot, now: real, db: Database)
    | ResourceChanged(resource: ResourceRef, now: real)
    | TenantChanged(resource: ResourceRef, now: real)
    | RelationshipCreated(resource: ResourceRef, now: real)
    | GlobalChanged(resource: ResourceRef, now: real)
    | Restart
    | Vanish(gone: string)

  function Apply(w: World, op: Op, ttl: int): World {
    match op
    case Call(slot, key, now, db) => Authorize(w, slot, key, ttl, now, db).1
    case BackgroundRefresh(slot, now, db) => Refresh(w, slot, now, db)
    case ResourceChanged(r, now) => InvalidateResource(w, r, now)
    case TenantChanged(r, now) => InvalidateTenant(w, r, now)
    case RelationshipCreated(r, now) => w.(store := C.Raised(C.IndexFamily, w.store, C.TenantLevel, r, now))
    case GlobalChanged(r, now) => w.(store := C.Raised(C.IndexFamily, w.store, C.GlobalLevel, r, now))
    case Restart => w.(memo := map[], inflight := {})
    case Vanish(key) => w.(store := w.store - {key})
  }

  function After(ops: seq<Op>, n: nat, ttl: int): World
    requires n <= |ops|
  {
    if n == 0 then World(map[], map[], {}) else Apply(After(ops, n - 1, ttl), ops[n - 1], ttl)
  }

  lemma ApplyKeeps(w: World, op: Op, ttl: int)
    requires WorldOk(w, ttl)
    ensures WorldOk(Apply(w, op, ttl), ttl)
  {
    match op
    case Call(slot, key, now, db) =>
      AuthorizeKeeps(w, slot, key, ttl, now, db);
    case BackgroundRefresh(slot, now, db) =>
      RebuildKeeps(w.store, slot, now, db, ttl);
    case ResourceChanged(r, now) =>
      RaisingKeeps(C.AclFamily, w.store, C.ResourceLevel, r, now, ttl);
      RaisingKeeps(C.IndexFamily, C.Raised(C.AclFamily, w.store, C.ResourceLevel, r, now), C.ResourceLevel, r, now, ttl);
    case TenantChanged(r, now) =>
      RaisingKeeps(C.IndexFamily, w.store, C.TenantLevel, r, now, ttl);
    case RelationshipCreated(r, now) =>
      RaisingKeeps(C.IndexFamily, w.store, C.TenantLevel, r, now, ttl);
    case GlobalChanged(r, now) =>
      RaisingKeeps(C.IndexFamily, w.store, C.GlobalLevel, r, now, ttl);
    case _ =>
  }

  lemma {:induction false} RunKeeps(ops: seq<Op>, n: nat, ttl: int)
    requires n <= |ops|
    ensures WorldOk(After(ops, n, ttl), ttl)
  {
    if n == 0 {
    } else {
      RunKeeps(ops, n - 1, ttl);
      ApplyKeeps(After(ops, n - 1, ttl), ops[n - 1], ttl);
    }
  }

  /** Whichever cache answers a call, and whatever was or was not invalidated, the
      decision rests on ACL rows read less than 30 + 30 + max(1, TTL) seconds before
      the call and on relationships read less than 30 + max(1, TTL) seconds before. */
  lemma ServedRowsAreRecent(ops: seq<Op>, n: nat, ttl: int)
    requires n < |ops| && ops[n].Call?
    ensures
      var index := Authorize(After(ops, n, ttl), ops[n].slot, ops[n].key, ttl, ops[n].now, ops[n].db).0;
      && ops[n].now - index.read.aclReadAt < 30.0 + 30.0 + Lifetime(ttl)
      && ops[n].now - index.read.relationsReadAt < 30.0 + Lifetime(ttl)
  {
    RunKeeps(ops, n, ttl);
    AuthorizeKeeps(After(ops, n, ttl), ops[n].slot, ops[n].key, ttl, ops[n].now, ops[n].db);
    hide After, Authorize;
  }
}
