/** Which rows an index holds: those that some step read from the database, at the moment
    that its label names. */
module IndexProvenance {
  import opened Wrappers
  import opened CacheKeys
  import opened CacheBackend
  import opened AccessIndexer
  import C = NamespacedCache

  // The step had the database rows of the slot at hand at that moment.
  predicate ReadsAt(op: Op, slot: Slot, moment: real) {
    (op.Call? || op.BackgroundRefresh?) && op.slot == slot && op.now == moment
  }

  ghost predicate AclWasRead(ops: seq<Op>, n: nat, slot: Slot, rows: seq<AclRow>, moment: real)
    requires n <= |ops|
  {
    exists j :: 0 <= j < n && ReadsAt(ops[j], slot, moment) && ops[j].db.acl == rows
  }

  ghost predicate RelationsWereRead(ops: seq<Op>, n: nat, slot: Slot, rows: seq<RelationshipRow>, moment: real)
    requires n <= |ops|
  {
    exists j :: 0 <= j < n && ReadsAt(ops[j], slot, moment) && ops[j].db.relations == rows
  }

  // Both kinds of rows are what the database held when their labels say.
  ghost predicate WasRead(ops: seq<Op>, n: nat, slot: Slot, index: Index)
    requires n <= |ops|
  {
    && AclWasRead(ops, n, slot, index.acl, index.read.aclReadAt)
    && RelationsWereRead(ops, n, slot, index.relations, index.read.relationsReadAt)
  }

  // Type, id and action of the slot hold no colon, so its keys are its own.
  predicate HasOwnKeys(slot: Slot) {
    slot.0.Plainly() && Plain(slot.1)
  }

  function AclKey(slot: Slot, m: nat): string {
    EntryKey("acl", slot.0, m, slot.1)
  }

  function IndexKey(slot: Slot, m: nat): string {
    EntryKey("idx", slot.0, m, slot.1)
  }

  lemma KeysAreOwn(slot: Slot, m: nat, other: Slot, n: nat)
    requires HasOwnKeys(slot)
    ensures AclKey(slot, m) == AclKey(other, n) ==> slot == other
    ensures IndexKey(slot, m) == IndexKey(other, n) ==> slot == other
  {
    assert Plain("acl") && Plain("idx");
    EntryKeysMeet("acl", slot.0, m, slot.1, other.0, n, other.1);
    EntryKeysMeet("idx", slot.0, m, slot.1, other.0, n, other.1);
    hide EntryKey;
    if EntryTail(slot.0, slot.1) == EntryTail(other.0, other.1) {
      PlainTripleDetermined(slot.0.kind, slot.0.id, slot.1, other.0.kind, other.0.id, other.1);
    }
  }

  // ------------------------------------------------------------------ invariant

  ghost predicate StoreRead(ops: seq<Op>, n: nat, s: Store)
    requires n <= |ops|
  {
    && (forall slot: Slot, m: nat :: HasOwnKeys(slot) && AclKey(slot, m) in s && s[AclKey(slot, m)].value.AclRows? ==>
          AclWasRead(ops, n, slot, s[AclKey(slot, m)].value.rows, s[AclKey(slot, m)].value.readAt))
    && (forall slot: Slot, m: nat :: HasOwnKeys(slot) && IndexKey(slot, m) in s && s[IndexKey(slot, m)].value.IndexRows? ==>
          WasRead(ops, n, slot, s[IndexKey(slot, m)].value.index))
  }

  ghost predicate MemoRead(ops: seq<Op>, n: nat, memo: map<Slot, Memo>)
    requires n <= |ops|
  {
    forall slot :: slot in memo && HasOwnKeys(slot) ==> WasRead(ops, n, slot, memo[slot].index)
  }

  // A stored decision rests on rows read for the slot of a call that had its key.
  ghost predicate DecisionsRead(ops: seq<Op>, n: nat, s: Store)
    requires n <= |ops|
  {
    forall k :: k in s && s[k].value.DecisionOn? ==>
      exists j :: 0 <= j < n && ops[j].Call? && ops[j].key == Some(k) && (HasOwnKeys(ops[j].slot) ==> WasRead(ops, n, ops[j].slot, s[k].value.index))
  }

  lemma ReadStays(ops: seq<Op>, n: nat, slot: Slot, index: Index)
    requires n < |ops| && WasRead(ops, n, slot, index)
    ensures WasRead(ops, n + 1, slot, index)
  {
    hide ReadsAt;
  }

  lemma AclReadStays(ops: seq<Op>, n: nat, slot: Slot, rows: seq<AclRow>, moment: real)
    requires n < |ops| && AclWasRead(ops, n, slot, rows, moment)
    ensures AclWasRead(ops, n + 1, slot, rows, moment)
  {
    hide ReadsAt;
  }

  lemma StoreStays(ops: seq<Op>, n: nat, s: Store)
    requires n < |ops| && StoreRead(ops, n, s)
    ensures StoreRead(ops, n + 1, s)
  {
    forall slot: Slot, rows, moment | AclWasRead(ops, n, slot, rows, moment) ensures AclWasRead(ops, n + 1, slot, rows, moment) {
      AclReadStays(ops, n, slot, rows, moment);
    }
    forall slot: Slot, index | WasRead(ops, n, slot, index) ensures WasRead(ops, n + 1, slot, index) {
      ReadStays(ops, n, slot, index);
    }
    hide WasRead, AclWasRead, AclKey, IndexKey;
  }

  // What is neither rows nor an index may be stored under any key, and anything may go.
  lemma OtherStored(ops: seq<Op>, n: nat, s: Store, t: Store)
    requires n <= |ops| && StoreRead(ops, n, s)
    requires forall k :: k in t && (t[k].value.AclRows? || t[k].value.IndexRows?) ==> k in s && s[k] == t[k]
    ensures StoreRead(ops, n, t)
  {
    hide WasRead, AclWasRead, AclKey, IndexKey;
  }

  lemma AclFilled(ops: seq<Op>, n: nat, s: Store, slot: Slot, rows: seq<AclRow>, moment: real, now: real)
    requires n <= |ops| && StoreRead(ops, n, s)
    requires HasOwnKeys(slot) ==> AclWasRead(ops, n, slot, rows, moment)
    ensures StoreRead(ops, n, C.Filled(C.AclFamily, s, slot.0, slot.1, AclRows(rows, moment), now))
  {
    var m := C.Namespace(C.AclFamily, s, slot.0, now);
    assert C.KeyOf(C.AclFamily, s, slot.0, slot.1, now) == AclKey(slot, m);
    forall other: Slot, k: nat | HasOwnKeys(other) && AclKey(other, k) == AclKey(slot, m) ensures other == slot {
      KeysAreOwn(other, k, slot, m);
    }
    hide WasRead, AclWasRead, AclKey, IndexKey, C.Namespace, C.KeyOf;
  }

  lemma IndexFilled(ops: seq<Op>, n: nat, s: Store, slot: Slot, index: Index, now: real)
    requires n <= |ops| && StoreRead(ops, n, s)
    requires HasOwnKeys(slot) ==> WasRead(ops, n, slot, index)
    ensures StoreRead(ops, n, C.Filled(C.IndexFamily, s, slot.0, slot.1, IndexRows(index), now))
  {
    var m := C.Namespace(C.IndexFamily, s, slot.0, now);
    assert C.KeyOf(C.IndexFamily, s, slot.0, slot.1, now) == IndexKey(slot, m);
    forall other: Slot, k: nat | HasOwnKeys(other) && IndexKey(other, k) == IndexKey(slot, m) ensures other == slot {
      KeysAreOwn(other, k, slot, m);
    }
    hide WasRead, AclWasRead, AclKey, IndexKey, C.Namespace, C.KeyOf;
  }

  // ------------------------------------------------------------------ each step

  lemma AclRowsRead(ops: seq<Op>, n: nat, s: Store, slot: Slot, now: real, db: Database)
    requires n < |ops| && StoreRead(ops, n, s) && ReadsAt(ops[n], slot, now) && ops[n].db == db
    ensures
      var (rows, moment, t) := ReadAcl(s, slot, now, db);
      && (HasOwnKeys(slot) ==> AclWasRead(ops, n + 1, slot, rows, moment))
      && StoreRead(ops, n + 1, t)
  {
    StoreStays(ops, n, s);
    assert AclWasRead(ops, n + 1, slot, db.acl, now);
    var m := C.Namespace(C.AclFamily, s, slot.0, now);
    assert C.KeyOf(C.AclFamily, s, slot.0, slot.1, now) == AclKey(slot, m);
    AclFilled(ops, n + 1, s, slot, db.acl, now, now);
    hide WasRead, AclWasRead, AclKey, IndexKey, C.Namespace, C.KeyOf, C.Filled;
  }

  lemma RebuildReads(ops: seq<Op>, n: nat, s: Store, slot: Slot, now: real, db: Database)
    requires n < |ops| && StoreRead(ops, n, s) && ReadsAt(ops[n], slot, now) && ops[n].db == db
    ensures
      var (index, t) := Rebuild(s, slot, now, db);
      && (HasOwnKeys(slot) ==> WasRead(ops, n + 1, slot, index))
      && StoreRead(ops, n + 1, t)
  {
    AclRowsRead(ops, n, s, slot, now, db);
    assert RelationsWereRead(ops, n + 1, slot, db.relations, now);
    hide AclWasRead, RelationsWereRead, StoreRead, ReadAcl, C.Filled;
    var afterAcl := ReadAcl(s, slot, now, db).2;
    IndexFilled(ops, n + 1, afterAcl, slot, Rebuild(s, slot, now, db).0, now);
  }

  lemma BuildReads(ops: seq<Op>, n: nat, w: World, slot: Slot, now: real, db: Database)
    requires n < |ops| && StoreRead(ops, n, w.store) && MemoRead(ops, n, w.memo) && ReadsAt(ops[n], slot, now) && ops[n].db == db
    ensures
      var (index, v) := Build(w, slot, now, db);
      && (HasOwnKeys(slot) ==> WasRead(ops, n + 1, slot, index))
      && StoreRead(ops, n + 1, v.store) && MemoRead(ops, n + 1, v.memo)
  {
    StoreStays(ops, n, w.store);
    RebuildReads(ops, n, w.store, slot, now, db);
    MemoStays(ops, n, w.memo);
    FetchedWasRead(ops, n + 1, w.store, slot, now);
    hide WasRead, StoreRead, Rebuild, C.Fetch;
  }

  lemma MemoStays(ops: seq<Op>, n: nat, memo: map<Slot, Memo>)
    requires n < |ops| && MemoRead(ops, n, memo)
    ensures MemoRead(ops, n + 1, memo)
  {
    forall slot: Slot, index | WasRead(ops, n, slot, index) ensures WasRead(ops, n + 1, slot, index) {
      ReadStays(ops, n, slot, index);
    }
    hide WasRead;
  }

  lemma FetchedWasRead(ops: seq<Op>, n: nat, s: Store, slot: Slot, now: real)
    requires n <= |ops| && StoreRead(ops, n, s)
    ensures
      var v := C.Fetch(C.IndexFamily, s, slot.0, slot.1, now);
      HasOwnKeys(slot) && v.Some? && v.value.IndexRows? ==> WasRead(ops, n, slot, v.value.index)
  {
    var m := C.Namespace(C.IndexFamily, s, slot.0, now);
    assert C.KeyOf(C.IndexFamily, s, slot.0, slot.1, now) == IndexKey(slot, m);
    hide WasRead, AclWasRead, AclKey, IndexKey, C.Namespace, C.KeyOf;
  }

  // Building and refreshing store rows and indexes only.
  ghost predicate SameDecisions(s: Store, t: Store) {
    forall k :: k in t && t[k].value.DecisionOn? ==> k in s && s[k] == t[k]
  }

  lemma RebuildDecidesNothing(s: Store, slot: Slot, now: real, db: Database)
    ensures SameDecisions(s, Rebuild(s, slot, now, db).1)
  {
    hide C.KeyOf, C.Fetch;
  }

  lemma BuildDecidesNothing(w: World, slot: Slot, now: real, db: Database)
    ensures SameDecisions(w.store, Build(w, slot, now, db).1.store)
  {
    RebuildDecidesNothing(w.store, slot, now, db);
    hide Rebuild, C.Fetch;
  }

  lemma DecisionsStay(ops: seq<Op>, n: nat, s: Store, t: Store)
    requires n < |ops| && DecisionsRead(ops, n, s) && SameDecisions(s, t)
    ensures DecisionsRead(ops, n + 1, t)
  {
    forall slot: Slot, index | WasRead(ops, n, slot, index) ensures WasRead(ops, n + 1, slot, index) {
      ReadStays(ops, n, slot, index);
    }
    hide WasRead;
    forall k | k in t && t[k].value.DecisionOn?
      ensures exists j :: 0 <= j < n + 1 && ops[j].Call? && ops[j].key == Some(k) && (HasOwnKeys(ops[j].slot) ==> WasRead(ops, n + 1, ops[j].slot, t[k].value.index))
    {
      var j :| 0 <= j < n && ops[j].Call? && ops[j].key == Some(k) && (HasOwnKeys(ops[j].slot) ==> WasRead(ops, n, ops[j].slot, s[k].value.index));
    }
  }

  // A decision key belongs to one resource and action, which it digests.
  ghost predicate KeysHaveOneSlot(ops: seq<Op>) {
    forall i, j | 0 <= i < |ops| && 0 <= j < |ops| && ops[i].Call? && ops[j].Call? ::
      ops[i].key.Some? && ops[i].key == ops[j].key ==> ops[i].slot == ops[j].slot
  }

  ghost predicate AllRead(ops: seq<Op>, n: nat, w: World)
    requires n <= |ops|
  {
    StoreRead(ops, n, w.store) && MemoRead(ops, n, w.memo) && DecisionsRead(ops, n, w.store)
  }

  lemma AuthorizeReads(ops: seq<Op>, n: nat, w: World, ttl: int)
    requires n < |ops| && ops[n].Call? && AllRead(ops, n, w)
    ensures AllRead(ops, n + 1, Authorize(w, ops[n].slot, ops[n].key, ttl, ops[n].now, ops[n].db).1)
    ensures KeysHaveOneSlot(ops) && HasOwnKeys(ops[n].slot) ==>
      WasRead(ops, n + 1, ops[n].slot, Authorize(w, ops[n].slot, ops[n].key, ttl, ops[n].now, ops[n].db).0)
  {
    hide Build, StoreRead, MemoRead, WasRead, SameDecisions, DecisionsRead, KeysHaveOneSlot, HasOwnKeys;
    var slot, key, now, db := ops[n].slot, ops[n].key, ops[n].now, ops[n].db;
    BuildReads(ops, n, w, slot, now, db);
    BuildDecidesNothing(w, slot, now, db);
    var (index, v) := Build(w, slot, now, db);
    DecisionsStay(ops, n, w.store, v.store);
    if key.Some? {
      var hit := Lookup(v.store, key.value, now);
      if hit.Some? && hit.value.DecisionOn? {
        HitWasRead(ops, n, v.store, key.value, hit.value.index, now);
      } else {
        var t := Stored(v.store, key.value, DecisionOn(index), Some(ttl), now);
        OtherStored(ops, n + 1, v.store, t);
        DecisionStored(ops, n + 1, v.store, key.value, t, n, index);
      }
    }
  }

  lemma HitWasRead(ops: seq<Op>, n: nat, s: Store, key: string, index: Index, now: real)
    requires n < |ops| && ops[n].Call? && ops[n].key == Some(key) && DecisionsRead(ops, n + 1, s)
    requires Lookup(s, key, now) == Some(DecisionOn(index))
    ensures KeysHaveOneSlot(ops) && HasOwnKeys(ops[n].slot) ==> WasRead(ops, n + 1, ops[n].slot, index)
  {
    hide WasRead, HasOwnKeys;
    assert key in s && s[key].value == DecisionOn(index);
  }

  lemma DecisionStored(ops: seq<Op>, n: nat, s: Store, key: string, t: Store, j: nat, index: Index)
    requires n <= |ops| && DecisionsRead(ops, n, s) && j < n && ops[j].Call? && ops[j].key == Some(key)
    requires HasOwnKeys(ops[j].slot) ==> WasRead(ops, n, ops[j].slot, index)
    requires key in t && t[key].value == DecisionOn(index) && forall k :: k in t && k != key ==> k in s && s[k] == t[k]
    ensures DecisionsRead(ops, n, t)
  {
    hide WasRead, HasOwnKeys;
  }

  lemma RaisedReads(ops: seq<Op>, n: nat, f: C.Family, s: Store, level: C.Level, r: ResourceRef, now: real)
    requires n <= |ops| && StoreRead(ops, n, s)
    ensures StoreRead(ops, n, C.Raised(f, s, level, r, now)) && SameDecisions(s, C.Raised(f, s, level, r, now))
  {
    hide C.LevelKey, StoreRead;
    OtherStored(ops, n, s, C.Raised(f, s, level, r, now));
  }

  lemma FewerMemos(ops: seq<Op>, n: nat, memo: map<Slot, Memo>, left: map<Slot, Memo>)
    requires n <= |ops| && MemoRead(ops, n, memo) && forall k :: k in left ==> k in memo && left[k] == memo[k]
    ensures MemoRead(ops, n, left)
  {
    hide WasRead;
  }

  lemma StepReads(ops: seq<Op>, n: nat, w: World, ttl: int)
    requires n < |ops| && AllRead(ops, n, w)
    ensures AllRead(ops, n + 1, Apply(w, ops[n], ttl))
  {
    StoreStays(ops, n, w.store);
    MemoStays(ops, n, w.memo);
    hide StoreRead, MemoRead, DecisionsRead, WasRead, Rebuild, Authorize, C.Raised;
    var v := Apply(w, ops[n], ttl);
    match ops[n]
    case Call(_, _, _, _) =>
      AuthorizeReads(ops, n, w, ttl);
    case BackgroundRefresh(slot, now, db) =>
      RefreshReads(ops, n, w, ttl);
    case ResourceChanged(r, now) =>
      RaisedReads(ops, n + 1, C.AclFamily, w.store, C.ResourceLevel, r, now);
      RaisedReads(ops, n + 1, C.IndexFamily, C.Raised(C.AclFamily, w.store, C.ResourceLevel, r, now), C.ResourceLevel, r, now);
      FewerMemos(ops, n + 1, w.memo, v.memo);
      DecisionsStay(ops, n, w.store, v.store);
    case TenantChanged(r, now) =>
      RaisedReads(ops, n + 1, C.IndexFamily, w.store, C.TenantLevel, r, now);
      FewerMemos(ops, n + 1, w.memo, v.memo);
      DecisionsStay(ops, n, w.store, v.store);
    case RelationshipCreated(r, now) =>
      RaisedReads(ops, n + 1, C.IndexFamily, w.store, C.TenantLevel, r, now);
      DecisionsStay(ops, n, w.store, v.store);
    case GlobalChanged(r, now) =>
      RaisedReads(ops, n + 1, C.IndexFamily, w.store, C.GlobalLevel, r, now);
      DecisionsStay(ops, n, w.store, v.store);
    case Restart =>
      FewerMemos(ops, n + 1, w.memo, v.memo);
      DecisionsStay(ops, n, w.store, v.store);
    case Vanish(_) =>
      OtherStored(ops, n + 1, w.store, v.store);
      DecisionsStay(ops, n, w.store, v.store);
  }

  lemma RefreshReads(ops: seq<Op>, n: nat, w: World, ttl: int)
    requires n < |ops| && AllRead(ops, n, w) && ops[n].BackgroundRefresh?
    ensures AllRead(ops, n + 1, Refresh(w, ops[n].slot, ops[n].now, ops[n].db))
  {
    var slot, now, db := ops[n].slot, ops[n].now, ops[n].db;
    RebuildReads(ops, n, w.store, slot, now, db);
    RebuildDecidesNothing(w.store, slot, now, db);
    StoreStays(ops, n, w.store);
    MemoStays(ops, n, w.memo);
    DecisionsStay(ops, n, w.store, w.store);
    DecisionsStay(ops, n, w.store, Rebuild(w.store, slot, now, db).1);
    hide StoreRead, DecisionsRead, WasRead, Rebuild;
  }

  lemma {:induction false} RunReads(ops: seq<Op>, n: nat, ttl: int)
    requires n <= |ops|
    ensures AllRead(ops, n, After(ops, n, ttl))
  {
    hide AllRead, Apply;
    if n == 0 {
      NothingRead(ops);
    } else {
      RunReads(ops, n - 1, ttl);
      StepReads(ops, n - 1, After(ops, n - 1, ttl), ttl);
    }
  }

  lemma NothingRead(ops: seq<Op>)
    ensures AllRead(ops, 0, World(map[], map[], {}))
  {
  }

  // ------------------------------------------------------------------- theorems

  /** Over every run, the index handed out for a colon-free resource and action holds as
      ACL rows exactly those that some step found in the database at its first label, and
      as relationships exactly those that some step found there at its second. */
  lemma BuiltRowsWereRead(ops: seq<Op>, n: nat, ttl: int)
    requires n < |ops| && ops[n].Call? && HasOwnKeys(ops[n].slot)
    ensures WasRead(ops, n + 1, ops[n].slot, Build(After(ops, n, ttl), ops[n].slot, ops[n].now, ops[n].db).0)
  {
    RunReads(ops, n, ttl);
    hide After, StoreRead, MemoRead, DecisionsRead, WasRead, Build;
    BuildReads(ops, n, After(ops, n, ttl), ops[n].slot, ops[n].now, ops[n].db);
  }

  /** Whichever cache answers a call, its decision rests on the ACL rows that one step of
      the same resource and action found in the database less than 30 + 30 + max(1, TTL)
      seconds before, and on the relationships that one found less than
      30 + max(1, TTL) seconds before. */
  lemma ServedRowsWereReadRecently(ops: seq<Op>, n: nat, ttl: int) returns (j: nat, k: nat)
    requires n < |ops| && ops[n].Call? && HasOwnKeys(ops[n].slot) && KeysHaveOneSlot(ops)
    ensures
      var index := Authorize(After(ops, n, ttl), ops[n].slot, ops[n].key, ttl, ops[n].now, ops[n].db).0;
      && j <= n && (ops[j].Call? || ops[j].BackgroundRefresh?) && ops[j].slot == ops[n].slot && index.acl == ops[j].db.acl
      && ops[n].now - ops[j].now < 30.0 + 30.0 + Lifetime(ttl)
      && k <= n && (ops[k].Call? || ops[k].BackgroundRefresh?) && ops[k].slot == ops[n].slot && index.relations == ops[k].db.relations
      && ops[n].now - ops[k].now < 30.0 + Lifetime(ttl)
  {
    RunReads(ops, n, ttl);
    ServedRowsAreRecent(ops, n, ttl);
    hide After, AllRead, Authorize;
    AuthorizeReads(ops, n, After(ops, n, ttl), ttl);
    var index := Authorize(After(ops, n, ttl), ops[n].slot, ops[n].key, ttl, ops[n].now, ops[n].db).0;
    j :| 0 <= j < n + 1 && ReadsAt(ops[j], ops[n].slot, index.read.aclReadAt) && ops[j].db.acl == index.acl;
    k :| 0 <= k < n + 1 && ReadsAt(ops[k], ops[n].slot, index.read.relationsReadAt) && ops[k].db.relations == index.relations;
  }

  /** After an ACL change was announced, the next build finds neither index nor memo and
      reads the database again, unless a live entry lies under a namespace that came back. */
  lemma ChangeIsReadAgain(w: World, slot: Slot, now: real, later: real, db: Database)
    requires
      var s := InvalidateResource(w, slot.0, now).store;
      && C.Fetch(C.IndexFamily, s, slot.0, slot.1, later).None? && C.Fetch(C.AclFamily, s, slot.0, slot.1, later).None?
    ensures
      Build(InvalidateResource(w, slot.0, now), slot, later, db).0 == Index(db.acl, db.relations, Provenance(later, later))
  {
    hide C.Fetch, C.Raised, C.Filled;
  }

  /** An index that was just rebuilt is remembered for exactly five seconds, should the
      index cache lose it. */
  lemma MemoServesFiveSeconds(w: World, slot: Slot, now: real, db: Database, later: real, db2: Database)
    requires C.Fetch(C.IndexFamily, w.store, slot.0, slot.1, now).None? && Recall(w.memo, slot, now).None?
    requires C.Fetch(C.IndexFamily, Build(w, slot, now, db).1.store, slot.0, slot.1, later).None?
    ensures
      var (index, v) := Build(w, slot, now, db);
      Build(v, slot, later, db2).0 == if later < now + 5.0 then index else Rebuild(v.store, slot, later, db2).0
  {
    hide C.Fetch, Rebuild;
  }

  /** A rebuilt index is found in the index cache, and the ACL rows it read in the ACL cache,
      until 30 seconds have passed or a counter moves. */
  lemma RebuiltIsCached(s: Store, slot: Slot, now: real, db: Database, later: real)
    requires now <= later < now + 30.0
    requires forall level: C.Level :: C.CounterAt(ReadAcl(s, slot, now, db).2, C.LevelKey(C.IndexFamily, level, slot.0))
    requires forall level: C.Level :: C.CounterAt(s, C.LevelKey(C.AclFamily, level, slot.0))
    ensures
      var (index, t) := Rebuild(s, slot, now, db);
      C.Fetch(C.IndexFamily, t, slot.0, slot.1, later) == Some(IndexRows(index))
    ensures C.Fetch(C.AclFamily, s, slot.0, slot.1, now).None? ==>
      C.Fetch(C.AclFamily, ReadAcl(s, slot, now, db).2, slot.0, slot.1, later) == Some(AclRows(db.acl, now))
  {
    var afterAcl := ReadAcl(s, slot, now, db).2;
    C.FilledIsServed(C.IndexFamily, afterAcl, slot.0, slot.1, IndexRows(Rebuild(s, slot, now, db).0), now, later);
    C.FilledIsServed(C.AclFamily, s, slot.0, slot.1, AclRows(db.acl, now), now, later);
    hide C.Fetch, C.Filled, C.LevelKey, C.CounterAt;
  }

  // A background refresh renews the memo for five seconds and is done.
  lemma RefreshRenews(w: World, slot: Slot, now: real, db: Database, later: real)
    requires slot in w.inflight
    ensures
      var v := Refresh(w, slot, now, db);
      && slot !in v.inflight && v.inflight == w.inflight - {slot}
      && Recall(v.memo, slot, later) == (if later < now + 5.0 then Some(Rebuild(w.store, slot, now, db).0) else None)
  {
    hide Rebuild;
  }

  /** A decision is served again under its key until its lifetime has passed, on the rows it
      was first made on, whatever is read meanwhile. */
  lemma DecisionIsServedAgain(w: World, slot: Slot, key: string, ttl: int, now: real, db: Database, other: Slot, later: real, db2: Database)
    requires now <= later < now + Lifetime(ttl) && InFamily("dec", key)
    requires Lookup(Build(w, slot, now, db).1.store, key, now).None?
    ensures
      var (index, v) := Authorize(w, slot, Some(key), ttl, now, db);
      && index == Build(w, slot, now, db).0
      && Authorize(v, other, Some(key), ttl, later, db2).0 == index
  {
    var (index, v) := Authorize(w, slot, Some(key), ttl, now, db);
    BuildSparesKey(v, other, later, db2, key);
    hide Build, InFamily;
  }

  // Building an index writes no key of another family.
  lemma BuildSparesKey(w: World, slot: Slot, now: real, db: Database, key: string)
    requires InFamily("dec", key)
    ensures Lookup(Build(w, slot, now, db).1.store, key, now) == Lookup(w.store, key, now)
  {
    forall f: C.Family, s: Store ensures C.KeyOf(f, s, slot.0, slot.1, now) != key {
      KeyFamilies(f.Prefix(), slot.0, C.Namespace(f, s, slot.0, now), slot.1);
      FamiliesDisjoint("dec", f.Prefix(), key);
    }
    hide C.KeyOf, InFamily, C.Fetch;
  }
}
