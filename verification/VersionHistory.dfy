/** Policy version histories: create, rollback and delete over the two tables. */
module VersionHistory {
  import opened Domain

  // A tenant and a policy key.
  type Slot = (nat, string)

  datatype Content = Content(action: string, effect: string, priority: int, conditions: Conditions, state: string)

  datatype PolicyRow = PolicyRow(id: nat, current: int)

  datatype VersionRow = VersionRow(tenant: nat, content: Content)

  datatype Tables = Tables(policies: map<Slot, PolicyRow>, versions: map<(nat, int), VersionRow>)

  datatype Outcome = Written(version: int) | Duplicate | RolledBack(version: int) | PolicyNotFound | VersionNotFound | Deleted

  // The primary key the database hands out is in use by no policy.
  ghost predicate Fresh(t: Tables, id: nat) {
    forall slot :: slot in t.policies ==> t.policies[slot].id != id
  }

  // A duplicate (policy, version) pair is rejected at commit, which undoes the rest.
  function Create(t: Tables, slot: Slot, content: Content, freshId: nat): (Outcome, Tables) {
    var row := if slot in t.policies then t.policies[slot].(current := t.policies[slot].current + 1) else PolicyRow(freshId, 1);
    if (row.id, row.current) in t.versions then (Duplicate, t)
    else
      (Written(row.current),
       Tables(t.policies[slot := row], t.versions[(row.id, row.current) := VersionRow(slot.0, content)]))
  }

  function Rollback(t: Tables, slot: Slot, version: int): (Outcome, Tables) {
    if slot !in t.policies then (PolicyNotFound, t)
    else
      var id := t.policies[slot].id;
      if (id, version) !in t.versions || t.versions[(id, version)].tenant != slot.0 then (VersionNotFound, t)
      else (RolledBack(version), t.(policies := t.policies[slot := PolicyRow(id, version)]))
  }

  function Delete(t: Tables, slot: Slot): (Outcome, Tables) {
    if slot !in t.policies then (Deleted, t)
    else
      var id := t.policies[slot].id;
      (Deleted,
       Tables(map s | s in t.policies && t.policies[s].id != id :: t.policies[s],
              map v | v in t.versions && !(v.0 == id && t.versions[v].tenant == slot.0) :: t.versions[v]))
  }

  class Repository {
    var policies: map<Slot, PolicyRow>
    var versions: map<(nat, int), VersionRow>

    ghost predicate Valid()
      reads this
    {
      Inv(Tables(policies, versions))
    }

    constructor ()
      ensures Valid() && policies == map[] && versions == map[]
    {
      policies, versions := map[], map[];
    }

    method CreatePolicyVersion(slot: Slot, content: Content, freshId: nat) returns (o: Outcome)
      requires Valid() && Fresh(Tables(policies, versions), freshId)
      modifies this
      ensures Valid()
      ensures (o, Tables(policies, versions)) == Create(Tables(old(policies), old(versions)), slot, content, freshId)
    {
      CreateKeepsInv(Tables(policies, versions), slot, content, freshId);
      hide Inv;
      var nextVersion := 1;
      var id := freshId;
      if slot in policies {
        id := policies[slot].id;
        nextVersion := policies[slot].current + 1;
      }
      if (id, nextVersion) in versions {
        return Duplicate;
      }
      policies := policies[slot := PolicyRow(id, nextVersion)];
      versions := versions[(id, nextVersion) := VersionRow(slot.0, content)];
      return Written(nextVersion);
    }

    method RollbackPolicy(slot: Slot, version: int) returns (o: Outcome)
      requires Valid()
      modifies this
      ensures Valid()
      ensures (o, Tables(policies, versions)) == Rollback(Tables(old(policies), old(versions)), slot, version)
    {
      RollbackKeepsInv(Tables(policies, versions), slot, version);
      hide Inv;
      if slot !in policies {
        return PolicyNotFound;
      }
      var id := policies[slot].id;
      if (id, version) !in versions || versions[(id, version)].tenant != slot.0 {
        return VersionNotFound;
      }
      policies := policies[slot := PolicyRow(id, version)];
      return RolledBack(version);
    }

    // The slot is free afterwards; every other policy keeps its row, and every version
    // row but those of the deleted policy stays as it was.
    method DeletePolicy(slot: Slot) returns (o: Outcome)
      requires Valid()
      modifies this
      ensures Valid() && o == Deleted
      ensures policies == old(policies) - {slot}
      ensures forall v :: v in versions <==> v in old(versions) && !(slot in old(policies) && v.0 == old(policies)[slot].id)
      ensures forall v :: v in versions ==> versions[v] == old(versions)[v]
      ensures Tables(policies, versions) == Delete(Tables(old(policies), old(versions)), slot).1
    {
      DeleteKeepsInv(Tables(policies, versions), slot);
      DeleteTakes(Tables(policies, versions), slot);
      hide Inv;
      if slot in policies {
        var id := policies[slot].id;
        versions := map v | v in versions && !(v.0 == id && versions[v].tenant == slot.0) :: versions[v];
        policies := map s | s in policies && policies[s].id != id :: policies[s];
      }
      return Deleted;
    }
  }

  // -------------------------------------------------------------------- runs

  datatype Op =
    | CreateOp(slot: Slot, content: Content, freshId: nat)
    | RollbackOp(slot: Slot, version: int)
    | DeleteOp(slot: Slot)

  function Result(t: Tables, op: Op): (Outcome, Tables) {
    match op
    case CreateOp(slot, content, freshId) => Create(t, slot, content, freshId)
    case RollbackOp(slot, version) => Rollback(t, slot, version)
    case DeleteOp(slot) => Delete(t, slot)
  }

  function After(run: seq<Op>, n: nat): Tables
    requires n <= |run|
  {
    if n == 0 then Tables(map[], map[]) else Result(After(run, n - 1), run[n - 1]).1
  }

  ghost predicate RunOk(run: seq<Op>) {
    forall i :: 0 <= i < |run| && run[i].CreateOp? ==> Fresh(After(run, i), run[i].freshId)
  }

  // The versions of a live policy are exactly 1..n, and its current one is among them.
  ghost predicate HistoryIs(t: Tables, slot: Slot, n: int) {
    && slot in t.policies
    && 1 <= t.policies[slot].current <= n
    && forall v: int :: (t.policies[slot].id, v) in t.versions <==> 1 <= v <= n
  }

  ghost predicate Owned(t: Tables, v: (nat, int))
    requires v in t.versions
  {
    exists slot :: slot in t.policies && t.policies[slot].id == v.0 && slot.0 == t.versions[v].tenant
  }

  ghost predicate Inv(t: Tables) {
    && (forall a, b | a in t.policies && b in t.policies :: t.policies[a].id == t.policies[b].id ==> a == b)
    && (forall v :: v in t.versions ==> Owned(t, v))
    && (forall slot :: slot in t.policies ==> exists n :: HistoryIs(t, slot, n))
  }

  lemma CreateKeepsOwned(t: Tables, slot: Slot, content: Content, freshId: nat)
    requires Inv(t) && Fresh(t, freshId)
    ensures
      var u := Create(t, slot, content, freshId).1;
      forall v :: v in u.versions ==> Owned(u, v)
  {
    var u := Create(t, slot, content, freshId).1;
    forall v | v in u.versions ensures Owned(u, v) {
      if v in t.versions {
        var s :| s in t.policies && t.policies[s].id == v.0 && s.0 == t.versions[v].tenant;
        assert s in u.policies && u.policies[s].id == v.0;
      } else {
        assert slot in u.policies && u.policies[slot].id == v.0;
      }
    }
  }

  // A create that goes through appends the next version; one that does not, changes nothing.
  lemma CreateExtends(t: Tables, slot: Slot, content: Content, freshId: nat, n: int)
    requires Inv(t) && Fresh(t, freshId)
    requires if slot in t.policies then HistoryIs(t, slot, n) else n == 0
    ensures
      var (o, u) := Create(t, slot, content, freshId);
      if slot !in t.policies || t.policies[slot].current == n
      then o == Written(n + 1) && HistoryIs(u, slot, n + 1) && u.policies[slot].current == n + 1
           && u.versions[(u.policies[slot].id, n + 1)].content == content
      else o == Duplicate && u == t
  {
    if slot !in t.policies {
      forall v: int ensures (freshId, v) !in t.versions {
        assert (freshId, v) in t.versions ==> Owned(t, (freshId, v));
      }
    }
  }

  lemma CreateKeepsInv(t: Tables, slot: Slot, content: Content, freshId: nat)
    requires Inv(t) && Fresh(t, freshId)
    ensures Inv(Create(t, slot, content, freshId).1)
  {
    var u := Create(t, slot, content, freshId).1;
    CreateKeepsOwned(t, slot, content, freshId);
    forall s | s in u.policies ensures exists n :: HistoryIs(u, s, n) {
      if s == slot {
        var n: int :| if slot in t.policies then HistoryIs(t, slot, n) else n == 0;
        CreateExtends(t, slot, content, freshId, n);
      } else {
        var n :| HistoryIs(t, s, n);
        assert HistoryIs(u, s, n);
      }
    }
  }

  lemma RollbackKeepsInv(t: Tables, slot: Slot, version: int)
    requires Inv(t)
    ensures Inv(Rollback(t, slot, version).1)
  {
    var u := Rollback(t, slot, version).1;
    forall v | v in u.versions ensures Owned(u, v) {
      var s :| s in t.policies && t.policies[s].id == v.0 && s.0 == t.versions[v].tenant;
      assert s in u.policies && u.policies[s].id == v.0;
    }
    forall s | s in u.policies ensures exists n :: HistoryIs(u, s, n) {
      var n :| HistoryIs(t, s, n);
      assert HistoryIs(u, s, n);
    }
  }

  lemma DeleteKeepsInv(t: Tables, slot: Slot)
    requires Inv(t)
    ensures Inv(Delete(t, slot).1)
  {
    var u := Delete(t, slot).1;
    forall v | v in u.versions ensures Owned(u, v) {
      var s :| s in t.policies && t.policies[s].id == v.0 && s.0 == t.versions[v].tenant;
      assert s in u.policies;
    }
    forall s | s in u.policies ensures exists n :: HistoryIs(u, s, n) {
      var n :| HistoryIs(t, s, n);
      assert HistoryIs(u, s, n);
    }
  }

  // The two delete statements take the policy, all its versions, and nothing else.
  lemma DeleteTakes(t: Tables, slot: Slot)
    requires Inv(t)
    ensures
      var u := Delete(t, slot).1;
      && u.policies == t.policies - {slot}
      && (forall v :: v in u.versions <==> v in t.versions && !(slot in t.policies && v.0 == t.policies[slot].id))
      && forall v :: v in u.versions ==> u.versions[v] == t.versions[v]
  {
    if slot in t.policies {
      forall v | v in t.versions && v.0 == t.policies[slot].id ensures t.versions[v].tenant == slot.0 {
        assert Owned(t, v);
      }
    }
  }

  // A deleted policy is forgotten: every other history is as it was, and the next
  // create under the key starts again at version 1.
  lemma DeleteForgets(t: Tables, slot: Slot, other: Slot, n: int, content: Content, freshId: nat)
    requires Inv(t) && other != slot
    requires Fresh(Delete(t, slot).1, freshId)
    ensures
      var u := Delete(t, slot).1;
      var (o, w) := Create(u, slot, content, freshId);
      && slot !in u.policies
      && (HistoryIs(u, other, n) <==> HistoryIs(t, other, n))
      && o == Written(1) && HistoryIs(w, slot, 1) && w.versions[(freshId, 1)].content == content
  {
    DeleteTakes(t, slot);
    DeleteKeepsInv(t, slot);
    var u := Delete(t, slot).1;
    CreateExtends(u, slot, content, freshId, 0);
    hide Delete, Create;
  }

  lemma {:induction false} RunKeepsInv(run: seq<Op>, n: nat)
    requires n <= |run| && RunOk(run)
    ensures Inv(After(run, n))
  {
    if n == 0 {
    } else {
      RunKeepsInv(run, n - 1);
      var t := After(run, n - 1);
      hide Inv, Create, Rollback, Delete;
      match run[n - 1]
      case CreateOp(slot, content, freshId) => CreateKeepsInv(t, slot, content, freshId);
      case RollbackOp(slot, version) => RollbackKeepsInv(t, slot, version);
      case DeleteOp(slot) => DeleteKeepsInv(t, slot);
    }
  }

  /** After any run a live policy has the versions 1..n with the current one among
      them; a create then writes n + 1 exactly when the current version is n, and is
      rejected without a trace otherwise. */
  lemma HistoriesAreContiguous(run: seq<Op>, k: nat, slot: Slot, content: Content, freshId: nat) returns (n: int)
    requires k <= |run| && RunOk(run) && slot in After(run, k).policies && Fresh(After(run, k), freshId)
    ensures
      var t := After(run, k);
      var (o, u) := Create(t, slot, content, freshId);
      && HistoryIs(t, slot, n)
      && (if t.policies[slot].current == n then o == Written(n + 1) && HistoryIs(u, slot, n + 1) else o == Duplicate && u == t)
  {
    RunKeepsInv(run, k);
    var t := After(run, k);
    n :| HistoryIs(t, slot, n);
    CreateExtends(t, slot, content, freshId, n);
    hide After, Create;
  }

  // The versions of a slot's policy survive, content and all.
  ghost predicate Survives(t: Tables, u: Tables, slot: Slot) {
    slot in t.policies ==>
      && slot in u.policies && u.policies[slot].id == t.policies[slot].id
      && forall v: int :: (t.policies[slot].id, v) in t.versions ==>
           (t.policies[slot].id, v) in u.versions && u.versions[(t.policies[slot].id, v)] == t.versions[(t.policies[slot].id, v)]
  }

  lemma StepKeepsVersions(t: Tables, op: Op, slot: Slot)
    requires Inv(t) && op != DeleteOp(slot)
    ensures Survives(t, Result(t, op).1, slot)
  {
  }

  // Until its policy is deleted, a written version never changes.
  lemma {:induction false} WrittenNeverChanges(run: seq<Op>, i: nat, n: nat, slot: Slot)
    requires i <= n <= |run| && RunOk(run)
    requires forall k :: i <= k < n ==> run[k] != DeleteOp(slot)
    ensures Survives(After(run, i), After(run, n), slot)
    decreases n
  {
    hide Result, Inv;
    if i == n {
    } else {
      hide Survives;
      WrittenNeverChanges(run, i, n - 1, slot);
      RunKeepsInv(run, n - 1);
      StepKeepsVersions(After(run, n - 1), run[n - 1], slot);
      hide RunOk;
      SurvivesOn(After(run, i), After(run, n - 1), After(run, n), slot);
    }
  }

  lemma SurvivesOn(t: Tables, u: Tables, w: Tables, slot: Slot)
    requires Survives(t, u, slot) && Survives(u, w, slot)
    ensures Survives(t, w, slot)
  {
  }

  /** A rollback goes through exactly to a version the policy has; otherwise nothing
      changes and the outcome tells whether policy or version is missing. */
  lemma RollbackExactly(t: Tables, slot: Slot, version: int, n: int)
    requires Inv(t) && (slot in t.policies ==> HistoryIs(t, slot, n))
    ensures
      var (o, u) := Rollback(t, slot, version);
      if slot !in t.policies then o == PolicyNotFound && u == t
      else if 1 <= version <= n then
        && o == RolledBack(version) && HistoryIs(u, slot, n) && u.policies[slot].current == version && u.versions == t.versions
        && forall s :: s != slot ==> (s in u.policies <==> s in t.policies) && (s in t.policies ==> u.policies[s] == t.policies[s])
      else o == VersionNotFound && u == t
  {
    if slot in t.policies && 1 <= version <= n {
      assert Owned(t, (t.policies[slot].id, version));
    }
  }

  // A rollback brings back exactly what was written under that version.
  lemma RollbackRestores(run: seq<Op>, i: nat, n: nat, slot: Slot, version: int)
    requires i <= n < |run| && RunOk(run)
    requires forall k :: i <= k < n ==> run[k] != DeleteOp(slot)
    requires slot in After(run, i).policies && (After(run, i).policies[slot].id, version) in After(run, i).versions
    requires run[n] == RollbackOp(slot, version)
    ensures
      var t, u := After(run, i), After(run, n + 1);
      && Result(After(run, n), run[n]).0 == RolledBack(version)
      && slot in u.policies && u.policies[slot] == PolicyRow(t.policies[slot].id, version)
      && (t.policies[slot].id, version) in u.versions
      && u.versions[(t.policies[slot].id, version)].content == t.versions[(t.policies[slot].id, version)].content
  {
    WrittenNeverChanges(run, i, n, slot);
    RunKeepsInv(run, n);
    var t := After(run, n);
    var id := t.policies[slot].id;
    assert Owned(t, (id, version));
    assert After(run, n + 1) == Rollback(t, slot, version).1;
    hide After;
  }
}
