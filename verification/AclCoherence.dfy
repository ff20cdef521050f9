/** ACL creates, deletes and lookups against the ACL cache: what a lookup returns is
    what the table holds. */
module AclCoherence {
  import opened Wrappers
  import opened CacheKeys
  import opened CacheBackend
  import C = NamespacedCache

  datatype World = World(rows: seq<AclRow>, nextId: nat, store: Store)

  datatype Op =
    | Create(resource: ResourceRef, subjectType: string, subjectId: string, action: string, effect: string, now: real)
    | Delete(tenant: nat, id: nat, now: real)
    | Read(resource: ResourceRef, action: string, now: real)
    | Elsewhere(op: C.Op)

  predicate Selects(row: AclRow, r: ResourceRef, action: string) {
    row.resource == r && row.action == action
  }

  // The rows of a resource and action, in id order.
  function FindMatching(rows: seq<AclRow>, r: ResourceRef, action: string): seq<AclRow> {
    if rows == [] then []
    else
      var rest := FindMatching(rows[1..], r, action);
      if Selects(rows[0], r, action) then [rows[0]] + rest else rest
  }

  predicate IsEntry(row: AclRow, tenant: nat, id: nat) {
    row.resource.tenant == tenant && row.id == id
  }

  function GetEntry(rows: seq<AclRow>, tenant: nat, id: nat): Option<AclRow> {
    if rows == [] then None else if IsEntry(rows[0], tenant, id) then Some(rows[0]) else GetEntry(rows[1..], tenant, id)
  }

  function Without(rows: seq<AclRow>, tenant: nat, id: nat): seq<AclRow> {
    if rows == [] then []
    else
      var rest := Without(rows[1..], tenant, id);
      if IsEntry(rows[0], tenant, id) then rest else [rows[0]] + rest
  }

  function Cached(w: World, r: ResourceRef, action: string, now: real): Option<seq<AclRow>> {
    match C.Fetch(C.AclFamily, w.store, r, action, now)
    case Some(AclRows(rows, _)) => Some(rows)
    case _ => None
  }

  // What a lookup through the cache returns, and what it leaves.
  function Answer(w: World, r: ResourceRef, action: string, now: real): seq<AclRow> {
    match Cached(w, r, action, now)
    case Some(rows) => rows
    case None => FindMatching(w.rows, r, action)
  }

  function Apply(w: World, op: Op): World {
    match op
    case Create(r, subjectType, subjectId, action, effect, now) =>
      World(w.rows + [AclRow(w.nextId, r, subjectType, subjectId, action, effect)], w.nextId + 1,
            C.Raised(C.AclFamily, w.store, C.ResourceLevel, r, now))
    case Delete(tenant, id, now) =>
      var target := GetEntry(w.rows, tenant, id);
      w.(rows := Without(w.rows, tenant, id),
         store := if target.Some? then C.Raised(C.AclFamily, w.store, C.ResourceLevel, target.value.resource, now) else w.store)
    case Read(r, action, now) =>
      if Cached(w, r, action, now).Some? then w
      else w.(store := C.Filled(C.AclFamily, w.store, r, action, AclRows(FindMatching(w.rows, r, action), now), now))
    case Elsewhere(o) => w.(store := C.Apply(C.AclFamily, w.store, o))
  }

  ghost predicate OpOk(op: Op) {
    match op
    case Create(r, _, _, _, _, _) => r.Plainly()
    case Delete(_, _, _) => true
    case Read(r, _, _) => r.Plainly()
    case Elsewhere(o) => (o.Purge? || o.Foreign?) && C.OpOk(C.AclFamily, o)
  }

  function After(ops: seq<Op>, n: nat): World
    requires n <= |ops|
  {
    if n == 0 then World([], 1, map[]) else Apply(After(ops, n - 1), ops[n - 1])
  }

  // ---------------------------------------------------------------- invariant

  // Ids rise from low on and stay below the next one; no name holds a colon.
  ghost predicate RowsOk(rows: seq<AclRow>, low: nat, nextId: nat) {
    && (forall i :: 0 <= i < |rows| ==> low <= rows[i].id < nextId && rows[i].resource.Plainly())
    && (forall i, j :: 0 <= i < j < |rows| ==> rows[i].id < rows[j].id)
  }

  ghost predicate TableOk(w: World) {
    RowsOk(w.rows, 0, w.nextId)
  }

  // The ideal cache holds nothing but current rows.
  ghost predicate Current(rows: seq<AclRow>, ideal: map<C.Slot, Value>) {
    forall slot :: slot in ideal ==>
      ideal[slot].AclRows? && ideal[slot].rows == FindMatching(rows, slot.0, slot.1)
  }

  ghost predicate Inv(w: World, ideal: map<C.Slot, Value>) {
    && TableOk(w)
    && Current(w.rows, ideal)
    && forall r: ResourceRef :: r.Plainly() ==> C.Coherent(C.AclFamily, w.store, ideal, r, C.ResourceLevel)
  }

  /** The rows found for a resource and action are those of the table that are for them. */
  lemma {:induction false} FindMatchingExactly(rows: seq<AclRow>, r: ResourceRef, action: string)
    ensures forall row :: row in FindMatching(rows, r, action) <==> row in rows && row.resource == r && row.action == action
  {
    if rows == [] {
    } else {
      FindMatchingExactly(rows[1..], r, action);
      assert rows == [rows[0]] + rows[1..];
    }
  }

  ghost predicate IdsRise(rows: seq<AclRow>) {
    forall i, j :: 0 <= i < j < |rows| ==> rows[i].id < rows[j].id
  }

  // They stand in the order of their ids.
  lemma {:induction false} FoundInOrder(rows: seq<AclRow>, r: ResourceRef, action: string)
    requires IdsRise(rows)
    ensures IdsRise(FindMatching(rows, r, action))
  {
    if rows == [] {
    } else {
      var rest := FindMatching(rows[1..], r, action);
      FoundInOrder(rows[1..], r, action);
      FindMatchingExactly(rows[1..], r, action);
      hide FindMatching;
      forall i | 0 <= i < |rest| ensures rows[0].id < rest[i].id {
        assert rest[i] in rest;
        var k :| 0 <= k < |rows[1..]| && rows[1..][k] == rest[i];
        assert rows[k + 1] == rest[i];
      }
      assert FindMatching(rows, r, action) == if Selects(rows[0], r, action) then [rows[0]] + rest else rest by {
        FindStep(rows, r, action);
      }
    }
  }

  lemma FindStep(rows: seq<AclRow>, r: ResourceRef, action: string)
    requires rows != []
    ensures FindMatching(rows, r, action) ==
      (if Selects(rows[0], r, action) then [rows[0]] + FindMatching(rows[1..], r, action) else FindMatching(rows[1..], r, action))
  {
  }

  // A create adds the row it describes under a new id, and a delete takes the row of that
  // tenant and id, if there is one; no other row comes or goes.
  lemma TableAfter(w: World, op: Op)
    ensures op.Create? ==>
      Apply(w, op).rows == w.rows + [AclRow(w.nextId, op.resource, op.subjectType, op.subjectId, op.action, op.effect)]
    ensures op.Delete? ==>
      forall row :: row in Apply(w, op).rows <==> row in w.rows && !(row.resource.tenant == op.tenant && row.id == op.id)
    ensures op.Read? || op.Elsewhere? ==> Apply(w, op).rows == w.rows
  {
    if op.Delete? {
      WithoutExactly(w.rows, op.tenant, op.id);
    }
    hide C.Raised, C.Filled, C.Fetch, Without;
  }

  lemma {:induction false} WithoutExactly(rows: seq<AclRow>, tenant: nat, id: nat)
    ensures forall row :: row in Without(rows, tenant, id) <==> row in rows && !(row.resource.tenant == tenant && row.id == id)
  {
    if rows == [] {
    } else {
      WithoutExactly(rows[1..], tenant, id);
      assert rows == [rows[0]] + rows[1..];
    }
  }

  lemma {:induction false} FindAppended(rows: seq<AclRow>, row: AclRow, r: ResourceRef, action: string)
    ensures FindMatching(rows + [row], r, action) ==
      FindMatching(rows, r, action) + (if Selects(row, r, action) then [row] else [])
  {
    if rows == [] {
      assert [row][1..] == [];
    } else {
      FindAppended(rows[1..], row, r, action);
      assert (rows + [row])[1..] == rows[1..] + [row];
    }
  }

  lemma {:induction false} FindWithout(rows: seq<AclRow>, tenant: nat, id: nat, r: ResourceRef, action: string)
    requires forall i :: 0 <= i < |rows| && IsEntry(rows[i], tenant, id) ==> rows[i].resource != r
    ensures FindMatching(Without(rows, tenant, id), r, action) == FindMatching(rows, r, action)
  {
    if rows == [] {
    } else {
      assert forall i :: 0 <= i < |rows[1..]| ==> rows[1..][i] == rows[i + 1];
      FindWithout(rows[1..], tenant, id, r, action);
    }
  }

  lemma {:induction false} WithoutKeepsTable(rows: seq<AclRow>, tenant: nat, id: nat, low: nat, nextId: nat)
    requires RowsOk(rows, low, nextId)
    ensures RowsOk(Without(rows, tenant, id), low, nextId)
  {
    if rows == [] {
    } else {
      var rest := Without(rows[1..], tenant, id);
      RowsBehind(rows, low, nextId);
      WithoutKeepsTable(rows[1..], tenant, id, rows[0].id + 1, nextId);
      RowInFront(rows[0], rest, low, nextId);
      hide RowsOk;
    }
  }

  lemma RowsBehind(rows: seq<AclRow>, low: nat, nextId: nat)
    requires RowsOk(rows, low, nextId) && rows != []
    ensures RowsOk(rows[1..], rows[0].id + 1, nextId)
  {
  }

  lemma RowInFront(row: AclRow, rest: seq<AclRow>, low: nat, nextId: nat)
    requires low <= row.id < nextId && row.resource.Plainly() && RowsOk(rest, row.id + 1, nextId)
    ensures RowsOk([row] + rest, low, nextId) && RowsOk(rest, low, nextId)
  {
    var all := [row] + rest;
    forall i | 0 < i < |all| ensures all[i] == rest[i - 1] {
    }
  }

  lemma {:induction false} EntryFound(rows: seq<AclRow>, tenant: nat, id: nat)
    requires forall i, j :: 0 <= i < j < |rows| ==> rows[i].id < rows[j].id
    ensures
      var target := GetEntry(rows, tenant, id);
      && (target.Some? ==> target.value in rows && forall i :: 0 <= i < |rows| && IsEntry(rows[i], tenant, id) ==> rows[i] == target.value)
      && (target.None? ==> forall i :: 0 <= i < |rows| ==> !IsEntry(rows[i], tenant, id))
  {
    if rows == [] {
    } else {
      assert forall i :: 0 <= i < |rows[1..]| ==> rows[1..][i] == rows[i + 1];
      EntryFound(rows[1..], tenant, id);
    }
  }

  // ----------------------------------------------------------------- each step

  // What a step does to the cache, if anything.
  ghost function CacheOp(w: World, op: Op): Option<C.Op> {
    match op
    case Create(r, _, _, _, _, now) => Some(C.Invalidate(C.ResourceLevel, r, now))
    case Delete(tenant, id, now) =>
      var target := GetEntry(w.rows, tenant, id);
      if target.Some? then Some(C.Invalidate(C.ResourceLevel, target.value.resource, now)) else None
    case Read(r, action, now) =>
      if Cached(w, r, action, now).Some? then None
      else Some(C.Fill(r, action, AclRows(FindMatching(w.rows, r, action), now), now))
    case Elsewhere(o) => Some(o)
  }

  ghost function IdealStep(w: World, ideal: map<C.Slot, Value>, op: Op): map<C.Slot, Value> {
    match CacheOp(w, op)
    case Some(o) => C.ApplyIdeal(ideal, o)
    case None => ideal
  }

  lemma CoherentStep(w: World, ideal: map<C.Slot, Value>, o: C.Op)
    requires Inv(w, ideal) && C.OpOk(C.AclFamily, o)
    requires o.Invalidate? ==> o.level == C.ResourceLevel
    ensures forall r: ResourceRef :: r.Plainly() ==>
      C.Coherent(C.AclFamily, C.Apply(C.AclFamily, w.store, o), C.ApplyIdeal(ideal, o), r, C.ResourceLevel)
  {
    hide C.Coherent, C.Apply, C.ApplyIdeal, C.OpOk;
    forall r: ResourceRef | r.Plainly()
      ensures C.Coherent(C.AclFamily, C.Apply(C.AclFamily, w.store, o), C.ApplyIdeal(ideal, o), r, C.ResourceLevel)
    {
      match o
      case Fill(_, _, _, _) => C.FillKeeps(C.AclFamily, w.store, ideal, r, C.ResourceLevel, o);
      case Invalidate(_, _, _) => C.InvalidateKeeps(C.AclFamily, w.store, ideal, r, C.ResourceLevel, o);
      case _ => C.OtherKeeps(C.AclFamily, w.store, ideal, r, C.ResourceLevel, o);
    }
  }

  lemma CreateKeepsTable(w: World, ideal: map<C.Slot, Value>, op: Op)
    requires TableOk(w) && Current(w.rows, ideal) && op.Create? && OpOk(op)
    ensures TableOk(Apply(w, op)) && Current(Apply(w, op).rows, IdealStep(w, ideal, op))
  {
    var row := AclRow(w.nextId, op.resource, op.subjectType, op.subjectId, op.action, op.effect);
    forall slot | slot in ideal && slot.0 != op.resource
      ensures FindMatching(w.rows + [row], slot.0, slot.1) == FindMatching(w.rows, slot.0, slot.1)
    {
      FindAppended(w.rows, row, slot.0, slot.1);
    }
    hide C.Raised, FindMatching;
  }

  lemma DeleteKeepsTable(w: World, ideal: map<C.Slot, Value>, op: Op)
    requires TableOk(w) && Current(w.rows, ideal) && op.Delete?
    ensures TableOk(Apply(w, op)) && Current(Apply(w, op).rows, IdealStep(w, ideal, op))
  {
    EntryFound(w.rows, op.tenant, op.id);
    WithoutKeepsTable(w.rows, op.tenant, op.id, 0, w.nextId);
    var target := GetEntry(w.rows, op.tenant, op.id);
    forall slot | slot in ideal && !(target.Some? && slot.0 == target.value.resource)
      ensures FindMatching(Without(w.rows, op.tenant, op.id), slot.0, slot.1) == FindMatching(w.rows, slot.0, slot.1)
    {
      FindWithout(w.rows, op.tenant, op.id, slot.0, slot.1);
    }
    hide C.Raised, FindMatching, Without, GetEntry;
  }

  lemma TableStep(w: World, ideal: map<C.Slot, Value>, op: Op)
    requires TableOk(w) && Current(w.rows, ideal) && OpOk(op)
    ensures TableOk(Apply(w, op)) && Current(Apply(w, op).rows, IdealStep(w, ideal, op))
  {
    if op.Create? {
      CreateKeepsTable(w, ideal, op);
    } else if op.Delete? {
      DeleteKeepsTable(w, ideal, op);
    } else {
      hide C.Fetch, C.Filled, FindMatching;
    }
  }

  lemma CacheOpOk(w: World, op: Op)
    requires TableOk(w) && OpOk(op) && CacheOp(w, op).Some?
    ensures C.OpOk(C.AclFamily, CacheOp(w, op).value)
    ensures CacheOp(w, op).value.Invalidate? ==> CacheOp(w, op).value.level == C.ResourceLevel
    ensures Apply(w, op).store == C.Apply(C.AclFamily, w.store, CacheOp(w, op).value)
  {
    if op.Delete? {
      EntryFound(w.rows, op.tenant, op.id);
    }
    hide C.Fetch, C.Raised, C.Filled, InFamily, FindMatching;
  }

  lemma StepKeepsInv(w: World, ideal: map<C.Slot, Value>, op: Op)
    requires Inv(w, ideal) && OpOk(op)
    ensures Inv(Apply(w, op), IdealStep(w, ideal, op))
  {
    TableStep(w, ideal, op);
    if CacheOp(w, op).Some? {
      CacheOpOk(w, op);
      CoherentStep(w, ideal, CacheOp(w, op).value);
    } else {
      assert Apply(w, op).store == w.store;
    }
    hide C.Coherent, C.Apply, C.ApplyIdeal, C.OpOk, CacheOp, Apply, TableOk, Current;
  }

  lemma {:induction false} RunKeepsInv(ops: seq<Op>, n: nat) returns (ideal: map<C.Slot, Value>)
    requires n <= |ops| && forall i :: 0 <= i < |ops| ==> OpOk(ops[i])
    ensures Inv(After(ops, n), ideal)
  {
    if n == 0 {
      ideal := map[];
    } else {
      ideal := RunKeepsInv(ops, n - 1);
      StepKeepsInv(After(ops, n - 1), ideal, ops[n - 1]);
      ideal := IdealStep(After(ops, n - 1), ideal, ops[n - 1]);
    }
  }

  /** After any history of creates, deletes and lookups the cache answers a lookup
      with exactly the rows the table holds now, or not at all. */
  lemma LookupIsCurrent(ops: seq<Op>, n: nat, r: ResourceRef, action: string, now: real)
    requires n <= |ops| && r.Plainly() && forall i :: 0 <= i < |ops| ==> OpOk(ops[i])
    ensures
      var w := After(ops, n);
      && (Cached(w, r, action, now).Some? ==> Cached(w, r, action, now).value == FindMatching(w.rows, r, action))
      && Answer(w, r, action, now) == FindMatching(w.rows, r, action)
  {
    var ideal := RunKeepsInv(ops, n);
    var w := After(ops, n);
    assert C.Coherent(C.AclFamily, w.store, ideal, r, C.ResourceLevel);
    C.CoherentNamespace(C.AclFamily, w.store, ideal, r, C.ResourceLevel, now);
    hide After, EntryKey, C.LevelKey, C.Namespace;
  }
}
