/** Idempotent writes: the record table, and the start, execute, complete protocol of
    any number of interleaved requests. */
module Idempotency {
  import opened Wrappers

  // A request scope with an idempotency key; the table holds at most one record each.
  type Slot = (string, string)

  // An HTTP status.
  type Status = n: nat | 100 <= n < 600 witness 200

  datatype Response = Response(status: Status, body: string, contentType: Option<string>)

  datatype Record = Record(id: nat, hash: string, response: Option<Response>)

  datatype Table = Table(records: map<Slot, Record>, nextId: nat)

  datatype StartResult = Started(id: nat) | Mismatch | Pending | Replay(response: Response)

  // The insert and its commit: None when the uniqueness constraint rejects it.
  function Insert(t: Table, slot: Slot, hash: string): (Option<nat>, Table) {
    if slot in t.records then (None, t)
    else (Some(t.nextId), Table(t.records[slot := Record(t.nextId, hash, None)], t.nextId + 1))
  }

  // What a rejected insert finds; None when the record is gone, which raises.
  function Inspect(t: Table, slot: Slot, hash: string): Option<StartResult> {
    if slot !in t.records then None
    else if t.records[slot].hash != hash then Some(Mismatch)
    else if t.records[slot].response.None? then Some(Pending)
    else Some(Replay(t.records[slot].response.value))
  }

  function Complete(t: Table, id: nat, response: Response): Table {
    t.(records := map slot | slot in t.records ::
      if t.records[slot].id == id then t.records[slot].(response := Some(response)) else t.records[slot])
  }

  // The response rebuilt from a record.
  function Replayed(r: Response): Response {
    r.(contentType := Some(if r.contentType.Some? && r.contentType.value != "" then r.contentType.value else "application/json"))
  }

  class Repository {
    var table: Table

    // The primary key is unique.
    ghost predicate Valid()
      reads this
    {
      TableOk(table)
    }

    constructor ()
      ensures Valid() && table == Table(map[], 1)
    {
      table := Table(map[], 1);
    }

    method Start(slot: Slot, hash: string) returns (r: Option<StartResult>)
      requires Valid()
      modifies this
      ensures Valid()
      ensures
        var (id, after) := Insert(old(table), slot, hash);
        table == after && r == (if id.Some? then Some(Started(id.value)) else Inspect(after, slot, hash))
      ensures slot !in old(table.records) ==>
        && r == Some(Started(old(table.nextId)))
        && table.records == old(table.records)[slot := Record(old(table.nextId), hash, None)]
      ensures slot in old(table.records) ==>
        && table == old(table)
        && r == Some(if old(table.records[slot].hash) != hash then Mismatch
                     else match old(table.records[slot].response) case None => Pending case Some(response) => Replay(response))
    {
      if slot !in table.records {
        var id := table.nextId;
        table := Table(table.records[slot := Record(id, hash, None)], id + 1);
        return Some(Started(id));
      }
      var existing := table.records[slot];
      if existing.hash != hash {
        return Some(Mismatch);
      }
      if existing.response.None? {
        return Some(Pending);
      }
      return Some(Replay(existing.response.value));
    }

    // The record with that id takes the response; no other record changes, and none
    // comes or goes.
    method Finish(id: nat, response: Response)
      requires Valid()
      modifies this
      ensures Valid()
      ensures table.records.Keys == old(table.records.Keys) && table.nextId == old(table.nextId)
      ensures forall slot :: slot in table.records ==>
        && table.records[slot].id == old(table.records[slot].id) && table.records[slot].hash == old(table.records[slot].hash)
        && table.records[slot].response == if table.records[slot].id == id then Some(response) else old(table.records[slot].response)
      ensures table == Complete(old(table), id, response)
    {
      if slot: Slot :| slot in table.records && table.records[slot].id == id {
        table := table.(records := table.records[slot := table.records[slot].(response := Some(response))]);
      }
    }
  }

  // ---------------------------------------------------------------- protocol

  datatype Reply =
    | Conflict(reason: StartResult)
    | Repeated(response: Response)
    | Direct(response: Response)

  /** Where a request stands: waiting to insert, rejected and about to look, holding
      the record, done with the handler, answered, broken off, or raised. */
  datatype Phase =
    | Arrived
    | Rejected
    | Holding(id: nat)
    | Ran(id: nat, response: Response)
    | Answered(reply: Reply)
    | Lost
    | Raised

  datatype Request = Request(slot: Slot, hash: string, phase: Phase)

  // One execution of the handler.
  datatype Execution = Execution(slot: Slot, hash: string, response: Response)

  datatype State = State(table: Table, requests: map<nat, Request>, executions: seq<Execution>)

  datatype Action =
    | Arrive(n: nat, slot: Slot, hash: string)
    | TryInsert(n: nat)
    | Look(n: nat)
    | Handle(n: nat, response: Response)
    | Respond(n: nat)
    | Break(n: nat)

  function Moved(s: State, n: nat, p: Phase): State
    requires n in s.requests
  {
    s.(requests := s.requests[n := s.requests[n].(phase := p)])
  }

  function Step(s: State, a: Action): State {
    if a.Arrive? then
      if a.n in s.requests then s else s.(requests := s.requests[a.n := Request(a.slot, a.hash, Arrived)])
    else if a.n !in s.requests then s
    else
      var q := s.requests[a.n];
      match a
      case TryInsert(n) =>
        if !q.phase.Arrived? then s
        else
          var (id, table) := Insert(s.table, q.slot, q.hash);
          if id.Some? then Moved(s, n, Holding(id.value)).(table := table) else Moved(s, n, Rejected)
      case Look(n) =>
        if !q.phase.Rejected? then s
        else
          (match Inspect(s.table, q.slot, q.hash)
           case None => Moved(s, n, Raised)
           case Some(Replay(r)) => Moved(s, n, Answered(Repeated(Replayed(r))))
           case Some(other) => Moved(s, n, Answered(Conflict(other))))
      case Handle(n, response) =>
        if !q.phase.Holding? then s
        else Moved(s, n, Ran(q.phase.id, response)).(executions := s.executions + [Execution(q.slot, q.hash, response)])
      case Respond(n) =>
        if !q.phase.Ran? then s
        else
          Moved(s, n, Answered(Direct(q.phase.response)))
          .(table := if q.phase.response.status < 500 then Complete(s.table, q.phase.id, q.phase.response) else s.table)
      case Break(n) => if q.phase.Holding? || q.phase.Ran? then Moved(s, n, Lost) else s
  }

  function After(run: seq<Action>, n: nat): State
    requires n <= |run|
  {
    if n == 0 then State(Table(map[], 1), map[], []) else Step(After(run, n - 1), run[n - 1])
  }

  // --------------------------------------------------------------- invariant

  ghost predicate TableOk(t: Table) {
    && (forall slot :: slot in t.records ==> t.records[slot].id < t.nextId)
    && (forall a, b :: a in t.records && b in t.records && t.records[a].id == t.records[b].id ==> a == b)
  }

  predicate Owns(q: Request) {
    q.phase.Holding? || q.phase.Ran?
  }

  ghost predicate Executed(runs: seq<Execution>, slot: Slot) {
    exists i :: 0 <= i < |runs| && runs[i].slot == slot
  }

  ghost predicate OwnerOk(t: Table, runs: seq<Execution>, q: Request)
    requires Owns(q)
  {
    && q.slot in t.records
    && t.records[q.slot] == Record(q.phase.id, q.hash, None)
    && (q.phase.Holding? ==> !Executed(runs, q.slot))
    && (q.phase.Ran? ==> Execution(q.slot, q.hash, q.phase.response) in runs)
  }

  ghost predicate RequestOk(t: Table, runs: seq<Execution>, q: Request) {
    match q.phase
    case Holding(_) => OwnerOk(t, runs, q)
    case Ran(_, _) => OwnerOk(t, runs, q)
    case Rejected => q.slot in t.records
    case Answered(Repeated(r)) =>
      && q.slot in t.records && t.records[q.slot].response.Some?
      && t.records[q.slot].hash == q.hash && r == Replayed(t.records[q.slot].response.value)
    case Answered(Conflict(Mismatch)) => q.slot in t.records && t.records[q.slot].hash != q.hash
    case Answered(Conflict(Pending)) => q.slot in t.records && t.records[q.slot].hash == q.hash
    case Answered(Conflict(_)) => false
    case Raised => false
    case _ => true
  }

  ghost predicate RequestsOk(t: Table, runs: seq<Execution>, requests: map<nat, Request>) {
    && (forall n :: n in requests ==> RequestOk(t, runs, requests[n]))
    && (forall m, n | m in requests && n in requests && Owns(requests[m]) && Owns(requests[n])
          :: requests[m].slot == requests[n].slot ==> m == n)
  }

  ghost predicate ExecutionsOk(t: Table, runs: seq<Execution>) {
    && (forall i :: 0 <= i < |runs| ==>
          runs[i].slot in t.records && t.records[runs[i].slot].hash == runs[i].hash)
    && (forall i, j :: 0 <= i < j < |runs| ==> runs[i].slot != runs[j].slot)
  }

  // A completed record holds the response of its slot's execution.
  ghost predicate CompletedOk(t: Table, runs: seq<Execution>) {
    forall slot :: slot in t.records && t.records[slot].response.Some? ==>
      && t.records[slot].response.value.status < 500
      && Execution(slot, t.records[slot].hash, t.records[slot].response.value) in runs
  }

  ghost predicate Inv(s: State) {
    && TableOk(s.table)
    && RequestsOk(s.table, s.executions, s.requests)
    && ExecutionsOk(s.table, s.executions)
    && CompletedOk(s.table, s.executions)
  }

  lemma InsertKeepsRecords(s: State, slot: Slot, hash: string)
    requires Inv(s)
    ensures
      var t := Insert(s.table, slot, hash).1;
      && TableOk(t) && ExecutionsOk(t, s.executions) && CompletedOk(t, s.executions)
      && forall n :: n in s.requests ==> RequestOk(t, s.executions, s.requests[n])
  {
    hide Replayed, Executed;
  }

  lemma InsertKeepsInv(s: State, n: nat)
    requires Inv(s)
    ensures Inv(Step(s, TryInsert(n)))
  {
    hide Replayed, TableOk, CompletedOk;
    if n in s.requests {
      InsertKeepsRecords(s, s.requests[n].slot, s.requests[n].hash);
    }
  }

  lemma LookKeepsInv(s: State, n: nat)
    requires Inv(s)
    ensures Inv(Step(s, Look(n)))
  {
    hide TableOk, ExecutionsOk, CompletedOk, Replayed;
  }

  lemma HandleKeepsInv(s: State, n: nat, r: Response)
    requires Inv(s)
    ensures Inv(Step(s, Handle(n, r)))
  {
    hide Replayed, TableOk;
  }

  lemma RespondKeepsInv(s: State, n: nat)
    requires Inv(s)
    ensures Inv(Step(s, Respond(n)))
  {
    hide Replayed, Executed;
  }

  lemma RestKeepsInv(s: State, a: Action)
    requires Inv(s) && (a.Arrive? || a.Break?)
    ensures Inv(Step(s, a))
  {
  }

  lemma {:induction false} RunKeepsInv(run: seq<Action>, n: nat)
    requires n <= |run|
    ensures Inv(After(run, n))
  {
    if n == 0 {
    } else {
      RunKeepsInv(run, n - 1);
      hide Inv, Step;
      var s := After(run, n - 1);
      match run[n - 1]
      case TryInsert(k) => InsertKeepsInv(s, k);
      case Look(k) => LookKeepsInv(s, k);
      case Handle(k, r) => HandleKeepsInv(s, k, r);
      case Respond(k) => RespondKeepsInv(s, k);
      case _ => RestKeepsInv(s, run[n - 1]);
    }
  }

  // ---------------------------------------------------------------- theorems

  /** For each scope and key the handler runs at most once, and only for the request
      hash on the record. */
  lemma HandlerRunsAtMostOnce(run: seq<Action>, n: nat, i: nat, j: nat)
    requires n <= |run| && i < |After(run, n).executions| && j < |After(run, n).executions|
    ensures
      var s := After(run, n);
      var e := s.executions[i];
      && (e.slot == s.executions[j].slot ==> i == j)
      && e.slot in s.table.records && s.table.records[e.slot].hash == e.hash
  {
    RunKeepsInv(run, n);
    hide After, RequestsOk, CompletedOk, TableOk;
  }

  // No start ever finds its record gone, so none raises.
  lemma NoStartRaises(run: seq<Action>, n: nat, k: nat)
    requires n <= |run| && k in After(run, n).requests
    ensures !After(run, n).requests[k].phase.Raised?
  {
    RunKeepsInv(run, n);
    hide After, ExecutionsOk, CompletedOk, TableOk;
  }

  ghost predicate Preserved(s: State, t: State) {
    forall slot :: slot in s.table.records ==>
      && slot in t.table.records
      && t.table.records[slot].id == s.table.records[slot].id && t.table.records[slot].hash == s.table.records[slot].hash
      && (s.table.records[slot].response.Some? ==> t.table.records[slot] == s.table.records[slot])
  }

  lemma StepPreserves(s: State, a: Action)
    requires Inv(s)
    ensures Preserved(s, Step(s, a))
  {
    hide ExecutionsOk, CompletedOk, Replayed, Inspect;
    if a.Respond? && a.n in s.requests && s.requests[a.n].phase.Ran? {
      assert RequestOk(s.table, s.executions, s.requests[a.n]);
    }
  }

  // A record once written keeps its hash, and once completed never changes.
  lemma {:induction false} CompletedNeverChanges(run: seq<Action>, i: nat, n: nat)
    requires i <= n <= |run|
    ensures Preserved(After(run, i), After(run, n))
    decreases n
  {
    if i == n {
    } else {
      CompletedNeverChanges(run, i, n - 1);
      RunKeepsInv(run, n - 1);
      StepPreserves(After(run, n - 1), run[n - 1]);
      hide Step, Inv;
    }
  }

  /** Every replay returns the status and body of the one execution for its scope and
      key, which had its own hash and a status below 500. */
  lemma ReplayIsTheFirstResponse(run: seq<Action>, n: nat, k: nat)
    requires n <= |run| && k in After(run, n).requests
    requires After(run, n).requests[k].phase.Answered? && After(run, n).requests[k].phase.reply.Repeated?
    ensures
      var s := After(run, n);
      var q := s.requests[k];
      exists e :: e in s.executions && e.slot == q.slot && e.hash == q.hash && e.response.status < 500
                  && q.phase.reply.response.status == e.response.status
                  && q.phase.reply.response.body == e.response.body
                  && q.phase.reply.response.contentType ==
                       Some(if e.response.contentType in {None, Some("")} then "application/json" else e.response.contentType.value)
  {
    RunKeepsInv(run, n);
    hide After, ExecutionsOk, TableOk;
    var s := After(run, n);
    var q := s.requests[k];
    assert RequestOk(s.table, s.executions, q);
    var r := s.table.records[q.slot].response.value;
    assert Execution(q.slot, q.hash, r) in s.executions;
  }

  // What a rejected request finds: another hash is a mismatch, the same hash is still in
  // progress or has its response to give, and nothing else can be found.
  lemma LookTells(s: State, k: nat)
    requires Inv(s) && k in s.requests && s.requests[k].phase.Rejected?
    ensures
      var q := s.requests[k];
      && q.slot in s.table.records
      && Step(s, Look(k)).requests[k].phase == Answered(
           if s.table.records[q.slot].hash != q.hash then Conflict(Mismatch)
           else match s.table.records[q.slot].response
                case None => Conflict(Pending)
                case Some(response) => Repeated(Replayed(response)))
  {
    hide TableOk, ExecutionsOk, CompletedOk, Replayed;
    assert RequestOk(s.table, s.executions, s.requests[k]);
  }

  /** A conflict tells its cause: "different request" exactly when the record was made for
      another hash, "in progress" exactly when it was made for the same. */
  lemma ConflictTells(run: seq<Action>, n: nat, k: nat)
    requires n <= |run| && k in After(run, n).requests
    requires After(run, n).requests[k].phase.Answered? && After(run, n).requests[k].phase.reply.Conflict?
    ensures
      var t, q := After(run, n).table, After(run, n).requests[k];
      && q.slot in t.records
      && (q.phase.reply.reason == Mismatch <==> t.records[q.slot].hash != q.hash)
      && (q.phase.reply.reason == Pending <==> t.records[q.slot].hash == q.hash)
  {
    RunKeepsInv(run, n);
    hide After, ExecutionsOk, CompletedOk, TableOk;
    var s := After(run, n);
    assert RequestOk(s.table, s.executions, s.requests[k]);
  }

  // ------------------------------------------------------ a key that is used up

  // The record is unfinished and nobody holds it any more.
  ghost predicate Abandoned(s: State, slot: Slot) {
    && slot in s.table.records && s.table.records[slot].response.None?
    && forall k :: k in s.requests && s.requests[k].slot == slot ==> !Owns(s.requests[k])
  }

  lemma AbandonedStays(s: State, a: Action, slot: Slot)
    requires Inv(s) && Abandoned(s, slot)
    ensures Abandoned(Step(s, a), slot)
  {
    hide ExecutionsOk, CompletedOk, Replayed, Inspect;
    if a.Respond? && a.n in s.requests && s.requests[a.n].phase.Ran? {
      assert RequestOk(s.table, s.executions, s.requests[a.n]);
    }
  }

  /** After a server error or a broken-off request nobody completes the record: from
      then on the handler never runs for the key again, and no request for it that
      was still undecided gets anything but a conflict. */
  lemma {:induction false} AbandonedForGood(run: seq<Action>, i: nat, n: nat, slot: Slot)
    requires i <= n <= |run| && Abandoned(After(run, i), slot)
    ensures Abandoned(After(run, n), slot)
    ensures forall k :: k in After(run, n).requests && After(run, n).requests[k].slot == slot
              && After(run, n).requests[k].phase.Answered? && !After(run, n).requests[k].phase.reply.Conflict?
              ==> k in After(run, i).requests && After(run, i).requests[k] == After(run, n).requests[k]
    decreases n
  {
    if i == n {
    } else {
      AbandonedForGood(run, i, n - 1, slot);
      RunKeepsInv(run, n - 1);
      var s := After(run, n - 1);
      AbandonedStays(s, run[n - 1], slot);
      NoNewAnswer(s, run[n - 1], slot);
      hide After, Inv, Step, Abandoned;
      assert After(run, n) == Step(s, run[n - 1]) by {
        AfterStep(run, n);
      }
    }
  }

  lemma AfterStep(run: seq<Action>, n: nat)
    requires 0 < n <= |run|
    ensures After(run, n) == Step(After(run, n - 1), run[n - 1])
  {
  }

  lemma NoNewAnswer(s: State, a: Action, slot: Slot)
    requires Inv(s) && Abandoned(s, slot)
    ensures
      var t := Step(s, a);
      forall k :: k in t.requests && t.requests[k].slot == slot
        && t.requests[k].phase.Answered? && !t.requests[k].phase.reply.Conflict?
        ==> k in s.requests && s.requests[k] == t.requests[k]
  {
    hide ExecutionsOk, CompletedOk, TableOk, Complete;
  }

  // A request that breaks off while it holds its record leaves it abandoned.
  lemma BreakAbandons(s: State, k: nat)
    requires Inv(s) && k in s.requests && Owns(s.requests[k])
    ensures Abandoned(Step(s, Break(k)), s.requests[k].slot)
  {
    assert RequestOk(s.table, s.executions, s.requests[k]);
    hide ExecutionsOk, CompletedOk, TableOk;
  }

  // An answer leaves the record abandoned exactly when it is a server error.
  lemma ServerErrorAbandons(s: State, k: nat)
    requires Inv(s) && k in s.requests && s.requests[k].phase.Ran?
    ensures Abandoned(Step(s, Respond(k)), s.requests[k].slot) <==> s.requests[k].phase.response.status >= 500
  {
    assert RequestOk(s.table, s.executions, s.requests[k]);
    hide ExecutionsOk, CompletedOk, TableOk;
  }

  // --------------------------------------------------- whose request is replayed

  /** A request as it arrives. The verb, in upper case, is its method. Neither the scope nor the
      hash looks at tenant, principal or query. */
  datatype HttpRequest = HttpRequest(
    verb: string, path: string, query: string, tenant: string, principal: string, key: string, body: string)

  const TARGETS := {("POST", "/policies"), ("POST", "/policies/dsl"), ("POST", "/relationships")}

  // The requests the middleware handles.
  predicate Handled(q: HttpRequest) {
    (q.verb, q.path) in TARGETS && q.key != ""
  }

  function ScopeOf(q: HttpRequest): string {
    q.verb + ":" + q.path
  }

  function SlotOf(q: HttpRequest): Slot {
    (ScopeOf(q), q.key)
  }

  // The text that is digested.
  function HashOf(q: HttpRequest): string {
    ScopeOf(q) + "\n" + q.body
  }

  // The start of b finds the record with that id and replays its response.
  predicate IsReplayed(t: Table, b: HttpRequest, id: nat) {
    && SlotOf(b) in t.records && t.records[SlotOf(b)].id == id
    && Inspect(t, SlotOf(b), HashOf(b)).Some? && Inspect(t, SlotOf(b), HashOf(b)).value.Replay?
  }

  lemma ScopesTellPathsApart(a: HttpRequest, b: HttpRequest)
    requires Handled(a) && Handled(b)
    ensures ScopeOf(a) == ScopeOf(b) <==> a.verb == b.verb && a.path == b.path
  {
    assert a.verb == "POST" == b.verb;
    assert ScopeOf(a)[5..] == a.path && ScopeOf(b)[5..] == b.path;
  }

  lemma HashesTellBodiesApart(a: HttpRequest, b: HttpRequest)
    requires ScopeOf(a) == ScopeOf(b)
    ensures HashOf(a) == HashOf(b) <==> a.body == b.body
  {
    var n := |ScopeOf(a)| + 1;
    assert HashOf(a)[n..] == a.body && HashOf(b)[n..] == b.body;
  }

  /** Once the record of a is completed, a request b is answered from it exactly when
      method, path, key and body agree, whoever sends it, for whatever tenant and with
      whatever query. */
  lemma ReplayCrossesExactly(t: Table, a: HttpRequest, b: HttpRequest)
    requires TableOk(t) && Handled(a) && Handled(b)
    requires SlotOf(a) in t.records && t.records[SlotOf(a)].hash == HashOf(a) && t.records[SlotOf(a)].response.Some?
    ensures IsReplayed(t, b, t.records[SlotOf(a)].id)
       <==> a.verb == b.verb && a.path == b.path && a.key == b.key && a.body == b.body
  {
    ScopesTellPathsApart(a, b);
    hide ScopeOf, Handled;
    if ScopeOf(a) == ScopeOf(b) {
      HashesTellBodiesApart(a, b);
    }
    hide HashOf;
  }
}
