/** The caching and versioning protocol of one tenant, as interleaved atomic steps.

    Readers take the tenant record first and then build an input, look up and fill
    the decision and policy caches; writers commit first and then bump counters.
    The steps of any number of readers and writers interleave freely, a cache call
    may fail, and an entry may vanish at any time. */
module Freshness {
  import opened Wrappers
  import opened Domain
  import Engine

  // The current policies of each policy set, as one commit leaves them.
  type Snapshot = map<string, seq<Policy>>

  // What is fixed for a run: the policies of the settings file, and the handlers.
  datatype Config = Config(defaults: seq<Policy>, ev: Evaluator)

  function PoliciesIn(s: Snapshot, policySet: string): seq<Policy> {
    var name := if policySet in {"draft", "archived", "active"} then policySet else "active";
    if name in s then s[name] else []
  }

  // The engine falls back on the settings file when the store has no policies.
  function Effective(c: Config, stored: seq<Policy>): seq<Policy> {
    if stored == [] then c.defaults else stored
  }

  function Outcome(c: Config, s: Snapshot, policySet: string, input: AuthorizationInput): Engine.Decision {
    Engine.Decide(Effective(c, PoliciesIn(s, policySet)), c.ev, input)
  }

  // ------------------------------------------------------------------- state

  /** What has been committed so far. `history` holds every policy snapshot, the
      current one last; `bornAt[v]` is the position that was last when version v
      became current, so the version is |bornAt| - 1. `accessCommits` counts ACL,
      relationship and authorization-model commits, and `accessBorn[r]` is that count when revision r
      became current. `completed` and `completedAccess` are the latest commits
      whose version, or revision, has been bumped. */
  datatype Timeline = Timeline(
    history: seq<Snapshot>,
    bornAt: seq<nat>,
    completed: nat,
    accessCommits: nat,
    accessBorn: seq<nat>,
    completedAccess: nat)

  // The part of an input that the decision key digests.
  datatype Request = Request(user: User, action: string, resource: Resource, context: map<string, Json>)

  function RequestOf(input: AuthorizationInput): Request {
    Request(input.user, input.action, input.resource, input.context)
  }

  datatype DecisionKey = DecisionKey(policySet: string, namespace: nat, version: nat, revision: int, request: Request)

  datatype PolicyKey = PolicyKey(namespace: nat, version: nat)

  // A cached value with its provenance: the commit its policies were read at, and
  // the number of access commits at the moment of its index lookup and model read.
  datatype PolicyEntry = PolicyEntry(policies: seq<Policy>, epoch: nat)

  datatype Answer = Answer(decision: Engine.Decision, input: AuthorizationInput, epoch: nat, accessEpoch: nat)

  datatype EngineState =
    | NotLoaded
    | NamespaceRead(namespace: nat)
    | PoliciesMissed
    | Fetched(policies: seq<Policy>, epoch: nat)
    | StoreKeyed(policies: seq<Policy>, epoch: nat, namespace: nat)
    | Loaded(policies: seq<Policy>, epoch: nat)

  datatype ItemState =
    | NoItem
    | Built(input: AuthorizationInput, accessEpoch: nat)
    | Keyed(input: AuthorizationInput, accessEpoch: nat, key: DecisionKey)
    | DecisionMissed(input: AuthorizationInput, accessEpoch: nat, target: Option<DecisionKey>)
    | Decided(answer: Answer, target: Option<DecisionKey>)
    | Finished

  /** What a call of authorize, or of authorize_batch, fixes when it reads the tenant.
      `floor` and `accessFloor` record which changes had completed at that moment. */
  datatype Ticket = Ticket(
    policySet: string,
    fullyConsistent: bool,
    batch: bool,
    explicitRevision: Option<int>,
    version: nat,
    revision: nat,
    floor: nat,
    accessFloor: nat)
  {
    function KeyRevision(): int {
      if explicitRevision.Some? then explicitRevision.value else revision
    }
  }

  /** The call in progress. A batch loads its engine first and then serves item after
      item. `asked` holds the inputs it was asked about, and `served` the answers. */
  datatype Session = Session(
    ticket: Ticket,
    engine: EngineState,
    item: ItemState,
    asked: seq<AuthorizationInput>,
    served: seq<Answer>)

  // A mutation in progress, by the last thing it has done.
  datatype Change =
    | NotBegun
    | Committed(epoch: nat)
    | VersionBumped(epoch: nat)
    | PoliciesInvalidated(epoch: nat)
    | AccessCommitted(accessEpoch: nat)
    | DecisionsBumped(epoch: nat, accessEpoch: nat)
    | Completed(epoch: nat, accessEpoch: nat)

  datatype State = State(
    time: Timeline,
    policyNamespace: nat,
    decisionNamespaces: map<string, nat>,
    policyCache: map<PolicyKey, PolicyEntry>,
    decisionCache: map<DecisionKey, Answer>,
    sessions: map<nat, Session>,
    changes: map<nat, Change>)

  function Version(t: Timeline): int {
    |t.bornAt| - 1
  }

  function Revision(t: Timeline): int {
    |t.accessBorn| - 1
  }

  function Initial(s: Snapshot): State {
    State(Timeline([s], [0, 0], 0, 0, [0, 0], 0), 0, map[], map[], map[], map[], map[])
  }

  // ------------------------------------------------------------------- steps

  datatype Action =
    | ReadTenant(id: nat, policySet: string, fullyConsistent: bool, batch: bool, explicitRevision: Option<int>)
    | ReadAccess(id: nat, input: AuthorizationInput)
    | MakeKey(id: nat)
    | LookUpDecision(id: nat, available: bool)
    | ReadPolicyNamespace(id: nat)
    | LookUpPolicies(id: nat, available: bool)
    | ReadPolicies(id: nat)
    | StorePolicies(id: nat, available: bool)
    | DecideItem(id: nat)
    | StoreDecision(id: nat, available: bool)
    | RepeatItem(id: nat, n: nat, action: string, resource: Resource, context: map<string, Json>)
    | CommitPolicies(id: nat, snapshot: Snapshot)
    | BumpVersion(id: nat)
    | InvalidatePolicies(id: nat)
    | CommitAccess(id: nat)
    | CommitModel(id: nat)
    | BumpDecisions(id: nat)
    | BumpRevision(id: nat)
    | DropDecision(key: DecisionKey)
    | DropPolicies(policyKey: PolicyKey)

  function Namespace(s: State, policySet: string): nat {
    if policySet in s.decisionNamespaces then s.decisionNamespaces[policySet] else 0
  }

  function OpenSession(t: Timeline, policySet: string, fullyConsistent: bool, batch: bool, explicitRevision: Option<int>): Session
    requires TimeOk(t)
  {
    var ticket := Ticket(policySet, fullyConsistent, batch, explicitRevision, Version(t), Revision(t), t.completed, t.completedAccess);
    Session(ticket, NotLoaded, NoItem, [], [])
  }

  // A batch loads its engine before its first item, a single call after a cache miss.
  predicate MayLoad(x: Session) {
    if x.ticket.batch then x.item.NoItem? else x.item.DecisionMissed?
  }

  // A batch takes its items once its engine is loaded.
  predicate MayBuild(x: Session) {
    x.item.NoItem? && (x.ticket.batch ==> x.engine.Loaded?)
  }

  function KeyFor(s: State, k: Ticket, input: AuthorizationInput): DecisionKey {
    DecisionKey(k.policySet, Namespace(s, k.policySet), k.version, k.KeyRevision(), RequestOf(input))
  }

  function Serve(x: Session, a: Answer): Session {
    x.(served := x.served + [a], item := if x.ticket.batch then NoItem else Finished)
  }

  function Build(t: Timeline, x: Session, input: AuthorizationInput): Session {
    if MayBuild(x) then x.(item := Built(input, t.accessCommits), asked := x.asked + [input]) else x
  }

  function TakeKey(s: State, x: Session): Session {
    if !x.item.Built? then x
    else if x.ticket.fullyConsistent then x.(item := DecisionMissed(x.item.input, x.item.accessEpoch, None))
    else x.(item := Keyed(x.item.input, x.item.accessEpoch, KeyFor(s, x.ticket, x.item.input)))
  }

  function TryDecision(cache: map<DecisionKey, Answer>, x: Session, available: bool): Session {
    if !x.item.Keyed? then x
    else if available && x.item.key in cache then Serve(x, cache[x.item.key])
    else x.(item := DecisionMissed(x.item.input, x.item.accessEpoch, Some(x.item.key)))
  }

  // Needed once before the policy cache is read and once more before it is filled.
  function TakeNamespace(namespace: nat, x: Session): Session {
    if x.engine.NotLoaded? && MayLoad(x) then
      x.(engine := if x.ticket.policySet == "active" then NamespaceRead(namespace) else PoliciesMissed)
    else if x.engine.Fetched? then
      x.(engine := StoreKeyed(x.engine.policies, x.engine.epoch, namespace))
    else x
  }

  function TryPolicies(cache: map<PolicyKey, PolicyEntry>, x: Session, available: bool): Session {
    if !x.engine.NamespaceRead? then x
    else
      var key := PolicyKey(x.engine.namespace, x.ticket.version);
      if available && key in cache then x.(engine := Loaded(cache[key].policies, cache[key].epoch))
      else x.(engine := PoliciesMissed)
  }

  function FetchPolicies(c: Config, t: Timeline, x: Session): Session
    requires TimeOk(t)
  {
    if !x.engine.PoliciesMissed? then x
    else
      var epoch := |t.history| - 1;
      var stored := PoliciesIn(t.history[epoch], x.ticket.policySet);
      if stored == [] || x.ticket.policySet != "active" then x.(engine := Loaded(Effective(c, stored), epoch))
      else x.(engine := Fetched(stored, epoch))
  }

  function UsePolicies(x: Session): Session {
    if x.engine.StoreKeyed? then x.(engine := Loaded(x.engine.policies, x.engine.epoch)) else x
  }

  function DecideOn(c: Config, x: Session): Session {
    if x.item.DecisionMissed? && x.engine.Loaded? then
      var d := Engine.Decide(x.engine.policies, c.ev, x.item.input);
      x.(item := Decided(Answer(d, x.item.input, x.engine.epoch, x.item.accessEpoch), x.item.target))
    else x
  }

  function Deliver(x: Session): Session {
    if x.item.Decided? then Serve(x, x.item.answer) else x
  }

  // Item n is asked for once more.
  predicate MayRepeat(x: Session, n: nat, action: string, resource: Resource, context: map<string, Json>) {
    && x.ticket.batch && MayBuild(x) && n < |x.served| && n < |x.asked|
    && x.asked[n].action == action && x.asked[n].resource == resource && x.asked[n].context == context
  }

  function Repeat(x: Session, n: nat, action: string, resource: Resource, context: map<string, Json>): Session {
    if MayRepeat(x, n, action, resource, context) then Serve(x.(asked := x.asked + [x.asked[n]]), x.served[n]) else x
  }

  // What one step of a reader does to its own session.
  function SessionStep(c: Config, s: State, x: Session, a: Action): Session
    requires TimeOk(s.time)
  {
    match a
    case ReadAccess(_, input) => Build(s.time, x, input)
    case MakeKey(_) => TakeKey(s, x)
    case LookUpDecision(_, available) => TryDecision(s.decisionCache, x, available)
    case ReadPolicyNamespace(_) => TakeNamespace(s.policyNamespace, x)
    case LookUpPolicies(_, available) => TryPolicies(s.policyCache, x, available)
    case ReadPolicies(_) => FetchPolicies(c, s.time, x)
    case StorePolicies(_, _) => UsePolicies(x)
    case DecideItem(_) => DecideOn(c, x)
    case StoreDecision(_, _) => Deliver(x)
    case RepeatItem(_, n, action, resource, context) => Repeat(x, n, action, resource, context)
    case _ => x
  }

  function PolicyCacheStep(s: State, x: Session, a: Action): map<PolicyKey, PolicyEntry> {
    if a.StorePolicies? && a.available && x.engine.StoreKeyed? then
      s.policyCache[PolicyKey(x.engine.namespace, x.ticket.version) := PolicyEntry(x.engine.policies, x.engine.epoch)]
    else s.policyCache
  }

  function DecisionCacheStep(s: State, x: Session, a: Action): map<DecisionKey, Answer> {
    if a.StoreDecision? && a.available && x.item.Decided? && x.item.target.Some? then
      s.decisionCache[x.item.target.value := x.item.answer]
    else s.decisionCache
  }

  predicate IsReaderStep(a: Action) {
    || a.ReadAccess? || a.MakeKey? || a.LookUpDecision? || a.ReadPolicyNamespace? || a.LookUpPolicies?
    || a.ReadPolicies? || a.StorePolicies? || a.DecideItem? || a.StoreDecision? || a.RepeatItem?
  }

  function Max(a: nat, b: nat): nat {
    if a < b then b else a
  }

  function Progress(s: State, id: nat): Change {
    if id in s.changes then s.changes[id] else NotBegun
  }

  function Begin(s: State, t: Timeline, id: nat, w: Change): State {
    if id in s.changes then s else s.(time := t, changes := s.changes[id := w])
  }

  function CommitPolicySnapshot(s: State, id: nat, snapshot: Snapshot): State {
    var t := s.time;
    Begin(s, t.(history := t.history + [snapshot]), id, Committed(|t.history|))
  }

  function CommitAccessRows(s: State, id: nat): State {
    var t := s.time;
    Begin(s, t.(accessCommits := t.accessCommits + 1), id, AccessCommitted(t.accessCommits + 1))
  }

  // A model change raises no namespace: what is left of it is the revision.
  function CommitNewModel(s: State, id: nat): State {
    var t := s.time;
    Begin(s, t.(accessCommits := t.accessCommits + 1), id, DecisionsBumped(0, t.accessCommits + 1))
  }

  function RaiseVersion(s: State, id: nat): State
    requires TimeOk(s.time)
  {
    var t := s.time;
    if Progress(s, id).Committed? then
      var e := Progress(s, id).epoch;
      s.(time := t.(bornAt := t.bornAt + [|t.history| - 1], completed := Max(t.completed, e)),
         changes := s.changes[id := VersionBumped(e)])
    else s
  }

  function RaisePolicyNamespace(s: State, id: nat): State {
    if Progress(s, id).VersionBumped? then
      s.(policyNamespace := s.policyNamespace + 1, changes := s.changes[id := PoliciesInvalidated(Progress(s, id).epoch)])
    else s
  }

  function RaiseDecisionNamespace(s: State, id: nat): State {
    var raised := s.decisionNamespaces["active" := Namespace(s, "active") + 1];
    if Progress(s, id).PoliciesInvalidated? then
      s.(decisionNamespaces := raised, changes := s.changes[id := DecisionsBumped(Progress(s, id).epoch, 0)])
    else if Progress(s, id).AccessCommitted? then
      s.(decisionNamespaces := raised, changes := s.changes[id := DecisionsBumped(0, Progress(s, id).accessEpoch)])
    else s
  }

  function RaiseRevision(s: State, id: nat): State {
    var t := s.time;
    if Progress(s, id).DecisionsBumped? then
      var w := Progress(s, id);
      s.(time := t.(accessBorn := t.accessBorn + [t.accessCommits], completedAccess := Max(t.completedAccess, w.accessEpoch)),
         changes := s.changes[id := Completed(w.epoch, w.accessEpoch)])
    else s
  }

  function ReaderStep(c: Config, s: State, a: Action): State
    requires TimeOk(s.time) && IsReaderStep(a)
  {
    if a.id !in s.sessions then s
    else
      var x := s.sessions[a.id];
      s.(sessions := s.sessions[a.id := SessionStep(c, s, x, a)],
         policyCache := PolicyCacheStep(s, x, a),
         decisionCache := DecisionCacheStep(s, x, a))
  }

  function Open(s: State, id: nat, policySet: string, fullyConsistent: bool, batch: bool, explicitRevision: Option<int>): State
    requires TimeOk(s.time)
  {
    if id in s.sessions then s
    else s.(sessions := s.sessions[id := OpenSession(s.time, policySet, fullyConsistent, batch, explicitRevision)])
  }

  // A step that is not enabled changes nothing.
  function Step(c: Config, s: State, a: Action): State
    requires TimeOk(s.time)
  {
    if IsReaderStep(a) then ReaderStep(c, s, a)
    else
      match a
      case ReadTenant(id, policySet, fullyConsistent, batch, explicitRevision) =>
        Open(s, id, policySet, fullyConsistent, batch, explicitRevision)
      case CommitPolicies(id, snapshot) => CommitPolicySnapshot(s, id, snapshot)
      case BumpVersion(id) => RaiseVersion(s, id)
      case InvalidatePolicies(id) => RaisePolicyNamespace(s, id)
      case CommitAccess(id) => CommitAccessRows(s, id)
      case CommitModel(id) => CommitNewModel(s, id)
      case BumpDecisions(id) => RaiseDecisionNamespace(s, id)
      case BumpRevision(id) => RaiseRevision(s, id)
      case DropDecision(key) => s.(decisionCache := s.decisionCache - {key})
      case DropPolicies(key) => s.(policyCache := s.policyCache - {key})
      case _ => s
  }

  // -------------------------------------------------------------- invariants

  ghost predicate Rising(a: seq<nat>) {
    forall i, j :: 0 <= i < j < |a| ==> a[i] <= a[j]
  }

  ghost predicate TimeOk(t: Timeline) {
    && |t.history| >= 1 && |t.bornAt| >= 1 && |t.accessBorn| >= 1
    && Rising(t.bornAt) && Rising(t.accessBorn)
    && t.completed <= t.bornAt[|t.bornAt| - 1] < |t.history|
    && t.completedAccess <= t.accessBorn[|t.accessBorn| - 1] <= t.accessCommits
  }

  // The commit is one that was current once version v was.
  ghost predicate NotOlder(t: Timeline, version: nat, epoch: nat) {
    version < |t.bornAt| && t.bornAt[version] <= epoch < |t.history|
  }

  // The lookup was made once revision r was current.
  ghost predicate AccessNotOlder(t: Timeline, revision: int, accessEpoch: nat) {
    && revision < |t.accessBorn| && accessEpoch <= t.accessCommits
    && (0 <= revision ==> t.accessBorn[revision] <= accessEpoch)
  }

  ghost predicate AnswerOk(c: Config, t: Timeline, policySet: string, a: Answer) {
    a.epoch < |t.history| && a.decision == Outcome(c, t.history[a.epoch], policySet, a.input)
  }

  ghost predicate PolicyEntryOk(t: Timeline, k: PolicyKey, e: PolicyEntry) {
    NotOlder(t, k.version, e.epoch) && e.policies != [] && e.policies == PoliciesIn(t.history[e.epoch], "active")
  }

  ghost predicate DecisionEntryOk(c: Config, t: Timeline, k: DecisionKey, a: Answer, honest: bool) {
    && NotOlder(t, k.version, a.epoch)
    && AnswerOk(c, t, k.policySet, a)
    && RequestOf(a.input) == k.request
    && (honest ==> AccessNotOlder(t, k.revision, a.accessEpoch))
  }

  ghost predicate EngineOk(c: Config, t: Timeline, k: Ticket, e: EngineState) {
    match e
    case NamespaceRead(_) => k.policySet == "active"
    case Fetched(policies, epoch) =>
      k.policySet == "active" && PolicyEntryOk(t, PolicyKey(0, k.version), PolicyEntry(policies, epoch))
    case StoreKeyed(policies, epoch, _) =>
      k.policySet == "active" && PolicyEntryOk(t, PolicyKey(0, k.version), PolicyEntry(policies, epoch))
    case Loaded(policies, epoch) =>
      NotOlder(t, k.version, epoch) && policies == Effective(c, PoliciesIn(t.history[epoch], k.policySet))
    case _ => true
  }

  ghost predicate KeyOk(k: Ticket, key: DecisionKey, input: AuthorizationInput) {
    && key.policySet == k.policySet && key.version == k.version && key.revision == k.KeyRevision()
    && key.request == RequestOf(input)
  }

  ghost predicate ItemOk(c: Config, t: Timeline, k: Ticket, i: ItemState) {
    match i
    case Built(_, accessEpoch) => AccessNotOlder(t, k.revision, accessEpoch)
    case Keyed(input, accessEpoch, key) =>
      !k.fullyConsistent && AccessNotOlder(t, k.revision, accessEpoch) && KeyOk(k, key, input)
    case DecisionMissed(input, accessEpoch, target) =>
      AccessNotOlder(t, k.revision, accessEpoch) && (target.Some? ==> KeyOk(k, target.value, input))
    case Decided(a, target) =>
      && NotOlder(t, k.version, a.epoch) && AnswerOk(c, t, k.policySet, a)
      && AccessNotOlder(t, k.revision, a.accessEpoch)
      && (target.Some? ==> KeyOk(k, target.value, a.input))
    case _ => true
  }

  // What every served answer owes to the changes completed before the call.
  ghost predicate ServedOk(c: Config, t: Timeline, k: Ticket, a: Answer, honest: bool) {
    && AnswerOk(c, t, k.policySet, a)
    && k.floor <= a.epoch
    && (honest && k.explicitRevision.None? ==> k.accessFloor <= a.accessEpoch)
    && (k.fullyConsistent ==> k.accessFloor <= a.accessEpoch)
  }

  ghost predicate TicketOk(t: Timeline, k: Ticket, honest: bool) {
    && k.version < |t.bornAt| && k.floor <= t.bornAt[k.version]
    && k.revision < |t.accessBorn| && k.accessFloor <= t.accessBorn[k.revision]
    && (honest ==> k.KeyRevision() <= k.revision)
  }

  // The two inputs put the same question: user, action, resource and context agree.
  predicate SameQuestion(a: AuthorizationInput, b: AuthorizationInput) {
    a.user == b.user && a.action == b.action && a.resource == b.resource && a.context == b.context
  }

  // What the item in hand is about; None between items.
  function Pending(i: ItemState): Option<AuthorizationInput> {
    match i
    case Built(input, _) => Some(input)
    case Keyed(input, _, _) => Some(input)
    case DecisionMissed(input, _, _) => Some(input)
    case Decided(a, _) => Some(a.input)
    case _ => None
  }

  // Each answer is to the question asked at its place, and the item in hand is the last.
  ghost predicate AskedOk(x: Session) {
    && |x.asked| == |x.served| + (if Pending(x.item).Some? then 1 else 0)
    && (forall i :: 0 <= i < |x.served| ==> SameQuestion(x.served[i].input, x.asked[i]))
    && (Pending(x.item).Some? ==> Pending(x.item).value == x.asked[|x.served|])
  }

  ghost predicate SessionOk(c: Config, t: Timeline, x: Session, honest: bool) {
    && TicketOk(t, x.ticket, honest)
    && EngineOk(c, t, x.ticket, x.engine)
    && ItemOk(c, t, x.ticket, x.item)
    && AskedOk(x)
    && forall i :: 0 <= i < |x.served| ==> ServedOk(c, t, x.ticket, x.served[i], honest)
  }

  ghost predicate ChangeOk(t: Timeline, w: Change) {
    match w
    case NotBegun => true
    case Committed(e) => e < |t.history|
    case VersionBumped(e) => e <= t.completed
    case PoliciesInvalidated(e) => e <= t.completed
    case AccessCommitted(n) => n <= t.accessCommits
    case DecisionsBumped(e, n) => e <= t.completed && n <= t.accessCommits
    case Completed(e, n) => e <= t.completed && n <= t.completedAccess
  }

  ghost predicate PolicyCacheOk(t: Timeline, cache: map<PolicyKey, PolicyEntry>) {
    forall k :: k in cache ==> PolicyEntryOk(t, k, cache[k])
  }

  ghost predicate DecisionCacheOk(c: Config, t: Timeline, cache: map<DecisionKey, Answer>, honest: bool) {
    forall k :: k in cache ==> DecisionEntryOk(c, t, k, cache[k], honest)
  }

  ghost predicate SessionsOk(c: Config, t: Timeline, sessions: map<nat, Session>, honest: bool) {
    forall id :: id in sessions ==> SessionOk(c, t, sessions[id], honest)
  }

  ghost predicate ChangesOk(t: Timeline, changes: map<nat, Change>) {
    forall id :: id in changes ==> ChangeOk(t, changes[id])
  }

  ghost predicate Inv(c: Config, s: State, honest: bool) {
    && TimeOk(s.time)
    && PolicyCacheOk(s.time, s.policyCache)
    && DecisionCacheOk(c, s.time, s.decisionCache, honest)
    && SessionsOk(c, s.time, s.sessions, honest)
    && ChangesOk(s.time, s.changes)
  }

  // A caller may name a revision, but none that lies in the future.
  ghost predicate HonestStep(s: State, a: Action) {
    a.ReadTenant? && a.explicitRevision.Some? ==> a.explicitRevision.value <= Revision(s.time)
  }

  // ------------------------------------------------ time only adds to the record

  ghost predicate Later(t: Timeline, u: Timeline) {
    && t.history <= u.history && t.bornAt <= u.bornAt && t.accessBorn <= u.accessBorn
    && t.accessCommits <= u.accessCommits && t.completed <= u.completed && t.completedAccess <= u.completedAccess
  }

  lemma LaterKeepsSession(c: Config, t: Timeline, u: Timeline, x: Session, honest: bool)
    requires SessionOk(c, t, x, honest) && Later(t, u)
    ensures SessionOk(c, u, x, honest)
  {
    hide Outcome, PoliciesIn, Effective, KeyOk;
    forall i | 0 <= i < |x.served| ensures ServedOk(c, u, x.ticket, x.served[i], honest) {
      assert ServedOk(c, t, x.ticket, x.served[i], honest);
    }
  }

  lemma LaterKeepsCaches(c: Config, s: State, u: Timeline, honest: bool)
    requires Inv(c, s, honest) && Later(s.time, u)
    ensures PolicyCacheOk(u, s.policyCache)
    ensures DecisionCacheOk(c, u, s.decisionCache, honest)
  {
    hide Outcome, PoliciesIn, SessionsOk;
  }

  lemma LaterKeepsInv(c: Config, s: State, u: Timeline, honest: bool)
    requires Inv(c, s, honest) && Later(s.time, u) && TimeOk(u)
    ensures Inv(c, s.(time := u), honest)
  {
    LaterKeepsCaches(c, s, u, honest);
    hide PolicyCacheOk, DecisionCacheOk, SessionOk;
    forall id | id in s.sessions ensures SessionOk(c, u, s.sessions[id], honest) {
      LaterKeepsSession(c, s.time, u, s.sessions[id], honest);
    }
  }

  // ------------------------------------------------------- every step keeps it

  // All but one of the questions are answered, and a answers that one.
  ghost predicate AnswersLast(x: Session, a: Answer) {
    && |x.asked| == |x.served| + 1
    && (forall i :: 0 <= i < |x.served| ==> SameQuestion(x.served[i].input, x.asked[i]))
    && SameQuestion(a.input, x.asked[|x.served|])
  }

  lemma ServeKeeps(c: Config, t: Timeline, x: Session, a: Answer, honest: bool)
    requires TicketOk(t, x.ticket, honest) && EngineOk(c, t, x.ticket, x.engine)
    requires forall i :: 0 <= i < |x.served| ==> ServedOk(c, t, x.ticket, x.served[i], honest)
    requires AnswersLast(x, a) && ServedOk(c, t, x.ticket, a, honest)
    ensures SessionOk(c, t, Serve(x, a), honest)
  {
    hide TicketOk, EngineOk, ServedOk, SameQuestion;
  }

  // A digest tells requests apart by user, action, resource and context, and by nothing else.
  lemma RequestsTellQuestionsApart(a: AuthorizationInput, b: AuthorizationInput)
    ensures RequestOf(a) == RequestOf(b) <==>
      a.user == b.user && a.action == b.action && a.resource == b.resource && a.context == b.context
  {
  }

  // Two decision keys coincide exactly when policy set, namespace, version, revision and
  // those four fields agree.
  lemma DecisionKeysTellApart(s: State, k: Ticket, a: AuthorizationInput, t: State, l: Ticket, b: AuthorizationInput)
    ensures KeyFor(s, k, a) == KeyFor(t, l, b) <==>
      && k.policySet == l.policySet && Namespace(s, k.policySet) == Namespace(t, l.policySet)
      && k.version == l.version
      && (if k.explicitRevision.Some? then k.explicitRevision.value else k.revision)
         == (if l.explicitRevision.Some? then l.explicitRevision.value else l.revision)
      && a.user == b.user && a.action == b.action && a.resource == b.resource && a.context == b.context
  {
    RequestsTellQuestionsApart(a, b);
    hide RequestOf, Namespace;
  }

  lemma BuildKeeps(c: Config, t: Timeline, x: Session, input: AuthorizationInput, honest: bool)
    requires TimeOk(t) && SessionOk(c, t, x, honest)
    ensures SessionOk(c, t, Build(t, x, input), honest)
  {
    assert AccessNotOlder(t, x.ticket.revision, t.accessCommits);
    hide AccessNotOlder, EngineOk, ServedOk, AnswerOk;
  }

  lemma TakeKeyKeeps(c: Config, s: State, x: Session, honest: bool)
    requires SessionOk(c, s.time, x, honest)
    ensures SessionOk(c, s.time, TakeKey(s, x), honest)
  {
    hide AccessNotOlder, EngineOk, ServedOk, AnswerOk, RequestOf, Namespace;
  }

  lemma TryDecisionKeeps(c: Config, s: State, x: Session, available: bool, honest: bool)
    requires TimeOk(s.time) && SessionOk(c, s.time, x, honest) && DecisionCacheOk(c, s.time, s.decisionCache, honest)
    ensures SessionOk(c, s.time, TryDecision(s.decisionCache, x, available), honest)
  {
    hide EngineOk, AnswerOk, RequestOf, Serve;
    if x.item.Keyed? && available && x.item.key in s.decisionCache {
      var a := s.decisionCache[x.item.key];
      assert DecisionEntryOk(c, s.time, x.item.key, a, honest);
      RequestsTellQuestionsApart(a.input, x.item.input);
      ServeKeeps(c, s.time, x, a, honest);
    }
  }

  lemma TakeNamespaceKeeps(c: Config, t: Timeline, namespace: nat, x: Session, honest: bool)
    requires SessionOk(c, t, x, honest)
    ensures SessionOk(c, t, TakeNamespace(namespace, x), honest)
  {
    hide PolicyEntryOk, ItemOk, ServedOk, TicketOk, PoliciesIn, Effective, NotOlder;
  }

  lemma TryPoliciesKeeps(c: Config, t: Timeline, cache: map<PolicyKey, PolicyEntry>, x: Session, available: bool, honest: bool)
    requires SessionOk(c, t, x, honest) && PolicyCacheOk(t, cache)
    ensures SessionOk(c, t, TryPolicies(cache, x, available), honest)
  {
    hide ItemOk, ServedOk, TicketOk, PoliciesIn;
  }

  lemma FetchPoliciesKeeps(c: Config, t: Timeline, x: Session, honest: bool)
    requires TimeOk(t) && SessionOk(c, t, x, honest)
    ensures SessionOk(c, t, FetchPolicies(c, t, x), honest)
  {
    assert NotOlder(t, x.ticket.version, |t.history| - 1);
    hide ItemOk, ServedOk, TicketOk, PoliciesIn, Effective, NotOlder;
  }

  lemma UsePoliciesKeeps(c: Config, t: Timeline, x: Session, honest: bool)
    requires SessionOk(c, t, x, honest)
    ensures SessionOk(c, t, UsePolicies(x), honest)
  {
    hide ItemOk, ServedOk, TicketOk, PoliciesIn, NotOlder;
  }

  lemma DecideOnKeeps(c: Config, t: Timeline, x: Session, honest: bool)
    requires SessionOk(c, t, x, honest)
    ensures SessionOk(c, t, DecideOn(c, x), honest)
  {
    if x.item.DecisionMissed? && x.engine.Loaded? {
      assert AnswerOk(c, t, x.ticket.policySet, DecideOn(c, x).item.answer) by {
        hide PoliciesIn, Effective, Engine.Decide;
      }
    }
    hide AnswerOk, PoliciesIn, Effective, AccessNotOlder, NotOlder, Engine.Decide, RequestOf, ServedOk, TicketOk;
  }

  lemma DeliverKeeps(c: Config, t: Timeline, x: Session, honest: bool)
    requires TimeOk(t) && SessionOk(c, t, x, honest)
    ensures SessionOk(c, t, Deliver(x), honest)
  {
    hide EngineOk, AnswerOk, RequestOf, Serve;
    if x.item.Decided? {
      ServeKeeps(c, t, x, x.item.answer, honest);
    }
  }

  lemma RepeatKeeps(c: Config, t: Timeline, x: Session, n: nat, action: string, resource: Resource,
                    context: map<string, Json>, honest: bool)
    requires SessionOk(c, t, x, honest)
    ensures SessionOk(c, t, Repeat(x, n, action, resource, context), honest)
  {
    hide EngineOk, ItemOk, ServedOk, Serve, TicketOk;
    if MayRepeat(x, n, action, resource, context) {
      ServeKeeps(c, t, x.(asked := x.asked + [x.asked[n]]), x.served[n], honest);
    }
  }

  lemma ReaderKeepsCaches(c: Config, s: State, x: Session, a: Action, honest: bool)
    requires Inv(c, s, honest) && SessionOk(c, s.time, x, honest)
    ensures PolicyCacheOk(s.time, PolicyCacheStep(s, x, a))
    ensures DecisionCacheOk(c, s.time, DecisionCacheStep(s, x, a), honest)
  {
    hide PoliciesIn, AnswerOk, ServedOk, SessionsOk;
  }

  lemma ReaderKeepsSession(c: Config, s: State, x: Session, a: Action, honest: bool)
    requires Inv(c, s, honest) && SessionOk(c, s.time, x, honest)
    ensures SessionOk(c, s.time, SessionStep(c, s, x, a), honest)
  {
    hide SessionOk, TimeOk, PolicyCacheOk, DecisionCacheOk, SessionsOk, ChangesOk;
    hide Build, TakeKey, TryDecision, TakeNamespace, TryPolicies, FetchPolicies, UsePolicies, DecideOn, Deliver, Repeat;
    match a
    case ReadAccess(_, input) => BuildKeeps(c, s.time, x, input, honest);
    case MakeKey(_) => TakeKeyKeeps(c, s, x, honest);
    case LookUpDecision(_, available) => TryDecisionKeeps(c, s, x, available, honest);
    case ReadPolicyNamespace(_) => TakeNamespaceKeeps(c, s.time, s.policyNamespace, x, honest);
    case LookUpPolicies(_, available) => TryPoliciesKeeps(c, s.time, s.policyCache, x, available, honest);
    case ReadPolicies(_) => FetchPoliciesKeeps(c, s.time, x, honest);
    case StorePolicies(_, _) => UsePoliciesKeeps(c, s.time, x, honest);
    case DecideItem(_) => DecideOnKeeps(c, s.time, x, honest);
    case StoreDecision(_, _) => DeliverKeeps(c, s.time, x, honest);
    case RepeatItem(_, n, action, resource, context) =>
      RepeatKeeps(c, s.time, x, n, action, resource, context, honest);
    case _ =>
  }

  lemma ReaderStepKeeps(c: Config, s: State, a: Action, honest: bool)
    requires Inv(c, s, honest) && IsReaderStep(a)
    ensures Inv(c, ReaderStep(c, s, a), honest) && ReaderStep(c, s, a).time == s.time
  {
    hide SessionStep, SessionOk, PolicyCacheStep, DecisionCacheStep, PolicyCacheOk, DecisionCacheOk, ChangesOk, TimeOk;
    if a.id in s.sessions {
      var x := s.sessions[a.id];
      assert SessionOk(c, s.time, x, honest);
      ReaderKeepsSession(c, s, x, a, honest);
      ReaderKeepsCaches(c, s, x, a, honest);
    }
  }

  lemma OpenKeeps(c: Config, s: State, a: Action, honest: bool)
    requires Inv(c, s, honest) && a.ReadTenant? && (honest ==> HonestStep(s, a))
    ensures Inv(c, Open(s, a.id, a.policySet, a.fullyConsistent, a.batch, a.explicitRevision), honest)
  {
    var x := OpenSession(s.time, a.policySet, a.fullyConsistent, a.batch, a.explicitRevision);
    assert SessionOk(c, s.time, x, honest);
    hide SessionOk, PolicyCacheOk, DecisionCacheOk, ChangesOk, OpenSession;
  }

  // From s to u a change has moved on, and touched no cache and no session.
  ghost predicate MovesOn(s: State, u: State) {
    && TimeOk(u.time) && Later(s.time, u.time) && ChangesOk(u.time, u.changes)
    && u.policyCache == s.policyCache && u.decisionCache == s.decisionCache && u.sessions == s.sessions
  }

  lemma MovingOnKeeps(c: Config, s: State, u: State, honest: bool)
    requires Inv(c, s, honest) && MovesOn(s, u)
    ensures Inv(c, u, honest)
  {
    LaterKeepsInv(c, s, u.time, honest);
    hide PolicyCacheOk, DecisionCacheOk, SessionsOk, ChangesOk, TimeOk, Later;
  }

  lemma PolicyCommitMovesOn(s: State, id: nat, snapshot: Snapshot)
    requires TimeOk(s.time) && ChangesOk(s.time, s.changes)
    ensures MovesOn(s, CommitPolicySnapshot(s, id, snapshot))
  {
  }

  lemma AccessCommitMovesOn(s: State, id: nat)
    requires TimeOk(s.time) && ChangesOk(s.time, s.changes)
    ensures MovesOn(s, CommitAccessRows(s, id))
  {
  }

  lemma ModelCommitMovesOn(s: State, id: nat)
    requires TimeOk(s.time) && ChangesOk(s.time, s.changes)
    ensures MovesOn(s, CommitNewModel(s, id))
  {
  }

  lemma RaiseVersionMovesOn(s: State, id: nat)
    requires TimeOk(s.time) && ChangesOk(s.time, s.changes)
    ensures MovesOn(s, RaiseVersion(s, id))
  {
  }

  lemma RaisePolicyNamespaceMovesOn(s: State, id: nat)
    requires TimeOk(s.time) && ChangesOk(s.time, s.changes)
    ensures MovesOn(s, RaisePolicyNamespace(s, id))
  {
    hide Namespace, TimeOk;
  }

  lemma RaiseDecisionNamespaceMovesOn(s: State, id: nat)
    requires TimeOk(s.time) && ChangesOk(s.time, s.changes)
    ensures MovesOn(s, RaiseDecisionNamespace(s, id))
  {
    hide Namespace, TimeOk;
  }

  lemma RaiseRevisionMovesOn(s: State, id: nat)
    requires TimeOk(s.time) && ChangesOk(s.time, s.changes)
    ensures MovesOn(s, RaiseRevision(s, id))
  {
  }

  lemma DropKeeps(c: Config, s: State, a: Action, honest: bool)
    requires Inv(c, s, honest) && (a.DropDecision? || a.DropPolicies?)
    ensures Inv(c, Step(c, s, a), honest)
  {
    hide TimeOk, SessionsOk, ChangesOk, DecisionEntryOk, PolicyEntryOk;
    if a.DropDecision? {
      assert DecisionCacheOk(c, s.time, s.decisionCache - {a.key}, honest);
    } else {
      assert PolicyCacheOk(s.time, s.policyCache - {a.policyKey});
    }
  }

  lemma WriterStepKeeps(c: Config, s: State, a: Action, honest: bool)
    requires Inv(c, s, honest) && !IsReaderStep(a) && !a.ReadTenant?
    ensures Inv(c, Step(c, s, a), honest) && Later(s.time, Step(c, s, a).time)
  {
    WriterMovesOn(c, s, a);
    hide Step, TimeOk, Later, PolicyCacheOk, DecisionCacheOk, SessionsOk, ChangesOk, MovesOn;
    if a.DropDecision? || a.DropPolicies? {
      DropKeeps(c, s, a, honest);
    } else {
      MovingOnKeeps(c, s, Step(c, s, a), honest);
    }
  }

  lemma WriterMovesOn(c: Config, s: State, a: Action)
    requires TimeOk(s.time) && ChangesOk(s.time, s.changes) && !IsReaderStep(a) && !a.ReadTenant?
    ensures
      var u := Step(c, s, a);
      && TimeOk(u.time) && Later(s.time, u.time) && ChangesOk(u.time, u.changes)
      && (a.DropDecision? || a.DropPolicies? || MovesOn(s, u))
  {
    if a.DropDecision? || a.DropPolicies? {
      assert Later(s.time, s.time);
    } else {
      hide CommitPolicySnapshot, CommitAccessRows, CommitNewModel, RaiseVersion, RaisePolicyNamespace, RaiseDecisionNamespace, RaiseRevision;
      hide TimeOk, Later, ChangesOk;
      PolicyCommitMovesOn(s, a.id, if a.CommitPolicies? then a.snapshot else map[]);
      AccessCommitMovesOn(s, a.id);
      ModelCommitMovesOn(s, a.id);
      RaiseVersionMovesOn(s, a.id);
      RaisePolicyNamespaceMovesOn(s, a.id);
      RaiseDecisionNamespaceMovesOn(s, a.id);
      RaiseRevisionMovesOn(s, a.id);
    }
  }

  lemma StepKeepsInv(c: Config, s: State, a: Action, honest: bool)
    requires Inv(c, s, honest) && (honest ==> HonestStep(s, a))
    ensures Inv(c, Step(c, s, a), honest) && Later(s.time, Step(c, s, a).time)
  {
    assert Later(s.time, s.time);
    hide Later, TimeOk, PolicyCacheOk, DecisionCacheOk, SessionsOk, ChangesOk, Open;
    if IsReaderStep(a) {
      ReaderStepKeeps(c, s, a, honest);
    } else if a.ReadTenant? {
      OpenKeeps(c, s, a, honest);
      assert Open(s, a.id, a.policySet, a.fullyConsistent, a.batch, a.explicitRevision).time == s.time by {
        OpenSameTime(s, a);
      }
    } else {
      WriterStepKeeps(c, s, a, honest);
    }
  }

  lemma OpenSameTime(s: State, a: Action)
    requires TimeOk(s.time) && a.ReadTenant?
    ensures Open(s, a.id, a.policySet, a.fullyConsistent, a.batch, a.explicitRevision).time == s.time
  {
  }

  // -------------------------------------------------------------------- runs

  lemma InitialInv(c: Config, first: Snapshot, honest: bool)
    ensures Inv(c, Initial(first), honest)
  {
  }

  // The state after n steps of a run.
  ghost function After(c: Config, first: Snapshot, run: seq<Action>, n: nat): (s: State)
    requires n <= |run|
    ensures TimeOk(s.time) && ChangesOk(s.time, s.changes)
  {
    if n == 0 then Initial(first)
    else
      var s := After(c, first, run, n - 1);
      StepKeepsTime(c, s, run[n - 1]);
      Step(c, s, run[n - 1])
  }

  lemma StepKeepsTime(c: Config, s: State, a: Action)
    requires TimeOk(s.time) && ChangesOk(s.time, s.changes)
    ensures TimeOk(Step(c, s, a).time) && ChangesOk(Step(c, s, a).time, Step(c, s, a).changes)
  {
    hide TimeOk, ChangesOk, SessionStep, PolicyCacheStep, DecisionCacheStep, OpenSession;
    if !IsReaderStep(a) && !a.ReadTenant? {
      WriterMovesOn(c, s, a);
    }
  }

  // Every reachable state keeps the invariant.
  lemma {:induction false} RunKeepsInv(c: Config, first: Snapshot, run: seq<Action>, n: nat)
    requires n <= |run|
    ensures Inv(c, After(c, first, run, n), false)
  {
    hide Inv, Step, TimeOk, ChangesOk;
    InitialInv(c, first, false);
    if n == 0 {
    } else {
      RunKeepsInv(c, first, run, n - 1);
      StepKeepsInv(c, After(c, first, run, n - 1), run[n - 1], false);
    }
  }

  ghost predicate HonestRun(c: Config, first: Snapshot, run: seq<Action>) {
    forall i :: 0 <= i < |run| ==> HonestStep(After(c, first, run, i), run[i])
  }

  lemma {:induction false} HonestRunKeepsInv(c: Config, first: Snapshot, run: seq<Action>, n: nat)
    requires n <= |run| && HonestRun(c, first, run)
    ensures Inv(c, After(c, first, run, n), true)
  {
    hide Inv, Step, HonestStep;
    InitialInv(c, first, true);
    if n == 0 {
    } else {
      HonestRunKeepsInv(c, first, run, n - 1);
      StepKeepsInv(c, After(c, first, run, n - 1), run[n - 1], true);
    }
  }

  /** Every policy-cache entry under version v holds the policies of a commit that
      was current once v was; every decision-cache entry under v is the engine's
      decision on such policies; and with no future revision named, its index
      lookup was made once the key's revision was current. */
  lemma CacheEntriesAreFresh(c: Config, first: Snapshot, run: seq<Action>, n: nat)
    requires n <= |run|
    ensures
      var s := After(c, first, run, n);
      && (forall k :: k in s.policyCache ==> PolicyEntryOk(s.time, k, s.policyCache[k]))
      && (forall k :: k in s.decisionCache ==> DecisionEntryOk(c, s.time, k, s.decisionCache[k], HonestRun(c, first, run)))
  {
    var s := After(c, first, run, n);
    RunKeepsInv(c, first, run, n);
    if HonestRun(c, first, run) {
      HonestRunKeepsInv(c, first, run, n);
    }
    hide PolicyEntryOk, DecisionEntryOk, HonestRun, After;
    assert PolicyCacheOk(s.time, s.policyCache);
  }

  lemma StepKeepsTickets(c: Config, s: State, a: Action, id: nat)
    requires TimeOk(s.time)
    ensures id in s.sessions ==> id in Step(c, s, a).sessions && Step(c, s, a).sessions[id].ticket == s.sessions[id].ticket
    ensures id !in s.sessions && id in Step(c, s, a).sessions ==>
      && Step(c, s, a).sessions[id].ticket.floor == s.time.completed
      && Step(c, s, a).sessions[id].ticket.accessFloor == s.time.completedAccess
  {
    hide SessionStep, PolicyCacheStep, DecisionCacheStep, TimeOk, Progress, Namespace, Begin;
    if IsReaderStep(a) {
      if a.id in s.sessions {
        SameTicket(c, s, s.sessions[a.id], a);
      }
    } else if !a.ReadTenant? {
      WritersKeepSessions(c, s, a);
      hide Step;
    }
  }

  lemma WritersKeepSessions(c: Config, s: State, a: Action)
    requires TimeOk(s.time) && !IsReaderStep(a) && !a.ReadTenant?
    ensures Step(c, s, a).sessions == s.sessions
  {
    hide Progress, Namespace;
  }

  lemma SameTicket(c: Config, s: State, x: Session, a: Action)
    requires TimeOk(s.time)
    ensures SessionStep(c, s, x, a).ticket == x.ticket
  {
  }

  lemma RunStep(c: Config, first: Snapshot, run: seq<Action>, n: nat)
    requires 0 < n <= |run|
    ensures TimeOk(After(c, first, run, n - 1).time)
    ensures After(c, first, run, n) == Step(c, After(c, first, run, n - 1), run[n - 1])
  {
    hide Step;
  }

  // A session begun after step i knows every change completed by then.
  lemma {:induction false} LaterSessionsKnowMore(c: Config, first: Snapshot, run: seq<Action>, i: nat, n: nat, id: nat)
    requires i <= n <= |run|
    requires id !in After(c, first, run, i).sessions && id in After(c, first, run, n).sessions
    ensures After(c, first, run, i).time.completed <= After(c, first, run, n).sessions[id].ticket.floor
    ensures After(c, first, run, i).time.completedAccess <= After(c, first, run, n).sessions[id].ticket.accessFloor
    decreases n
  {
    hide After, Step, Inv, TimeOk;
    assert i < n;
    RunStep(c, first, run, n);
    CompletionOnlyGrows(c, first, run, i, n - 1);
    var s, a := After(c, first, run, n - 1), run[n - 1];
    StepKeepsTickets(c, s, a, id);
    assert After(c, first, run, n).sessions[id].ticket == Step(c, s, a).sessions[id].ticket;
    if id in s.sessions {
      LaterSessionsKnowMore(c, first, run, i, n - 1, id);
    }
  }

  lemma CompletionOnlyGrows(c: Config, first: Snapshot, run: seq<Action>, i: nat, n: nat)
    requires i <= n <= |run|
    ensures After(c, first, run, i).time.completed <= After(c, first, run, n).time.completed
    ensures After(c, first, run, i).time.completedAccess <= After(c, first, run, n).time.completedAccess
  {
    TimeOnlyGrows(c, first, run, i, n);
    hide After;
  }

  lemma {:induction false} TimeOnlyGrows(c: Config, first: Snapshot, run: seq<Action>, i: nat, n: nat)
    requires i <= n <= |run|
    ensures Later(After(c, first, run, i).time, After(c, first, run, n).time)
    decreases n
  {
    hide Step, Inv;
    if i == n {
    } else {
      TimeOnlyGrows(c, first, run, i, n - 1);
      RunKeepsInv(c, first, run, n - 1);
      StepKeepsInv(c, After(c, first, run, n - 1), run[n - 1], false);
    }
  }

  // The commit whose version a change has made current.
  function PublishedPolicies(w: Change): Option<nat> {
    match w
    case VersionBumped(e) => Some(e)
    case PoliciesInvalidated(e) => Some(e)
    case DecisionsBumped(e, _) => Some(e)
    case Completed(e, _) => Some(e)
    case _ => None
  }

  /** A call that starts after a policy change has bumped the version answers, cached
      or not, from the snapshot that change committed or a later one. */
  lemma NeverOlderPolicies(c: Config, first: Snapshot, run: seq<Action>, i: nat, n: nat, w: nat, id: nat, m: nat)
    requires i <= n <= |run|
    requires w in After(c, first, run, i).changes && PublishedPolicies(After(c, first, run, i).changes[w]).Some?
    requires id !in After(c, first, run, i).sessions && id in After(c, first, run, n).sessions
    requires m < |After(c, first, run, n).sessions[id].served|
    ensures
      var s := After(c, first, run, n);
      var x := s.sessions[id];
      var a := x.served[m];
      && PublishedPolicies(After(c, first, run, i).changes[w]).value <= a.epoch < |s.time.history|
      && a.decision == Outcome(c, s.time.history[a.epoch], x.ticket.policySet, a.input)
  {
    hide After, Outcome, EngineOk, ItemOk, Inv;
    LaterSessionsKnowMore(c, first, run, i, n, id);
    RunKeepsInv(c, first, run, i);
    RunKeepsInv(c, first, run, n);
    var s0, s := After(c, first, run, i), After(c, first, run, n);
    PartsOk(c, s0, w, s, id, false);
    assert ServedOk(c, s.time, s.sessions[id].ticket, s.sessions[id].served[m], false);
  }

  lemma PartsOk(c: Config, s0: State, w: nat, s: State, id: nat, honest: bool)
    requires Inv(c, s0, honest) && Inv(c, s, honest) && w in s0.changes && id in s.sessions
    ensures ChangeOk(s0.time, s0.changes[w]) && SessionOk(c, s.time, s.sessions[id], honest)
  {
    hide SessionOk, ChangeOk;
  }

  /** A call that names no revision and starts after an ACL, relationship or model change
      has completed never answers from an index lookup or a model read made before that
      change committed, provided no caller names a future revision. */
  lemma NeverOlderAccess(c: Config, first: Snapshot, run: seq<Action>, i: nat, n: nat, w: nat, id: nat, m: nat)
    requires i <= n <= |run| && HonestRun(c, first, run)
    requires w in After(c, first, run, i).changes && After(c, first, run, i).changes[w].Completed?
    requires id !in After(c, first, run, i).sessions && id in After(c, first, run, n).sessions
    requires m < |After(c, first, run, n).sessions[id].served|
    requires After(c, first, run, n).sessions[id].ticket.explicitRevision.None?
    ensures After(c, first, run, i).changes[w].accessEpoch
         <= After(c, first, run, n).sessions[id].served[m].accessEpoch
  {
    hide After, Outcome, EngineOk, ItemOk, HonestRun, Inv;
    LaterSessionsKnowMore(c, first, run, i, n, id);
    HonestRunKeepsInv(c, first, run, i);
    HonestRunKeepsInv(c, first, run, n);
    var s0, s := After(c, first, run, i), After(c, first, run, n);
    PartsOk(c, s0, w, s, id, true);
    assert ServedOk(c, s.time, s.sessions[id].ticket, s.sessions[id].served[m], true);
  }
}
