/** What happens when a caller names a revision that is not yet current. */
module FutureRevision {
  import opened Wrappers
  import opened Domain
  import opened Freshness
  import Engine

  // The state after some further actions.
  ghost function Play(c: Config, s: State, acts: seq<Action>): (u: State)
    requires TimeOk(s.time) && ChangesOk(s.time, s.changes)
    ensures TimeOk(u.time) && ChangesOk(u.time, u.changes)
    decreases |acts|
  {
    if acts == [] then s
    else
      StepKeepsTime(c, s, acts[0]);
      Play(c, Step(c, s, acts[0]), acts[1..])
  }

  lemma {:induction false} PlayJoin(c: Config, s: State, a: seq<Action>, b: seq<Action>)
    requires TimeOk(s.time) && ChangesOk(s.time, s.changes)
    ensures Play(c, s, a + b) == Play(c, Play(c, s, a), b)
    decreases |a|
  {
    hide Step, TimeOk, ChangesOk;
    if a == [] {
      assert a + b == b;
    } else {
      StepKeepsTime(c, s, a[0]);
      PlayJoin(c, Step(c, s, a[0]), a[1..], b);
      assert (a + b)[1..] == a[1..] + b;
    }
  }

  lemma PlayOne(c: Config, s: State, a: Action)
    requires TimeOk(s.time) && ChangesOk(s.time, s.changes)
    ensures Play(c, s, [a]) == Step(c, s, a)
  {
    hide Step, TimeOk, ChangesOk;
    StepKeepsTime(c, s, a);
    assert [a][1..] == [];
  }

  lemma InitialTime(first: Snapshot)
    ensures TimeOk(Initial(first).time) && ChangesOk(Initial(first).time, Initial(first).changes)
  {
  }

  lemma {:induction false} AfterIsPlay(c: Config, first: Snapshot, run: seq<Action>, n: nat)
    requires n <= |run|
    ensures TimeOk(Initial(first).time) && ChangesOk(Initial(first).time, Initial(first).changes)
    ensures After(c, first, run, n) == Play(c, Initial(first), run[..n])
  {
    hide Step, TimeOk, ChangesOk, Initial;
    InitialTime(first);
    if n == 0 {
    } else {
      AfterIsPlay(c, first, run, n - 1);
      assert run[..n] == run[..n - 1] + [run[n - 1]];
      PlayJoin(c, Initial(first), run[..n - 1], [run[n - 1]]);
      PlayOne(c, Play(c, Initial(first), run[..n - 1]), run[n - 1]);
    }
  }

  // ------------------------------------------------------------ access changes

  // After q access changes and nothing else: revision q + 1 is current.
  function Quiet(q: nat): Timeline {
    Timeline([map[]], [0, 0], 0, q, Epochs(q), q)
  }

  function Epochs(q: nat): seq<nat> {
    [0] + seq(q + 1, i requires 0 <= i <= q => i)
  }

  // Every change so far is complete, and number id was the commit id + 1.
  ghost predicate Done(changes: map<nat, Change>, q: nat) {
    forall id: nat :: if id < q then id in changes && changes[id] == Completed(0, id + 1) else id !in changes
  }

  ghost predicate Idle(s: State, q: nat, cache: map<DecisionKey, Answer>, sessions: map<nat, Session>) {
    && s.time == Quiet(q) && Done(s.changes, q)
    && s.decisionCache == cache && s.sessions == sessions && Namespace(s, "draft") == 0
  }

  lemma IdleTime(s: State, q: nat, cache: map<DecisionKey, Answer>, sessions: map<nat, Session>)
    requires Idle(s, q, cache, sessions)
    ensures TimeOk(s.time) && ChangesOk(s.time, s.changes)
    ensures Version(s.time) == 1 && Revision(s.time) == q + 1
  {
    var e := Epochs(q);
    assert forall i :: 0 < i < |e| ==> e[i] == i - 1;
  }

  function OneChange(id: nat): seq<Action> {
    [CommitAccess(id), BumpDecisions(id), BumpRevision(id)]
  }

  // An access change number q under way, as far as w.
  ghost predicate Underway(s: State, q: nat, w: Change, cache: map<DecisionKey, Answer>, sessions: map<nat, Session>) {
    && s.time == Quiet(q).(accessCommits := q + 1)
    && (forall id: nat :: id != q ==> if id < q then id in s.changes && s.changes[id] == Completed(0, id + 1) else id !in s.changes)
    && q in s.changes && s.changes[q] == w
    && s.decisionCache == cache && s.sessions == sessions && Namespace(s, "draft") == 0
  }

  lemma CommitStep(c: Config, s: State, q: nat, cache: map<DecisionKey, Answer>, sessions: map<nat, Session>)
    requires Idle(s, q, cache, sessions) && TimeOk(s.time)
    ensures Underway(Step(c, s, CommitAccess(q)), q, AccessCommitted(q + 1), cache, sessions)
  {
    hide TimeOk, Epochs;
  }

  lemma BumpStep(c: Config, s: State, q: nat, cache: map<DecisionKey, Answer>, sessions: map<nat, Session>)
    requires Underway(s, q, AccessCommitted(q + 1), cache, sessions) && TimeOk(s.time)
    ensures Underway(Step(c, s, BumpDecisions(q)), q, DecisionsBumped(0, q + 1), cache, sessions)
  {
    hide TimeOk, Epochs;
    assert "draft"[0] != "active"[0];
  }

  lemma RevisionStep(c: Config, s: State, q: nat, cache: map<DecisionKey, Answer>, sessions: map<nat, Session>)
    requires Underway(s, q, DecisionsBumped(0, q + 1), cache, sessions) && TimeOk(s.time)
    ensures Idle(Step(c, s, BumpRevision(q)), q + 1, cache, sessions)
  {
    hide TimeOk;
    assert Epochs(q + 1) == Epochs(q) + [q + 1];
    hide Epochs;
  }

  lemma OneChangeRuns(c: Config, s: State, q: nat, cache: map<DecisionKey, Answer>, sessions: map<nat, Session>)
    requires Idle(s, q, cache, sessions) && TimeOk(s.time) && ChangesOk(s.time, s.changes)
    ensures Idle(Play(c, s, OneChange(q)), q + 1, cache, sessions)
  {
    hide Idle, Underway, Step, TimeOk, ChangesOk, Play;
    CommitStep(c, s, q, cache, sessions);
    PlayOne(c, s, CommitAccess(q));
    var s1 := Play(c, s, [CommitAccess(q)]);
    BumpStep(c, s1, q, cache, sessions);
    PlayOne(c, s1, BumpDecisions(q));
    var s2 := Play(c, s1, [BumpDecisions(q)]);
    RevisionStep(c, s2, q, cache, sessions);
    PlayOne(c, s2, BumpRevision(q));
    PlayJoin(c, s, [CommitAccess(q)], [BumpDecisions(q)] + [BumpRevision(q)]);
    PlayJoin(c, s1, [BumpDecisions(q)], [BumpRevision(q)]);
    assert OneChange(q) == [CommitAccess(q)] + ([BumpDecisions(q)] + [BumpRevision(q)]);
  }

  function ManyChanges(from: nat, n: nat): seq<Action> {
    if n == 0 then [] else ManyChanges(from, n - 1) + OneChange(from + n - 1)
  }

  lemma {:induction false} ManyChangesRun(c: Config, s: State, q: nat, n: nat, cache: map<DecisionKey, Answer>, sessions: map<nat, Session>)
    requires Idle(s, q, cache, sessions) && TimeOk(s.time) && ChangesOk(s.time, s.changes)
    ensures Idle(Play(c, s, ManyChanges(q, n)), q + n, cache, sessions)
  {
    hide Idle, TimeOk, ChangesOk, Step, OneChange;
    if n == 0 {
    } else {
      hide Play;
      ManyChangesRun(c, s, q, n - 1, cache, sessions);
      var u := Play(c, s, ManyChanges(q, n - 1));
      OneChangeRuns(c, u, q + n - 1, cache, sessions);
      PlayJoin(c, s, ManyChanges(q, n - 1), OneChange(q + n - 1));
    }
  }

  // ------------------------------------------------------------- the first call

  // Call 1 names revision k, and stores its answer under it.
  function FirstCall(input: AuthorizationInput, k: int): seq<Action> {
    [ReadTenant(1, "draft", false, false, Some(k)),
     ReadAccess(1, input),
     MakeKey(1),
     LookUpDecision(1, true),
     ReadPolicyNamespace(1),
     ReadPolicies(1),
     DecideItem(1),
     StoreDecision(1, true)]
  }

  function CallKey(input: AuthorizationInput, k: int): DecisionKey {
    DecisionKey("draft", 0, 1, k, RequestOf(input))
  }

  function CallAnswer(c: Config, input: AuthorizationInput, q: nat): Answer {
    Answer(Engine.Decide(c.defaults, c.ev, input), input, 0, q)
  }

  // The session of call 1 after its first n actions, begun at revision q + 1.
  function FirstSession(c: Config, input: AuthorizationInput, k: int, q: nat, n: nat): Session {
    var missed := DecisionMissed(input, q, Some(CallKey(input, k)));
    var ticket := Ticket("draft", false, false, Some(k), 1, q + 1, 0, q);
    match n
    case 1 => Session(ticket, NotLoaded, NoItem, [], [])
    case 2 => Session(ticket, NotLoaded, Built(input, q), [input], [])
    case 3 => Session(ticket, NotLoaded, Keyed(input, q, CallKey(input, k)), [input], [])
    case 4 => Session(ticket, NotLoaded, missed, [input], [])
    case 5 => Session(ticket, PoliciesMissed, missed, [input], [])
    case 6 => Session(ticket, Loaded(c.defaults, 0), missed, [input], [])
    case 7 => Session(ticket, Loaded(c.defaults, 0), Decided(CallAnswer(c, input, q), Some(CallKey(input, k))), [input], [])
    case _ => Session(ticket, Loaded(c.defaults, 0), Finished, [input], [CallAnswer(c, input, q)])
  }

  lemma FirstOpens(c: Config, s: State, input: AuthorizationInput, k: int, q: nat)
    requires Idle(s, q, map[], map[]) && TimeOk(s.time)
    ensures Idle(Step(c, s, FirstCall(input, k)[0]), q, map[], map[1 := FirstSession(c, input, k, q, 1)])
  {
    IdleTime(s, q, map[], map[]);
    hide TimeOk, Epochs;
  }

  // A step of a call that stores nothing moves its own session only.
  lemma CallActs(c: Config, s: State, a: Action, q: nat, cache: map<DecisionKey, Answer>, sessions: map<nat, Session>)
    requires TimeOk(s.time) && Idle(s, q, cache, sessions)
    requires IsReaderStep(a) && !a.StorePolicies? && !a.StoreDecision? && a.id in sessions
    ensures Idle(Step(c, s, a), q, cache, sessions[a.id := SessionStep(c, s, sessions[a.id], a)])
  {
    hide TimeOk, SessionStep, Quiet, Done;
  }

  lemma FirstActs(c: Config, s: State, input: AuthorizationInput, k: int, q: nat, n: nat)
    requires 1 <= n <= 6 && TimeOk(s.time)
    requires Idle(s, q, map[], map[1 := FirstSession(c, input, k, q, n)])
    ensures Idle(Step(c, s, FirstCall(input, k)[n]), q, map[], map[1 := FirstSession(c, input, k, q, n + 1)])
  {
    hide Step, TimeOk, Epochs, RequestOf, Engine.Decide, Done;
    var x := FirstSession(c, input, k, q, n);
    var a := FirstCall(input, k)[n];
    CallActs(c, s, a, q, map[], map[1 := x]);
    assert PoliciesIn(map[], "draft") == [];
    assert SessionStep(c, s, x, a) == FirstSession(c, input, k, q, n + 1);
    hide SessionStep, FirstSession, Idle;
    assert map[1 := x][1 := FirstSession(c, input, k, q, n + 1)] == map[1 := FirstSession(c, input, k, q, n + 1)];
  }

  lemma FirstStores(c: Config, s: State, input: AuthorizationInput, k: int, q: nat)
    requires TimeOk(s.time) && Idle(s, q, map[], map[1 := FirstSession(c, input, k, q, 7)])
    ensures Idle(Step(c, s, FirstCall(input, k)[7]), q, map[CallKey(input, k) := CallAnswer(c, input, q)],
                 map[1 := FirstSession(c, input, k, q, 8)])
  {
    hide TimeOk, Epochs, RequestOf, Engine.Decide, Done;
    assert FirstCall(input, k)[7] == StoreDecision(1, true);
    var u := Step(c, s, StoreDecision(1, true));
    assert [] + [CallAnswer(c, input, q)] == [CallAnswer(c, input, q)];
    assert u.sessions == map[1 := FirstSession(c, input, k, q, 8)];
    assert u.decisionCache == map[CallKey(input, k) := CallAnswer(c, input, q)];
  }

  lemma {:induction false} FirstCallRuns(c: Config, s: State, input: AuthorizationInput, k: int, q: nat, n: nat)
    requires Idle(s, q, map[], map[]) && TimeOk(s.time) && ChangesOk(s.time, s.changes) && 1 <= n <= 8
    ensures Idle(Play(c, s, FirstCall(input, k)[..n]), q,
                 if n < 8 then map[] else map[CallKey(input, k) := CallAnswer(c, input, q)],
                 map[1 := FirstSession(c, input, k, q, n)])
  {
    hide Idle, TimeOk, ChangesOk, Step, Play, FirstCall, FirstSession, CallKey, CallAnswer;
    CallLengths(input, k);
    var call := FirstCall(input, k);
    if n == 1 {
      FirstOpens(c, s, input, k, q);
      PlayOne(c, s, call[0]);
      assert call[..1] == [call[0]];
    } else {
      FirstCallRuns(c, s, input, k, q, n - 1);
      var u := Play(c, s, call[..n - 1]);
      assert call[..n] == call[..n - 1] + [call[n - 1]];
      PlayJoin(c, s, call[..n - 1], [call[n - 1]]);
      PlayOne(c, u, call[n - 1]);
      if n < 8 {
        FirstActs(c, u, input, k, q, n - 1);
      } else {
        FirstStores(c, u, input, k, q);
      }
    }
  }

  // ------------------------------------------------------------ the second call

  // Call 2 names no revision.
  function SecondCall(input: AuthorizationInput): seq<Action> {
    [ReadTenant(2, "draft", false, false, None), ReadAccess(2, input), MakeKey(2), LookUpDecision(2, true)]
  }

  function SecondSession(input: AuthorizationInput, q: nat, answer: Answer, n: nat): Session {
    var ticket := Ticket("draft", false, false, None, 1, q + 1, 0, q);
    match n
    case 1 => Session(ticket, NotLoaded, NoItem, [], [])
    case 2 => Session(ticket, NotLoaded, Built(input, q), [input], [])
    case 3 => Session(ticket, NotLoaded, Keyed(input, q, CallKey(input, q + 1)), [input], [])
    case _ => Session(ticket, NotLoaded, Finished, [input], [answer])
  }

  lemma SecondOpens(c: Config, s: State, input: AuthorizationInput, q: nat, answer: Answer, sessions: map<nat, Session>)
    requires TimeOk(s.time) && Idle(s, q, map[CallKey(input, q + 1) := answer], sessions) && 2 !in sessions
    ensures Idle(Step(c, s, SecondCall(input)[0]), q, map[CallKey(input, q + 1) := answer],
                 sessions[2 := SecondSession(input, q, answer, 1)])
  {
    IdleTime(s, q, map[CallKey(input, q + 1) := answer], sessions);
    hide TimeOk, Epochs, RequestOf;
  }

  lemma SecondActs(c: Config, s: State, input: AuthorizationInput, q: nat, answer: Answer, sessions: map<nat, Session>, n: nat)
    requires TimeOk(s.time) && 1 <= n <= 3 && 2 !in sessions
    requires Idle(s, q, map[CallKey(input, q + 1) := answer], sessions[2 := SecondSession(input, q, answer, n)])
    ensures Idle(Step(c, s, SecondCall(input)[n]), q, map[CallKey(input, q + 1) := answer],
                 sessions[2 := SecondSession(input, q, answer, n + 1)])
  {
    hide Step, TimeOk, Epochs, RequestOf, Done;
    var x := SecondSession(input, q, answer, n);
    var a := SecondCall(input)[n];
    CallActs(c, s, a, q, map[CallKey(input, q + 1) := answer], sessions[2 := x]);
    assert [] + [answer] == [answer];
    assert SessionStep(c, s, x, a) == SecondSession(input, q, answer, n + 1);
    hide SessionStep, SecondSession, Idle;
    assert sessions[2 := x][2 := SecondSession(input, q, answer, n + 1)] == sessions[2 := SecondSession(input, q, answer, n + 1)];
  }

  lemma {:induction false} SecondCallRuns(c: Config, s: State, input: AuthorizationInput, q: nat, answer: Answer,
                                          sessions: map<nat, Session>, n: nat)
    requires TimeOk(s.time) && ChangesOk(s.time, s.changes) && 1 <= n <= 4 && 2 !in sessions
    requires Idle(s, q, map[CallKey(input, q + 1) := answer], sessions)
    ensures Idle(Play(c, s, SecondCall(input)[..n]), q, map[CallKey(input, q + 1) := answer],
                 sessions[2 := SecondSession(input, q, answer, n)])
  {
    hide Idle, TimeOk, ChangesOk, Step, Play, SecondSession, CallKey;
    var call := SecondCall(input);
    if n == 1 {
      SecondOpens(c, s, input, q, answer, sessions);
      PlayOne(c, s, call[0]);
      assert call[..1] == [call[0]];
    } else {
      SecondCallRuns(c, s, input, q, answer, sessions, n - 1);
      var u := Play(c, s, call[..n - 1]);
      assert call[..n] == call[..n - 1] + [call[n - 1]];
      PlayJoin(c, s, call[..n - 1], [call[n - 1]]);
      PlayOne(c, u, call[n - 1]);
      SecondActs(c, u, input, q, answer, sessions, n - 1);
    }
  }

  // -------------------------------------------------------------- the condition

  // The only revision named in the run is k, at action p, while r is current.
  ghost predicate NamesOnly(c: Config, first: Snapshot, run: seq<Action>, p: nat, k: int, r: nat) {
    && p < |run| && run[p].ReadTenant? && run[p].explicitRevision == Some(k)
    && Revision(After(c, first, run, p).time) == r
    && forall j :: 0 <= j < |run| && j != p && run[j].ReadTenant? ==> run[j].explicitRevision.None?
  }

  // Call id, begun after change w completed at i, names no revision and is served an
  // answer whose index lookup was made before w committed.
  ghost predicate OlderServed(c: Config, first: Snapshot, run: seq<Action>, i: nat, n: nat, w: nat, id: nat, m: nat) {
    && i <= n <= |run|
    && var s, u := After(c, first, run, i), After(c, first, run, n);
       && w in s.changes && s.changes[w].Completed? && id !in s.sessions && id in u.sessions
       && u.sessions[id].ticket.explicitRevision.None? && m < |u.sessions[id].served|
       && u.sessions[id].served[m].accessEpoch < s.changes[w].accessEpoch
  }

  lemma PastRevisionIsHarmless(c: Config, first: Snapshot, run: seq<Action>, p: nat, k: int, r: nat,
                               i: nat, n: nat, w: nat, id: nat, m: nat)
    requires NamesOnly(c, first, run, p, k, r) && k <= r
    ensures !OlderServed(c, first, run, i, n, w, id, m)
  {
    hide After;
    assert HonestRun(c, first, run);
    hide NamesOnly, HonestRun;
    if OlderServed(c, first, run, i, n, w, id, m) {
      NeverOlderAccess(c, first, run, i, n, w, id, m);
    }
  }

  // Reach revision r, name k, reach revision k, and call again.
  function WholeRun(input: AuthorizationInput, k: nat, r: nat): seq<Action>
    requires 1 <= r < k
  {
    ManyChanges(0, r - 1) + FirstCall(input, k) + ManyChanges(r - 1, k - r) + SecondCall(input)
  }

  // The four parts of the run, played from the initial state.
  lemma WholeRunPlays(c: Config, input: AuthorizationInput, k: nat, r: nat) returns (p: nat, i: nat)
    requires 1 <= r < k
    ensures
      var run := WholeRun(input, k, r);
      var cache := map[CallKey(input, k) := CallAnswer(c, input, r - 1)];
      var first := map[1 := FirstSession(c, input, k, r - 1, 8)];
      && p == |ManyChanges(0, r - 1)| && i == |run| - 4
      && Idle(After(c, map[], run, p), r - 1, map[], map[])
      && Idle(After(c, map[], run, i), k - 1, cache, first)
      && Idle(After(c, map[], run, |run|), k - 1, cache, first[2 := SecondSession(input, k - 1, CallAnswer(c, input, r - 1), 4)])
  {
    hide Idle, TimeOk, ChangesOk, Step, Play, FirstSession, SecondSession, CallKey, CallAnswer, ManyChanges;
    var run := WholeRun(input, k, r);
    var before, between := ManyChanges(0, r - 1), ManyChanges(r - 1, k - r);
    var call, again := FirstCall(input, k), SecondCall(input);
    var answer := CallAnswer(c, input, r - 1);
    var first := map[1 := FirstSession(c, input, k, r - 1, 8)];
    hide FirstCall, SecondCall, CallAnswer;
    p, i := |before|, |before + call + between|;
    StartsIdle(c);
    var s0 := Initial(map[]);
    hide Initial;
    ManyChangesRun(c, s0, 0, r - 1, map[], map[]);
    var s1 := Play(c, s0, before);
    CallLengths(input, k);
    FirstCallRuns(c, s1, input, k, r - 1, 8);
    assert call[..8] == call && again[..4] == again;
    PlayJoin(c, s0, before, call);
    var s2 := Play(c, s0, before + call);
    ManyChangesRun(c, s2, r - 1, k - r, map[CallKey(input, k) := answer], first);
    PlayJoin(c, s0, before + call, between);
    var s3 := Play(c, s0, before + call + between);
    SecondCallRuns(c, s3, input, k - 1, answer, first, 4);
    PlayJoin(c, s0, before + call + between, again);
    AfterIsPlay(c, map[], run, p);
    AfterIsPlay(c, map[], run, i);
    AfterIsPlay(c, map[], run, |run|);
    assert run[..p] == before && run[..i] == before + call + between && run[..|run|] == run;
  }

  lemma StartsIdle(c: Config)
    ensures Idle(Initial(map[]), 0, map[], map[])
    ensures TimeOk(Initial(map[]).time) && ChangesOk(Initial(map[]).time, Initial(map[]).changes)
  {
    assert Epochs(0) == [0, 0];
  }

  lemma CallLengths(input: AuthorizationInput, k: int)
    ensures |FirstCall(input, k)| == 8 && |SecondCall(input)| == 4
  {
  }

  lemma {:induction false} ChangesOpenNothing(from: nat, n: nat)
    ensures forall j :: 0 <= j < |ManyChanges(from, n)| ==> !ManyChanges(from, n)[j].ReadTenant?
  {
    if n == 0 {
    } else {
      ChangesOpenNothing(from, n - 1);
    }
  }

  lemma WholeRunNames(input: AuthorizationInput, k: nat, r: nat)
    requires 1 <= r < k
    ensures
      var run, p := WholeRun(input, k, r), |ManyChanges(0, r - 1)|;
      && p < |run| && run[p].ReadTenant? && run[p].explicitRevision == Some(k)
      && forall j :: 0 <= j < |run| && j != p && run[j].ReadTenant? ==> run[j].explicitRevision.None?
  {
    var before, call, between, again := ManyChanges(0, r - 1), FirstCall(input, k), ManyChanges(r - 1, k - r), SecondCall(input);
    ChangesOpenNothing(0, r - 1);
    ChangesOpenNothing(r - 1, k - r);
    CallLengths(input, k);
    var run, p := WholeRun(input, k, r), |before|;
    assert forall j :: 0 < j < 8 ==> !call[j].ReadTenant?;
    assert forall j :: 0 <= j < 4 && again[j].ReadTenant? ==> again[j].explicitRevision.None?;
    assert call[0] == ReadTenant(1, "draft", false, false, Some(k));
    hide ManyChanges, FirstCall, SecondCall;
    forall j | 0 <= j < |run| ensures
      run[j] == if j < p then before[j] else if j < p + 8 then call[j - p]
                else if j < p + 8 + |between| then between[j - p - 8] else again[j - p - 8 - |between|]
    {
    }
  }

  /** Some run whose only named revision is k, named while r is current, serves a later
      call that names none from before a completed access change exactly when k lies in
      the future. (A tenant starts at revision 1.) */
  lemma FutureRevisionExactly(c: Config, input: AuthorizationInput, k: int, r: nat)
    requires r >= 1
    ensures
      (exists first, run, p, i, n, w, id, m :: NamesOnly(c, first, run, p, k, r) && OlderServed(c, first, run, i, n, w, id, m))
      <==> k > r
  {
    if k <= r {
      forall first, run, p, i, n, w, id, m | NamesOnly(c, first, run, p, k, r)
        ensures !OlderServed(c, first, run, i, n, w, id, m)
      {
        PastRevisionIsHarmless(c, first, run, p, k, r, i, n, w, id, m);
      }
    } else {
      FutureRevisionHarms(c, input, k, r);
    }
  }

  lemma FutureRevisionHarms(c: Config, input: AuthorizationInput, k: nat, r: nat)
    requires 1 <= r < k
    ensures exists first, run, p, i, n, w, id, m :: NamesOnly(c, first, run, p, k, r) && OlderServed(c, first, run, i, n, w, id, m)
  {
    hide WholeRun, After, ManyChanges, NamesOnly, OlderServed;
    WholeRunNamesOnly(c, input, k, r);
    WholeRunServesOlder(c, input, k, r);
  }

  lemma WholeRunNamesOnly(c: Config, input: AuthorizationInput, k: nat, r: nat)
    requires 1 <= r < k
    ensures NamesOnly(c, map[], WholeRun(input, k, r), |ManyChanges(0, r - 1)|, k, r)
  {
    hide WholeRun, After, ManyChanges, Idle, SecondSession, FirstSession, CallAnswer, CallKey;
    WholeRunNames(input, k, r);
    var p, i := WholeRunPlays(c, input, k, r);
    IdleTime(After(c, map[], WholeRun(input, k, r), p), r - 1, map[], map[]);
  }

  lemma WholeRunServesOlder(c: Config, input: AuthorizationInput, k: nat, r: nat)
    requires 1 <= r < k
    ensures |WholeRun(input, k, r)| >= 4
    ensures OlderServed(c, map[], WholeRun(input, k, r), |WholeRun(input, k, r)| - 4, |WholeRun(input, k, r)|, k - 2, 2, 0)
  {
    hide WholeRun, After, ManyChanges, Idle, SecondSession, FirstSession, CallAnswer, CallKey, TimeOk, ChangesOk;
    var run := WholeRun(input, k, r);
    var p, i := WholeRunPlays(c, input, k, r);
    AnswersFromBefore(c, After(c, map[], run, i), After(c, map[], run, |run|), input, k, r);
  }

  lemma AnswersFromBefore(c: Config, s: State, u: State, input: AuthorizationInput, k: nat, r: nat)
    requires 1 <= r < k
    requires
      var cache := map[CallKey(input, k) := CallAnswer(c, input, r - 1)];
      var first := map[1 := FirstSession(c, input, k, r - 1, 8)];
      && Idle(s, k - 1, cache, first)
      && Idle(u, k - 1, cache, first[2 := SecondSession(input, k - 1, CallAnswer(c, input, r - 1), 4)])
    ensures k - 2 in s.changes && s.changes[k - 2] == Completed(0, k - 1)
    ensures 2 !in s.sessions && 2 in u.sessions && u.sessions[2].ticket.explicitRevision.None?
    ensures |u.sessions[2].served| == 1 && u.sessions[2].served[0].accessEpoch == r - 1
  {
    hide Quiet, CallKey, FirstSession, RequestOf, Engine.Decide;
  }
}
