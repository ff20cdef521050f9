/** Whose question a call answers, and which cached answers it can no longer reach. */
module OwnAnswers {
  import opened Wrappers
  import opened Domain
  import opened Freshness
  import Engine

  // -------------------------------------------------------- what a call was asked

  // The inputs that the actions of a run put to call id: one for each lookup that it was
  // ready for, and the input of item k again for each repetition of item k.
  ghost function Posed(c: Config, first: Snapshot, run: seq<Action>, n: nat, id: nat): seq<AuthorizationInput>
    requires n <= |run|
  {
    if n == 0 then []
    else
      var before, s := Posed(c, first, run, n - 1, id), After(c, first, run, n - 1);
      if id !in s.sessions then before
      else
        match run[n - 1]
        case ReadAccess(j, input) => if j == id && MayBuild(s.sessions[id]) then before + [input] else before
        case RepeatItem(j, k, action, resource, context) =>
          if j == id && MayRepeat(s.sessions[id], k, action, resource, context) && k < |before| then before + [before[k]]
          else before
        case _ => before
  }

  lemma OthersStay(c: Config, s: State, a: Action, id: nat)
    requires TimeOk(s.time) && id in s.sessions && !(IsReaderStep(a) && a.id == id)
    ensures id in Step(c, s, a).sessions && Step(c, s, a).sessions[id] == s.sessions[id]
  {
    hide SessionStep, PolicyCacheStep, DecisionCacheStep, TimeOk, Progress, Namespace;
    if !IsReaderStep(a) && !a.ReadTenant? {
      WritersKeepSessions(c, s, a);
    }
  }

  lemma OwnStep(c: Config, s: State, a: Action, id: nat)
    requires TimeOk(s.time) && id in s.sessions && IsReaderStep(a) && a.id == id
    ensures id in Step(c, s, a).sessions && Step(c, s, a).sessions[id] == SessionStep(c, s, s.sessions[id], a)
  {
    hide SessionStep, PolicyCacheStep, DecisionCacheStep, TimeOk;
  }

  lemma NewSession(c: Config, s: State, a: Action, id: nat)
    requires TimeOk(s.time) && id !in s.sessions && id in Step(c, s, a).sessions
    ensures Step(c, s, a).sessions[id].asked == []
  {
    hide TimeOk, PolicyCacheStep, DecisionCacheStep, SessionStep, Progress, Namespace;
    if !IsReaderStep(a) && !a.ReadTenant? {
      WritersKeepSessions(c, s, a);
    }
  }

  // What a step adds to the questions of its own call.
  lemma AskedGrows(c: Config, s: State, x: Session, a: Action)
    requires TimeOk(s.time)
    ensures SessionStep(c, s, x, a).asked ==
      match a
      case ReadAccess(_, input) => if MayBuild(x) then x.asked + [input] else x.asked
      case RepeatItem(_, k, action, resource, context) =>
        if MayRepeat(x, k, action, resource, context) then x.asked + [x.asked[k]] else x.asked
      case _ => x.asked
  {
    hide TimeOk, RequestOf, Namespace, PoliciesIn, Effective, Engine.Decide;
  }

  lemma {:induction false} PosedIsAsked(c: Config, first: Snapshot, run: seq<Action>, n: nat, id: nat)
    requires n <= |run|
    ensures
      if id in After(c, first, run, n).sessions
      then After(c, first, run, n).sessions[id].asked == Posed(c, first, run, n, id)
      else Posed(c, first, run, n, id) == []
  {
    hide After, Step, SessionStep, MayBuild, MayRepeat, TimeOk, ChangesOk;
    if n == 0 {
      NobodyYet(c, first, run);
    } else {
      PosedIsAsked(c, first, run, n - 1, id);
      RunStep(c, first, run, n);
      var s, a := After(c, first, run, n - 1), run[n - 1];
      if id !in s.sessions {
        if id in Step(c, s, a).sessions {
          NewSession(c, s, a, id);
        }
      } else if IsReaderStep(a) && a.id == id {
        OwnStep(c, s, a, id);
        AskedGrows(c, s, s.sessions[id], a);
        RepeatsOld(s.sessions[id], a);
      } else {
        OthersStay(c, s, a, id);
      }
    }
  }

  lemma NobodyYet(c: Config, first: Snapshot, run: seq<Action>)
    ensures After(c, first, run, 0).sessions == map[]
  {
  }

  lemma RepeatsOld(x: Session, a: Action)
    ensures a.RepeatItem? && MayRepeat(x, a.n, a.action, a.resource, a.context) ==> a.n < |x.asked|
  {
  }

  // Every question comes from a lookup of the call's own.
  lemma {:induction false} PosedWasRead(c: Config, first: Snapshot, run: seq<Action>, n: nat, id: nat, m: nat) returns (j: nat)
    requires n <= |run| && m < |Posed(c, first, run, n, id)|
    ensures j < n && run[j] == ReadAccess(id, Posed(c, first, run, n, id)[m])
  {
    hide After, MayBuild, MayRepeat;
    assert n > 0;
    var before := Posed(c, first, run, n - 1, id);
    if m < |before| {
      j := PosedWasRead(c, first, run, n - 1, id, m);
    } else if run[n - 1].ReadAccess? {
      j := n - 1;
    } else {
      j := PosedWasRead(c, first, run, n - 1, id, run[n - 1].n);
    }
  }

  /** Over every run, the m-th answer of a call is the engine's decision on an input with
      the user, action, resource and context that the call's own lookup supplied for its
      m-th question, whoever's decision lay in the cache. */
  lemma AnswersItsOwnCaller(c: Config, first: Snapshot, run: seq<Action>, n: nat, id: nat, m: nat) returns (j: nat)
    requires n <= |run| && id in After(c, first, run, n).sessions && m < |After(c, first, run, n).sessions[id].served|
    ensures m < |Posed(c, first, run, n, id)| && j < n && run[j] == ReadAccess(id, Posed(c, first, run, n, id)[m])
    ensures
      var s := After(c, first, run, n);
      var a, own := s.sessions[id].served[m], run[j].input;
      && a.input.user == own.user && a.input.action == own.action
      && a.input.resource == own.resource && a.input.context == own.context
      && a.epoch < |s.time.history|
      && a.decision == Outcome(c, s.time.history[a.epoch], s.sessions[id].ticket.policySet, a.input)
  {
    PosedIsAsked(c, first, run, n, id);
    RunKeepsInv(c, first, run, n);
    var s := After(c, first, run, n);
    var x := s.sessions[id];
    hide After, Outcome, Posed, TimeOk, ChangesOk, EngineOk, ItemOk, TicketOk, PolicyCacheOk, DecisionCacheOk;
    assert SessionOk(c, s.time, x, false);
    assert ServedOk(c, s.time, x.ticket, x.served[m], false);
    assert SameQuestion(x.served[m].input, x.asked[m]);
    j := PosedWasRead(c, first, run, n, id, m);
  }

  // A repetition answers the item it names, for the same user as before.
  lemma RepeatAnswersItsItem(c: Config, s: State, a: Action)
    requires Inv(c, s, false) && a.RepeatItem? && a.id in s.sessions
    requires |Step(c, s, a).sessions[a.id].served| > |s.sessions[a.id].served|
    ensures
      var x, y := s.sessions[a.id], Step(c, s, a).sessions[a.id];
      var again := y.served[|x.served|];
      && y.served == x.served + [again]
      && again.input.action == a.action && again.input.resource == a.resource && again.input.context == a.context
      && a.n < |x.served| && again == x.served[a.n]
  {
    var x := s.sessions[a.id];
    assert SessionOk(c, s.time, x, false);
    OwnStep(c, s, a, a.id);
    hide Step, Inv, TimeOk, EngineOk, ItemOk, TicketOk, ServedOk;
  }

  // Which policies a call is decided on: those of the set it names, the settings file's
  // where that set is empty, and the active ones where it names no set.
  lemma OutcomeOfSet(c: Config, s: Snapshot, name: string, input: AuthorizationInput)
    ensures name in {"draft", "archived", "active"} && name in s && s[name] != [] ==>
      Outcome(c, s, name, input) == Engine.Decide(s[name], c.ev, input)
    ensures name in {"draft", "archived", "active"} && (name !in s || s[name] == []) ==>
      Outcome(c, s, name, input) == Engine.Decide(c.defaults, c.ev, input)
    ensures name !in {"draft", "archived", "active"} ==> Outcome(c, s, name, input) == Outcome(c, s, "active", input)
  {
    hide Engine.Decide;
  }

  // -------------------------------------------------------- fully consistent calls

  /** A fully consistent call that starts after an access change completed never answers
      from before its commit, whatever revision anyone has named. */
  lemma FullyConsistentNeverOlder(c: Config, first: Snapshot, run: seq<Action>, i: nat, n: nat, w: nat, id: nat, m: nat)
    requires i <= n <= |run|
    requires w in After(c, first, run, i).changes && After(c, first, run, i).changes[w].Completed?
    requires id !in After(c, first, run, i).sessions && id in After(c, first, run, n).sessions
    requires m < |After(c, first, run, n).sessions[id].served|
    requires After(c, first, run, n).sessions[id].ticket.fullyConsistent
    ensures After(c, first, run, i).changes[w].accessEpoch <= After(c, first, run, n).sessions[id].served[m].accessEpoch
  {
    hide After, Outcome, EngineOk, ItemOk, AskedOk, Inv, TimeOk, ChangesOk;
    LaterSessionsKnowMore(c, first, run, i, n, id);
    RunKeepsInv(c, first, run, i);
    RunKeepsInv(c, first, run, n);
    var s0, s := After(c, first, run, i), After(c, first, run, n);
    PartsOk(c, s0, w, s, id, false);
    assert ServedOk(c, s.time, s.sessions[id].ticket, s.sessions[id].served[m], false);
  }

  // --------------------------------------------------------- retired cache entries

  // How far a change has come: 4 once it has raised the decision namespace.
  function Stage(w: Change): nat {
    match w
    case NotBegun => 0
    case Committed(_) => 1
    case VersionBumped(_) => 2
    case PoliciesInvalidated(_) => 3
    case AccessCommitted(_) => 3
    case DecisionsBumped(_, _) => 4
    case Completed(_, _) => 5
  }

  ghost predicate NamespacesGrow(s: State, t: State) {
    && s.policyNamespace <= t.policyNamespace
    && forall name: string :: Namespace(s, name) <= Namespace(t, name)
  }

  lemma StepGrows(c: Config, s: State, a: Action)
    requires TimeOk(s.time)
    ensures NamespacesGrow(s, Step(c, s, a))
    ensures forall w :: w in s.changes ==> w in Step(c, s, a).changes && Stage(s.changes[w]) <= Stage(Step(c, s, a).changes[w])
  {
    NamespacesStep(c, s, a);
    ChangesStep(c, s, a);
    hide Step;
  }

  lemma NamespacesStep(c: Config, s: State, a: Action)
    requires TimeOk(s.time)
    ensures NamespacesGrow(s, Step(c, s, a))
  {
    hide SessionStep, PolicyCacheStep, DecisionCacheStep, TimeOk, OpenSession, Progress;
  }

  lemma ChangesStep(c: Config, s: State, a: Action)
    requires TimeOk(s.time)
    ensures forall w :: w in s.changes ==> w in Step(c, s, a).changes && Stage(s.changes[w]) <= Stage(Step(c, s, a).changes[w])
  {
    hide SessionStep, PolicyCacheStep, DecisionCacheStep, TimeOk, OpenSession, Namespace;
  }

  // The step that takes a change past a namespace raises that namespace.
  lemma PassingRaises(c: Config, s: State, a: Action, w: nat)
    requires TimeOk(s.time) && w in s.changes && w in Step(c, s, a).changes
    ensures Stage(s.changes[w]) <= 3 && Stage(Step(c, s, a).changes[w]) >= 4 ==>
      Namespace(s, "active") < Namespace(Step(c, s, a), "active")
    ensures 1 <= Stage(s.changes[w]) <= 2 && Stage(Step(c, s, a).changes[w]) >= 3 ==>
      s.policyNamespace < Step(c, s, a).policyNamespace
  {
    PassingRaisesDecisions(c, s, a, w);
    PassingRaisesPolicies(c, s, a, w);
    hide Step, Stage, Namespace;
  }

  lemma PassingRaisesDecisions(c: Config, s: State, a: Action, w: nat)
    requires TimeOk(s.time) && w in s.changes && w in Step(c, s, a).changes
    ensures Stage(s.changes[w]) <= 3 && Stage(Step(c, s, a).changes[w]) >= 4 ==>
      Namespace(s, "active") < Namespace(Step(c, s, a), "active")
  {
    hide SessionStep, PolicyCacheStep, DecisionCacheStep, TimeOk, OpenSession;
  }

  lemma PassingRaisesPolicies(c: Config, s: State, a: Action, w: nat)
    requires TimeOk(s.time) && w in s.changes && w in Step(c, s, a).changes
    ensures 1 <= Stage(s.changes[w]) <= 2 && Stage(Step(c, s, a).changes[w]) >= 3 ==>
      s.policyNamespace < Step(c, s, a).policyNamespace
  {
    hide SessionStep, PolicyCacheStep, DecisionCacheStep, TimeOk, OpenSession, Namespace;
  }

  lemma {:induction false} RunGrows(c: Config, first: Snapshot, run: seq<Action>, i: nat, n: nat, w: nat)
    requires i <= n <= |run| && w in After(c, first, run, i).changes
    ensures
      var s, t := After(c, first, run, i), After(c, first, run, n);
      && NamespacesGrow(s, t) && w in t.changes
      && (Stage(s.changes[w]) <= 3 && Stage(t.changes[w]) >= 4 ==> Namespace(s, "active") < Namespace(t, "active"))
      && (1 <= Stage(s.changes[w]) <= 2 && Stage(t.changes[w]) >= 3 ==> s.policyNamespace < t.policyNamespace)
    decreases n
  {
    hide After, Step, Stage, TimeOk, ChangesOk, Namespace;
    if i == n {
    } else {
      RunGrows(c, first, run, i, n - 1, w);
      RunStep(c, first, run, n);
      var s, u, a := After(c, first, run, i), After(c, first, run, n - 1), run[n - 1];
      StepGrows(c, u, a);
      PassingRaises(c, u, a, w);
      StageStays(c, first, run, i, n - 1, w);
    }
  }

  lemma {:induction false} StageStays(c: Config, first: Snapshot, run: seq<Action>, i: nat, n: nat, w: nat)
    requires i <= n <= |run| && w in After(c, first, run, i).changes
    ensures w in After(c, first, run, n).changes
    ensures Stage(After(c, first, run, i).changes[w]) <= Stage(After(c, first, run, n).changes[w])
    decreases n
  {
    hide After, Step, Stage, TimeOk, ChangesOk;
    if i == n {
    } else {
      StageStays(c, first, run, i, n - 1, w);
      RunStep(c, first, run, n);
      StepGrows(c, After(c, first, run, n - 1), run[n - 1]);
    }
  }

  // No key in the cache or in hand is ahead of its namespace.
  ghost predicate KeysBehind(s: State) {
    && (forall k :: k in s.decisionCache ==> k.namespace <= Namespace(s, k.policySet))
    && (forall k :: k in s.policyCache ==> k.namespace <= s.policyNamespace)
    && (forall id :: id in s.sessions ==> HandBehind(s, s.sessions[id]))
  }

  ghost predicate HandBehind(s: State, x: Session) {
    && (match x.item
        case Keyed(_, _, key) => key.namespace <= Namespace(s, key.policySet)
        case DecisionMissed(_, _, Some(key)) => key.namespace <= Namespace(s, key.policySet)
        case Decided(_, Some(key)) => key.namespace <= Namespace(s, key.policySet)
        case _ => true)
    && (match x.engine
        case NamespaceRead(n) => n <= s.policyNamespace
        case StoreKeyed(_, _, n) => n <= s.policyNamespace
        case _ => true)
  }

  lemma HandStaysBehind(c: Config, s: State, x: Session, a: Action)
    requires TimeOk(s.time) && HandBehind(s, x)
    ensures HandBehind(s, SessionStep(c, s, x, a))
  {
    hide TimeOk, RequestOf, Namespace, PoliciesIn, Effective, Engine.Decide;
  }

  lemma StepKeepsBehind(c: Config, s: State, a: Action)
    requires TimeOk(s.time) && KeysBehind(s)
    ensures KeysBehind(Step(c, s, a))
  {
    hide Step, TimeOk, Namespace, HandBehind, KeysBehind;
    if IsReaderStep(a) {
      ReaderKeepsBehind(c, s, a);
    } else if a.ReadTenant? {
      OpeningKeepsBehind(c, s, a);
    } else {
      StepGrows(c, s, a);
      WritersKeepSessions(c, s, a);
      WritersFillNothing(c, s, a);
      GrowingKeepsBehind(s, Step(c, s, a));
    }
  }

  lemma ReaderKeepsBehind(c: Config, s: State, a: Action)
    requires TimeOk(s.time) && KeysBehind(s) && IsReaderStep(a)
    ensures KeysBehind(Step(c, s, a))
  {
    hide SessionStep, TimeOk, HandBehind;
    if a.id in s.sessions {
      HandStaysBehind(c, s, s.sessions[a.id], a);
      CachesStayBehind(s, s.sessions[a.id], a);
      HandOnly(s, Step(c, s, a));
    }
    hide Namespace, PolicyCacheStep, DecisionCacheStep;
  }

  // Whether a hand is behind depends on the namespaces alone.
  lemma HandOnly(s: State, t: State)
    requires s.policyNamespace == t.policyNamespace && s.decisionNamespaces == t.decisionNamespaces
    ensures forall x :: HandBehind(s, x) <==> HandBehind(t, x)
    ensures forall name :: Namespace(s, name) == Namespace(t, name)
  {
  }

  lemma CachesStayBehind(s: State, x: Session, a: Action)
    requires HandBehind(s, x)
    requires forall k :: k in s.decisionCache ==> k.namespace <= Namespace(s, k.policySet)
    requires forall k :: k in s.policyCache ==> k.namespace <= s.policyNamespace
    ensures forall k :: k in DecisionCacheStep(s, x, a) ==> k.namespace <= Namespace(s, k.policySet)
    ensures forall k :: k in PolicyCacheStep(s, x, a) ==> k.namespace <= s.policyNamespace
  {
    hide Namespace;
  }

  lemma OpeningKeepsBehind(c: Config, s: State, a: Action)
    requires TimeOk(s.time) && KeysBehind(s) && a.ReadTenant?
    ensures KeysBehind(Step(c, s, a))
  {
    HandOnly(s, Step(c, s, a));
    if a.id !in s.sessions {
      var x := OpenSession(s.time, a.policySet, a.fullyConsistent, a.batch, a.explicitRevision);
      assert HandBehind(s, x);
    }
    hide TimeOk, Namespace, HandBehind;
  }

  lemma GrowingKeepsBehind(s: State, t: State)
    requires KeysBehind(s) && NamespacesGrow(s, t) && t.sessions == s.sessions
    requires t.decisionCache.Keys <= s.decisionCache.Keys && t.policyCache.Keys <= s.policyCache.Keys
    ensures KeysBehind(t)
  {
    hide Namespace;
  }

  lemma WritersFillNothing(c: Config, s: State, a: Action)
    requires TimeOk(s.time) && !IsReaderStep(a) && !a.ReadTenant?
    ensures Step(c, s, a).decisionCache.Keys <= s.decisionCache.Keys && Step(c, s, a).policyCache.Keys <= s.policyCache.Keys
  {
    hide TimeOk, Namespace, Progress;
  }

  lemma {:induction false} RunKeepsBehind(c: Config, first: Snapshot, run: seq<Action>, n: nat)
    requires n <= |run|
    ensures KeysBehind(After(c, first, run, n))
  {
    hide Step, TimeOk, ChangesOk, KeysBehind;
    if n == 0 {
      assert KeysBehind(Initial(first)) by {
        EmptyBehind(first);
      }
    } else {
      RunKeepsBehind(c, first, run, n - 1);
      StepKeepsBehind(c, After(c, first, run, n - 1), run[n - 1]);
    }
  }

  lemma EmptyBehind(first: Snapshot)
    ensures KeysBehind(Initial(first))
  {
  }

  /** For the active policies, nothing that lay in the decision cache before a policy, ACL
      or relationship change raised the namespace is under a key made after that,
      whatever version, revision or input; and likewise for the policy cache. */
  lemma ActiveEntriesRetire(c: Config, first: Snapshot, run: seq<Action>, i: nat, n: nat, w: nat)
    requires i <= n <= |run| && w in After(c, first, run, i).changes && w in After(c, first, run, n).changes
    ensures
      var s, t := After(c, first, run, i), After(c, first, run, n);
      && (Stage(s.changes[w]) <= 3 && Stage(t.changes[w]) >= 4 ==>
            forall k: Ticket, input :: k.policySet == "active" ==> KeyFor(t, k, input) !in s.decisionCache)
      && (1 <= Stage(s.changes[w]) <= 2 && Stage(t.changes[w]) >= 3 ==>
            forall version :: PolicyKey(t.policyNamespace, version) !in s.policyCache)
  {
    hide After, Stage, RequestOf, Namespace;
    RunGrows(c, first, run, i, n, w);
    RunKeepsBehind(c, first, run, i);
  }

  // -------------------------------------------------------------- what caching is for

  /** What a call stores is found by the next that has the same key: a decision by one with
      the same question, version, revision and namespace, the active policies by one with
      the same version and namespace. */
  lemma StoredIsFoundAgain(s: State, x: Session, y: Session)
    ensures x.item.Decided? && x.item.target.Some? && y.item.Keyed? && y.item.key == x.item.target.value ==>
      TryDecision(DecisionCacheStep(s, x, StoreDecision(0, true)), y, true) == Serve(y, x.item.answer)
    ensures x.engine.StoreKeyed? && y.engine.NamespaceRead? && y.engine.namespace == x.engine.namespace && y.ticket.version == x.ticket.version ==>
      TryPolicies(PolicyCacheStep(s, x, StorePolicies(0, true)), y, true) == y.(engine := Loaded(x.engine.policies, x.engine.epoch))
  {
  }
}
