/** Batch authorization: the memoized loop over items, and the decision cache entries
    it reads and writes. */
module AuthorizeBatch {
  import opened Wrappers
  import opened Domain
  import opened Freshness
  import Engine

  // ------------------------------------------- a decision in and out of the cache

  // A trace step as the dictionary that is stored.
  type StepDict = map<string, Option<string>>

  datatype CachedDecision = CachedDecision(
    allowed: bool,
    decision: string,
    reason: Option<string>,
    policyId: Option<string>,
    matchedPolicies: seq<string>,
    trace: seq<StepDict>,
    failedConditions: seq<string>)

  function StepToDict(s: Engine.Step): StepDict {
    map["step" := Some(s.step), "outcome" := Some(s.outcome), "detail" := Some(s.detail), "policy_id" := s.policyId]
  }

  function TextOf(d: StepDict, key: string, default: string): string {
    if key !in d then default else if d[key].None? then "None" else d[key].value
  }

  function StepFromDict(d: StepDict): Engine.Step {
    Engine.Step(
      TextOf(d, "step", "cache"),
      TextOf(d, "outcome", "cached"),
      TextOf(d, "detail", "served from decision cache"),
      if "policy_id" in d then d["policy_id"] else None)
  }

  function TraceToDicts(t: seq<Engine.Step>): (r: seq<StepDict>)
    ensures |r| == |t|
  {
    if t == [] then [] else [StepToDict(t[0])] + TraceToDicts(t[1..])
  }

  function TraceFromDicts(r: seq<StepDict>): (t: seq<Engine.Step>)
    ensures |t| == |r|
  {
    if r == [] then [] else [StepFromDict(r[0])] + TraceFromDicts(r[1..])
  }

  function FromDecision(d: Engine.Decision): CachedDecision {
    CachedDecision(d.allowed, d.decision, d.reason, d.policyId, d.matchedPolicies, TraceToDicts(d.trace), d.failedConditions)
  }

  function DecisionFromCache(c: CachedDecision): Engine.Decision {
    Engine.Decision(
      c.allowed,
      if c.allowed then "allow" else if c.decision in {"allow", "deny"} then c.decision else "deny",
      c.reason,
      c.policyId,
      TraceFromDicts(c.trace),
      c.matchedPolicies,
      c.failedConditions)
  }

  lemma StepKeys()
    ensures "step" != "outcome" && "step" != "detail" && "step" != "policy_id"
    ensures "outcome" != "detail" && "outcome" != "policy_id" && "detail" != "policy_id"
  {
    assert |"step"| == 4 && |"outcome"| == 7 && |"detail"| == 6 && |"policy_id"| == 9;
  }

  lemma {:induction false} TraceRoundTrip(t: seq<Engine.Step>)
    ensures TraceFromDicts(TraceToDicts(t)) == t
  {
    if t == [] {
    } else {
      StepKeys();
      assert StepFromDict(StepToDict(t[0])) == t[0];
      TraceRoundTrip(t[1..]);
      assert TraceToDicts(t)[1..] == TraceToDicts(t[1..]);
      assert t == [t[0]] + t[1..];
    }
  }

  // Storing and loading gives a decision back whole exactly when its word fits its flag.
  lemma CacheRoundTrip(d: Engine.Decision)
    ensures DecisionFromCache(FromDecision(d)) == d
       <==> (if d.allowed then d.decision == "allow" else d.decision in {"allow", "deny"})
  {
    TraceRoundTrip(d.trace);
  }

  lemma EngineDecisionsRoundTrip(ps: seq<Policy>, ev: Evaluator, input: AuthorizationInput)
    ensures DecisionFromCache(FromDecision(Engine.Decide(ps, ev, input))) == Engine.Decide(ps, ev, input)
  {
    var d := Engine.Decide(ps, ev, input);
    var k := Engine.PipelineTakesFirst(Engine.Answers(ps, ev, input), [Engine.StartStep(input)]);
    assert d.decision == if d.allowed then "allow" else "deny" by {
      hide Engine.Answers, Engine.Pipeline;
    }
    CacheRoundTrip(d);
  }

  // ------------------------------------------------------------------ the batch

  datatype Item = Item(action: string, resource: Resource)

  /** What stays fixed while a batch runs: the hydrated user, the context, the loaded
      policies, the index layer as a function of action and resource, and the part of
      every cache key that does not depend on the item. */
  datatype Batch = Batch(
    user: User,
    context: map<string, Json>,
    model: Option<Model>,
    policies: seq<Policy>,
    ev: Evaluator,
    lookUp: Item -> (seq<IndexEntry>, seq<IndexEntry>),
    policySet: string,
    namespace: nat,
    version: nat,
    revision: int)

  function InputFor(b: Batch, i: Item): AuthorizationInput {
    var (acl, index) := b.lookUp(i);
    AuthorizationInput(b.user, i.resource, i.action, b.context, acl, index, b.model)
  }

  function KeyFor(b: Batch, i: Item): DecisionKey {
    DecisionKey(b.policySet, b.namespace, b.version, b.revision, RequestOf(InputFor(b, i)))
  }

  function DecisionFor(b: Batch, i: Item): Engine.Decision {
    Engine.Decide(b.policies, b.ev, InputFor(b, i))
  }

  // The input puts item i, for the user and in the context of the batch, on the rows that
  // the index layer gives for it and under the model.
  predicate Puts(b: Batch, i: Item, input: AuthorizationInput) {
    && input.user == b.user && input.action == i.action && input.resource == i.resource && input.context == b.context
    && input.aclEntries == b.lookUp(i).0 && input.indexEntries == b.lookUp(i).1 && input.model == b.model
  }

  lemma InputPuts(b: Batch, i: Item)
    ensures forall input: AuthorizationInput :: Puts(b, i, input) <==> input == InputFor(b, i)
  {
  }

  // Two decision keys of any two batches coincide exactly when policy set, namespace,
  // version, revision, user, action, resource and context agree.
  lemma KeysCoincideExactly(b: Batch, i: Item, c: Batch, j: Item)
    ensures KeyFor(b, i) == KeyFor(c, j) <==>
      && b.policySet == c.policySet && b.namespace == c.namespace && b.version == c.version && b.revision == c.revision
      && b.user == c.user && i.action == j.action && i.resource == j.resource && b.context == c.context
  {
    RequestsTellQuestionsApart(InputFor(b, i), InputFor(c, j));
    hide RequestOf;
  }

  // Keys of different items differ, though the index rows are not part of a key.
  lemma KeysTellItemsApart(b: Batch, i: Item, j: Item)
    ensures KeyFor(b, i) == KeyFor(b, j) <==> i == j
  {
  }

  class DecisionCache {
    var entries: map<DecisionKey, CachedDecision>

    constructor ()
      ensures entries == map[]
    {
      entries := map[];
    }
  }

  ghost predicate Agrees(b: Batch, entries: map<DecisionKey, CachedDecision>) {
    forall i: Item :: KeyFor(b, i) in entries ==> entries[KeyFor(b, i)] == FromDecision(DecisionFor(b, i))
  }

  datatype Outcome = Outcome(decision: Engine.Decision, cached: bool)

  // Whether an item is answered from the cache as it stood before the batch.
  predicate Hit(b: Batch, entries: map<DecisionKey, CachedDecision>, fullyConsistent: bool, i: Item) {
    !fullyConsistent && KeyFor(b, i) in entries
  }

  // The cache after the first n items.
  ghost predicate FilledBy(b: Batch, before: map<DecisionKey, CachedDecision>, after: map<DecisionKey, CachedDecision>,
                           fullyConsistent: bool, items: seq<Item>, n: nat)
    requires n <= |items|
  {
    && (forall k :: k in before ==> k in after && after[k] == before[k])
    && (forall k :: k in after <==> k in before || (!fullyConsistent && exists j :: 0 <= j < n && KeyFor(b, items[j]) == k))
  }

  /** For an unchanged store and a cache that agrees with the engine, result i is the
      engine's own decision on item i, repeats or not; it is marked cached exactly
      when the item was in the cache before; and the cache gains the other items. */
  method AuthorizeItems(b: Batch, cache: DecisionCache, items: seq<Item>, fullyConsistent: bool) returns (results: seq<Outcome>)
    requires Agrees(b, cache.entries)
    modifies cache
    ensures |results| == |items|
    ensures forall i :: 0 <= i < |items| ==>
      results[i] == Outcome(DecisionFor(b, items[i]), Hit(b, old(cache.entries), fullyConsistent, items[i]))
    ensures forall i, input :: 0 <= i < |items| && Puts(b, items[i], input) ==>
      results[i].decision == Engine.Decide(b.policies, b.ev, input)
    ensures Agrees(b, cache.entries)
    ensures FilledBy(b, old(cache.entries), cache.entries, fullyConsistent, items, |items|)
  {
    hide KeyFor, DecisionFor, Agrees, FilledBy, Hit;
    results := [];
    var memo: map<Item, Outcome> := map[];
    ghost var before := cache.entries;
    NothingFilled(b, before, fullyConsistent, items);
    DecisionsAreOnTheirInputs(b);
    for i := 0 to |items|
      invariant |results| == i
      invariant forall j :: 0 <= j < i ==>
        results[j] == Outcome(DecisionFor(b, items[j]), Hit(b, before, fullyConsistent, items[j]))
      invariant forall m :: m in memo <==> m in items[..i]
      invariant forall m :: m in memo ==> memo[m] == Outcome(DecisionFor(b, m), Hit(b, before, fullyConsistent, m))
      invariant Agrees(b, cache.entries)
      invariant FilledBy(b, before, cache.entries, fullyConsistent, items, i)
    {
      var item := items[i];
      assert items[..i + 1] == items[..i] + [item];
      ghost var entries := cache.entries;
      if item !in memo {
        var outcome := Evaluate(b, cache, item, fullyConsistent);
        FilledByNew(b, before, entries, fullyConsistent, items, i, outcome.cached);
        memo := memo[item := outcome];
      } else {
        FilledByRepeat(b, before, entries, fullyConsistent, items, i);
      }
      results := results + [memo[item]];
    }
  }

  lemma DecisionsAreOnTheirInputs(b: Batch)
    ensures forall i, input :: Puts(b, i, input) ==> DecisionFor(b, i) == Engine.Decide(b.policies, b.ev, input)
  {
    forall i, input | Puts(b, i, input) ensures DecisionFor(b, i) == Engine.Decide(b.policies, b.ev, input) {
      InputPuts(b, i);
    }
  }

  lemma NothingFilled(b: Batch, before: map<DecisionKey, CachedDecision>, fullyConsistent: bool, items: seq<Item>)
    ensures FilledBy(b, before, before, fullyConsistent, items, 0)
  {
  }

  lemma FilledByNew(b: Batch, before: map<DecisionKey, CachedDecision>, entries: map<DecisionKey, CachedDecision>,
                    fullyConsistent: bool, items: seq<Item>, i: nat, cached: bool)
    requires i < |items| && items[i] !in items[..i]
    requires FilledBy(b, before, entries, fullyConsistent, items, i)
    requires cached == Hit(b, entries, fullyConsistent, items[i])
    ensures cached == Hit(b, before, fullyConsistent, items[i])
    ensures
      var after := if fullyConsistent || cached then entries
                   else entries[KeyFor(b, items[i]) := FromDecision(DecisionFor(b, items[i]))];
      FilledBy(b, before, after, fullyConsistent, items, i + 1)
  {
    hide KeyFor, DecisionFor, FromDecision;
    forall j | 0 <= j < i ensures KeyFor(b, items[j]) != KeyFor(b, items[i]) {
      assert items[j] in items[..i];
      KeysTellItemsApart(b, items[j], items[i]);
    }
  }

  lemma FilledByRepeat(b: Batch, before: map<DecisionKey, CachedDecision>, entries: map<DecisionKey, CachedDecision>,
                       fullyConsistent: bool, items: seq<Item>, i: nat)
    requires i < |items| && items[i] in items[..i]
    requires FilledBy(b, before, entries, fullyConsistent, items, i)
    ensures FilledBy(b, before, entries, fullyConsistent, items, i + 1)
  {
    var j :| 0 <= j < i && items[..i][j] == items[i];
    assert KeyFor(b, items[j]) == KeyFor(b, items[i]);
    hide KeyFor;
  }

  // One item that the memo does not hold.
  method Evaluate(b: Batch, cache: DecisionCache, item: Item, fullyConsistent: bool) returns (o: Outcome)
    requires Agrees(b, cache.entries)
    modifies cache
    ensures Agrees(b, cache.entries)
    ensures o == Outcome(DecisionFor(b, item), Hit(b, old(cache.entries), fullyConsistent, item))
    ensures cache.entries ==
      if fullyConsistent || o.cached then old(cache.entries)
      else old(cache.entries)[KeyFor(b, item) := FromDecision(DecisionFor(b, item))]
  {
    var input := InputFor(b, item);
    if fullyConsistent {
      return Outcome(Engine.Decide(b.policies, b.ev, input), false);
    }
    var key := KeyFor(b, item);
    if key in cache.entries {
      EngineDecisionsRoundTrip(b.policies, b.ev, input);
      return Outcome(DecisionFromCache(cache.entries[key]), true);
    }
    var decision := Engine.Decide(b.policies, b.ev, input);
    cache.entries := cache.entries[key := FromDecision(decision)];
    AgreementKept(b, old(cache.entries), item);
    return Outcome(decision, false);
  }

  lemma AgreementKept(b: Batch, entries: map<DecisionKey, CachedDecision>, item: Item)
    requires Agrees(b, entries)
    ensures Agrees(b, entries[KeyFor(b, item) := FromDecision(DecisionFor(b, item))])
  {
    forall i: Item ensures KeyFor(b, i) == KeyFor(b, item) <==> i == item {
      KeysTellItemsApart(b, i, item);
    }
    hide KeyFor, DecisionFor;
  }
}
