# KeyNetra: a verified model

KeyNetra answers "may this user do this action on this resource?" It keeps its answers fast with four layers of
caches, keeps its policies versioned, and explains each answer with a trace. This project models the parts whose
correctness is not visible from any single function, and proves what they promise:

- **Cache and version protocol** (`Freshness`, `OwnAnswers`, `FutureRevision`, `AclCoherence`, `NamespacedCache`,
  `NamespaceReuse`, `AccessIndexer`, `IndexProvenance`, `CacheBackend`, `CacheKeys`). Calls and changes are interleaved
  step by step over a history of everything that was ever committed. A call reads the tenant's counters first and puts
  them in every key, and a change raises them only after its commit. From that order it follows that no call that
  starts after a change answers with policies of before it, nor, unless some caller names a revision from the future,
  from an index lookup made before it; and every call is answered for its own user, action, resource and context. Two
  caches that compute their keys late get sequential coherence instead, an exact account of when they serve something
  old, and a bound in seconds, on rows traced back to the database, that holds whatever happens.
- **Policy compiler and engine** (`PolicyGraph`, `Engine`, `Reach`, `ModelChange`, `PolicyLint`, `ImpactAnalysis`). The
  twice-sorted, compiled, first-match graph is shown to be a declarative rule; the six-stage pipeline is characterised
  by witnesses, said on the fields of user, resource and row; the lint and the impact analysis are theorems about that
  graph.
- **Authorization-model language** (`SchemaParser`, `Tokenizer`, `TextLines`, `ModelFile`, `ModelRoundTrip`,
  `SchemaReading`, `ExpressionText`, `ModelValidator`, `PermissionNames`). The recursive-descent parser is equivalent
  to a grammar, the printer that feeds it is inverted by it, both are followed down to the characters of a model file
  and to what is ignored there, validation is shown to ask exactly what a rendered file can fail to give, and
  evaluation is compared with unfolding the permissions an expression names.
- **Token bucket** (`TokenBucket`, `RateSettings`), in its in-process and its Redis form, and as its settings promise it.
- **State machines over storage** (`Idempotency`, `VersionHistory`, `AuthorizeBatch`, `Pagination`, `Listings`).

Code that changes state is a class or a method with loops (`LocalLimiter`, `InMemoryCacheBackend`, `Cache`, `Indexer`,
`TraceLog`, the two `Repository` classes, the parser's `Run…` methods, `AuthorizeItems` and others). Each is proved
equal to a function of the old state, and the theorems are about those functions. Protocols with several
participants are state machines over their steps.

## What the model assumes

- Counters in the database and in the caches are raised atomically, and a commit is one step. The statements that need
  a clock that does not go back say so (`Monotone`, `InOrder`); the others hold for any sequence of clock values.
- Token counts and clock values are reals. JSON with sorted keys and SHA-256 are injective, so a dictionary or a
  request stands for its serialization or digest; so a decision key belongs to one action and resource
  (`KeysHaveOneSlot`, as `DecisionKeysTellApart` proves of the keys themselves).
- Condition handlers are an arbitrary table from a key, an operand and an input to "unknown", "holds" or "fails". An
  input carries every field of the user, the resource and the context, those the engine itself reads by name and the
  rest as attributes, so the results about policies hold for every set of handlers. Where a result needs that no
  handler is called `version`, it says so.
- Nothing but counts is kept under the keys of counters; `Incr` reports where the source would raise.
- Lower-casing, digits and word boundaries are those of ASCII.
- `Freshness` follows one tenant. A cache lookup may come back empty at any time, and a cache entry may disappear at
  any time.

## Where the code does less than it promises

Each of these has its exact condition, proved for all inputs, and most have a concrete run beside it.

- The duplicate-policy lint compares views whose condition `version` was overwritten with the version number. Two
  policies that differ only in a stored condition of that name look alike, and the lint can call the only reachable
  policy unreachable (`VersionConditionMisleadsLint`). What it flags can be deleted exactly when every flagged policy
  without such a condition comes after one that asks no more (`RemovableExactly`; `FlagIsTrueExactly` for a pair).
- The access-index cache takes the first counter present among resource, tenant and global, so a namespace can come
  back. After a sequence of invalidations something older can be served exactly when the namespace now in force was in
  force up to an invalidation less than 30 seconds ago (`OldIsServedExactly`). It need not be what was in view before:
  see `MixedLevelsServeStale` and `OlderIndexReturns`. Invalidations of other things change nothing in this
  (`OldStaysServedExactly`). Invalidated at one level only, a resource never sees a
  namespace twice (`OneLevelNeverReuses`).
- A caller that names revision k while r is current can make a later caller, that names none, be served from before a
  completed access change exactly when k > r (`FutureRevisionExactly`).
- A request that breaks off, or one answered with 500 or more and no other, leaves its idempotency record unfinished
  for good: the handler never runs for that key again and every later request is refused (`BreakAbandons`,
  `ServerErrorAbandons`, `AbandonedForGood`).
- After a rollback, creating the next version collides with an existing one and fails until the current version is the
  last one again (`HistoriesAreContiguous`).
- The window bound by elapsed time holds for all limits and windows exactly on clocks that never go back
  (`WindowBoundExactly`, `ClockSteppingBackRefillsTwice`); on any clock the time that went forward bounds what is
  allowed (`ClimbBound`).
- In a model file a permission called `type` is read back as a type, a relation without subjects makes the file
  unreadable, and a relation called, say, `or:role` cannot be named in an expression at all (`ModelFileRoundTrip`,
  `ExpressionReadsBack`, `KeywordPrefixUnspellable`).
- Another resource shares a resource's counter exactly when its type or id holds a colon, and an entry exactly when
  its type, its id or the action does (`CounterSharedExactly`, `EntrySharedExactly`, `ColonsCollide`).
- The scope and the hash of an idempotent request leave out tenant, caller and query, so a replay crosses them: a
  request is answered from another's record exactly when method, path, key and body agree (`ReplayCrossesExactly`).
- The key of a cached decision leaves out the authorization model; a model change moves the revision in it instead. A
  caller that names an old revision can be served a decision made under an older model, which is still the engine's
  exactly when the matter is settled before the model is asked or both models say the same (`ModelChangeExactly`).
- An ACL row for an edge may be written with the prefix "relationship:", but the prefix is cut one character short, so
  the row also reaches holders of an edge that begins with a colon; and without the prefix its name may be that of a
  user, a role or a permission (`AclMatchesExactly`, `EdgeRowReachesHolders`).
- A decision whose policy id begins with "acl:" comes from an ACL row, unless a policy of that name won
  (`AclDecisionReaches`).
- Inside a model expression a name is always looked up as a relation, also when it is the name of a permission, which
  the model validator accepts (`PermissionIsNotUnfolded`). Evaluation agrees with unfolding the permissions named
  exactly when it does not depend on relations that bear their names (`AgreesExactly`), which for an expression that
  repeats no name means that it names relations only (`AgreesOnRelationsOnly`).

## Model

| member | source | states |
|---|---|---|
| Freshness.StepKeepsInv | keynetra/services/authorization.py:107-179 | every step of a call or a change, in any interleaving, keeps: each cached policy list and decision belongs to a commit that was current once the version in its key was, and every change in progress has published only what it committed |
| Freshness.RunKeepsInv | keynetra/services/policies.py:65-146 | every state of every run keeps that invariant |
| Freshness.HonestRunKeepsInv | keynetra/services/authorization.py:158 | in a run where no caller names a future revision, the same for the access rows behind each decision and the revision in its key |
| Freshness.CacheEntriesAreFresh | keynetra/infrastructure/cache/decision_cache.py:73-98 | at any point of any run, whatever lies under version v in the policy or decision cache comes from policies that were current once v was, and each cached decision is the engine's on those policies and on its own input, whose user, action, resource and context are those its key digests |
| Freshness.DecisionKeysTellApart | keynetra/infrastructure/cache/decision_cache.py:73-92 | two decision keys coincide exactly when policy set, namespace, version, revision, user, action, resource and context agree |
| OwnAnswers.AnswersItsOwnCaller | keynetra/services/authorization.py:132-179 | over every run, the m-th answer of a call is the engine's decision on an input with the user, action, resource and context that the call's own lookup supplied for its m-th question, whoever's decision lay in the cache |
| OwnAnswers.RepeatAnswersItsItem | keynetra/services/authorization.py:292-353 | a repetition in a batch gives the answer of the item with that action, resource and context |
| OwnAnswers.FullyConsistentNeverOlder | keynetra/services/authorization.py:150-179 | a fully consistent call that starts after an access change completed never answers from before its commit, whatever revisions were named |
| OwnAnswers.ActiveEntriesRetire | keynetra/infrastructure/cache/decision_cache.py:94-102 | once a policy, ACL or relationship change has raised a namespace, no key made for the active policies is under an entry cached before, whatever its version, revision and input; and likewise for the policy cache |
| OwnAnswers.OutcomeOfSet | keynetra/services/authorization.py:535-572 | a call is decided on the policies of the set it names, on those of the settings file where that set is empty, and on the active ones where it names no set |
| OwnAnswers.StoredIsFoundAgain | keynetra/services/authorization.py:150-179 | a stored decision answers the next call with its key, and stored active policies the next with their version and namespace |
| Freshness.LaterSessionsKnowMore | keynetra/services/authorization.py:132-158 | a call begun after step i starts from every policy and access change completed by step i |
| Freshness.NeverOlderPolicies | keynetra/services/policies.py:65-146 | a call that starts after a policy change has published its version answers, cached or not, from that change's policies or later ones, and its answer is the engine's on those |
| Freshness.NeverOlderAccess | keynetra/api/routes/acl.py:33-49 | with no future revision named, a call that starts after an ACL, relationship or authorization-model change completed never answers from an index lookup or a model read made before its commit |
| FutureRevision.FutureRevisionExactly | keynetra/services/authorization.py:158 | for every revision k and current revision r, some run whose only named revision is k, named at r, serves a later call that names none from before a completed access change exactly when k > r |
| FutureRevision.PastRevisionIsHarmless | keynetra/services/authorization.py:158 | naming a past or current revision never makes any later call answer from before a completed access change |
| FutureRevision.WholeRunServesOlder | keynetra/services/authorization.py:150-179 | the run for every k > r: the answer stored under k before the changes up to revision k is served after them |
| Freshness.CompletionOnlyGrows | keynetra/infrastructure/repositories/tenants.py:44-60 | the latest completed policy and access change never go back |
| NamespacedCache.ServesOnlyTheIdeal | keynetra/infrastructure/cache/access_index_cache.py:79-140 | over every history in which a resource is invalidated at one level only, the cache answers as one that forgets on invalidation would, or not at all |
| NamespacedCache.RunCoherent | keynetra/infrastructure/cache/acl_cache.py:62-106 | the invariant behind it: no entry carries a namespace above the counter, and those at the counter are current |
| NamespaceReuse.OldIsServedExactly | keynetra/infrastructure/cache/access_index_cache.py:113-137 | for every sequence of invalidations at any levels: some way of filling the cache in between leaves something stored before the last of them served after it, exactly when the namespace now in force, computed from the counters, was in force up to an invalidation less than 30 seconds ago |
| NamespaceReuse.OldStaysServedExactly | keynetra/infrastructure/cache/access_index_cache.py:113-137 | the same measured from the last invalidation that covers the resource, however many of other things have followed |
| NamespaceReuse.EntryWasFilled | keynetra/infrastructure/cache/access_index_cache.py:79-111 | whatever lies under a namespace was put there by a fill at a point where that namespace was in force, and is what that fill put |
| NamespaceReuse.NamespaceIsInForce | keynetra/infrastructure/cache/access_index_cache.py:126-137 | after any history the namespace is the number of raises of the first level that was ever raised |
| NamespaceReuse.OneLevelNeverReuses | keynetra/infrastructure/cache/access_index_cache.py:113-137 | a resource invalidated at one level only never comes back to an earlier namespace |
| NamespaceReuse.OlderIndexReturns | keynetra/infrastructure/cache/access_index_cache.py:126-137 | two tenant raises with a fill after each, then the first resource raise: the older of the two fills is served |
| NamespacedCache.ServedAfterInvalidation | keynetra/infrastructure/cache/access_index_cache.py:113-137 | what is served right after an invalidation is the live entry under the namespace then in force, whenever it was stored |
| NamespacedCache.MixedLevelsServeStale | keynetra/infrastructure/cache/access_index_cache.py:126-137 | a tenant invalidation, a fill and a resource invalidation after which the old entry is served |
| NamespacedCache.FilledIsServed | keynetra/infrastructure/cache/acl_cache.py:62-81 | what was stored is found again until 30 seconds have passed |
| NamespacedCache.Cache.NamespaceOf | keynetra/infrastructure/cache/access_index_cache.py:126-137 | the namespace is the first positive counter among resource, tenant and global, and reading it changes nothing a later lookup could notice |
| NamespacedCache.Cache.Get | keynetra/infrastructure/cache/access_index_cache.py:20-77 | a lookup returns the live entry under the namespaced key and changes nothing visible |
| NamespacedCache.Cache.Set | keynetra/infrastructure/cache/access_index_cache.py:79-111 | a fill leaves, for every later lookup, the store with exactly that entry added for 30 seconds |
| NamespacedCache.Cache.Invalidate | keynetra/infrastructure/cache/access_index_cache.py:113-124 | an invalidation raises the counter of its level and changes nothing else; where something other than a count is stored it fails and changes nothing |
| AclCoherence.LookupIsCurrent | keynetra/infrastructure/repositories/acl.py:71-91 | after any history of ACL creates, deletes and lookups, a cached answer is exactly the rows the table matches now, and so is every answer |
| AclCoherence.FindMatchingExactly | keynetra/infrastructure/repositories/acl.py:71-91 | the rows found are exactly those of the table for that resource and action |
| AclCoherence.TableAfter | keynetra/infrastructure/repositories/acl.py:18-41 | a create adds the row it describes, a delete takes the row of that tenant and id, and nothing else comes or goes |
| AclCoherence.StepKeepsInv | keynetra/api/routes/acl.py:33-49 | each create, delete or lookup, in the order commit then invalidate, keeps the cache's ideal contents equal to the table's matches |
| AclCoherence.FindWithout | keynetra/infrastructure/repositories/acl.py:93-99 | deleting an entry leaves the matches of every other resource as they were |
| AclCoherence.FindAppended | keynetra/infrastructure/repositories/acl.py:18-41 | creating an entry adds it at the end of the matches of its own resource and action and of no other |
| AccessIndexer.ServedRowsAreRecent | keynetra/services/access_indexer.py:56-220 | in every run, whichever cache, memo or refresh answered, a decision rests on ACL rows read less than 30 + 30 + max(1, TTL) seconds ago and relationships read less than 30 + max(1, TTL) seconds ago |
| IndexProvenance.ServedRowsWereReadRecently | keynetra/services/access_indexer.py:92-171 | the ACL rows behind a served decision are those one step of the same resource and action found in the database less than 30 + 30 + max(1, TTL) seconds before, and its relationships those one found less than 30 + max(1, TTL) seconds before |
| IndexProvenance.BuiltRowsWereRead | keynetra/services/access_indexer.py:56-171 | over every run, the index handed out for colon-free names holds exactly the rows some step found in the database at the moments its labels name |
| IndexProvenance.ChangeIsReadAgain | keynetra/services/access_indexer.py:222-236 | after an ACL change was announced the next build reads the database again, unless a live entry lies under a namespace that came back |
| IndexProvenance.MemoServesFiveSeconds | keynetra/services/access_indexer.py:203-220 | a rebuilt index that the cache loses is remembered for exactly five seconds |
| IndexProvenance.RebuiltIsCached | keynetra/services/access_indexer.py:92-171 | a rebuilt index is found in the index cache, and the ACL rows it read in the ACL cache, until 30 seconds have passed or a counter moves |
| IndexProvenance.RefreshRenews | keynetra/services/access_indexer.py:173-201 | a background refresh renews the memo for five seconds and is no longer pending |
| IndexProvenance.DecisionIsServedAgain | keynetra/services/authorization.py:150-179 | a decision is served again under its key until its lifetime has passed, on the rows it was first made on |
| AccessIndexer.AuthorizeKeeps | keynetra/services/authorization.py:150-165 | one call keeps every stored lifetime within those bounds and serves within them |
| AccessIndexer.BuildKeeps | keynetra/services/access_indexer.py:56-90 | the index handed out is at most 60 and 30 seconds old, from cache, memo or rebuild |
| AccessIndexer.SameViewRebuilt | keynetra/services/access_indexer.py:92-171 | purging expired entries while rebuilding makes no difference to the index or to any later lookup |
| AccessIndexer.Indexer.BuildResourceIndex | keynetra/services/access_indexer.py:56-90 | the cache, memo and rebuild branches with their effects on store, memo and pending refreshes |
| AccessIndexer.Indexer.RebuildResourceIndex | keynetra/services/access_indexer.py:92-171 | a rebuild takes ACL rows from the cache or reads and fills it, reads relationships, and stores the index |
| AccessIndexer.Indexer.RunRefresh | keynetra/services/access_indexer.py:173-201 | a background refresh rebuilds, refreshes the memo and is no longer pending |
| AccessIndexer.Indexer.InvalidateResourceIndex | keynetra/services/access_indexer.py:222-236 | invalidation raises both resource counters and forgets exactly the memos of that resource |
| CacheBackend.InMemoryCacheBackend.Get | keynetra/infrastructure/cache/backends.py:36-44 | an expired value is not returned and is removed |
| CacheBackend.InMemoryCacheBackend.Set | keynetra/infrastructure/cache/backends.py:46-48 | a value with a lifetime below one second lives one second; without a lifetime it stays |
| CacheBackend.InMemoryCacheBackend.Incr | keynetra/infrastructure/cache/backends.py:53-57 | the count goes up by one, from 0 when absent or expired, and has no lifetime; a live value that is no count makes it fail and stays |
| CacheBackend.PurgeIsInvisible | keynetra/infrastructure/cache/backends.py:36-44 | removing what one lookup found expired changes the answer of no later lookup |
| CacheBackend.StoredIsFound | keynetra/infrastructure/cache/backends.py:36-48 | a stored value is found until its seconds have passed, one at least, or for good without a lifetime; other keys are untouched |
| CacheBackend.IncrementedCounts | keynetra/infrastructure/cache/backends.py:53-57 | a count goes up by one and never expires |
| CacheKeys.EntryKeyInjective | keynetra/infrastructure/cache/acl_cache.py:93-103 | for colon-free types and ids, entry keys coincide only for the same resource, namespace and action |
| CacheKeys.ResourceKeyInjective | keynetra/infrastructure/cache/acl_cache.py:105-106 | the same for the counters of resources |
| CacheKeys.TenantKeyInjective | keynetra/infrastructure/cache/access_index_cache.py:120-121 | the same for the counters of tenants |
| CacheKeys.LevelsDisjoint | keynetra/infrastructure/cache/access_index_cache.py:126-140 | counters of different levels never share a key, colons or not |
| CacheKeys.FamiliesDisjoint | keynetra/infrastructure/cache/access_index_cache.py:139-140 | keys that start with different family names never coincide |
| CacheKeys.CounterSharedExactly | keynetra/infrastructure/cache/acl_cache.py:105-106 | some other resource has the same counter key exactly when the type or the id holds a colon |
| CacheKeys.EntrySharedExactly | keynetra/infrastructure/cache/acl_cache.py:93-103 | some other resource has the same entry key, under some namespace and action, exactly when the type, the id or the action holds a colon |
| PolicyGraph.GraphRefinesRule | keynetra/engine/compiled/policy_compiler.py:49-67 | the doubly sorted graph answers exactly by the rule: the matching policy least in priority and then in position wins; else the first policy of the action explains a denial; else it abstains |
| PolicyGraph.WinnerDecides | keynetra/engine/compiled/decision_graph.py:31-47 | the winner's effect decides, anything but "allow" denying, and the decision names it by its id or by action, priority and effect |
| PolicyGraph.UnmatchedDenies | keynetra/engine/compiled/decision_graph.py:31-47 | where nothing matches, the first policy of the action denies with the reason of its first condition that does not hold |
| PolicyGraph.ReasonExplains | keynetra/engine/keynetra_engine.py:114-124 | a reason is that of the first condition that does not hold: its handler's words, its name, or that it is unknown |
| PolicyGraph.AbstainsExactlyWithoutAction | keynetra/engine/compiled/decision_graph.py:31-47 | the graph abstains exactly when no policy has the action, and otherwise always gives a reason |
| PolicyGraph.NoReasonMeansHeld | keynetra/engine/compiled/policy_compiler.py:21-46 | a compiled node reports no failure exactly when every condition but `policy_key` holds |
| PolicyGraph.GraphSearches | keynetra/engine/keynetra_engine.py:236-256 | sorting in the engine and again in the compiler is one stable search of the sorted list |
| PolicyGraph.Evaluate | keynetra/engine/compiled/decision_graph.py:31-47 | the loop with its remembered first reason computes the scan that the rule is proved about |
| PolicyLint.RemovableExactly | keynetra/services/policy_lint.py:56-75 | deleting every policy the lint flags leaves outcome, reason and policy id of the graph unchanged for all handlers and inputs exactly when every flagged policy without a stored `version` condition comes after one of its action, also without, that asks no more |
| PolicyLint.DeadPolicyElimination | keynetra/engine/compiled/decision_graph.py:31-47 | the direction a maintainer uses, for one table of handlers and one input |
| PolicyLint.FlagIsTrueExactly | keynetra/services/policy_lint.py:38-40 | two policies with the same lint key: the later is shadowed for all handlers and inputs exactly when a stored `version` condition on the earlier is also on the later |
| PolicyLint.LintKeyExactly | keynetra/services/policy_lint.py:38-40 | two policies look alike to the lint exactly when action, version number and all stored conditions but `policy_key` and `version` agree |
| PolicyLint.LintWarns | keynetra/services/policy_lint.py:56-75 | there is one warning for each flagged policy, in order, and it says out of reach where the first policy like it has the same effect, and in conflict with that effect where it has another |
| PolicyLint.VersionConditionMisleadsLint | keynetra/infrastructure/repositories/policies.py:62-96 | two policies of which the lint flags the reachable one; deleting it turns an allow into a deny |
| PolicyLint.OrderDoesNotMatter | keynetra/services/policy_lint.py:38-40 | whether conditions hold depends on the dictionary only, not on its order, so sorted-key serialization loses nothing |
| PolicyLint.KeptFirst | keynetra/services/policy_lint.py:56-75 | dropping flagged policies does not change the first policy with any property that, where a flagged one has it, an earlier one has too |
| PolicyLint.CollectDuplicateWarnings | keynetra/services/policy_lint.py:56-75 | the loop over the sorted views yields the warnings in order, and every view is either flagged or kept |
| Engine.AllowedExactly | keynetra/engine/keynetra_engine.py:345-475 | access is allowed exactly on a witness: an explicit permission; else the first effective ACL row, which also settles a denial; else a role permission, an index subject, or the model where it applies and the winning policy where it does not |
| Engine.FirstStageDecides | keynetra/engine/keynetra_engine.py:345-517 | the decision's flag, word, reason, policy id and list of matched policies are those of the first stage that does not abstain |
| Engine.PipelineTakesFirst | keynetra/engine/keynetra_engine.py:345-475 | the pipeline stops at the first answer with exactly the trace steps up to it, and denies by default when all abstain |
| Reach.AclMatchesExactly | keynetra/engine/keynetra_engine.py:714-792 | an ACL row matches exactly a request for its resource and action whose user it names: by id, by role, by permission in either list, or by an edge |
| Reach.EdgeRowReachesHolders | keynetra/engine/keynetra_engine.py:777-792 | a row for an edge of colon-free parts reaches exactly the holders of that edge; with the prefix, also those of an edge like it after a colon |
| Reach.IndexGrantsExactly | keynetra/engine/keynetra_engine.py:610-658 | an index entry grants exactly a request for its resource, for its action or for any, whose user one of its subjects describes |
| Reach.AclDecisionReaches | keynetra/engine/keynetra_engine.py:542-589 | a decision whose policy id begins with "acl:" comes from an offered row for this resource and action that reaches this user, has that id and that effect, unless the winning policy has such an id |
| Reach.IdentityIs | keynetra/engine/keynetra_engine.py:747-756 | type and id of a resource are the first of their names that is given |
| Reach.DirectGrantExactly | keynetra/engine/keynetra_engine.py:519-540 | an explicit permission counts from the direct list where there is one, and from the other list only where there is none |
| Reach.ModelAppliesExactly | keynetra/engine/model_graph/permission_graph.py:24-54 | the model is asked exactly for its own permissions, about a resource with a type that is not only an entity type |
| Reach.HasRelationExactly | keynetra/engine/model_graph/permission_graph.py:77-94 | a name in an expression stands for an edge of that name from the user to the resource |
| Reach.GrantsBearTheirNames | keynetra/engine/keynetra_engine.py:519-712 | every grant bears the id of the stage it comes from |
| Reach.ReasonsAre | keynetra/engine/keynetra_engine.py:519-712 | the reason each stage gives for its answer |
| Reach.AclReason | keynetra/engine/keynetra_engine.py:542-589 | an ACL decision's reason names the subject of an offered row that reaches the user, the action and the resource |
| Reach.FinalStepExplains | keynetra/engine/keynetra_engine.py:477-517 | the final step of a trace carries the decision's reason, or its own words for an explicit permission |
| Reach.AclTraceTells | keynetra/engine/keynetra_engine.py:542-589 | the ACL trace has one step for each row for the request up to the first with an effect, with its id and outcome, or one step that says there is none |
| Engine.AllAbstainDenies | keynetra/engine/keynetra_engine.py:445-475 | when no stage answers, access is denied for no policy, with the reason that none matched |
| Engine.AclScanFinds | keynetra/engine/keynetra_engine.py:542-589 | the ACL stage answers with the first row that matches and has an effect, and abstains exactly when there is none |
| Engine.DecisionNamesItsAclRow | keynetra/engine/keynetra_engine.py:542-589 | without an explicit permission, the decision carries the effect and the id of that row |
| Engine.TraceTellsTheDecision | keynetra/engine/keynetra_engine.py:345-517 | the trace opens with the start step, goes through the stages in order, and ends with the only final step, which carries the decision |
| Engine.DecideStructured | keynetra/engine/keynetra_engine.py:345-475 | the staged method with its shared trace list computes that pipeline |
| Engine.EvaluateAcl | keynetra/engine/keynetra_engine.py:542-589 | the ACL stage's answer, and exactly the steps it appends |
| Engine.EvaluateIndex | keynetra/engine/keynetra_engine.py:610-658 | the index stage's answer, and exactly the step it appends |
| ModelChange.ModelChangeExactly | keynetra/engine/model_graph/permission_graph.py:24-45 | a decision made under one authorization model is still the engine's under another, trace included, exactly when a permission, an ACL row, a role or an indexed subject settles it before the model is asked, or both models say the same about the input |
| ModelChange.OtherStagesSame | keynetra/engine/keynetra_engine.py:519-681 | no other stage depends on the model, for handlers that do not read it |
| ImpactAnalysis.OneSided | keynetra/services/impact_analysis.py:38-121 | for every policy set and input, adding an allow policy never loses access and adding any other never gains it |
| ImpactAnalysis.WinnerAfterAdding | keynetra/services/impact_analysis.py:38-121 | the added policy wins exactly when it matches and comes before every match; otherwise the winner stays |
| ImpactAnalysis.ChangeNeedsOvertaking | keynetra/engine/compiled/decision_graph.py:31-47 | a decision changes only when the added policy matches and precedes every earlier match |
| ImpactAnalysis.AnalyzePolicyChange | keynetra/services/impact_analysis.py:38-121 | the two lists are exactly the users for whom the bare request for the action on some resource is gained or lost, and one of them is always empty |
| SchemaParser.ParserDecidesGrammar | keynetra/modeling/schema_parser.py:107-160 | a token list parses to a tree exactly when the grammar derives the tokens with that tree |
| SchemaParser.DerivationUnique | keynetra/modeling/schema_parser.py:129-160 | the grammar gives every token list at most one derivation |
| SchemaParser.RoundTrip | keynetra/modeling/schema_parser.py:129-160 | printing with only the needed parentheses and parsing gives a tree back exactly when its identifiers are names |
| SchemaParser.PrintIsShortest | keynetra/modeling/schema_parser.py:129-160 | no token list that parses to a tree is shorter than the printed one |
| SchemaParser.KeywordsInAnyCase | keynetra/modeling/schema_parser.py:129-160 | writing the keywords of an expression in another case changes nothing |
| Text.CapitalsExactly | keynetra/modeling/schema_parser.py:129-160 | every capital is read as its small letter, and only texts with a capital are changed |
| SchemaParser.CapitalsRead | keynetra/modeling/schema_parser.py:145-160 | "a AND NOT b" is read as such, and "OR" alone as a name |
| SchemaParser.ExprSound | keynetra/modeling/schema_parser.py:129-134 | what a parse consumed is the yield of the derivation it found |
| SchemaParser.ExprComplete | keynetra/modeling/schema_parser.py:129-134 | on the yield of a derivation the parser finds exactly that derivation |
| SchemaParser.ParseExpr | keynetra/modeling/schema_parser.py:129-134 | a successful parse moves strictly forward and stays within the tokens, whence all three functions terminate |
| SchemaParser.RunExpr | keynetra/modeling/schema_parser.py:129-134 | the `or` loop, left-associative, computes the derivation's tree and index |
| SchemaParser.RunTerm | keynetra/modeling/schema_parser.py:137-142 | the same for the `and` loop |
| SchemaParser.RunFactor | keynetra/modeling/schema_parser.py:145-160 | the same for `not`, parentheses and names, with their errors |
| Tokenizer.TokensReadBack | keynetra/modeling/schema_parser.py:122-126 | tokens joined by blanks are read back exactly when each is a token of its own |
| Tokenizer.TokensAreTokens | keynetra/modeling/schema_parser.py:44 | whatever the text, the scan yields only texts that are tokens of their own |
| Tokenizer.IsTokenExactly | keynetra/modeling/schema_parser.py:44 | the tokens are the parentheses, the keywords, and the identifiers of letters, digits, "_", ":" and "-" that no keyword cuts short |
| Tokenizer.NothingLost | keynetra/modeling/schema_parser.py:122-126 | the tokens of an accepted text put together are the text without its blanks |
| Tokenizer.ForeignIsRefused | keynetra/modeling/schema_parser.py:122-126 | a text with any other character, a tab for one, is refused |
| ModelRoundTrip.ModelFileRoundTrip | keynetra/config/file_loaders.py:209-246 | rendering a well-formed model and reading the text restores version, sorted types, relations and expressions exactly when the version is not negative, no relation is without subjects, and every permission has a readable text and is not called `type` |
| ModelRoundTrip.TypesSortedDistinct | keynetra/config/file_loaders.py:221-231 | the type names are strictly ascending and are `user`, the object type and every subject |
| ModelRoundTrip.PermissionsRead | keynetra/modeling/schema_parser.py:79-82 | the permission lines give every expression in order, or else the reading fails or gains a type |
| ModelRoundTrip.RelationLineRead | keynetra/modeling/schema_parser.py:91-104 | a rendered relation line is read as its name and its subjects, or refused when it has none |
| ModelFile.ModelMappingToSchema | keynetra/config/file_loaders.py:209-246 | the rendering loops produce the text the round trip is about, or the first relation with unusable subjects |
| ModelFile.ParseAuthorizationSchema | keynetra/modeling/schema_parser.py:47-88 | the line loop with its section variable computes the reading the round trip is about, errors included |
| SchemaReading.CommentIsIgnored | keynetra/modeling/schema_parser.py:48-49 | a '#' and what follows it on any line of any text changes nothing, errors included |
| SchemaReading.EmptyLineIsIgnored | keynetra/modeling/schema_parser.py:48-49 | neither does a blank line or one with only a comment, anywhere |
| SchemaReading.IndentIsIgnored | keynetra/modeling/schema_parser.py:48-49 | nor indenting a line |
| SchemaReading.TrailIsIgnored | keynetra/modeling/schema_parser.py:48-49 | nor blanks at its end |
| SchemaReading.LineEndsAreIgnored | keynetra/modeling/schema_parser.py:48 | nor ending lines as on Windows |
| TextLines.OneLineExactly | keynetra/modeling/schema_parser.py:48 | a text is read as one line exactly when none of the ten line ends occurs in it |
| SchemaReading.HeadingInAnyCase | keynetra/modeling/schema_parser.py:65-69 | nor the case of a section's heading |
| SchemaReading.HeaderExactly | keynetra/modeling/schema_parser.py:53-58 | a line heads a schema exactly when it is "model" and "schema" in any case and a number, with any blanks between; the number is the version |
| SchemaReading.RelationSpaced | keynetra/modeling/schema_parser.py:91-104 | blanks around the name, the colon, the list and its items, and empty items, change nothing in what a relation line says |
| SchemaReading.LaterReplaces | keynetra/modeling/schema_parser.py:73-82 | a relation or permission given twice has its later value in its first place |
| SchemaReading.RefusedLines | keynetra/modeling/schema_parser.py:91-120 | lines without colon or equals sign, name or expression are refused by name |
| ModelValidator.RenderedModelValidates | keynetra/modeling/permission_compiler.py:47-64 | a model file that is read back whole passes validation exactly when its version is at least 1, it has a permission, and every name in its expressions is one of its relations or permissions; its types always fit |
| ModelValidator.ValidatesExactly | keynetra/modeling/model_validator.py:14-47 | validation finds nothing wrong exactly with the schemas whose version, types, subjects, names and expressions are in order |
| ModelValidator.ComplaintIsTrue | keynetra/modeling/model_validator.py:14-47 | whatever validation complains of, by name, is really wrong |
| PermissionNames.AgreesExactly | keynetra/engine/model_graph/permission_graph.py:64-94 | for all inputs, evaluating an expression is unfolding the permissions it names, to any depth, exactly when its value does not depend on relations that bear a permission's name |
| PermissionNames.AgreesOnRelationsOnly | keynetra/modeling/model_validator.py:35-47 | for an expression that repeats no name, exactly when each of its names is that of a relation or of no permission |
| PermissionNames.DepthEnough | keynetra/modeling/model_validator.py:35-47 | without a cycle among the permissions every depth beyond their ranks unfolds to the same |
| PermissionNames.PermissionIsNotUnfolded | keynetra/engine/model_graph/permission_graph.py:64-94 | a model that passes validation whose owner may view but not edit, though editing is viewing |
| ExpressionText.ExpressionReadsBack | keynetra/modeling/schema_parser.py:107-126 | an expression written with single blanks is read back from its text exactly when every identifier is a name and a token |
| ExpressionText.ReadIsSpellable | keynetra/modeling/schema_parser.py:107-126 | whatever text an expression is read from, its identifiers are names and tokens |
| ExpressionText.KeywordPrefixUnspellable | keynetra/modeling/schema_parser.py:44 | no text names a relation that begins with a keyword followed by a colon or a dash |
| TokenBucket.ClimbBound | keynetra/config/rate_limit.py:93-148 | for every clock, from the i-th to the j-th request at most capacity + rate × the time that went forward are allowed for a key |
| TokenBucket.WindowBoundExactly | keynetra/config/rate_limit.py:93-148 | the bound capacity + rate × elapsed time holds for all limits, keys and windows of a run exactly when its clock never goes back |
| TokenBucket.WindowBound | keynetra/config/rate_limit.py:93-148 | from the i-th to the j-th request of a monotone run at most capacity + rate × elapsed time are allowed for a key |
| TokenBucket.SpendingBalance | keynetra/config/rate_limit.py:135-148 | for every clock, what was allowed plus what is left never exceeds what was there plus what flowed in |
| TokenBucket.TokensWithinCapacity | keynetra/config/rate_limit.py:135-148 | a bucket's tokens always lie between 0 and the capacity, for any clock |
| TokenBucket.RetryAfterIsExact | keynetra/config/rate_limit.py:135-148 | a request a whole number of seconds after a denial is allowed exactly when the announced wait has passed, however often the key was polled in between |
| TokenBucket.PollsChangeNothing | keynetra/config/rate_limit.py:135-148 | denied polls leave the key's tokens at every later moment as they would have been |
| TokenBucket.RefillComposes | keynetra/config/rate_limit.py:135-139 | refilling in two steps is refilling in one |
| TokenBucket.RedisAnswersAsLocal | keynetra/config/rate_limit.py:33-70 | the Redis bucket, whose hashes are deleted on expiry, gives every request of every monotone run the answer of the never-expiring local one, remaining count and wait included |
| TokenBucket.TtlCoversFullRefill | keynetra/config/rate_limit.py:93-104 | a key idle for its time to live is full again |
| TokenBucket.ClockSteppingBackRefillsTwice | keynetra/config/rate_limit.py:135-139 | four requests with a clock that steps back, three of them allowed within a second at one a second |
| TokenBucket.LimitsOf | keynetra/config/rate_limit.py:93-104 | whatever the settings, rate, interval and capacity are at least 1 |
| RateSettings.FreshKeySpendsExactly | keynetra/config/rate_limit.py:93-148 | a fresh key may spend exactly the burst at one moment, or a window's requests where no burst is set |
| RateSettings.WindowBoundBySettings | keynetra/config/rate_limit.py:93-148 | on a monotone clock at most that plus requests per window / window seconds × elapsed time is allowed |
| RateSettings.DrainedKeySpendsExactly | keynetra/config/rate_limit.py:135-148 | a drained key may spend exactly a window's requests one window later, up to the burst |
| RateSettings.InstantSpends | keynetra/config/rate_limit.py:135-148 | of the requests at one moment exactly as many are allowed as there are whole tokens |
| RateSettings.RemainingIsExact | keynetra/config/rate_limit.py:145-148 | after an answer with r remaining exactly r more requests of the key are allowed at that moment |
| RateSettings.LifetimeIs | keynetra/config/rate_limit.py:93-104 | a Redis hash lives for the longer of the window and twice the whole seconds that fill the bucket |
| TokenBucket.LocalLimiter.Consume | keynetra/config/rate_limit.py:123-148 | one request changes its own bucket only, to the refilled and spent value, and answers by it |
| AuthorizeBatch.AuthorizeItems | keynetra/services/authorization.py:292-353 | with an unchanged store and an agreeing decision cache, result i is the engine's decision on the input with the batch's user, context and model, item i's action and resource and the rows looked up for it, repeats included; it is marked cached exactly when it was cached before, and the cache gains exactly the other items |
| AuthorizeBatch.Evaluate | keynetra/services/authorization.py:300-340 | one item: a cached decision is handed out whole, a fresh one is stored |
| AuthorizeBatch.CacheRoundTrip | keynetra/services/authorization.py:574-599 | storing and loading gives a decision back whole, trace included, exactly when its word fits its flag |
| AuthorizeBatch.EngineDecisionsRoundTrip | keynetra/services/interfaces.py:155-165 | which every decision of the engine does |
| AuthorizeBatch.KeysTellItemsApart | keynetra/infrastructure/cache/decision_cache.py:73-92 | within a batch, decision keys coincide only for equal items |
| AuthorizeBatch.KeysCoincideExactly | keynetra/infrastructure/cache/decision_cache.py:73-92 | keys of any two batches coincide exactly when policy set, namespace, version, revision, user, action, resource and context agree |
| Idempotency.HandlerRunsAtMostOnce | keynetra/api/middleware/idempotency.py:46-106 | under every interleaving the handler runs at most once per scope and key, and only for the request hash on the record |
| Idempotency.CompletedNeverChanges | keynetra/infrastructure/repositories/idempotency.py:60-75 | a record keeps its id and hash, and once completed never changes |
| Idempotency.ReplayIsTheFirstResponse | keynetra/api/middleware/idempotency.py:46-106 | every replay returns status, body and content type, JSON where none was given, of the one execution of its scope and key, which had the same hash and a status below 500 |
| Idempotency.NoStartRaises | keynetra/infrastructure/repositories/idempotency.py:32-58 | a rejected insert always finds the record it collided with |
| Idempotency.LookTells | keynetra/infrastructure/repositories/idempotency.py:44-58 | a rejected request finds a mismatch for another hash, and for its own hash a request in progress or the response |
| Idempotency.ConflictTells | keynetra/api/middleware/idempotency.py:48-73 | over every run a conflict says "different request" exactly where the record has another hash, and "in progress" exactly where it has the same |
| Idempotency.AbandonedForGood | keynetra/api/middleware/idempotency.py:80-106 | once a record is unfinished and held by nobody it stays so, and no request still open gets anything but a conflict |
| Idempotency.ServerErrorAbandons | keynetra/api/middleware/idempotency.py:80-106 | an answered request leaves its record in that state exactly when the status is 500 or more |
| Idempotency.BreakAbandons | keynetra/api/middleware/idempotency.py:80-106 | a request that breaks off while it holds its record leaves it in that state |
| Idempotency.ReplayCrossesExactly | keynetra/api/middleware/idempotency.py:44-46 | a request is answered from a completed record exactly when method, path, key and body agree with those of the request that made it, whoever sends it |
| Idempotency.RunKeepsInv | keynetra/infrastructure/repositories/idempotency.py:32-75 | the invariant over every interleaving of arrivals, inserts, looks, executions, responses and breaks |
| Idempotency.Repository.Start | keynetra/infrastructure/repositories/idempotency.py:32-58 | started, mismatch, in progress or replay, with the record inserted only when there was none |
| Idempotency.Repository.Finish | keynetra/infrastructure/repositories/idempotency.py:60-75 | the record with that id takes the response and keeps its hash; no other record changes, none comes or goes, and ids stay unique |
| VersionHistory.HistoriesAreContiguous | keynetra/infrastructure/repositories/policies.py:145-212 | after any run a live policy has the versions 1..n with current among them; a create writes n + 1 exactly when current is n and is otherwise rejected without a trace |
| VersionHistory.CreateExtends | keynetra/infrastructure/repositories/policies.py:145-212 | the same for one create from any reachable tables, with the content it writes |
| VersionHistory.WrittenNeverChanges | keynetra/domain/models/policy_versioning.py:23-47 | until its policy is deleted, a written version keeps its content |
| VersionHistory.RollbackRestores | keynetra/infrastructure/repositories/policies.py:214-241 | a rollback to a version makes exactly what was first written under it current |
| VersionHistory.RollbackExactly | keynetra/infrastructure/repositories/policies.py:214-241 | a rollback goes through exactly to a version the policy has; otherwise nothing changes and the outcome tells which is missing |
| VersionHistory.RunKeepsInv | keynetra/infrastructure/repositories/policies.py:145-261 | ids are unique, every version row has its owner, and histories are contiguous, over every run |
| VersionHistory.Repository.CreatePolicyVersion | keynetra/infrastructure/repositories/policies.py:145-212 | the new tables after a create, or the old ones after a rejected one |
| VersionHistory.Repository.RollbackPolicy | keynetra/infrastructure/repositories/policies.py:214-241 | the current version moves, or the policy or version is not found |
| VersionHistory.DeleteForgets | keynetra/infrastructure/repositories/policies.py:243-261 | a delete frees the key and leaves every other history as it was; the next create under the key starts again at version 1 |
| VersionHistory.Repository.DeletePolicy | keynetra/infrastructure/repositories/policies.py:243-261 | the policy and all its versions go, every other policy and version row stays, and histories stay contiguous |
| Pagination.WalkMissesNothing | keynetra/infrastructure/repositories/policies.py:98-143 | while rows come and go between pages, a walk returns ascending keys without repeats, every row that stayed throughout, and no row that was never there |
| Pagination.WalkYieldsTheListing | keynetra/infrastructure/repositories/policies.py:98-143 | on a table at rest the walk yields the full ordered listing exactly when the limit is positive or there is nothing to list |
| Pagination.WalkEnds | keynetra/infrastructure/repositories/policies.py:130-143 | following the cursors of a table at rest comes to an end |
| Pagination.PageIsPage | keynetra/infrastructure/repositories/policies.py:98-143 | a page is ascending, at most limit long, lies after its cursor, leaves nothing out before the next cursor, and hands out a cursor whenever rows remain |
| Pagination.PageEndsExactly | keynetra/infrastructure/repositories/policies.py:130-143 | a page hands out a cursor exactly when rows remain beyond it, and is full then |
| Listings.CursorPredicateIsOrder | keynetra/infrastructure/repositories/relationships.py:49-120 | the four-column cursor predicate is exactly the lexicographic order of the listing |
| Listings.PolicyPredicateIsOrder | keynetra/infrastructure/repositories/policies.py:98-143 | the policy cursor predicate is the order by priority and then id, rising |
| Listings.AuditPredicateIsOrder | keynetra/infrastructure/repositories/audit.py:77-101 | the audit cursor predicate is the order by moment and then id, falling |
| Listings.RelationshipWalk | keynetra/infrastructure/repositories/relationships.py:49-120 | a walk over a subject's relationships repeats none and misses none that stayed |
| Listings.PolicyWalk | keynetra/infrastructure/repositories/policies.py:98-143 | the same for policies by priority and id |
| Listings.AuditWalk | keynetra/infrastructure/repositories/audit.py:77-101 | the same for the audit log, newest first |

## Left out

- The individual condition handlers (role, amount, owner, time range, geography, relation): the results hold for every table of handlers over the whole input, and each handler is a single comparison.
- Freshness.NeverOlderPolicies: does not follow several tenants at once; policy caches and decision caches of different tenants share no key.
- Freshness.NeverOlderAccess: bounds the moment of the index lookup, not the age of the rows it returned; the index and ACL caches compute their key when they store, so under concurrency only the bound in seconds of `AccessIndexer.ServedRowsAreRecent` covers those rows.
- AccessIndexer.ServedRowsAreRecent: takes a rebuild and a call as atomic steps; the time a call itself takes comes on top. The model has one memo, while the source builds an indexer with its own memo for every request; the bound holds for each of them.
- The relationship cache (30 seconds, deletion on change): it feeds the user's own relations, not the access index, and its sequential coherence repeats that of the ACL cache.
- Pagination.WalkEnds: ends for a table at rest only; a table that grows faster than it is read has no last page.
- ModelRoundTrip.ModelFileRoundTrip: starts from a parsed mapping with text values; reading YAML, JSON or TOML, converting numbers to text, the `raw` copy of the text and the dictionary form of a compiled model are left out.
- TokenBucket.RedisAnswersAsLocal: reals on both sides; the number formatting of Redis hashes and the fail-open or fail-closed answer when Redis is down are left out.
- TokenBucket.LocalLimiter.Consume: buckets are values in a map field rather than shared objects, and the lock is left out; the key, a principal or an address, is a parameter.
- ImpactAnalysis.AnalyzePolicyChange: the two lists are sets; how candidate users and resources are gathered, and parsing of the proposed policy, are left out.
- AuthorizeBatch.AuthorizeItems: auditing, metrics, and fallback decisions on errors are left out.
- Idempotency.RunKeepsInv: request hashing, the headers and methods that bypass the middleware, and record expiry are left out; copying a response is only its status, body and content type.
- Engine.DecideStructured: user fields that are not lists count as empty; normalizing string descriptors and the unused policy fallbacks of the engine are left out.
- VersionHistory.RunKeepsInv: one operation at a time; two creates that race are ordered by the uniqueness constraint.
- PolicyLint.CollectDuplicateWarnings: warnings are values rather than formatted sentences; the unused-role warnings are a set difference.
- The shared stores of compiled policies and model graphs: the first is never read when authorizing, the second is loaded once per tenant and process, so a model change reaches other processes only when they restart; `Freshness` has one process in this respect.
- HTTP routing, authentication, logging, metrics, the command line, migrations and deployment.
