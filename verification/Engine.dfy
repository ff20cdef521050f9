/** The six-stage decision pipeline and its explain trace. */
module Engine {
  import opened Wrappers
  import opened Domain
  import PolicyGraph
  import SchemaParser
  import Sorting
  import Text

  datatype Step = Step(step: string, outcome: string, detail: string, policyId: Option<string>)

  datatype Decision = Decision(
    allowed: bool,
    decision: string,
    reason: Option<string>,
    policyId: Option<string>,
    trace: seq<Step>,
    matchedPolicies: seq<string>,
    failedConditions: seq<string>)

  // What a stage answers: "allow", "deny" or "abstain", a reason and a policy id.
  datatype Stage = Stage(outcome: string, reason: Option<string>, policyId: Option<string>)

  const ABSTAIN := Stage("abstain", None, None)

  datatype Answer = Answer(stage: Stage, steps: seq<Step>)

  function Abstained(step: string, detail: string): Answer {
    Answer(ABSTAIN, [Step(step, "abstain", detail, None)])
  }

  // ---------------------------------------------------------------- subjects

  function Subjects(u: User): set<string> {
    (if u.id.Some? then {"user:" + u.id.value} else {})
    + (set r | r in u.roles :: "role:" + r)
    + (set p | p in u.permissions :: "permission:" + p)
    + (if u.directPermissions.Some? then set p | p in u.directPermissions.value :: "permission:" + p else {})
    + (set e | e in u.relations && e.relation != "" && e.objectType != "" && e.objectId != ""
         :: "relationship:" + e.relation + ":" + e.objectType + ":" + e.objectId)
  }

  function ResourceType(r: Resource): string {
    FirstNonEmpty([r.resourceType, r.typeName, r.kind, r.entityType])
  }

  function ResourceId(r: Resource): string {
    FirstNonEmpty([r.resourceId, r.id])
  }

  predicate Identified(r: Resource) {
    ResourceType(r) != "" && ResourceId(r) != ""
  }

  // ------------------------------------------------------------------ stages

  function ExplicitPermissions(u: User): seq<string> {
    if u.directPermissions.Some? then u.directPermissions.value else u.permissions
  }

  function DirectStage(input: AuthorizationInput): Answer {
    if input.action in ExplicitPermissions(input.user) then
      Answer(
        Stage("allow", Some("explicit permission grant"), Some("rbac:permissions")),
        [Step("rbac_permissions", "matched", "explicit permission grant matched input action", Some("rbac:permissions"))])
    else
      Abstained("rbac_permissions", "no direct permission match")
  }

  function AclRows(input: AuthorizationInput): seq<IndexEntry> {
    if input.aclEntries == [] then FromAcl(input.indexEntries) else input.aclEntries
  }

  function FromAcl(entries: seq<IndexEntry>): seq<IndexEntry> {
    if entries == [] then []
    else (if entries[0].source == "acl" then [entries[0]] else []) + FromAcl(entries[1..])
  }

  predicate SubjectMatches(e: IndexEntry, subjects: set<string>) {
    if e.subjectType == "" || e.subjectId == "" then false
    else if e.subjectType == "relationship" then
      var bare := if "relationship:" <= e.subjectId then e.subjectId[12..] else e.subjectId;
      e.subjectId in subjects || bare in subjects || "relationship:" + bare in subjects
    else e.subjectType + ":" + e.subjectId in subjects
  }

  predicate AclMatches(e: IndexEntry, input: AuthorizationInput) {
    && e.resourceType == ResourceType(input.resource)
    && e.resourceId == ResourceId(input.resource)
    && e.action == input.action
    && SubjectMatches(e, Subjects(input.user))
  }

  function Effect(e: IndexEntry): string {
    Text.Lower(e.effect)
  }

  predicate Effective(e: IndexEntry) {
    Effect(e) in {"allow", "deny"}
  }

  function AclId(e: IndexEntry): string {
    "acl:" + (if e.id.Some? then e.id.value else "None")
  }

  function AclDetail(e: IndexEntry, input: AuthorizationInput): string {
    "matched ACL entry " + e.subjectType + ":" + e.subjectId + " " + input.action + " "
    + ResourceType(input.resource) + ":" + ResourceId(input.resource)
  }

  function AclStep(e: IndexEntry, input: AuthorizationInput): Step {
    Step("acl", if Effective(e) then Effect(e) else "abstain", AclDetail(e, input), Some(AclId(e)))
  }

  // The ACL loop from the given rows on; `matched` says whether a row has matched yet.
  function AclScan(rows: seq<IndexEntry>, input: AuthorizationInput, matched: bool): Answer {
    if rows == [] then
      if matched then Answer(ABSTAIN, []) else Abstained("acl", "no ACL match")
    else if !AclMatches(rows[0], input) then
      AclScan(rows[1..], input, matched)
    else
      var e := rows[0];
      if Effective(e) then
        Answer(Stage(Effect(e), Some(AclDetail(e, input)), Some(AclId(e))), [AclStep(e, input)])
      else
        var rest := AclScan(rows[1..], input, true);
        Answer(rest.stage, [AclStep(e, input)] + rest.steps)
  }

  function AclStage(input: AuthorizationInput): Answer {
    if !Identified(input.resource) then Abstained("acl", "resource identity unavailable")
    else AclScan(AclRows(input), input, false)
  }

  function RoleStage(input: AuthorizationInput): Answer {
    if input.action in input.user.rolePermissions then
      Answer(
        Stage("allow", Some("role permission grant"), Some("rbac:role")),
        [Step("rbac_role", "allow", "role permission grant", Some("rbac:role"))])
    else
      Abstained("rbac_role", "no role permission match")
  }

  predicate IndexGrants(e: IndexEntry, input: AuthorizationInput) {
    && e.source == "relationship"
    && e.resourceType == ResourceType(input.resource)
    && e.resourceId == ResourceId(input.resource)
    && e.action in {input.action, "*"}
    && exists s :: s in e.allowedSubjects && s in Subjects(input.user)
  }

  function IndexDetail(input: AuthorizationInput): string {
    "relationship index match for " + ResourceType(input.resource) + ":" + ResourceId(input.resource)
  }

  function IndexScan(entries: seq<IndexEntry>, input: AuthorizationInput): Answer {
    if entries == [] then Abstained("relationship", "no relationship index match")
    else if IndexGrants(entries[0], input) then
      Answer(
        Stage("allow", Some(IndexDetail(input)), Some("relationship:index")),
        [Step("relationship", "allow", IndexDetail(input), Some("relationship:index"))])
    else IndexScan(entries[1..], input)
  }

  function IndexStage(input: AuthorizationInput): Answer {
    if !Identified(input.resource) then Abstained("relationship", "resource identity unavailable")
    else IndexScan(input.indexEntries, input)
  }

  // The model reads the resource type without the "entity_type" alias.
  function ModelResourceType(r: Resource): string {
    FirstNonEmpty([r.resourceType, r.typeName, r.kind])
  }

  predicate HasRelation(name: string, input: AuthorizationInput) {
    Relation(name, ModelResourceType(input.resource), ResourceId(input.resource)) in input.user.relations
  }

  predicate Satisfied(e: SchemaParser.Expr, input: AuthorizationInput) {
    match e
    case Identifier(name) => HasRelation(name, input)
    case Not(x) => !Satisfied(x, input)
    case And(l, r) => Satisfied(l, input) && Satisfied(r, input)
    case Or(l, r) => Satisfied(l, input) || Satisfied(r, input)
  }

  predicate ModelApplies(input: AuthorizationInput) {
    && input.model.Some?
    && ModelResourceType(input.resource) != "" && input.action != ""
    && input.action in input.model.value.permissions
  }

  function ModelStage(input: AuthorizationInput): Answer {
    if input.model.None? then Abstained("permission_graph", "no authorization model")
    else if !ModelApplies(input) then Abstained("permission_graph", "permission graph did not apply")
    else
      var id := Some("auth-model:" + input.action);
      var granted := Satisfied(input.model.value.permissions[input.action], input);
      var outcome := if granted then "allow" else "deny";
      var reason := (if granted then "matched authorization model permission " else "authorization model denied ") + input.action;
      Answer(Stage(outcome, Some(reason), id), [Step("permission_graph", outcome, reason, id)])
  }

  function PolicyStage(ps: seq<Policy>, ev: Evaluator, input: AuthorizationInput): Answer {
    var d := PolicyGraph.GraphOutcome(ps, ev, input);
    if d.outcome == "abstain" then Abstained("policy_graph", "no matching policy node")
    else
      var detail := if d.reason.Some? && d.reason.value != "" then d.reason.value else "decision " + d.outcome;
      Answer(Stage(d.outcome, d.reason, d.policyId), [Step("policy_graph", d.outcome, detail, d.policyId)])
  }

  // ---------------------------------------------------------------- pipeline

  function FinalStep(s: Stage): Step {
    var detail := if s.reason.Some? && s.reason.value != "" then s.reason.value else "decision " + s.outcome;
    Step("final", s.outcome,
      if s.policyId == Some("rbac:permissions") && s.outcome == "allow" then "granted by explicit permission" else detail,
      s.policyId)
  }

  function StageDecision(s: Stage, trace: seq<Step>): Decision {
    Decision(
      s.outcome == "allow",
      if s.outcome == "allow" then "allow" else "deny",
      s.reason,
      s.policyId,
      trace + [FinalStep(s)],
      if s.outcome == "allow" && s.policyId.Some? && s.policyId.value != "" then [s.policyId.value] else [],
      [])
  }

  function DefaultDecision(trace: seq<Step>): Decision {
    Decision(false, "deny", Some("no matching policy"), None,
      trace + [Step("final", "deny", "no matching policy", None)], [], [])
  }

  // The answers of the six stages, in pipeline order.
  function Answers(ps: seq<Policy>, ev: Evaluator, input: AuthorizationInput): (answers: seq<Answer>)
    ensures |answers| == 6
  {
    [DirectStage(input), AclStage(input), RoleStage(input), IndexStage(input), ModelStage(input), PolicyStage(ps, ev, input)]
  }

  function Pipeline(answers: seq<Answer>, trace: seq<Step>): Decision {
    if answers == [] then DefaultDecision(trace)
    else
      var sofar := trace + answers[0].steps;
      if answers[0].stage.outcome != "abstain" then StageDecision(answers[0].stage, sofar)
      else Pipeline(answers[1..], sofar)
  }

  function StartStep(input: AuthorizationInput): Step {
    Step("start", "continue", "evaluate action=" + input.action, None)
  }

  function Decide(ps: seq<Policy>, ev: Evaluator, input: AuthorizationInput): Decision {
    Pipeline(Answers(ps, ev, input), [StartStep(input)])
  }

  // ------------------------------------------------------ the engine as written

  // The trace list that the stages share and append to.
  class TraceLog {
    var steps: seq<Step>

    constructor (first: Step)
      ensures steps == [first]
    {
      steps := [first];
    }

    method Append(s: Step)
      modifies this
      ensures steps == old(steps) + [s]
    {
      steps := steps + [s];
    }
  }

  method EvaluateAcl(input: AuthorizationInput, trace: TraceLog) returns (stage: Stage)
    modifies trace
    ensures stage == AclStage(input).stage
    ensures trace.steps == old(trace.steps) + AclStage(input).steps
  {
    if !Identified(input.resource) {
      trace.Append(Step("acl", "abstain", "resource identity unavailable", None));
      return ABSTAIN;
    }
    var rows := AclRows(input);
    var matched := false;
    for i := 0 to |rows|
      invariant AclScan(rows, input, false).stage == AclScan(rows[i..], input, matched).stage
      invariant old(trace.steps) + AclScan(rows, input, false).steps
             == trace.steps + AclScan(rows[i..], input, matched).steps
    {
      var entry := rows[i];
      assert rows[i..][1..] == rows[i + 1..];
      if AclMatches(entry, input) {
        matched := true;
        trace.Append(AclStep(entry, input));
        if Effective(entry) {
          return Stage(Effect(entry), Some(AclDetail(entry, input)), Some(AclId(entry)));
        }
      }
    }
    if !matched {
      trace.Append(Step("acl", "abstain", "no ACL match", None));
    }
    return ABSTAIN;
  }

  method EvaluateIndex(input: AuthorizationInput, trace: TraceLog) returns (stage: Stage)
    modifies trace
    ensures stage == IndexStage(input).stage
    ensures trace.steps == old(trace.steps) + IndexStage(input).steps
  {
    if !Identified(input.resource) {
      trace.Append(Step("relationship", "abstain", "resource identity unavailable", None));
      return ABSTAIN;
    }
    var entries := input.indexEntries;
    for i := 0 to |entries|
      invariant trace.steps == old(trace.steps)
      invariant IndexScan(entries, input) == IndexScan(entries[i..], input)
    {
      assert entries[i..][1..] == entries[i + 1..];
      if IndexGrants(entries[i], input) {
        trace.Append(Step("relationship", "allow", IndexDetail(input), Some("relationship:index")));
        return Stage("allow", Some(IndexDetail(input)), Some("relationship:index"));
      }
    }
    trace.Append(Step("relationship", "abstain", "no relationship index match", None));
    return ABSTAIN;
  }

  method EvaluatePolicies(ps: seq<Policy>, ev: Evaluator, input: AuthorizationInput, trace: TraceLog) returns (stage: Stage)
    modifies trace
    ensures stage == PolicyStage(ps, ev, input).stage
    ensures trace.steps == old(trace.steps) + PolicyStage(ps, ev, input).steps
  {
    var d := PolicyGraph.Evaluate(PolicyGraph.EngineGraph(ps), ev, input);
    if d.outcome == "abstain" {
      trace.Append(Step("policy_graph", "abstain", "no matching policy node", None));
      return ABSTAIN;
    }
    var detail := if d.reason.Some? && d.reason.value != "" then d.reason.value else "decision " + d.outcome;
    trace.Append(Step("policy_graph", d.outcome, detail, d.policyId));
    return Stage(d.outcome, d.reason, d.policyId);
  }

  method EvaluatePure(answer: Answer, trace: TraceLog) returns (stage: Stage)
    requires |answer.steps| == 1
    modifies trace
    ensures stage == answer.stage && trace.steps == old(trace.steps) + answer.steps
  {
    trace.Append(answer.steps[0]);
    return answer.stage;
  }

  method Finish(stage: Stage, trace: TraceLog) returns (d: Decision)
    modifies trace
    ensures d == StageDecision(stage, old(trace.steps))
  {
    trace.Append(FinalStep(stage));
    d := Decision(
      stage.outcome == "allow", if stage.outcome == "allow" then "allow" else "deny",
      stage.reason, stage.policyId, trace.steps,
      if stage.outcome == "allow" && stage.policyId.Some? && stage.policyId.value != "" then [stage.policyId.value] else [],
      []);
  }

  method DecideStructured(ps: seq<Policy>, ev: Evaluator, input: AuthorizationInput) returns (d: Decision)
    ensures d == Decide(ps, ev, input)
  {
    hide AclStage, IndexStage, PolicyStage, ModelStage, StageDecision;
    var trace := new TraceLog(StartStep(input));
    ghost var answers := Answers(ps, ev, input);
    var stage := EvaluatePure(DirectStage(input), trace);
    PipelineStep(answers, 0, [StartStep(input)]);
    if stage.outcome != "abstain" {
      d := Finish(stage, trace);
      return;
    }
    PipelineStep(answers, 1, trace.steps);
    stage := EvaluateAcl(input, trace);
    if stage.outcome != "abstain" {
      d := Finish(stage, trace);
      return;
    }
    PipelineStep(answers, 2, trace.steps);
    stage := EvaluatePure(RoleStage(input), trace);
    if stage.outcome != "abstain" {
      d := Finish(stage, trace);
      return;
    }
    PipelineStep(answers, 3, trace.steps);
    stage := EvaluateIndex(input, trace);
    if stage.outcome != "abstain" {
      d := Finish(stage, trace);
      return;
    }
    PipelineStep(answers, 4, trace.steps);
    ModelTracesOnce(input);
    stage := EvaluatePure(ModelStage(input), trace);
    if stage.outcome != "abstain" {
      d := Finish(stage, trace);
      return;
    }
    PipelineStep(answers, 5, trace.steps);
    stage := EvaluatePolicies(ps, ev, input, trace);
    if stage.outcome != "abstain" {
      d := Finish(stage, trace);
      return;
    }
    trace.Append(Step("final", "deny", "no matching policy", None));
    d := Decision(false, "deny", Some("no matching policy"), None, trace.steps, [], []);
  }

  lemma ModelTracesOnce(input: AuthorizationInput)
    ensures |ModelStage(input).steps| == 1
  {
  }

  lemma PipelineStep(answers: seq<Answer>, i: nat, trace: seq<Step>)
    requires i < |answers|
    ensures Pipeline(answers[i..], trace) ==
      (if answers[i].stage.outcome != "abstain" then StageDecision(answers[i].stage, trace + answers[i].steps)
       else Pipeline(answers[i + 1..], trace + answers[i].steps))
  {
    assert answers[i..][1..] == answers[i + 1..];
  }

  // -------------------------------------------------- who decides, and on what

  ghost predicate FirstToAnswer(answers: seq<Answer>, k: nat) {
    && k < |answers|
    && answers[k].stage.outcome != "abstain"
    && forall i :: 0 <= i < k ==> answers[i].stage.outcome == "abstain"
  }

  function StepsOf(answers: seq<Answer>): seq<Step> {
    if answers == [] then [] else answers[0].steps + StepsOf(answers[1..])
  }

  lemma {:induction false} PipelineTakesFirst(answers: seq<Answer>, trace: seq<Step>) returns (k: nat)
    ensures k < |answers| ==>
      && FirstToAnswer(answers, k)
      && Pipeline(answers, trace) == StageDecision(answers[k].stage, trace + StepsOf(answers[..k + 1]))
    ensures k >= |answers| ==>
      && (forall i :: 0 <= i < |answers| ==> answers[i].stage.outcome == "abstain")
      && Pipeline(answers, trace) == DefaultDecision(trace + StepsOf(answers))
  {
    hide StageDecision, DefaultDecision;
    if answers == [] {
      k := 0;
      assert trace + StepsOf(answers) == trace;
    } else if answers[0].stage.outcome != "abstain" {
      k := 0;
      assert answers[..1][1..] == [];
      assert StepsOf(answers[..1]) == answers[0].steps;
    } else {
      k := PipelineTakesFirst(answers[1..], trace + answers[0].steps);
      k := k + 1;
      assert trace + StepsOf(answers) == trace + answers[0].steps + StepsOf(answers[1..]);
      if k < |answers| {
        assert answers[..k + 1][1..] == answers[1..][..k];
        assert trace + StepsOf(answers[..k + 1]) == trace + answers[0].steps + StepsOf(answers[1..][..k]);
        assert answers[k] == answers[1..][k - 1];
      }
    }
  }

  // The engine's answer is that of the first stage that does not abstain.
  lemma FirstStageDecides(ps: seq<Policy>, ev: Evaluator, input: AuthorizationInput, k: nat)
    requires FirstToAnswer(Answers(ps, ev, input), k)
    ensures
      var s := Answers(ps, ev, input)[k].stage;
      var d := Decide(ps, ev, input);
      && d.allowed == (s.outcome == "allow") && d.decision == (if d.allowed then "allow" else "deny")
      && d.reason == s.reason && d.policyId == s.policyId && d.failedConditions == []
      && d.matchedPolicies == (match s.policyId case Some(id) => if d.allowed && id != "" then [id] else [] case None => [])
  {
    hide Answers;
    var j := PipelineTakesFirst(Answers(ps, ev, input), [StartStep(input)]);
  }

  // When no stage answers, access is denied, for no policy and with no match to name.
  lemma AllAbstainDenies(ps: seq<Policy>, ev: Evaluator, input: AuthorizationInput)
    requires forall i :: 0 <= i < 6 ==> Answers(ps, ev, input)[i].stage.outcome == "abstain"
    ensures
      var d := Decide(ps, ev, input);
      && !d.allowed && d.decision == "deny" && d.reason == Some("no matching policy")
      && d.policyId == None && d.matchedPolicies == [] && d.failedConditions == []
  {
    hide Answers;
    var k := PipelineTakesFirst(Answers(ps, ev, input), [StartStep(input)]);
  }

  // The first row that matches and has an effect.
  ghost predicate DecisiveRow(rows: seq<IndexEntry>, input: AuthorizationInput, i: nat) {
    && i < |rows|
    && AclMatches(rows[i], input) && Effective(rows[i])
    && forall j :: 0 <= j < i ==> !(AclMatches(rows[j], input) && Effective(rows[j]))
  }

  lemma {:induction false} AclScanFinds(rows: seq<IndexEntry>, input: AuthorizationInput, matched: bool) returns (i: nat)
    ensures i < |rows| ==>
      && DecisiveRow(rows, input, i)
      && AclScan(rows, input, matched).stage == Stage(Effect(rows[i]), Some(AclDetail(rows[i], input)), Some(AclId(rows[i])))
    ensures i >= |rows| ==>
      && (forall j :: 0 <= j < |rows| ==> !(AclMatches(rows[j], input) && Effective(rows[j])))
      && AclScan(rows, input, matched).stage == ABSTAIN
    ensures forall s :: s in AclScan(rows, input, matched).steps ==> s.step == "acl"
    ensures matched || AclScan(rows, input, matched).steps != []
  {
    i := 0;
    if rows != [] && !(AclMatches(rows[0], input) && Effective(rows[0])) {
      i := AclScanFinds(rows[1..], input, matched || AclMatches(rows[0], input));
      i := i + 1;
      assert forall j :: 1 <= j < |rows| ==> rows[j] == rows[1..][j - 1];
    }
  }

  lemma {:induction false} IndexScanFinds(entries: seq<IndexEntry>, input: AuthorizationInput)
    ensures IndexScan(entries, input).stage.outcome ==
      if exists i :: 0 <= i < |entries| && IndexGrants(entries[i], input) then "allow" else "abstain"
    ensures IndexScan(entries, input).stage.outcome == "abstain" ==> IndexScan(entries, input).stage == ABSTAIN
    ensures |IndexScan(entries, input).steps| == 1 && IndexScan(entries, input).steps[0].step == "relationship"
  {
    if entries != [] && !IndexGrants(entries[0], input) {
      IndexScanFinds(entries[1..], input);
      assert forall i :: 1 <= i < |entries| ==> entries[i] == entries[1..][i - 1];
    }
  }

  ghost predicate DirectGrant(input: AuthorizationInput) {
    input.action in ExplicitPermissions(input.user)
  }

  ghost predicate AclSays(input: AuthorizationInput, effect: string) {
    && Identified(input.resource)
    && exists i: nat :: DecisiveRow(AclRows(input), input, i) && Effect(AclRows(input)[i]) == effect
  }

  ghost predicate IndexGrant(input: AuthorizationInput) {
    && Identified(input.resource)
    && exists i :: 0 <= i < |input.indexEntries| && IndexGrants(input.indexEntries[i], input)
  }

  ghost predicate PolicyGrant(ps: seq<Policy>, ev: Evaluator, input: AuthorizationInput) {
    exists w: nat :: PolicyWins(ps, ev, input, w) && ps[w].effect == "allow"
  }

  ghost predicate PolicyWins(ps: seq<Policy>, ev: Evaluator, input: AuthorizationInput, w: nat) {
    Sorting.Least(ps, PolicyGraph.Priority(), PolicyGraph.Matching(ev, input), w)
  }

  // What the four later stages grant together, once permissions and ACL are silent.
  ghost predicate LateGrant(ps: seq<Policy>, ev: Evaluator, input: AuthorizationInput) {
    || input.action in input.user.rolePermissions
    || IndexGrant(input)
    || (if ModelApplies(input) then Satisfied(input.model.value.permissions[input.action], input)
        else PolicyGrant(ps, ev, input))
  }

  lemma AclStageSays(input: AuthorizationInput)
    ensures AclStage(input).stage.outcome == "allow" <==> AclSays(input, "allow")
    ensures AclStage(input).stage.outcome == "deny" <==> AclSays(input, "deny")
    ensures AclStage(input).stage.outcome in {"allow", "deny", "abstain"}
  {
    var i := AclScanFinds(AclRows(input), input, false);
    if i < |AclRows(input)| {
      forall j: nat | DecisiveRow(AclRows(input), input, j) ensures j == i {
      }
    }
  }

  lemma PolicyStageGrants(ps: seq<Policy>, ev: Evaluator, input: AuthorizationInput)
    ensures PolicyStage(ps, ev, input).stage.outcome == "allow" <==> PolicyGrant(ps, ev, input)
    ensures PolicyStage(ps, ev, input).stage.outcome in {"allow", "deny", "abstain"}
  {
    var d := PolicyGraph.GraphOutcome(ps, ev, input);
    PolicyGraph.GraphRefinesRule(ps, ev, input, d);
    forall w: nat | PolicyWins(ps, ev, input, w)
      ensures d == PolicyGraph.MatchedDecision(PolicyGraph.CompileNode(ps[w]))
    {
      PolicyGraph.GraphRefinesRule(ps, ev, input, PolicyGraph.MatchedDecision(PolicyGraph.CompileNode(ps[w])));
    }
  }

  lemma GrantStagesSay(input: AuthorizationInput)
    ensures DirectStage(input).stage.outcome == if DirectGrant(input) then "allow" else "abstain"
    ensures RoleStage(input).stage.outcome == if input.action in input.user.rolePermissions then "allow" else "abstain"
    ensures IndexStage(input).stage.outcome == if IndexGrant(input) then "allow" else "abstain"
  {
    IndexScanFinds(input.indexEntries, input);
    hide IndexScan, IndexGrants, ExplicitPermissions;
  }

  lemma ModelStageSays(input: AuthorizationInput)
    ensures ModelStage(input).stage.outcome ==
      if !ModelApplies(input) then "abstain"
      else if Satisfied(input.model.value.permissions[input.action], input) then "allow" else "deny"
  {
  }

  /** Access is allowed exactly on a witness: an explicit permission; else the first
      effective ACL row, which also settles a denial; else a role permission, an
      indexed subject, or the model where it applies and the winning policy where
      it does not. */
  lemma AllowedExactly(ps: seq<Policy>, ev: Evaluator, input: AuthorizationInput)
    ensures Decide(ps, ev, input).allowed <==>
      || DirectGrant(input)
      || AclSays(input, "allow")
      || (!AclSays(input, "deny") && LateGrant(ps, ev, input))
  {
    hide DirectStage, AclStage, RoleStage, IndexStage, ModelStage, PolicyStage;
    hide DirectGrant, AclSays, IndexGrant, ModelApplies, PolicyGrant, Satisfied, Pipeline, StartStep;
    AclStageSays(input);
    GrantStagesSay(input);
    ModelStageSays(input);
    PolicyStageGrants(ps, ev, input);
    FirstOfSix(Answers(ps, ev, input), [StartStep(input)]);
  }

  lemma FirstOfSix(a: seq<Answer>, trace: seq<Step>)
    requires |a| == 6 && forall i :: 0 <= i < 6 ==> a[i].stage.outcome in {"allow", "deny", "abstain"}
    ensures Pipeline(a, trace).allowed <==>
      || a[0].stage.outcome == "allow"
      || (a[0].stage.outcome == "abstain" && a[1].stage.outcome == "allow")
      || (a[0].stage.outcome == "abstain" && a[1].stage.outcome == "abstain"
          && (|| a[2].stage.outcome == "allow"
              || (a[2].stage.outcome == "abstain" && a[3].stage.outcome == "allow")
              || (a[2].stage.outcome == "abstain" && a[3].stage.outcome == "abstain"
                  && (|| a[4].stage.outcome == "allow"
                      || (a[4].stage.outcome == "abstain" && a[5].stage.outcome == "allow")))))
  {
    var k := PipelineTakesFirst(a, trace);
    assert |"allow"| == 5 && |"abstain"| == 7;
    assert k == 0 || k == 1 || k == 2 || k == 3 || k == 4 || k == 5 || k >= 6;
  }

  // The decision carries the effect and the id of the first effective ACL row.
  lemma DecisionNamesItsAclRow(ps: seq<Policy>, ev: Evaluator, input: AuthorizationInput, i: nat)
    requires !DirectGrant(input) && Identified(input.resource) && DecisiveRow(AclRows(input), input, i)
    ensures
      var d := Decide(ps, ev, input);
      d.decision == Effect(AclRows(input)[i]) && d.policyId == Some(AclId(AclRows(input)[i]))
  {
    AclRowAnswers(input, i);
    assert DirectStage(input).stage == ABSTAIN;
    hide DirectStage, AclStage, RoleStage, IndexStage, ModelStage, PolicyStage, Decide, AclDetail, AclId, AclRows, DecisiveRow, Effect;
    FirstStageDecides(ps, ev, input, 1);
  }

  lemma AclRowAnswers(input: AuthorizationInput, i: nat)
    requires Identified(input.resource) && DecisiveRow(AclRows(input), input, i)
    ensures Effect(AclRows(input)[i]) in {"allow", "deny"}
    ensures AclStage(input).stage ==
      Stage(Effect(AclRows(input)[i]), Some(AclDetail(AclRows(input)[i], input)), Some(AclId(AclRows(input)[i])))
  {
    var j := AclScanFinds(AclRows(input), input, false);
    hide AclDetail, AclId, AclRows, AclMatches, Effect, AclScan;
    assert i == j;
  }

  // -------------------------------------------------------- shape of the trace

  function Rank(step: string): nat {
    if step == "start" then 0
    else if step == "rbac_permissions" then 1
    else if step == "acl" then 2
    else if step == "rbac_role" then 3
    else if step == "relationship" then 4
    else if step == "permission_graph" then 5
    else if step == "policy_graph" then 6
    else 7
  }

  lemma Ranks()
    ensures Rank("start") == 0 && Rank("rbac_permissions") == 1 && Rank("acl") == 2 && Rank("rbac_role") == 3
    ensures Rank("relationship") == 4 && Rank("permission_graph") == 5 && Rank("policy_graph") == 6 && Rank("final") == 7
  {
    assert "rbac_permissions"[0] != "permission_graph"[0];
    assert "relationship"[0] != "policy_graph"[0];
    assert "start"[0] != "final"[0];
    assert |"start"| == 5 && |"rbac_permissions"| == 16 && |"acl"| == 3 && |"rbac_role"| == 9;
    assert |"relationship"| == 12 && |"permission_graph"| == 16 && |"policy_graph"| == 12 && |"final"| == 5;
  }

  ghost predicate Labelled(answers: seq<Answer>, base: nat) {
    forall i :: 0 <= i < |answers| ==>
      answers[i].steps != [] && forall s :: s in answers[i].steps ==> Rank(s.step) == base + i
  }

  ghost predicate Ascending(steps: seq<Step>) {
    forall i, j :: 0 <= i < j < |steps| ==> Rank(steps[i].step) <= Rank(steps[j].step)
  }

  lemma {:induction false} StepsAscend(answers: seq<Answer>, base: nat)
    requires Labelled(answers, base)
    ensures Ascending(StepsOf(answers))
    ensures forall s :: s in StepsOf(answers) ==> base <= Rank(s.step) < base + |answers|
    ensures |StepsOf(answers)| >= |answers|
  {
    if answers == [] {
    } else {
      assert forall i :: 0 <= i < |answers| - 1 ==> answers[1..][i] == answers[i + 1];
      StepsAscend(answers[1..], base + 1);
      AscendingJoin(answers[0].steps, StepsOf(answers[1..]), base);
    }
  }

  lemma AscendingJoin(a: seq<Step>, b: seq<Step>, r: nat)
    requires forall s :: s in a ==> Rank(s.step) == r
    requires Ascending(b) && forall s :: s in b ==> r <= Rank(s.step)
    ensures Ascending(a + b)
  {
    hide Rank;
    forall i, j | 0 <= i < j < |a + b| ensures Rank((a + b)[i].step) <= Rank((a + b)[j].step) {
      if i < |a| {
        assert (a + b)[i] in a;
        assert if j < |a| then (a + b)[j] in a else (a + b)[j] in b;
      }
    }
  }

  ghost predicate AllNamed(a: Answer, name: string) {
    a.steps != [] && forall s :: s in a.steps ==> s.step == name
  }

  lemma ScannedStepNames(input: AuthorizationInput)
    ensures AllNamed(AclStage(input), "acl") && AllNamed(IndexStage(input), "relationship")
  {
    var i := AclScanFinds(AclRows(input), input, false);
    IndexScanFinds(input.indexEntries, input);
    hide AclScan, IndexScan, AclRows;
  }

  lemma OtherStepNames(ps: seq<Policy>, ev: Evaluator, input: AuthorizationInput)
    ensures AllNamed(DirectStage(input), "rbac_permissions") && AllNamed(RoleStage(input), "rbac_role")
    ensures AllNamed(ModelStage(input), "permission_graph") && AllNamed(PolicyStage(ps, ev, input), "policy_graph")
  {
    hide ModelApplies, Satisfied;
  }

  lemma StagesLabelTheirSteps(ps: seq<Policy>, ev: Evaluator, input: AuthorizationInput)
    ensures Labelled(Answers(ps, ev, input), 1)
  {
    Ranks();
    ScannedStepNames(input);
    OtherStepNames(ps, ev, input);
    hide Rank, DirectStage, AclStage, RoleStage, IndexStage, ModelStage, PolicyStage;
  }

  lemma OutcomesKnown(ps: seq<Policy>, ev: Evaluator, input: AuthorizationInput)
    ensures forall i :: 0 <= i < 6 ==> Answers(ps, ev, input)[i].stage.outcome in {"allow", "deny", "abstain"}
  {
    AclStageSays(input);
    IndexScanFinds(input.indexEntries, input);
    PolicyStageGrants(ps, ev, input);
    hide AclStage, IndexScan, PolicyStage, Satisfied, ModelApplies, Identified, ExplicitPermissions;
  }

  // The decision, with the steps the stages took before the final one.
  lemma TraceBody(ps: seq<Policy>, ev: Evaluator, input: AuthorizationInput) returns (body: seq<Step>, last: Step)
    ensures
      var d := Decide(ps, ev, input);
      && d.trace == [StartStep(input)] + body + [last]
      && last.step == "final" && last.outcome == d.decision && last.policyId == d.policyId
    ensures Ascending(body) && body != [] && forall s :: s in body ==> 1 <= Rank(s.step) <= 6
  {
    var answers := Answers(ps, ev, input);
    StagesLabelTheirSteps(ps, ev, input);
    OutcomesKnown(ps, ev, input);
    hide Rank, Answers, Ascending, StepsOf;
    var k := PipelineTakesFirst(answers, [StartStep(input)]);
    var told := if k < |answers| then answers[..k + 1] else answers;
    StepsAscend(told, 1);
    body := StepsOf(told);
    last := if k < |answers| then FinalStep(answers[k].stage) else Step("final", "deny", "no matching policy", None);
  }

  /** The trace opens with the start step, runs through the stages in pipeline order,
      and ends with the only final step, which carries the decision. */
  lemma TraceTellsTheDecision(ps: seq<Policy>, ev: Evaluator, input: AuthorizationInput)
    ensures
      var d := Decide(ps, ev, input);
      var n := |d.trace| - 1;
      && n >= 2
      && d.trace[0] == StartStep(input)
      && d.trace[n].step == "final" && d.trace[n].outcome == d.decision && d.trace[n].policyId == d.policyId
      && (forall i :: 0 < i < n ==> 1 <= Rank(d.trace[i].step) <= 6)
      && (forall i, j :: 0 < i < j < n ==> Rank(d.trace[i].step) <= Rank(d.trace[j].step))
  {
    var body, last := TraceBody(ps, ev, input);
    hide Decide, Rank;
    var d := Decide(ps, ev, input);
    assert |d.trace| == |body| + 2;
    forall i | 0 < i < |d.trace| - 1 ensures d.trace[i] == body[i - 1] && d.trace[i] in body {
      assert d.trace[i] == ([StartStep(input)] + body)[i];
    }
  }
}
