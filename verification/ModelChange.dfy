/** What a change of the authorization model can do to a decision. */
module ModelChange {
  import opened Wrappers
  import opened Domain
  import opened Engine
  import PolicyGraph

  // Condition handlers look at user, resource and context, never at the model.
  ghost predicate IgnoresModel(ev: Evaluator) {
    forall key, value, input: AuthorizationInput, m: Option<Model> :: ev(key, value, input.(model := m)) == ev(key, value, input)
  }

  // What a model says about an input.
  datatype Verdict = NoModel | Silent | Granted | Denied

  function VerdictOf(input: AuthorizationInput): Verdict {
    if input.model.None? then NoModel
    else if !ModelApplies(input) then Silent
    else if Satisfied(input.model.value.permissions[input.action], input) then Granted
    else Denied
  }

  // A permission, an ACL row, a role or an indexed subject settles the matter before the
  // model is asked.
  predicate SettledBefore(input: AuthorizationInput) {
    || DirectStage(input).stage.outcome != "abstain"
    || AclStage(input).stage.outcome != "abstain"
    || RoleStage(input).stage.outcome != "abstain"
    || IndexStage(input).stage.outcome != "abstain"
  }

  lemma ModelStageTells(a: AuthorizationInput, b: AuthorizationInput)
    requires a.action == b.action
    ensures ModelStage(a) == ModelStage(b) <==> VerdictOf(a) == VerdictOf(b)
    ensures ModelStage(a).steps == ModelStage(b).steps <==> VerdictOf(a) == VerdictOf(b)
    ensures |ModelStage(a).steps| == |ModelStage(b).steps| == 1
  {
    hide ModelApplies, Satisfied;
    assert |"no authorization model"| != |"permission graph did not apply"|;
    assert |"allow"| == 5 && |"deny"| == 4 && |"abstain"| == 7;
    assert ModelStage(a).steps == [ModelStage(a).steps[0]] && ModelStage(b).steps == [ModelStage(b).steps[0]];
  }

  // ------------------------------------------------- stages that read no model

  lemma {:induction false} AclScanSame(rows: seq<IndexEntry>, a: AuthorizationInput, m: Option<Model>, matched: bool)
    ensures AclScan(rows, a.(model := m), matched) == AclScan(rows, a, matched)
  {
    hide Subjects;
    if rows == [] {
    } else {
      AclScanSame(rows[1..], a, m, matched);
      AclScanSame(rows[1..], a, m, true);
    }
  }

  lemma {:induction false} IndexScanSame(entries: seq<IndexEntry>, a: AuthorizationInput, m: Option<Model>)
    ensures IndexScan(entries, a.(model := m)) == IndexScan(entries, a)
  {
    hide Subjects;
    if entries == [] {
    } else {
      IndexScanSame(entries[1..], a, m);
    }
  }

  lemma {:induction false} FailureSame(checks: Conditions, ev: Evaluator, a: AuthorizationInput, m: Option<Model>)
    requires IgnoresModel(ev)
    ensures PolicyGraph.Failure(checks, ev, a.(model := m)) == PolicyGraph.Failure(checks, ev, a)
  {
    if checks == [] {
    } else {
      assert ev(checks[0].0, checks[0].1, a.(model := m)) == ev(checks[0].0, checks[0].1, a);
      hide IgnoresModel;
      FailureSame(checks[1..], ev, a, m);
    }
  }

  lemma {:induction false} ScanSame(nodes: seq<PolicyGraph.Node>, ev: Evaluator, a: AuthorizationInput, m: Option<Model>, first: Option<string>)
    requires IgnoresModel(ev)
    ensures PolicyGraph.Scan(nodes, ev, a.(model := m), first) == PolicyGraph.Scan(nodes, ev, a, first)
  {
    hide IgnoresModel, PolicyGraph.Failure;
    if nodes == [] {
    } else {
      FailureSame(nodes[0].checks, ev, a, m);
      var failure := PolicyGraph.Failure(nodes[0].checks, ev, a);
      ScanSame(nodes[1..], ev, a, m, first);
      ScanSame(nodes[1..], ev, a, m, failure);
    }
  }

  lemma OtherStagesSame(ps: seq<Policy>, ev: Evaluator, a: AuthorizationInput, m: Option<Model>)
    requires IgnoresModel(ev)
    ensures DirectStage(a.(model := m)) == DirectStage(a) && AclStage(a.(model := m)) == AclStage(a)
    ensures RoleStage(a.(model := m)) == RoleStage(a) && IndexStage(a.(model := m)) == IndexStage(a)
    ensures PolicyStage(ps, ev, a.(model := m)) == PolicyStage(ps, ev, a)
  {
    AclScanSame(AclRows(a), a, m, false);
    IndexScanSame(a.indexEntries, a, m);
    ScanSame(PolicyGraph.EngineGraph(ps), ev, a, m, None);
    hide AclScan, IndexScan, PolicyGraph.Scan, PolicyGraph.EngineGraph, IgnoresModel;
  }

  // -------------------------------------------------------------- the condition

  // What the pipeline has traced when the model is asked.
  function TracedBefore(a: AuthorizationInput): seq<Step> {
    [StartStep(a)] + DirectStage(a).steps + AclStage(a).steps + RoleStage(a).steps + IndexStage(a).steps
  }

  lemma ModelIsAsked(ps: seq<Policy>, ev: Evaluator, a: AuthorizationInput)
    requires !SettledBefore(a)
    ensures
      var told := TracedBefore(a) + ModelStage(a).steps;
      told <= Decide(ps, ev, a).trace
  {
    var answers, start := Answers(ps, ev, a), [StartStep(a)];
    hide DirectStage, AclStage, RoleStage, IndexStage, ModelStage, PolicyStage, StartStep, Pipeline;
    PipelineStep(answers, 0, start);
    assert answers[0..] == answers;
    PipelineStep(answers, 1, start + answers[0].steps);
    PipelineStep(answers, 2, start + answers[0].steps + answers[1].steps);
    PipelineStep(answers, 3, start + answers[0].steps + answers[1].steps + answers[2].steps);
    PipelineStep(answers, 4, TracedBefore(a));
    hide Answers;
    StartsWith(answers[5..], TracedBefore(a) + answers[4].steps);
  }

  lemma {:induction false} StartsWith(answers: seq<Answer>, trace: seq<Step>)
    ensures trace <= Pipeline(answers, trace).trace
  {
    if answers == [] {
    } else {
      StartsWith(answers[1..], trace + answers[0].steps);
    }
  }

  lemma SettledIsSame(ps: seq<Policy>, ev: Evaluator, a: AuthorizationInput, b: AuthorizationInput)
    requires SettledBefore(a) && a.action == b.action
    requires DirectStage(a) == DirectStage(b) && AclStage(a) == AclStage(b) && RoleStage(a) == RoleStage(b) && IndexStage(a) == IndexStage(b)
    ensures Decide(ps, ev, a) == Decide(ps, ev, b)
  {
    var x, y, start := Answers(ps, ev, a), Answers(ps, ev, b), [StartStep(a)];
    assert forall i :: 0 <= i < 4 ==> x[i] == y[i];
    assert x[0..] == x && y[0..] == y;
    hide DirectStage, AclStage, RoleStage, IndexStage, ModelStage, PolicyStage, Pipeline;
    BothStep(x, y, 0, start);
    BothStep(x, y, 1, start + x[0].steps);
    BothStep(x, y, 2, start + x[0].steps + x[1].steps);
    BothStep(x, y, 3, start + x[0].steps + x[1].steps + x[2].steps);
  }

  lemma BothStep(x: seq<Answer>, y: seq<Answer>, i: nat, trace: seq<Step>)
    requires i < |x| && i < |y| && x[i] == y[i]
    ensures x[i].stage.outcome != "abstain" ==> Pipeline(x[i..], trace) == Pipeline(y[i..], trace)
    ensures x[i].stage.outcome == "abstain" ==>
      && Pipeline(x[i..], trace) == Pipeline(x[i + 1..], trace + x[i].steps)
      && Pipeline(y[i..], trace) == Pipeline(y[i + 1..], trace + x[i].steps)
  {
    PipelineStep(x, i, trace);
    PipelineStep(y, i, trace);
    hide Pipeline;
  }

  /** A decision made under one model is still the engine's under another, trace and all,
      exactly when the matter is settled before the model is asked or the two models say
      the same about the input. */
  lemma ModelChangeExactly(ps: seq<Policy>, ev: Evaluator, input: AuthorizationInput, m: Option<Model>)
    requires IgnoresModel(ev)
    ensures Decide(ps, ev, input.(model := m)) == Decide(ps, ev, input)
       <==> SettledBefore(input) || VerdictOf(input.(model := m)) == VerdictOf(input)
  {
    hide IgnoresModel, VerdictOf, DirectStage, AclStage, RoleStage, IndexStage, ModelStage, PolicyStage, Decide;
    var other := input.(model := m);
    OtherStagesSame(ps, ev, input, m);
    ModelStageTells(other, input);
    if SettledBefore(input) {
      SettledIsSame(ps, ev, input, other);
    } else if VerdictOf(other) == VerdictOf(input) {
      SameAnswersDecide(ps, ev, input, other);
    } else {
      AskedTells(ps, ev, input, other);
    }
  }

  lemma SameAnswersDecide(ps: seq<Policy>, ev: Evaluator, a: AuthorizationInput, b: AuthorizationInput)
    requires a.action == b.action && Answers(ps, ev, a) == Answers(ps, ev, b)
    ensures Decide(ps, ev, a) == Decide(ps, ev, b)
  {
    hide Answers;
  }

  lemma AskedTells(ps: seq<Policy>, ev: Evaluator, a: AuthorizationInput, b: AuthorizationInput)
    requires !SettledBefore(a) && !SettledBefore(b) && TracedBefore(a) == TracedBefore(b)
    requires |ModelStage(a).steps| == 1 && |ModelStage(b).steps| == 1 && ModelStage(a).steps != ModelStage(b).steps
    ensures Decide(ps, ev, a) != Decide(ps, ev, b)
  {
    hide Decide, TracedBefore, ModelStage, SettledBefore;
    ModelIsAsked(ps, ev, a);
    ModelIsAsked(ps, ev, b);
    var n := |TracedBefore(a)|;
    assert Decide(ps, ev, a).trace[n..n + 1] == ModelStage(a).steps;
    assert Decide(ps, ev, b).trace[n..n + 1] == ModelStage(b).steps;
  }
}
