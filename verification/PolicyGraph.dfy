/** Policy compilation and first-match evaluation of the compiled graph. */
module PolicyGraph {
  import opened Wrappers
  import opened Domain
  import opened Sorting
  import opened Text

  datatype Node = Node(policyId: string, action: string, effect: string, priority: int, checks: Conditions)

  datatype GraphDecision = GraphDecision(outcome: string, reason: Option<string>, policyId: Option<string>)

  // None when every check holds, else the reason of the first that does not.
  function Failure(checks: Conditions, ev: Evaluator, input: AuthorizationInput): Option<string> {
    if checks == [] then None
    else
      var (key, value) := checks[0];
      match ev(key, value, input)
      case Unknown => Some("unknown condition: " + key)
      case Fails(reason) =>
        Some(if reason.Some? && reason.value != "" then reason.value else key + " mismatch")
      case Holds => Failure(checks[1..], ev, input)
  }

  function Checks(c: Conditions): Conditions {
    if c == [] then [] else (if c[0].0 != "policy_key" then [c[0]] else []) + Checks(c[1..])
  }

  function NormalEffect(effect: string): string {
    if effect == "allow" then "allow" else "deny"
  }

  function CompiledId(p: Policy): string {
    if p.policyId.Some? && p.policyId.value != "" then p.policyId.value
    else p.action + ":" + IntText(p.priority) + ":" + NormalEffect(p.effect)
  }

  function CompileNode(p: Policy): Node {
    Node(CompiledId(p), p.action, NormalEffect(p.effect), p.priority, Checks(p.conditions))
  }

  function CompileNodes(ps: seq<Policy>): (nodes: seq<Node>)
    ensures |nodes| == |ps|
  {
    if ps == [] then [] else [CompileNode(ps[0])] + CompileNodes(ps[1..])
  }

  function Priority(): Policy -> int {
    (p: Policy) => p.priority
  }

  function CompileGraph(ps: seq<Policy>): seq<Node> {
    CompileNodes(Sort(ps, Priority()))
  }

  // The engine sorts its policies, and compiling them sorts them again.
  function EngineGraph(ps: seq<Policy>): seq<Node> {
    CompileGraph(Sort(ps, Priority()))
  }

  function MatchedDecision(n: Node): GraphDecision {
    GraphDecision(n.effect, Some("matched policy " + (if n.policyId != "" then n.policyId else n.action)), Some(n.policyId))
  }

  // What the loop returns from the given nodes on, with the reason kept so far.
  function Scan(nodes: seq<Node>, ev: Evaluator, input: AuthorizationInput, firstReason: Option<string>): GraphDecision {
    if nodes == [] then
      if firstReason.Some? then GraphDecision("deny", firstReason, None)
      else GraphDecision("abstain", None, None)
    else if nodes[0].action != input.action then
      Scan(nodes[1..], ev, input, firstReason)
    else
      var failure := Failure(nodes[0].checks, ev, input);
      if failure.None? then MatchedDecision(nodes[0])
      else Scan(nodes[1..], ev, input, if firstReason.None? then failure else firstReason)
  }

  method Evaluate(nodes: seq<Node>, ev: Evaluator, input: AuthorizationInput) returns (d: GraphDecision)
    ensures d == Scan(nodes, ev, input, None)
  {
    var firstReason: Option<string> := None;
    for i := 0 to |nodes|
      invariant Scan(nodes, ev, input, None) == Scan(nodes[i..], ev, input, firstReason)
    {
      var node := nodes[i];
      assert nodes[i..][1..] == nodes[i + 1..];
      if node.action == input.action {
        var failure := Failure(node.checks, ev, input);
        if failure.None? {
          return MatchedDecision(node);
        }
        if firstReason.None? {
          firstReason := failure;
        }
      }
    }
    if firstReason.Some? {
      return GraphDecision("deny", firstReason, None);
    }
    return GraphDecision("abstain", None, None);
  }

  // ------------------------------------------------------- declarative rule

  // Every condition that is not mere metadata holds.
  ghost predicate ConditionsHold(c: Conditions, ev: Evaluator, input: AuthorizationInput) {
    forall i :: 0 <= i < |c| && c[i].0 != "policy_key" ==> ev(c[i].0, c[i].1, input) == Holds
  }

  function Reason(p: Policy, ev: Evaluator, input: AuthorizationInput): Option<string> {
    Failure(Checks(p.conditions), ev, input)
  }

  lemma {:induction false} NoReasonMeansHeld(c: Conditions, ev: Evaluator, input: AuthorizationInput)
    ensures Failure(Checks(c), ev, input).None? <==> ConditionsHold(c, ev, input)
  {
    if c == [] {
    } else {
      NoReasonMeansHeld(c[1..], ev, input);
      if c[0].0 != "policy_key" {
        assert Checks(c)[1..] == Checks(c[1..]);
      } else {
        assert Checks(c) == Checks(c[1..]);
      }
      if ConditionsHold(c[1..], ev, input) {
        forall i | 1 <= i < |c| && c[i].0 != "policy_key" ensures ev(c[i].0, c[i].1, input) == Holds {
          assert c[i] == c[1..][i - 1];
        }
      } else {
        var k :| 0 <= k < |c[1..]| && c[1..][k].0 != "policy_key" && ev(c[1..][k].0, c[1..][k].1, input) != Holds;
        assert c[k + 1] == c[1..][k];
      }
    }
  }

  // What the first condition that does not hold has to say.
  predicate Explains(text: string, key: string, check: Check) {
    match check
    case Holds => false
    case Unknown => text == "unknown condition: " + key
    case Fails(Some(reason)) => text == (if reason != "" then reason else key + " mismatch")
    case Fails(None) => text == key + " mismatch"
  }

  // Condition i is the first, leaving metadata aside, that does not hold.
  ghost predicate FirstToFail(c: Conditions, ev: Evaluator, input: AuthorizationInput, i: nat) {
    && i < |c| && c[i].0 != "policy_key" && ev(c[i].0, c[i].1, input) != Holds
    && forall j :: 0 <= j < i && c[j].0 != "policy_key" ==> ev(c[j].0, c[j].1, input) == Holds
  }

  /** The reason a policy gives is that of its first condition that does not hold, in the
      words of its handler, or by name where there are none or no handler. */
  lemma {:induction false} ReasonExplains(c: Conditions, ev: Evaluator, input: AuthorizationInput) returns (i: nat)
    requires Failure(Checks(c), ev, input).Some?
    ensures FirstToFail(c, ev, input, i)
    ensures Explains(Failure(Checks(c), ev, input).value, c[i].0, ev(c[i].0, c[i].1, input))
  {
    assert c != [];
    var rest := c[1..];
    assert forall j :: 1 <= j < |c| ==> c[j] == rest[j - 1];
    if c[0].0 != "policy_key" && ev(c[0].0, c[0].1, input) != Holds {
      i := 0;
    } else {
      if c[0].0 != "policy_key" {
        assert Checks(c)[1..] == Checks(rest);
      } else {
        assert Checks(c) == Checks(rest);
      }
      i := ReasonExplains(rest, ev, input);
      i := i + 1;
    }
  }

  ghost function SameAction(input: AuthorizationInput): Policy -> bool {
    (p: Policy) => p.action == input.action
  }

  ghost function Matching(ev: Evaluator, input: AuthorizationInput): Policy -> bool {
    (p: Policy) => p.action == input.action && ConditionsHold(p.conditions, ev, input)
  }

  /** The rule the graph stands for. The matching policy that is least in priority,
      and earliest among those, decides; with no match the least policy of the same
      action explains a denial; with no policy of the action there is no answer. */
  ghost predicate Rule(ps: seq<Policy>, ev: Evaluator, input: AuthorizationInput, d: GraphDecision) {
    || (exists w: nat :: Least(ps, Priority(), Matching(ev, input), w) && d == MatchedDecision(CompileNode(ps[w])))
    || (Nowhere(ps, Matching(ev, input))
        && exists w: nat :: Least(ps, Priority(), SameAction(input), w)
                            && d == GraphDecision("deny", Reason(ps[w], ev, input), None))
    || (Nowhere(ps, SameAction(input)) && d == GraphDecision("abstain", None, None))
  }

  ghost predicate Nowhere(ps: seq<Policy>, p: Policy -> bool) {
    forall j :: 0 <= j < |ps| ==> !p(ps[j])
  }

  lemma {:induction false} ScanFinds(ps: seq<Policy>, ev: Evaluator, input: AuthorizationInput, first: Option<string>)
    ensures Scan(CompileNodes(ps), ev, input, first) ==
      match First(ps, Matching(ev, input))
      case Some(p) => MatchedDecision(CompileNode(p))
      case None =>
        if first.Some? then GraphDecision("deny", first, None)
        else
          match First(ps, SameAction(input))
          case Some(p) => GraphDecision("deny", Reason(p, ev, input), None)
          case None => GraphDecision("abstain", None, None)
  {
    if ps == [] {
    } else {
      var nodes := CompileNodes(ps);
      assert nodes[1..] == CompileNodes(ps[1..]);
      var failure := Failure(nodes[0].checks, ev, input);
      NoReasonMeansHeld(ps[0].conditions, ev, input);
      ScanFinds(ps[1..], ev, input,
        if ps[0].action == input.action && first.None? then failure else first);
    }
  }

  function GraphOutcome(ps: seq<Policy>, ev: Evaluator, input: AuthorizationInput): GraphDecision {
    Scan(EngineGraph(ps), ev, input, None)
  }

  // The two sorts and the scan together, as one search of the sorted list.
  lemma GraphSearches(ps: seq<Policy>, ev: Evaluator, input: AuthorizationInput)
    ensures GraphOutcome(ps, ev, input) ==
      match First(Sort(ps, Priority()), Matching(ev, input))
      case Some(p) => MatchedDecision(CompileNode(p))
      case None =>
        match First(Sort(ps, Priority()), SameAction(input))
        case Some(p) => GraphDecision("deny", Reason(p, ev, input), None)
        case None => GraphDecision("abstain", None, None)
  {
    SortSorts(ps, Priority());
    SortOfSorted(Sort(ps, Priority()), Priority());
    ScanFinds(Sort(ps, Priority()), ev, input, None);
  }

  // The compiled graph answers by the rule, and the rule leaves no other answer.
  lemma GraphRefinesRule(ps: seq<Policy>, ev: Evaluator, input: AuthorizationInput, d: GraphDecision)
    ensures Rule(ps, ev, input, d) <==> d == GraphOutcome(ps, ev, input)
  {
    GraphSearches(ps, ev, input);
    var matching, same := Matching(ev, input), SameAction(input);
    assert forall j :: 0 <= j < |ps| && matching(ps[j]) ==> same(ps[j]);
    var u := FirstOfSortIsLeast(ps, Priority(), matching);
    var v := FirstOfSortIsLeast(ps, Priority(), same);
    hide GraphOutcome, Matching, SameAction, Priority;
    forall w: nat | Least(ps, Priority(), matching, w) && !Nowhere(ps, matching) ensures w == u {
      LeastUnique(ps, Priority(), matching, w, u);
    }
    forall w: nat | Least(ps, Priority(), same, w) && !Nowhere(ps, same) ensures w == v {
      LeastUnique(ps, Priority(), same, w, v);
    }
  }

  // Policy w matches and none that matches has a lower priority, nor the same and an
  // earlier place.
  ghost predicate Winner(ps: seq<Policy>, ev: Evaluator, input: AuthorizationInput, w: nat) {
    && w < |ps| && ps[w].action == input.action && ConditionsHold(ps[w].conditions, ev, input)
    && forall j :: 0 <= j < |ps| && ps[j].action == input.action && ConditionsHold(ps[j].conditions, ev, input) ==>
         ps[w].priority < ps[j].priority || (ps[w].priority == ps[j].priority && w <= j)
  }

  /** The winner's effect decides, anything but "allow" denying, and the decision names it:
      by its id where it has one, else by action, priority and effect. */
  lemma WinnerDecides(ps: seq<Policy>, ev: Evaluator, input: AuthorizationInput, w: nat)
    requires Winner(ps, ev, input, w)
    ensures
      var d, p := GraphOutcome(ps, ev, input), ps[w];
      var effect := if p.effect == "allow" then "allow" else "deny";
      var id := if p.policyId.Some? && p.policyId.value != "" then p.policyId.value
                else p.action + ":" + IntText(p.priority) + ":" + effect;
      && d.outcome == effect && d.policyId == Some(id)
      && d.reason == Some("matched policy " + (if id == "" then p.action else id))
  {
    assert Least(ps, Priority(), Matching(ev, input), w);
    GraphRefinesRule(ps, ev, input, MatchedDecision(CompileNode(ps[w])));
    hide GraphOutcome;
  }

  /** Where nothing matches, the first policy of the action, by priority and place, denies
      with the reason of its first condition that does not hold. */
  lemma UnmatchedDenies(ps: seq<Policy>, ev: Evaluator, input: AuthorizationInput, w: nat) returns (i: nat)
    requires forall j :: 0 <= j < |ps| && ps[j].action == input.action ==> !ConditionsHold(ps[j].conditions, ev, input)
    requires w < |ps| && ps[w].action == input.action
    requires forall j :: 0 <= j < |ps| && ps[j].action == input.action ==>
      ps[w].priority < ps[j].priority || (ps[w].priority == ps[j].priority && w <= j)
    ensures
      var d := GraphOutcome(ps, ev, input);
      && d.outcome == "deny" && d.policyId == None && d.reason.Some?
      && FirstToFail(ps[w].conditions, ev, input, i)
      && Explains(d.reason.value, ps[w].conditions[i].0, ev(ps[w].conditions[i].0, ps[w].conditions[i].1, input))
  {
    NoReasonMeansHeld(ps[w].conditions, ev, input);
    i := ReasonExplains(ps[w].conditions, ev, input);
    assert Nowhere(ps, Matching(ev, input));
    assert Least(ps, Priority(), SameAction(input), w);
    GraphRefinesRule(ps, ev, input, GraphDecision("deny", Reason(ps[w], ev, input), None));
    hide GraphOutcome, Failure, Checks;
  }

  // An unmatched policy of the action has a reason, so the graph then denies aloud.
  lemma AbstainsExactlyWithoutAction(ps: seq<Policy>, ev: Evaluator, input: AuthorizationInput)
    ensures GraphOutcome(ps, ev, input).outcome == "abstain" <==> Nowhere(ps, SameAction(input))
    ensures GraphOutcome(ps, ev, input).outcome != "abstain" ==> GraphOutcome(ps, ev, input).reason.Some?
  {
    GraphSearches(ps, ev, input);
    var u := FirstOfSortIsLeast(ps, Priority(), Matching(ev, input));
    var v := FirstOfSortIsLeast(ps, Priority(), SameAction(input));
    if First(Sort(ps, Priority()), SameAction(input)).Some? {
      NoReasonMeansHeld(ps[v].conditions, ev, input);
      assert First(Sort(ps, Priority()), Matching(ev, input)).None? ==> !Matching(ev, input)(ps[v]);
    }
  }
}
