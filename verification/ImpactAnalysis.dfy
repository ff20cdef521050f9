/** Impact analysis: decisions before and after one policy is added. */
module ImpactAnalysis {
  import opened Wrappers
  import opened Domain
  import opened PolicyGraph
  import opened Engine

  // A user as enriched for the analysis, with the resources it is tried on.
  datatype Candidate = Candidate(userId: int, user: User, resources: seq<Resource>)

  function Probe(c: Candidate, resource: Resource, action: string): AuthorizationInput {
    AuthorizationInput(c.user, resource, action, map[], [], [], None)
  }

  // A request in which the candidate's user asks for the action on the resource, with no
  // context, no ACL or index rows and no model.
  predicate Tries(c: Candidate, resource: Resource, action: string, input: AuthorizationInput) {
    && input.user == c.user && input.resource == resource && input.action == action
    && input.context == map[] && input.aclEntries == [] && input.indexEntries == [] && input.model.None?
  }

  predicate Allows(ps: seq<Policy>, ev: Evaluator, input: AuthorizationInput) {
    Decide(ps, ev, input).allowed
  }

  ghost predicate Gains(ps: seq<Policy>, change: Policy, ev: Evaluator, c: Candidate, n: nat) {
    exists j :: 0 <= j < n <= |c.resources| && GainsOn(ps, change, ev, c, c.resources[j])
  }

  ghost predicate Loses(ps: seq<Policy>, change: Policy, ev: Evaluator, c: Candidate, n: nat) {
    exists j :: 0 <= j < n <= |c.resources| && LosesOn(ps, change, ev, c, c.resources[j])
  }

  ghost predicate GainsOn(ps: seq<Policy>, change: Policy, ev: Evaluator, c: Candidate, r: Resource) {
    exists input :: Tries(c, r, change.action, input) && !Allows(ps, ev, input) && Allows(ps + [change], ev, input)
  }

  ghost predicate LosesOn(ps: seq<Policy>, change: Policy, ev: Evaluator, c: Candidate, r: Resource) {
    exists input :: Tries(c, r, change.action, input) && Allows(ps, ev, input) && !Allows(ps + [change], ev, input)
  }

  lemma OnItsProbe(ps: seq<Policy>, change: Policy, ev: Evaluator, c: Candidate, r: Resource)
    ensures
      var input := Probe(c, r, change.action);
      && (GainsOn(ps, change, ev, c, r) <==> !Allows(ps, ev, input) && Allows(ps + [change], ev, input))
      && (LosesOn(ps, change, ev, c, r) <==> Allows(ps, ev, input) && !Allows(ps + [change], ev, input))
  {
    ProbeTries(c, r, change.action);
    var input := Probe(c, r, change.action);
    assert Tries(c, r, change.action, input);
    hide Allows, Probe, Tries;
  }

  lemma ProbeTries(c: Candidate, r: Resource, action: string)
    ensures forall input :: Tries(c, r, action, input) <==> input == Probe(c, r, action)
  {
  }

  ghost function Gainers(ps: seq<Policy>, change: Policy, ev: Evaluator, cs: seq<Candidate>, n: nat): set<int>
    requires n <= |cs|
  {
    set i | 0 <= i < n && Gains(ps, change, ev, cs[i], |cs[i].resources|) :: cs[i].userId
  }

  ghost function Losers(ps: seq<Policy>, change: Policy, ev: Evaluator, cs: seq<Candidate>, n: nat): set<int>
    requires n <= |cs|
  {
    set i | 0 <= i < n && Loses(ps, change, ev, cs[i], |cs[i].resources|) :: cs[i].userId
  }

  method AnalyzePolicyChange(ps: seq<Policy>, change: Policy, ev: Evaluator, candidates: seq<Candidate>)
    returns (gained: set<int>, lost: set<int>)
    ensures gained == Gainers(ps, change, ev, candidates, |candidates|)
    ensures lost == Losers(ps, change, ev, candidates, |candidates|)
    ensures if change.effect == "allow" then lost == {} else gained == {}
  {
    hide Gains, Loses;
    gained, lost := {}, {};
    for i := 0 to |candidates|
      invariant gained == Gainers(ps, change, ev, candidates, i)
      invariant lost == Losers(ps, change, ev, candidates, i)
      invariant if change.effect == "allow" then lost == {} else gained == {}
    {
      var c := candidates[i];
      var gains, loses := AnalyzeCandidate(ps, change, ev, c);
      OneListIsEmpty(ps, change, ev, c, |c.resources|);
      gained, lost := gained + (if gains then {c.userId} else {}), lost + (if loses then {c.userId} else {});
    }
  }

  method AnalyzeCandidate(ps: seq<Policy>, change: Policy, ev: Evaluator, c: Candidate) returns (gains: bool, loses: bool)
    ensures gains <==> Gains(ps, change, ev, c, |c.resources|)
    ensures loses <==> Loses(ps, change, ev, c, |c.resources|)
  {
    hide Decide;
    gains, loses := false, false;
    for j := 0 to |c.resources|
      invariant gains <==> Gains(ps, change, ev, c, j)
      invariant loses <==> Loses(ps, change, ev, c, j)
    {
      var before := DecideStructured(ps, ev, Probe(c, c.resources[j], change.action));
      var after := DecideStructured(ps + [change], ev, Probe(c, c.resources[j], change.action));
      OnItsProbe(ps, change, ev, c, c.resources[j]);
      assert GainsOn(ps, change, ev, c, c.resources[j]) == (!before.allowed && after.allowed);
      assert LosesOn(ps, change, ev, c, c.resources[j]) == (before.allowed && !after.allowed);
      gains := gains || (!before.allowed && after.allowed);
      loses := loses || (before.allowed && !after.allowed);
    }
  }

  // ------------------------------------------------------------- one-sidedness

  // The added policy matches and comes before every policy that matched already.
  ghost predicate Overtakes(ps: seq<Policy>, change: Policy, ev: Evaluator, input: AuthorizationInput) {
    && Matching(ev, input)(change)
    && forall j :: 0 <= j < |ps| && Matching(ev, input)(ps[j]) ==> change.priority < ps[j].priority
  }

  // Adding a policy makes it the winner or leaves the winner as it was.
  lemma WinnerAfterAdding(ps: seq<Policy>, change: Policy, ev: Evaluator, input: AuthorizationInput, w: nat)
    ensures PolicyWins(ps + [change], ev, input, w)
       <==> (if Overtakes(ps, change, ev, input) then w == |ps| else PolicyWins(ps, ev, input, w))
  {
    var m := Matching(ev, input);
    var all := ps + [change];
    assert forall j :: 0 <= j < |ps| ==> all[j] == ps[j];
    assert all[|ps|] == change;
    hide Matching;
    if PolicyWins(ps, ev, input, w) && m(change) && change.priority < ps[w].priority {
      assert Overtakes(ps, change, ev, input);
    }
    if Overtakes(ps, change, ev, input) {
      assert PolicyWins(all, ev, input, |ps|);
    } else if PolicyWins(all, ev, input, w) && w == |ps| {
      assert false;
    }
  }

  lemma OneSided(ps: seq<Policy>, change: Policy, ev: Evaluator, input: AuthorizationInput)
    ensures change.effect == "allow" && Allows(ps, ev, input) ==> Allows(ps + [change], ev, input)
    ensures change.effect != "allow" && Allows(ps + [change], ev, input) ==> Allows(ps, ev, input)
  {
    forall w: nat
      ensures PolicyWins(ps + [change], ev, input, w)
         <==> (if Overtakes(ps, change, ev, input) then w == |ps| else PolicyWins(ps, ev, input, w))
    {
      WinnerAfterAdding(ps, change, ev, input, w);
    }
    assert forall j :: 0 <= j < |ps| ==> (ps + [change])[j] == ps[j];
    hide Overtakes, PolicyWins, Decide;
    GrantAfterAdding(ps, change, ev, input);
    AllowedExactly(ps, ev, input);
    AllowedExactly(ps + [change], ev, input);
    hide AclSays, DirectGrant, IndexGrant, ModelApplies, Satisfied, PolicyGrant;
  }

  lemma GrantAfterAdding(ps: seq<Policy>, change: Policy, ev: Evaluator, input: AuthorizationInput)
    ensures change.effect == "allow" && PolicyGrant(ps, ev, input) ==> PolicyGrant(ps + [change], ev, input)
    ensures change.effect != "allow" && PolicyGrant(ps + [change], ev, input) ==> PolicyGrant(ps, ev, input)
  {
    var all := ps + [change];
    assert forall j :: 0 <= j < |ps| ==> all[j] == ps[j];
    hide PolicyWins, Overtakes;
    if change.effect == "allow" && PolicyGrant(ps, ev, input) {
      var w: nat :| PolicyWins(ps, ev, input, w) && ps[w].effect == "allow";
      WinnerAfterAdding(ps, change, ev, input, w);
      WinnerAfterAdding(ps, change, ev, input, |ps|);
    }
    if change.effect != "allow" && PolicyGrant(all, ev, input) {
      var w: nat :| PolicyWins(all, ev, input, w) && all[w].effect == "allow";
      WinnerAfterAdding(ps, change, ev, input, w);
    }
  }

  // One of the two lists of an analysis is always empty.
  lemma OneListIsEmpty(ps: seq<Policy>, change: Policy, ev: Evaluator, c: Candidate, n: nat)
    ensures change.effect == "allow" ==> !Loses(ps, change, ev, c, n)
    ensures change.effect != "allow" ==> !Gains(ps, change, ev, c, n)
  {
    hide Allows;
    forall r: Resource
      ensures change.effect == "allow" ==> !LosesOn(ps, change, ev, c, r)
      ensures change.effect != "allow" ==> !GainsOn(ps, change, ev, c, r)
    {
      ProbeTries(c, r, change.action);
      OneSided(ps, change, ev, Probe(c, r, change.action));
    }
  }

  // An access changes only when the added policy overtakes every earlier match.
  lemma ChangeNeedsOvertaking(ps: seq<Policy>, change: Policy, ev: Evaluator, input: AuthorizationInput)
    requires Allows(ps, ev, input) != Allows(ps + [change], ev, input)
    ensures Overtakes(ps, change, ev, input)
  {
    if !Overtakes(ps, change, ev, input) {
      var all := ps + [change];
      assert forall j :: 0 <= j < |ps| ==> all[j] == ps[j];
      hide Decide;
      forall w: nat ensures PolicyWins(all, ev, input, w) <==> PolicyWins(ps, ev, input, w) {
        WinnerAfterAdding(ps, change, ev, input, w);
      }
      AllowedExactly(ps, ev, input);
      AllowedExactly(all, ev, input);
      hide AclSays, DirectGrant, IndexGrant, ModelApplies, Satisfied;
    }
  }
}
