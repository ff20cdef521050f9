/** The duplicate-policy lint, read as a claim about the compiled graph: what it
    flags can be deleted. */
module PolicyLint {
  import opened Wrappers
  import opened Domain
  import opened PolicyGraph
  import opened Sorting
  import opened Text

  // A current policy version as stored; it has one projection for the engine and
  // one for the views that the lint reads.
  datatype Row = Row(
    policyKey: string,
    version: int,
    action: string,
    effect: string,
    priority: int,
    conditions: Conditions)

  function ToPolicy(r: Row): Policy {
    Policy(r.action, NormalEffect(r.effect), r.priority, Some(r.policyKey + ":v" + IntText(r.version)), r.conditions)
  }

  function ToPolicies(rows: seq<Row>): (ps: seq<Policy>)
    ensures |ps| == |rows|
  {
    if rows == [] then [] else [ToPolicy(rows[0])] + ToPolicies(rows[1..])
  }

  function Dict(c: Conditions): map<string, Json> {
    if c == [] then map[] else map[c[0].0 := c[0].1] + Dict(c[1..])
  }

  // The conditions of a view: the stored ones, overwritten with key and version.
  function ViewConditions(r: Row): map<string, Json> {
    Dict(r.conditions)["policy_key" := Json.Text(r.policyKey)]["version" := Number(r.version)]
  }

  // Serializing conditions with sorted keys is injective, so the dictionary itself
  // stands for its serialization.
  type Key = (string, map<string, Json>)

  function LintKey(r: Row): Key {
    (r.action, ViewConditions(r) - {"policy_key"})
  }

  datatype Warning =
    | Unreachable(policyKey: string, priority: int)
    | Conflicts(policyKey: string, priority: int, previousEffect: string)

  function RowPriority(): Row -> int {
    (r: Row) => r.priority
  }

  predicate Flagged(r: Row, seen: map<Key, string>) {
    LintKey(r) in seen && seen[LintKey(r)] != ""
  }

  function Noted(r: Row, seen: map<Key, string>): map<Key, string> {
    if Flagged(r, seen) then seen else seen[LintKey(r) := r.effect]
  }

  function WarningFor(r: Row, previousEffect: string): Warning {
    if previousEffect == r.effect then Unreachable(r.policyKey, r.priority)
    else Conflicts(r.policyKey, r.priority, previousEffect)
  }

  function Warnings(s: seq<Row>, seen: map<Key, string>): seq<Warning> {
    if s == [] then []
    else
      var rest := Warnings(s[1..], Noted(s[0], seen));
      if Flagged(s[0], seen) then [WarningFor(s[0], seen[LintKey(s[0])])] + rest else rest
  }

  // The rows the lint does not flag.
  function Kept(s: seq<Row>, seen: map<Key, string>): seq<Row> {
    if s == [] then []
    else
      var rest := Kept(s[1..], Noted(s[0], seen));
      if Flagged(s[0], seen) then rest else [s[0]] + rest
  }

  // The loop as written; `kept` collects the rows it passes without a warning.
  method CollectDuplicateWarnings(views: seq<Row>) returns (warnings: seq<Warning>, kept: seq<Row>)
    ensures warnings == Warnings(Sort(views, RowPriority()), map[])
    ensures kept == Kept(Sort(views, RowPriority()), map[])
    ensures |warnings| + |kept| == |views|
  {
    hide ViewConditions, LintKey, WarningFor, Sort, Warnings, Kept;
    var sorted := Sort(views, RowPriority());
    var seen: map<Key, string> := map[];
    warnings, kept := [], [];
    assert sorted[0..] == sorted;
    for i := 0 to |sorted|
      invariant Warnings(sorted, map[]) == warnings + Warnings(sorted[i..], seen)
      invariant Kept(sorted, map[]) == kept + Kept(sorted[i..], seen)
      invariant |warnings| + |kept| == i
    {
      var policy := sorted[i];
      LintStep(sorted, i, seen);
      var key := LintKey(policy);
      if key in seen && seen[key] != "" {
        warnings := warnings + [WarningFor(policy, seen[key])];
      } else {
        seen := seen[key := policy.effect];
        kept := kept + [policy];
      }
    }
    NothingLeft(seen);
    assert sorted[|sorted|..] == [];
  }

  lemma NothingLeft(seen: map<Key, string>)
    ensures Warnings([], seen) == [] && Kept([], seen) == []
  {
  }

  lemma LintStep(s: seq<Row>, i: nat, seen: map<Key, string>)
    requires i < |s|
    ensures Warnings(s[i..], seen) ==
      (if Flagged(s[i], seen) then [WarningFor(s[i], seen[LintKey(s[i])])] else []) + Warnings(s[i + 1..], Noted(s[i], seen))
    ensures Kept(s[i..], seen) == (if Flagged(s[i], seen) then [] else [s[i]]) + Kept(s[i + 1..], Noted(s[i], seen))
  {
    assert s[i..][0] == s[i] && s[i..][1..] == s[i + 1..];
    hide LintKey, WarningFor;
  }

  // ------------------------------------------------------------ dictionaries

  lemma {:induction false} DictHolds(c: Conditions, i: nat)
    requires DistinctKeys(c) && i < |c|
    ensures c[i].0 in Dict(c) && Dict(c)[c[i].0] == c[i].1
  {
    if i > 0 {
      DictHolds(c[1..], i - 1);
    } else {
      forall k | k in Dict(c[1..]) ensures k != c[0].0 {
        var j := DictFrom(c[1..], k);
        assert c[1..][j] == c[j + 1];
      }
    }
  }

  lemma {:induction false} DictFrom(c: Conditions, key: string) returns (i: nat)
    requires key in Dict(c)
    ensures i < |c| && c[i] == (key, Dict(c)[key])
  {
    if key in Dict(c[1..]) {
      i := DictFrom(c[1..], key);
      i := i + 1;
    } else {
      i := 0;
    }
  }

  ghost predicate DictConditionsHold(d: map<string, Json>, ev: Evaluator, input: AuthorizationInput) {
    forall k :: k in d && k != "policy_key" ==> ev(k, d[k], input) == Holds
  }

  lemma OrderDoesNotMatter(c: Conditions, ev: Evaluator, input: AuthorizationInput)
    requires DistinctKeys(c)
    ensures ConditionsHold(c, ev, input) <==> DictConditionsHold(Dict(c), ev, input)
  {
    if ConditionsHold(c, ev, input) {
      forall k | k in Dict(c) && k != "policy_key" ensures ev(k, Dict(c)[k], input) == Holds {
        var i := DictFrom(c, k);
      }
    }
    if DictConditionsHold(Dict(c), ev, input) {
      forall i | 0 <= i < |c| && c[i].0 != "policy_key" ensures ev(c[i].0, c[i].1, input) == Holds {
        DictHolds(c, i);
      }
    }
  }

  // ----------------------------------------------- what a flag says of a pair

  // The engine has no handler for a condition named "version".
  ghost predicate NoVersionHandler(ev: Evaluator) {
    forall v, input :: ev("version", v, input) == Unknown
  }

  predicate HasVersion(r: Row) {
    "version" in Dict(r.conditions)
  }

  ghost function RowMatches(ev: Evaluator, input: AuthorizationInput): Row -> bool {
    (r: Row) => Matching(ev, input)(ToPolicy(r))
  }

  lemma SameKeySameConditions(a: Row, b: Row, k: string)
    requires LintKey(a) == LintKey(b) && k != "policy_key" && k != "version"
    ensures k in Dict(a.conditions) <==> k in Dict(b.conditions)
    ensures k in Dict(a.conditions) ==> Dict(a.conditions)[k] == Dict(b.conditions)[k]
  {
    assert k in LintKey(a).1 <==> k in LintKey(b).1;
    if k in LintKey(a).1 {
      assert LintKey(a).1[k] == LintKey(b).1[k];
    }
  }

  lemma RowMatchesMeans(r: Row, ev: Evaluator, input: AuthorizationInput)
    ensures RowMatches(ev, input)(r) <==> r.action == input.action && ConditionsHold(r.conditions, ev, input)
  {
    assert RowMatches(ev, input)(r) == Matching(ev, input)(ToPolicy(r));
  }

  lemma VersionNeverHolds(r: Row, ev: Evaluator, input: AuthorizationInput)
    requires NoVersionHandler(ev)
    ensures HasVersion(r) ==> !DictConditionsHold(Dict(r.conditions), ev, input)
  {
    assert |"version"| != |"policy_key"|;
    if HasVersion(r) {
      assert ev("version", Dict(r.conditions)["version"], input) == Unknown;
    }
  }

  lemma MatchCarriesOver(a: Row, b: Row, ev: Evaluator, input: AuthorizationInput)
    requires DistinctKeys(a.conditions) && DistinctKeys(b.conditions)
    requires LintKey(a) == LintKey(b) && NoVersionHandler(ev)
    requires HasVersion(a) ==> HasVersion(b)
    requires RowMatches(ev, input)(b)
    ensures RowMatches(ev, input)(a)
  {
    OrderDoesNotMatter(a.conditions, ev, input);
    OrderDoesNotMatter(b.conditions, ev, input);
    RowMatchesMeans(a, ev, input);
    RowMatchesMeans(b, ev, input);
    VersionNeverHolds(b, ev, input);
    forall k | k in Dict(a.conditions) && k != "policy_key" ensures ev(k, Dict(a.conditions)[k], input) == Holds {
      SameKeySameConditions(a, b, k);
    }
  }

  /** A flagged policy b really is shadowed by the policy a with the same key, for
      every table of handlers and every request, exactly when a stored condition
      named "version" on a is also on b: the view has overwritten both. */
  lemma FlagIsTrueExactly(a: Row, b: Row)
    requires DistinctKeys(a.conditions) && DistinctKeys(b.conditions) && LintKey(a) == LintKey(b)
    ensures (forall ev: Evaluator, input: AuthorizationInput ::
               NoVersionHandler(ev) && RowMatches(ev, input)(b) ==> RowMatches(ev, input)(a))
       <==> (HasVersion(a) ==> HasVersion(b))
  {
    if HasVersion(a) && !HasVersion(b) {
      var ev: Evaluator := (k: string, v: Json, i: AuthorizationInput) => if k == "version" then Unknown else Holds;
      var input := RequestFor(b.action);
      OrderDoesNotMatter(a.conditions, ev, input);
      OrderDoesNotMatter(b.conditions, ev, input);
      RowMatchesMeans(a, ev, input);
      RowMatchesMeans(b, ev, input);
      VersionNeverHolds(a, ev, input);
      assert NoVersionHandler(ev) && RowMatches(ev, input)(b) && !RowMatches(ev, input)(a);
    } else {
      forall ev: Evaluator, input: AuthorizationInput | NoVersionHandler(ev) && RowMatches(ev, input)(b)
        ensures RowMatches(ev, input)(a)
      {
        MatchCarriesOver(a, b, ev, input);
      }
    }
  }

  function RequestFor(action: string): AuthorizationInput {
    AuthorizationInput(User(None, [], [], None, [], [], map[]), Resource("", "", "", "", "", "", map[]), action, map[], [], [], None)
  }

  // ---------------------------------------------------- deleting what is flagged

  lemma {:induction false} InsertProjected(r: Row, s: seq<Row>)
    ensures ToPolicies(Insert(r, s, RowPriority())) == Insert(ToPolicy(r), ToPolicies(s), Priority())
  {
    if s != [] && r.priority > s[0].priority {
      InsertProjected(r, s[1..]);
    }
  }

  lemma {:induction false} SortProjected(rows: seq<Row>)
    ensures ToPolicies(Sort(rows, RowPriority())) == Sort(ToPolicies(rows), Priority())
  {
    if rows == [] {
    } else {
      SortProjected(rows[1..]);
      InsertProjected(rows[0], Sort(rows[1..], RowPriority()));
    }
  }

  lemma {:induction false} FirstProjected(s: seq<Row>, p: Policy -> bool)
    ensures First(ToPolicies(s), p) ==
      match First(s, (r: Row) => p(ToPolicy(r)))
      case Some(r) => Some(ToPolicy(r))
      case None => None
  {
    if s == [] {
    } else {
      assert ToPolicies(s)[1..] == ToPolicies(s[1..]);
      FirstProjected(s[1..], p);
    }
  }

  // Row j of the sorted list is flagged: an earlier row has its key, and an effect.
  ghost predicate FlaggedAt(s: seq<Row>, j: nat)
    requires j < |s|
  {
    exists i :: 0 <= i < j && LintKey(s[i]) == LintKey(s[j]) && s[i].effect != ""
  }

  // What `seen` holds after the first n rows.
  ghost predicate SeenSoFar(s: seq<Row>, n: nat, seen: map<Key, string>)
    requires n <= |s|
  {
    forall k :: k in seen && seen[k] != "" <==> exists i :: 0 <= i < n && LintKey(s[i]) == k && s[i].effect != ""
  }

  lemma SeenStep(s: seq<Row>, n: nat, seen: map<Key, string>)
    requires n < |s| && SeenSoFar(s, n, seen)
    ensures Flagged(s[n], seen) <==> FlaggedAt(s, n)
    ensures SeenSoFar(s, n + 1, Noted(s[n], seen))
  {
    hide LintKey;
    assert Flagged(s[n], seen) <==> FlaggedAt(s, n);
  }

  // ------------------------------------------------------------- what is warned of

  // Row i is the first with its key that has an effect, and row j has its key.
  ghost predicate FirstLike(s: seq<Row>, i: nat, j: nat) {
    && i < j < |s| && LintKey(s[i]) == LintKey(s[j]) && s[i].effect != ""
    && forall k :: 0 <= k < i ==> !(LintKey(s[k]) == LintKey(s[j]) && s[k].effect != "")
  }

  // The warning is about row j: out of reach where the first like it has the same effect,
  // in conflict, naming that effect, where it has another.
  ghost predicate WarnsOf(w: Warning, s: seq<Row>, j: nat)
    requires j < |s|
  {
    exists i: nat :: FirstLike(s, i, j) &&
      w == (if s[i].effect == s[j].effect then Unreachable(s[j].policyKey, s[j].priority)
            else Conflicts(s[j].policyKey, s[j].priority, s[i].effect))
  }

  // `seen` holds the effect of the first row of each key that has one.
  ghost predicate SeenFirst(s: seq<Row>, n: nat, seen: map<Key, string>)
    requires n <= |s|
  {
    forall k :: k in seen && seen[k] != "" ==>
      exists i :: 0 <= i < n && LintKey(s[i]) == k && s[i].effect == seen[k]
                  && forall h :: 0 <= h < i ==> !(LintKey(s[h]) == k && s[h].effect != "")
  }

  lemma SeenFirstStep(s: seq<Row>, n: nat, seen: map<Key, string>)
    requires n < |s| && SeenSoFar(s, n, seen) && SeenFirst(s, n, seen)
    ensures SeenFirst(s, n + 1, Noted(s[n], seen))
    ensures Flagged(s[n], seen) ==> WarnsOf(WarningFor(s[n], seen[LintKey(s[n])]), s, n)
  {
    hide LintKey;
    if Flagged(s[n], seen) {
      var i :| 0 <= i < n && LintKey(s[i]) == LintKey(s[n]) && s[i].effect == seen[LintKey(s[n])]
               && forall h :: 0 <= h < i ==> !(LintKey(s[h]) == LintKey(s[n]) && s[h].effect != "");
      assert FirstLike(s, i, n);
    }
  }

  /** The warnings are one for each flagged row, in order, and each says of its row what it
      is: out of reach of an equal, or in conflict with the effect of the first like it. */
  lemma {:induction false} WarningsTell(s: seq<Row>, n: nat, seen: map<Key, string>) returns (rows: seq<nat>)
    requires n <= |s| && SeenSoFar(s, n, seen) && SeenFirst(s, n, seen)
    ensures |rows| == |Warnings(s[n..], seen)|
    ensures forall k :: 0 <= k < |rows| ==> n <= rows[k] < |s| && WarnsOf(Warnings(s[n..], seen)[k], s, rows[k])
    ensures forall k, h :: 0 <= k < h < |rows| ==> rows[k] < rows[h]
    ensures forall j :: n <= j < |s| ==> (FlaggedAt(s, j) <==> j in rows)
    decreases |s| - n
  {
    hide LintKey, FlaggedAt, SeenSoFar, SeenFirst, WarnsOf, WarningFor;
    if n == |s| {
      rows := [];
    } else {
      assert s[n..][0] == s[n] && s[n..][1..] == s[n + 1..];
      SeenStep(s, n, seen);
      SeenFirstStep(s, n, seen);
      rows := WarningsTell(s, n + 1, Noted(s[n], seen));
      if Flagged(s[n], seen) {
        rows := [n] + rows;
      }
    }
  }

  // What the lint says of the policies it is given, in the order of their priorities.
  lemma LintWarns(views: seq<Row>) returns (rows: seq<nat>)
    ensures
      var s, warnings := Sort(views, RowPriority()), Warnings(Sort(views, RowPriority()), map[]);
      && |rows| == |warnings|
      && (forall k :: 0 <= k < |rows| ==> rows[k] < |s| && WarnsOf(warnings[k], s, rows[k]))
      && (forall k, h :: 0 <= k < h < |rows| ==> rows[k] < rows[h])
      && forall j: nat :: j < |s| ==> (FlaggedAt(s, j) <==> j in rows)
  {
    var s := Sort(views, RowPriority());
    assert s[0..] == s;
    rows := WarningsTell(s, 0, map[]);
  }

  // All stored conditions but "policy_key" and "version" agree.
  ghost predicate SameConditions(a: Row, b: Row) {
    forall k :: k != "policy_key" && k != "version" ==>
      && (k in Dict(a.conditions) <==> k in Dict(b.conditions))
      && (k in Dict(a.conditions) ==> Dict(a.conditions)[k] == Dict(b.conditions)[k])
  }

  // Two policies look alike to the lint exactly when action, version number and those
  // conditions agree.
  lemma LintKeyExactly(a: Row, b: Row)
    ensures LintKey(a) == LintKey(b) <==> a.action == b.action && a.version == b.version && SameConditions(a, b)
  {
    assert |"version"| == 7 && |"policy_key"| == 10;
    var x, y := LintKey(a).1, LintKey(b).1;
    assert "version" in x && x["version"] == Number(a.version) && "version" in y && y["version"] == Number(b.version);
    if LintKey(a) == LintKey(b) {
      assert x["version"] == y["version"];
      forall k | k != "policy_key" && k != "version"
        ensures k in Dict(a.conditions) <==> k in Dict(b.conditions)
        ensures k in Dict(a.conditions) ==> Dict(a.conditions)[k] == Dict(b.conditions)[k]
      {
        SameKeySameConditions(a, b, k);
      }
    }
    if a.version == b.version && SameConditions(a, b) {
      hide Dict;
      forall k ensures (k in x <==> k in y) && (k in x ==> x[k] == y[k]) {
      }
      assert x == y;
    }
  }

  // The rows kept are those that are not flagged.
  lemma {:induction false} KeptAreUnflagged(s: seq<Row>, n: nat, seen: map<Key, string>, r: Row)
    requires n <= |s| && SeenSoFar(s, n, seen) && r in Kept(s[n..], seen)
    ensures exists i :: n <= i < |s| && s[i] == r && !FlaggedAt(s, i)
    decreases |s| - n
  {
    hide LintKey, FlaggedAt, SeenSoFar;
    if n == |s| {
    } else {
      assert s[n..][0] == s[n] && s[n..][1..] == s[n + 1..];
      SeenStep(s, n, seen);
      if r in Kept(s[n + 1..], Noted(s[n], seen)) {
        KeptAreUnflagged(s, n + 1, Noted(s[n], seen), r);
      } else {
        assert r == s[n];
      }
    }
  }

  // Whatever holds of a flagged row holds of an earlier row.
  ghost predicate Precedented(s: seq<Row>, p: Row -> bool) {
    forall j :: 0 <= j < |s| && FlaggedAt(s, j) && p(s[j]) ==> exists i :: 0 <= i < j && p(s[i])
  }

  // From row n on, with every row so far failing p, dropping the flagged rows does
  // not change the first row that satisfies p.
  lemma {:induction false} KeptFirst(s: seq<Row>, n: nat, seen: map<Key, string>, p: Row -> bool)
    requires n <= |s| && Precedented(s, p) && SeenSoFar(s, n, seen)
    requires forall i :: 0 <= i < n ==> !p(s[i])
    ensures First(Kept(s[n..], seen), p) == First(s[n..], p)
    decreases |s| - n
  {
    hide LintKey, FlaggedAt, SeenSoFar;
    if n == |s| {
    } else {
      assert s[n..][0] == s[n] && s[n..][1..] == s[n + 1..];
      SeenStep(s, n, seen);
      var rest := Kept(s[n + 1..], Noted(s[n], seen));
      if Flagged(s[n], seen) {
        assert !p(s[n]);
        KeptFirst(s, n + 1, seen, p);
      } else {
        assert ([s[n]] + rest)[1..] == rest;
        if !p(s[n]) {
          KeptFirst(s, n + 1, Noted(s[n], seen), p);
        }
      }
    }
  }

  lemma {:induction false} KeptSorted(s: seq<Row>, seen: map<Key, string>, low: int)
    requires Sorted(s, RowPriority()) && forall i :: 0 <= i < |s| ==> low <= s[i].priority
    ensures Sorted(Kept(s, seen), RowPriority())
    ensures forall i :: 0 <= i < |Kept(s, seen)| ==> low <= Kept(s, seen)[i].priority
  {
    if s == [] {
    } else {
      KeptSorted(s[1..], Noted(s[0], seen), s[0].priority);
    }
  }

  ghost predicate AllDictionaries(s: seq<Row>) {
    forall i :: 0 <= i < |s| ==> DistinctKeys(s[i].conditions)
  }

  // Whatever conditions a puts, b puts too.
  ghost predicate AsksNoMore(a: Row, b: Row) {
    forall k :: k in Dict(a.conditions) && k != "policy_key" ==>
      k in Dict(b.conditions) && Dict(b.conditions)[k] == Dict(a.conditions)[k]
  }

  // Row i can match whenever row j does, for all handlers.
  ghost predicate Shadows(s: seq<Row>, i: nat, j: nat)
    requires i < |s| && j < |s|
  {
    s[i].action == s[j].action && !HasVersion(s[i]) && AsksNoMore(s[i], s[j])
  }

  /** Every flagged row that can match at all, which one with a stored condition named
      "version" cannot, comes after a row that matches whenever it does. */
  ghost predicate FlagsAreTrue(s: seq<Row>) {
    forall j :: 0 <= j < |s| && FlaggedAt(s, j) && !HasVersion(s[j]) ==> exists i :: 0 <= i < j && Shadows(s, i, j)
  }

  // Deleting every flagged row leaves outcome, reason and policy id as they were.
  lemma DeadPolicyElimination(rows: seq<Row>, ev: Evaluator, input: AuthorizationInput)
    requires NoVersionHandler(ev)
    requires AllDictionaries(Sort(rows, RowPriority())) && FlagsAreTrue(Sort(rows, RowPriority()))
    ensures GraphOutcome(ToPolicies(Kept(Sort(rows, RowPriority()), map[])), ev, input)
         == GraphOutcome(ToPolicies(rows), ev, input)
  {
    hide AllDictionaries, FlagsAreTrue, NoVersionHandler, FlaggedAt, Matching, SameAction, Kept, Sort, LintKey, GraphOutcome, First;
    var s := Sort(rows, RowPriority());
    var kept := Kept(s, map[]);
    KeptSortsToItself(rows);
    SortProjected(rows);
    SortProjected(kept);
    MatchPrecedented(s, ev, input);
    ActionPrecedented(s, input);
    KeptFirstPolicy(s, Matching(ev, input));
    KeptFirstPolicy(s, SameAction(input));
    GraphSearches(ToPolicies(rows), ev, input);
    GraphSearches(ToPolicies(kept), ev, input);
  }

  ghost predicate OwnKeys(s: seq<Row>) {
    forall i, j :: 0 <= i < j < |s| ==> s[i].policyKey != s[j].policyKey
  }

  // No input tells the engine with the flagged policies from the engine without them.
  ghost predicate Removable(rows: seq<Row>) {
    forall ev: Evaluator, input: AuthorizationInput :: NoVersionHandler(ev) ==>
      GraphOutcome(ToPolicies(Kept(Sort(rows, RowPriority()), map[])), ev, input) == GraphOutcome(ToPolicies(rows), ev, input)
  }

  // Deleting everything the lint flags changes nothing, for all handlers and inputs,
  // exactly when every flagged row that can match is shadowed.
  lemma RemovableExactly(rows: seq<Row>)
    requires AllDictionaries(Sort(rows, RowPriority())) && OwnKeys(Sort(rows, RowPriority()))
    ensures Removable(rows) <==> FlagsAreTrue(Sort(rows, RowPriority()))
  {
    hide AllDictionaries, Kept, Sort, GraphOutcome, NoVersionHandler, OwnKeys, FlaggedAt, Shadows, HasVersion;
    var s := Sort(rows, RowPriority());
    if FlagsAreTrue(s) {
      forall ev: Evaluator, input: AuthorizationInput | NoVersionHandler(ev)
        ensures GraphOutcome(ToPolicies(Kept(s, map[])), ev, input) == GraphOutcome(ToPolicies(rows), ev, input)
      {
        DeadPolicyElimination(rows, ev, input);
      }
    } else {
      var j: nat :| j < |s| && FlaggedAt(s, j) && !HasVersion(s[j]) && forall i :: 0 <= i < j ==> !Shadows(s, i, j);
      LosingIt(rows, j);
    }
  }

  // The handlers under which exactly the conditions of r hold.
  ghost function Only(r: Row): Evaluator {
    (k: string, v: Json, input: AuthorizationInput) =>
      if k == "version" then Unknown
      else if k in Dict(r.conditions) && Dict(r.conditions)[k] == v then Holds
      else Fails(None)
  }

  lemma OnlyItsConditions(s: seq<Row>, j: nat, i: nat)
    requires AllDictionaries(s) && i < |s| && j < |s| && !HasVersion(s[j])
    ensures NoVersionHandler(Only(s[j]))
    ensures Matching(Only(s[j]), RequestFor(s[j].action))(ToPolicy(s[i])) <==> Shadows(s, i, j)
  {
    var ev, input := Only(s[j]), RequestFor(s[j].action);
    OrderDoesNotMatter(s[i].conditions, ev, input);
    RowMatchesMeans(s[i], ev, input);
    VersionNeverHolds(s[i], ev, input);
    SameMatch(s[i], ev, input);
    hide Matching, RowMatches;
  }

  // The decision of the graph carries the id of the first match, if there is one.
  lemma OutcomeId(ps: seq<Policy>, ev: Evaluator, input: AuthorizationInput)
    ensures GraphOutcome(ps, ev, input).policyId ==
      match First(Sort(ps, Priority()), Matching(ev, input))
      case Some(p) => Some(CompiledId(p))
      case None => None
  {
    GraphSearches(ps, ev, input);
    hide GraphOutcome, First, Sort, Matching, SameAction, CompiledId, Reason;
  }

  lemma {:induction false} FirstAt(s: seq<Row>, j: nat, p: Row -> bool)
    requires j < |s| && p(s[j]) && forall i :: 0 <= i < j ==> !p(s[i])
    ensures First(s, p) == Some(s[j])
  {
    if j == 0 {
    } else {
      FirstAt(s[1..], j - 1, p);
    }
  }

  // Under those, the flagged row that nothing shadows is the one that decides.
  lemma LosingIt(rows: seq<Row>, j: nat)
    requires
      var s := Sort(rows, RowPriority());
      && AllDictionaries(s) && OwnKeys(s)
      && j < |s| && FlaggedAt(s, j) && !HasVersion(s[j]) && forall i :: 0 <= i < j ==> !Shadows(s, i, j)
    ensures !Removable(rows)
  {
    hide AllDictionaries, OwnKeys, Kept, Sort, GraphOutcome, FlaggedAt, HasVersion, NoVersionHandler, Only, RequestFor;
    hide Matching, First, CompiledId, ToPolicy, AsksNoMore, LintKey;
    var s := Sort(rows, RowPriority());
    var kept := Kept(s, map[]);
    var ev, input := Only(s[j]), RequestFor(s[j].action);
    var p := (r: Row) => Matching(ev, input)(ToPolicy(r));
    forall i | 0 <= i < |s| ensures p(s[i]) <==> Shadows(s, i, j) {
      OnlyItsConditions(s, j, i);
    }
    OnlyItsConditions(s, j, j);
    ShadowsItself(s, j);
    hide Shadows;
    FirstAt(s, j, p);
    FirstProjected(s, Matching(ev, input));
    SortProjected(rows);
    OutcomeId(ToPolicies(rows), ev, input);
    assert GraphOutcome(ToPolicies(rows), ev, input).policyId == Some(CompiledId(ToPolicy(s[j])));
    KeptSortsToItself(rows);
    SortProjected(kept);
    FirstProjected(kept, Matching(ev, input));
    OutcomeId(ToPolicies(kept), ev, input);
    KeptHasOtherIds(s, j, First(kept, p));
    FirstIsMember(kept, p);
  }

  lemma ShadowsItself(s: seq<Row>, j: nat)
    requires j < |s| && !HasVersion(s[j])
    ensures Shadows(s, j, j)
  {
  }

  // A kept row stands at an unflagged place.
  lemma KeptPlace(s: seq<Row>, r: Row) returns (i: nat)
    requires r in Kept(s, map[])
    ensures i < |s| && s[i] == r && !FlaggedAt(s, i)
  {
    hide FlaggedAt, Kept, LintKey;
    assert s[0..] == s;
    KeptAreUnflagged(s, 0, map[], r);
    i :| 0 <= i < |s| && s[i] == r && !FlaggedAt(s, i);
  }

  lemma KeyIsOwn(s: seq<Row>, i: nat, j: nat)
    requires OwnKeys(s) && i < |s| && j < |s| && i != j
    ensures s[i].policyKey != s[j].policyKey
  {
  }

  lemma KeptHasOtherKeys(s: seq<Row>, j: nat, r: Row)
    requires OwnKeys(s) && j < |s| && FlaggedAt(s, j) && r in Kept(s, map[])
    ensures r.policyKey != s[j].policyKey
  {
    hide OwnKeys, FlaggedAt, Kept;
    var i := KeptPlace(s, r);
    KeyIsOwn(s, i, j);
  }

  lemma KeptHasOtherIds(s: seq<Row>, j: nat, first: Option<Row>)
    requires OwnKeys(s) && j < |s| && FlaggedAt(s, j)
    ensures first.Some? && first.value in Kept(s, map[]) ==> CompiledId(ToPolicy(first.value)) != CompiledId(ToPolicy(s[j]))
  {
    hide OwnKeys, FlaggedAt, Kept, CompiledId, ToPolicy;
    if first.Some? && first.value in Kept(s, map[]) {
      KeptHasOtherKeys(s, j, first.value);
      if CompiledId(ToPolicy(first.value)) == CompiledId(ToPolicy(s[j])) {
        IdsTellKeysApart(first.value, s[j]);
      }
    }
  }

  // The version at the end of an id holds no colon, so the id gives back the key.
  lemma IdsTellKeysApart(a: Row, b: Row)
    requires CompiledId(ToPolicy(a)) == CompiledId(ToPolicy(b))
    ensures a.policyKey == b.policyKey
  {
    IntTextPlain(a.version);
    IntTextPlain(b.version);
    LastColon(a.policyKey, IntText(a.version), b.policyKey, IntText(b.version));
    hide IntText;
  }

  lemma IntTextPlain(n: int)
    ensures ':' !in IntText(n)
  {
    assert !IsDigit(':');
  }

  lemma LastColon(k: string, t: string, l: string, u: string)
    requires ':' !in t && ':' !in u && k + ":v" + t == l + ":v" + u
    ensures k == l
  {
    var x, y := k + ":v" + t, l + ":v" + u;
    assert x[|k|] == ':' && y[|l|] == ':';
    forall i | |k| < i < |x| ensures x[i] != ':' {
      assert i > |k| + 1 ==> x[i] == t[i - |k| - 2];
    }
    forall i | |l| < i < |y| ensures y[i] != ':' {
      assert i > |l| + 1 ==> y[i] == u[i - |l| - 2];
    }
    assert x[..|k|] == k && y[..|l|] == l;
  }

  lemma KeptSortsToItself(rows: seq<Row>)
    ensures
      var kept := Kept(Sort(rows, RowPriority()), map[]);
      Sort(kept, RowPriority()) == kept
  {
    SortSorts(rows, RowPriority());
    KeptStaysSorted(Sort(rows, RowPriority()));
    SortOfSorted(Kept(Sort(rows, RowPriority()), map[]), RowPriority());
  }

  lemma ShadowMatches(s: seq<Row>, i: nat, j: nat, ev: Evaluator, input: AuthorizationInput)
    requires i < |s| && j < |s| && Shadows(s, i, j) && AllDictionaries(s)
    requires RowMatches(ev, input)(s[j])
    ensures RowMatches(ev, input)(s[i])
  {
    OrderDoesNotMatter(s[i].conditions, ev, input);
    OrderDoesNotMatter(s[j].conditions, ev, input);
    RowMatchesMeans(s[i], ev, input);
    RowMatchesMeans(s[j], ev, input);
  }

  lemma MatchPrecedented(s: seq<Row>, ev: Evaluator, input: AuthorizationInput)
    requires NoVersionHandler(ev) && AllDictionaries(s) && FlagsAreTrue(s)
    ensures Precedented(s, (r: Row) => Matching(ev, input)(ToPolicy(r)))
  {
    hide FlaggedAt, HasVersion, NoVersionHandler, Shadows, RowMatches;
    var p := (r: Row) => Matching(ev, input)(ToPolicy(r));
    forall r: Row ensures p(r) == RowMatches(ev, input)(r) {
      SameMatch(r, ev, input);
    }
    forall j | 0 <= j < |s| && FlaggedAt(s, j) && p(s[j]) ensures exists i :: 0 <= i < j && p(s[i]) {
      NoVersionMatches(s[j], ev, input);
      var i :| 0 <= i < j && Shadows(s, i, j);
      ShadowMatches(s, i, j, ev, input);
      assert p(s[i]);
    }
  }

  lemma SameMatch(r: Row, ev: Evaluator, input: AuthorizationInput)
    ensures RowMatches(ev, input)(r) == Matching(ev, input)(ToPolicy(r))
  {
  }

  lemma NoVersionMatches(r: Row, ev: Evaluator, input: AuthorizationInput)
    requires NoVersionHandler(ev) && DistinctKeys(r.conditions) && RowMatches(ev, input)(r)
    ensures !HasVersion(r)
  {
    OrderDoesNotMatter(r.conditions, ev, input);
    RowMatchesMeans(r, ev, input);
    VersionNeverHolds(r, ev, input);
  }

  lemma ActionPrecedented(s: seq<Row>, input: AuthorizationInput)
    ensures Precedented(s, (r: Row) => SameAction(input)(ToPolicy(r)))
  {
    var p := (r: Row) => SameAction(input)(ToPolicy(r));
    forall j | 0 <= j < |s| && FlaggedAt(s, j) && p(s[j]) ensures exists i :: 0 <= i < j && p(s[i]) {
      var i :| 0 <= i < j && LintKey(s[i]) == LintKey(s[j]) && s[i].effect != "";
      assert s[i].action == LintKey(s[i]).0 == LintKey(s[j]).0 == s[j].action;
      assert SameAction(input)(ToPolicy(s[j])) && SameAction(input)(ToPolicy(s[i]));
      assert p(s[i]);
    }
  }

  lemma KeptStaysSorted(s: seq<Row>)
    requires Sorted(s, RowPriority())
    ensures Sorted(Kept(s, map[]), RowPriority())
  {
    if s != [] {
      KeptSorted(s, map[], s[0].priority);
    }
  }

  lemma KeptFirstPolicy(s: seq<Row>, p: Policy -> bool)
    requires Precedented(s, (r: Row) => p(ToPolicy(r)))
    ensures First(ToPolicies(Kept(s, map[])), p) == First(ToPolicies(s), p)
  {
    assert s[0..] == s;
    KeptFirst(s, 0, map[], (r: Row) => p(ToPolicy(r)));
    FirstProjected(Kept(s, map[]), p);
    FirstProjected(s, p);
  }

  lemma SameLintKey(dead: Row, live: Row)
    requires dead.action == live.action && dead.version == live.version
    requires dead.conditions == [("version", Number(7))] && live.conditions == []
    ensures LintKey(dead) == LintKey(live)
  {
    assert dead.conditions[1..] == [];
    assert Dict(dead.conditions) == map["version" := Number(7)];
    assert LintKey(dead).1 == map["version" := Number(dead.version)];
    assert LintKey(live).1 == map["version" := Number(live.version)];
  }

  // A stored condition named "version" can make the lint flag the only reachable policy.
  lemma VersionConditionMisleadsLint(ev: Evaluator)
    requires NoVersionHandler(ev)
    ensures
      var dead := Row("a", 1, "read", "allow", 1, [("version", Number(7))]);
      var live := Row("b", 1, "read", "allow", 2, []);
      && Warnings(Sort([dead, live], RowPriority()), map[]) == [Unreachable("b", 2)]
      && Kept(Sort([dead, live], RowPriority()), map[]) == [dead]
      && GraphOutcome(ToPolicies([dead, live]), ev, RequestFor("read")).outcome == "allow"
      && GraphOutcome(ToPolicies([dead]), ev, RequestFor("read")).outcome == "deny"
  {
    var dead := Row("a", 1, "read", "allow", 1, [("version", Number(7))]);
    var live := Row("b", 1, "read", "allow", 2, []);
    var input := RequestFor("read");
    assert [dead, live][1..] == [live];
    assert Sort([live], RowPriority()) == [live];
    assert Sort([dead, live], RowPriority()) == [dead, live];
    SameLintKey(dead, live);
    assert Kept([live], map[LintKey(dead) := "allow"]) == [];
    assert Warnings([live], map[LintKey(dead) := "allow"]) == [Unreachable("b", 2)];
    assert !Matching(ev, input)(ToPolicy(dead)) by {
      assert dead.conditions[0].0 != "policy_key";
    }
    assert Matching(ev, input)(ToPolicy(live));
    SortProjected([dead, live]);
    SortProjected([dead]);
    assert ToPolicies([dead, live]) == [ToPolicy(dead), ToPolicy(live)];
    GraphSearches(ToPolicies([dead, live]), ev, input);
    GraphSearches(ToPolicies([dead]), ev, input);
    assert [ToPolicy(dead), ToPolicy(live)][1..] == [ToPolicy(live)];
    assert First([ToPolicy(live)], Matching(ev, input)) == Some(ToPolicy(live));
    assert First([ToPolicy(dead)], SameAction(input)) == Some(ToPolicy(dead));
  }
}
