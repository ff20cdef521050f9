/** Whom an ACL row and an index entry reach, said on the fields of user, resource and row. */
module Reach {
  import opened Wrappers
  import opened Domain
  import opened Engine
  import opened CacheKeys
  import PolicyGraph
  import Text

  // ----------------------------------------------------------- a user's descriptors

  // The edge as text. An edge with a missing part counts for nothing.
  function EdgeText(e: Relation): string {
    e.relation + ":" + e.objectType + ":" + e.objectId
  }

  predicate Complete(e: Relation) {
    e.relation != "" && e.objectType != "" && e.objectId != ""
  }

  // A descriptor as the fields of the user give it.
  predicate Described(u: User, d: string) {
    || (u.id.Some? && d == "user:" + u.id.value)
    || (exists r :: r in u.roles && d == "role:" + r)
    || (exists p :: p in Permissions(u) && d == "permission:" + p)
    || (exists e :: e in u.relations && Complete(e) && d == "relationship:" + EdgeText(e))
  }

  function Permissions(u: User): seq<string> {
    u.permissions + (if u.directPermissions.Some? then u.directPermissions.value else [])
  }

  // What a row's kind of subject and name must find among the user's fields.
  predicate RowReaches(e: IndexEntry, u: User) {
    && e.subjectType != "" && e.subjectId != ""
    && (if e.subjectType == "user" then u.id == Some(e.subjectId)
        else if e.subjectType == "role" then e.subjectId in u.roles
        else if e.subjectType == "permission" then e.subjectId in Permissions(u)
        else if e.subjectType == "relationship" then EdgeRowReaches(e.subjectId, u)
        else Described(u, e.subjectType + ":" + e.subjectId))
  }

  // An edge may be written with or without its prefix. The prefix is cut one character
  // short, and without one the name may also be that of another descriptor.
  predicate EdgeRowReaches(name: string, u: User) {
    if "relationship:" <= name then
      exists e :: e in u.relations && Complete(e) && ("relationship:" + EdgeText(e) == name || EdgeText(e) == name[12..])
    else
      || (exists e :: e in u.relations && Complete(e) && EdgeText(e) == name)
      || (u.id.Some? && name == "user:" + u.id.value)
      || (exists r :: r in u.roles && name == "role:" + r)
      || (exists p :: p in Permissions(u) && name == "permission:" + p)
  }

  // The type and the id of a resource: the first of its names that is given.
  function TypeOf(r: Resource): string {
    if r.resourceType != "" then r.resourceType
    else if r.typeName != "" then r.typeName
    else if r.kind != "" then r.kind
    else r.entityType
  }

  function IdOf(r: Resource): string {
    if r.resourceId != "" then r.resourceId else r.id
  }

  lemma IdentityIs(r: Resource)
    ensures ResourceType(r) == TypeOf(r) && ResourceId(r) == IdOf(r)
  {
    var types, ids := [r.resourceType, r.typeName, r.kind, r.entityType], [r.resourceId, r.id];
    assert types[1..] == [r.typeName, r.kind, r.entityType] && types[1..][1..] == [r.kind, r.entityType];
    assert types[1..][1..][1..] == [r.entityType] && types[1..][1..][1..][1..] == [];
    assert ids[1..] == [r.id] && ids[1..][1..] == [];
    assert FirstNonEmpty([]) == "";
    assert FirstNonEmpty([r.entityType]) == r.entityType;
    assert FirstNonEmpty([r.kind, r.entityType]) == if r.kind != "" then r.kind else r.entityType;
    assert FirstNonEmpty([r.typeName, r.kind, r.entityType]) == if r.typeName != "" then r.typeName else if r.kind != "" then r.kind else r.entityType;
    assert FirstNonEmpty([r.id]) == r.id;
  }

  lemma DescriptorsAre(u: User, d: string)
    ensures d in Subjects(u) <==> Described(u, d)
  {
    forall e: Relation ensures "relationship:" + e.relation + ":" + e.objectType + ":" + e.objectId == "relationship:" + EdgeText(e) {
      assert "relationship:" + e.relation + ":" + e.objectType + ":" + e.objectId == "relationship:" + EdgeText(e);
    }
    forall p ensures p in Permissions(u) <==> p in u.permissions || (u.directPermissions.Some? && p in u.directPermissions.value) {
    }
    hide EdgeText;
  }

  // What stands before the first colon tells the kinds of descriptors apart.
  lemma KindsApart(u: User, name: string)
    ensures Described(u, "user:" + name) <==> u.id == Some(name)
    ensures Described(u, "role:" + name) <==> name in u.roles
    ensures Described(u, "permission:" + name) <==> name in Permissions(u)
    ensures Described(u, "relationship:" + name) <==> exists e :: e in u.relations && Complete(e) && EdgeText(e) == name
  {
    hide EdgeText, Complete, Permissions;
    forall t ensures "user:" + name == "user:" + t <==> name == t {
      SameAfter("user:", name, t);
    }
    forall t ensures "role:" + name == "role:" + t <==> name == t {
      SameAfter("role:", name, t);
    }
    forall t ensures "permission:" + name == "permission:" + t <==> name == t {
      SameAfter("permission:", name, t);
    }
    forall t ensures "relationship:" + name == "relationship:" + t <==> name == t {
      SameAfter("relationship:", name, t);
    }
    forall t
      ensures "user:" + name != "role:" + t && "user:" + name != "permission:" + t && "user:" + name != "relationship:" + t
      ensures "role:" + name != "user:" + t && "role:" + name != "permission:" + t && "role:" + name != "relationship:" + t
      ensures "permission:" + name != "user:" + t && "permission:" + name != "role:" + t && "permission:" + name != "relationship:" + t
      ensures "relationship:" + name != "user:" + t && "relationship:" + name != "role:" + t && "relationship:" + name != "permission:" + t
    {
      KindsDiffer(name, t);
      KindsDiffer(t, name);
    }
  }

  lemma SameAfter(prefix: string, s: string, t: string)
    ensures prefix + s == prefix + t <==> s == t
  {
    assert (prefix + s)[|prefix|..] == s && (prefix + t)[|prefix|..] == t;
  }

  predicate DistinctKinds(s: string, t: string) {
    && "user:" + s != "role:" + t && "user:" + s != "permission:" + t && "user:" + s != "relationship:" + t
    && "role:" + s != "permission:" + t && "role:" + s != "relationship:" + t
    && "permission:" + s != "relationship:" + t
  }

  lemma KindsDiffer(s: string, t: string)
    ensures DistinctKinds(s, t)
  {
    assert ("user:" + s)[0] == 'u' && ("role:" + s)[0] == 'r' && ("permission:" + s)[0] == 'p';
    assert ("role:" + t)[1] == 'o' && ("role:" + s)[1] == 'o' && ("relationship:" + t)[1] == 'e';
    assert ("role:" + t)[0] == 'r' && ("permission:" + t)[0] == 'p' && ("relationship:" + t)[0] == 'r';
  }

  // -------------------------------------------------------------------- ACL rows

  lemma SubjectReached(e: IndexEntry, u: User)
    ensures SubjectMatches(e, Subjects(u)) <==> RowReaches(e, u)
  {
    hide Subjects, Described, EdgeText, Permissions;
    forall d ensures d in Subjects(u) <==> Described(u, d) {
      DescriptorsAre(u, d);
    }
    KindsApart(u, e.subjectId);
    if e.subjectType == "relationship" {
      EdgeReached(e, u);
    } else if e.subjectType == "user" {
      assert e.subjectType + ":" + e.subjectId == "user:" + e.subjectId;
    } else if e.subjectType == "role" {
      assert e.subjectType + ":" + e.subjectId == "role:" + e.subjectId;
    } else if e.subjectType == "permission" {
      assert e.subjectType + ":" + e.subjectId == "permission:" + e.subjectId;
    }
  }

  lemma EdgeReached(e: IndexEntry, u: User)
    requires e.subjectType == "relationship"
    ensures SubjectMatches(e, Subjects(u)) <==> e.subjectId != "" && EdgeRowReaches(e.subjectId, u)
  {
    hide Subjects, EdgeText, Permissions;
    var d := e.subjectId;
    forall x ensures x in Subjects(u) <==> Described(u, x) {
      DescriptorsAre(u, x);
    }
    KindsApart(u, d);
    if "relationship:" <= d {
      var bare := d[12..];
      assert d == "relationship:" + d[13..];
      forall t ensures DistinctKinds(t, d[13..]) {
        KindsDiffer(t, d[13..]);
      }
      KindsApart(u, d[13..]);
      KindsApart(u, bare);
      assert bare[0] == ':';
      forall t ensures bare != "user:" + t && bare != "role:" + t && bare != "permission:" + t && bare != "relationship:" + t {
        assert ("user:" + t)[0] == 'u' && ("role:" + t)[0] == 'r' && ("permission:" + t)[0] == 'p' && ("relationship:" + t)[0] == 'r';
      }
      forall x: Relation ensures EdgeText(x) == d[13..] <==> "relationship:" + EdgeText(x) == d {
        SameAfter("relationship:", EdgeText(x), d[13..]);
      }
    } else {
      forall x: Relation ensures "relationship:" + EdgeText(x) != d {
        assert ("relationship:" + EdgeText(x))[..13] == "relationship:";
      }
    }
  }

  /** An ACL row matches a request exactly when it is for the same resource and action and
      its subject is the user: by id, by role, by permission, or by an edge. */
  lemma AclMatchesExactly(e: IndexEntry, input: AuthorizationInput)
    ensures AclMatches(e, input) <==>
      && e.resourceType == TypeOf(input.resource) && e.resourceId == IdOf(input.resource)
      && e.action == input.action && RowReaches(e, input.user)
  {
    IdentityIs(input.resource);
    SubjectReached(e, input.user);
    hide SubjectMatches, RowReaches, Subjects;
  }

  // A row for an edge of colon-free parts reaches exactly the holders of that edge; written
  // with the prefix, which is cut one short, also those of an edge like it after a colon.
  lemma EdgeRowReachesHolders(relation: string, objectType: string, objectId: string, u: User)
    requires relation != "" && objectType != "" && objectId != ""
    requires Plain(relation) && Plain(objectType) && Plain(objectId)
    requires relation !in {"user", "role", "permission", "relationship"}
    ensures EdgeRowReaches(relation + ":" + objectType + ":" + objectId, u) <==> Relation(relation, objectType, objectId) in u.relations
    ensures EdgeRowReaches("relationship:" + (relation + ":" + objectType + ":" + objectId), u)
       <==> || Relation(relation, objectType, objectId) in u.relations
            || exists e :: e in u.relations && Complete(e) && EdgeText(e) == ":" + (relation + ":" + objectType + ":" + objectId)
  {
    hide Permissions;
    var own := Relation(relation, objectType, objectId);
    var name := EdgeText(own);
    assert name == relation + ":" + (objectType + ":" + objectId);
    forall e: Relation ensures EdgeText(e) == name <==> e == own {
      assert EdgeText(e) == e.relation + ":" + (e.objectType + ":" + e.objectId);
      if EdgeText(e) == name {
        PlainTripleDetermined(relation, objectType, objectId, e.relation, e.objectType, e.objectId);
      }
    }
    OtherHeads(relation, objectType + ":" + objectId);
    PrefixedEdge(own, u);
    hide EdgeText;
  }

  lemma Prefixed(s: string)
    ensures "relationship:" <= s <==> exists t :: s == "relationship:" + t
  {
    if "relationship:" <= s {
      assert s == "relationship:" + s[13..];
    }
  }

  lemma OtherHeads(head: string, rest: string)
    requires Plain(head) && head !in {"user", "role", "permission", "relationship"}
    ensures forall t :: head + ":" + rest != "user:" + t && head + ":" + rest != "role:" + t && head + ":" + rest != "permission:" + t
    ensures !("relationship:" <= head + ":" + rest)
  {
    forall k, t | k in {"user", "role", "permission", "relationship"} ensures head + ":" + rest != k + ":" + t {
      if head + ":" + rest == k + ":" + t {
        HeadDetermined(head, rest, k, t);
      }
    }
    forall t ensures "user:" + t == "user" + ":" + t && "role:" + t == "role" + ":" + t
      ensures "permission:" + t == "permission" + ":" + t && "relationship:" + t == "relationship" + ":" + t
    {
    }
    Prefixed(head + ":" + rest);
  }

  lemma PrefixedEdge(own: Relation, u: User)
    requires Complete(own) && forall e: Relation :: EdgeText(e) == EdgeText(own) <==> e == own
    ensures EdgeRowReaches("relationship:" + EdgeText(own), u)
       <==> own in u.relations || exists e :: e in u.relations && Complete(e) && EdgeText(e) == ":" + EdgeText(own)
  {
    var name := "relationship:" + EdgeText(own);
    assert name[..13] == "relationship:" && name[12..] == ":" + EdgeText(own);
    forall e: Relation ensures "relationship:" + EdgeText(e) == name <==> e == own {
      SameAfter("relationship:", EdgeText(e), EdgeText(own));
    }
    hide EdgeText;
  }

  // --------------------------------------------------------------- index entries

  /** An index entry grants exactly when it is a relationship entry for the same resource,
      for the action or for all, and one of its subjects describes the user. */
  lemma IndexGrantsExactly(e: IndexEntry, input: AuthorizationInput)
    ensures IndexGrants(e, input) <==>
      && e.source == "relationship"
      && e.resourceType == TypeOf(input.resource) && e.resourceId == IdOf(input.resource)
      && (e.action == input.action || e.action == "*")
      && exists d :: d in e.allowedSubjects && Described(input.user, d)
  {
    IdentityIs(input.resource);
    forall d ensures d in Subjects(input.user) <==> Described(input.user, d) {
      DescriptorsAre(input.user, d);
    }
    hide Subjects, Described;
  }

  // ------------------------------------------------- permissions, roles and model

  // An explicit permission counts from the user's direct ones where that list is given,
  // and from the others only where it is not.
  lemma DirectGrantExactly(input: AuthorizationInput)
    ensures DirectGrant(input) <==>
      match input.user.directPermissions
      case Some(direct) => input.action in direct
      case None => input.action in input.user.permissions
  {
  }

  // The model is asked where there is one that has the action as a permission, about a
  // resource of a type that is not given as an entity type only.
  lemma ModelAppliesExactly(input: AuthorizationInput)
    ensures ModelApplies(input) <==>
      && input.model.Some? && input.action != "" && input.action in input.model.value.permissions
      && (input.resource.resourceType != "" || input.resource.typeName != "" || input.resource.kind != "")
  {
    ModelTypeIs(input.resource);
  }

  lemma ModelTypeIs(r: Resource)
    ensures ModelResourceType(r) ==
      if r.resourceType != "" then r.resourceType else if r.typeName != "" then r.typeName else r.kind
  {
    var types := [r.resourceType, r.typeName, r.kind];
    assert types[1..] == [r.typeName, r.kind] && types[1..][1..] == [r.kind] && types[1..][1..][1..] == [];
    assert FirstNonEmpty([]) == "" && FirstNonEmpty([r.kind]) == r.kind;
    assert FirstNonEmpty([r.typeName, r.kind]) == if r.typeName != "" then r.typeName else r.kind;
  }

  // A name in a model expression stands for an edge from the user to the resource.
  lemma HasRelationExactly(name: string, input: AuthorizationInput)
    ensures HasRelation(name, input) <==>
      exists e :: e in input.user.relations && e.relation == name && e.objectId == IdOf(input.resource)
                  && e.objectType == (if input.resource.resourceType != "" then input.resource.resourceType
                                      else if input.resource.typeName != "" then input.resource.typeName
                                      else input.resource.kind)
  {
    IdentityIs(input.resource);
    ModelTypeIs(input.resource);
    hide ModelResourceType, ResourceId, TypeOf, IdOf;
    var own := Relation(name, ModelResourceType(input.resource), ResourceId(input.resource));
    forall e: Relation | e.relation == name && e.objectType == own.objectType && e.objectId == own.objectId ensures e == own {
    }
  }

  // ------------------------------------------------------------------- decisions

  // A row for the resource and action of the request that reaches its user.
  predicate IsFor(e: IndexEntry, input: AuthorizationInput) {
    && e.resourceType == TypeOf(input.resource) && e.resourceId == IdOf(input.resource)
    && e.action == input.action && RowReaches(e, input.user)
  }

  // The rows the ACL stage looks at: those of the request, or those kept in its index.
  predicate IsOffered(e: IndexEntry, input: AuthorizationInput) {
    if input.aclEntries != [] then e in input.aclEntries else e in input.indexEntries && e.source == "acl"
  }

  lemma {:induction false} FromAclKeeps(entries: seq<IndexEntry>, e: IndexEntry)
    ensures e in FromAcl(entries) <==> e in entries && e.source == "acl"
  {
    if entries == [] {
    } else {
      FromAclKeeps(entries[1..], e);
      assert entries == [entries[0]] + entries[1..];
    }
  }

  predicate StartsAcl(id: string) {
    "acl:" <= id
  }

  lemma OtherIds(input: AuthorizationInput)
    ensures !StartsAcl("rbac:permissions") && !StartsAcl("rbac:role") && !StartsAcl("relationship:index")
    ensures !StartsAcl("auth-model:" + input.action)
  {
    assert "acl:"[0] == 'a' && "rbac:permissions"[0] == 'r' && "rbac:role"[0] == 'r' && "relationship:index"[0] == 'r';
    assert ("auth-model:" + input.action)[1] == 'u' && "acl:"[1] == 'c';
  }

  /** A decision whose policy id begins with "acl:" comes from an ACL row that was offered,
      is for this resource and action, reaches this very user, bears that id and has that
      effect; unless the winning policy itself has such an id. */
  lemma AclDecisionReaches(ps: seq<Policy>, ev: Evaluator, input: AuthorizationInput) returns (e: IndexEntry)
    requires Decide(ps, ev, input).policyId.Some? && StartsAcl(Decide(ps, ev, input).policyId.value)
    requires forall w: nat :: PolicyWins(ps, ev, input, w) ==> !StartsAcl(PolicyGraph.CompiledId(ps[w]))
    ensures IsOffered(e, input) && IsFor(e, input)
    ensures
      var d := Decide(ps, ev, input);
      d.policyId == Some(AclId(e)) && d.decision == Text.Lower(e.effect)
  {
    hide Decide, AclStage, PolicyStage, PolicyWins, StartsAcl, IsOffered, IsFor, AclId;
    AclStageAnswers(ps, ev, input);
    e := AclAnswerIsRow(input);
  }

  // Only the ACL stage can have given such an id.
  lemma AclStageAnswers(ps: seq<Policy>, ev: Evaluator, input: AuthorizationInput)
    requires Decide(ps, ev, input).policyId.Some? && StartsAcl(Decide(ps, ev, input).policyId.value)
    requires forall w: nat :: PolicyWins(ps, ev, input, w) ==> !StartsAcl(PolicyGraph.CompiledId(ps[w]))
    ensures AclStage(input).stage.outcome != "abstain"
    ensures Decide(ps, ev, input).policyId == AclStage(input).stage.policyId
    ensures Decide(ps, ev, input).decision == if AclStage(input).stage.outcome == "allow" then "allow" else "deny"
  {
    hide AclStage, PolicyStage, Pipeline, PolicyWins, StartsAcl, Satisfied, ModelApplies, IndexStage, ExplicitPermissions, StartStep;
    var answers := Answers(ps, ev, input);
    var k := PipelineTakesFirst(answers, [StartStep(input)]);
    OtherIds(input);
    PolicyStageId(ps, ev, input);
    IndexStageId(input);
    assert k < 6 && Decide(ps, ev, input).policyId == answers[k].stage.policyId;
    assert k != 0 && k != 2 && k != 3 && k != 4 && k != 5;
  }

  lemma AclAnswerIsRow(input: AuthorizationInput) returns (e: IndexEntry)
    requires AclStage(input).stage.outcome != "abstain"
    ensures IsOffered(e, input) && IsFor(e, input)
    ensures AclStage(input).stage.policyId == Some(AclId(e))
    ensures AclStage(input).stage.outcome == Text.Lower(e.effect) && Text.Lower(e.effect) in {"allow", "deny"}
  {
    var rows := AclRows(input);
    var i := AclScanFinds(rows, input, false);
    e := rows[i];
    AclMatchesExactly(e, input);
    FromAclKeeps(input.indexEntries, e);
    hide AclMatches, AclScan, FromAcl, RowReaches, TypeOf, IdOf, AclDetail, AclId;
  }

  lemma IndexStageId(input: AuthorizationInput)
    ensures IndexStage(input).stage.policyId in {None, Some("relationship:index")}
  {
    IndexScanId(input.indexEntries, input);
  }

  lemma {:induction false} IndexScanId(entries: seq<IndexEntry>, input: AuthorizationInput)
    ensures IndexScan(entries, input).stage.policyId in {None, Some("relationship:index")}
  {
    hide IndexGrants;
    if entries == [] {
    } else {
      IndexScanId(entries[1..], input);
    }
  }

  // A policy decision bears the id of the winning policy, or none.
  lemma PolicyStageId(ps: seq<Policy>, ev: Evaluator, input: AuthorizationInput)
    ensures
      var id := PolicyStage(ps, ev, input).stage.policyId;
      id.Some? ==> exists w: nat :: PolicyWins(ps, ev, input, w) && id == Some(PolicyGraph.CompiledId(ps[w]))
  {
    PolicyGraph.GraphRefinesRule(ps, ev, input, PolicyGraph.GraphOutcome(ps, ev, input));
    hide PolicyGraph.GraphOutcome, PolicyGraph.Matching, PolicyGraph.CompiledId;
  }

  // Neither direct permission nor ACL row decides.
  ghost predicate AclSilent(input: AuthorizationInput) {
    !DirectGrant(input) && !AclSays(input, "allow") && !AclSays(input, "deny")
  }

  // Every grant bears the name of the stage it comes from.
  lemma GrantsBearTheirNames(ps: seq<Policy>, ev: Evaluator, input: AuthorizationInput)
    ensures
      var id := Decide(ps, ev, input).policyId;
      && (DirectGrant(input) ==> id == Some("rbac:permissions"))
      && (AclSilent(input) && input.action in input.user.rolePermissions ==> id == Some("rbac:role"))
      && (AclSilent(input) && input.action !in input.user.rolePermissions && IndexGrant(input) ==> id == Some("relationship:index"))
      && (AclSilent(input) && input.action !in input.user.rolePermissions && !IndexGrant(input) ==>
            ModelApplies(input) ==> id == Some("auth-model:" + input.action))
  {
    AclStageSays(input);
    GrantStagesSay(input);
    ModelStageSays(input);
    StageIds(input);
    var answers := Answers(ps, ev, input);
    hide DirectGrant, AclSays, IndexGrant, ModelApplies, DirectStage, AclStage, RoleStage, IndexStage, ModelStage, PolicyStage, Decide, Satisfied;
    if FirstToAnswer(answers, 0) {
      FirstStageDecides(ps, ev, input, 0);
    } else if FirstToAnswer(answers, 2) {
      FirstStageDecides(ps, ev, input, 2);
    } else if FirstToAnswer(answers, 3) {
      FirstStageDecides(ps, ev, input, 3);
    } else if FirstToAnswer(answers, 4) {
      FirstStageDecides(ps, ev, input, 4);
    }
  }

  lemma StageIds(input: AuthorizationInput)
    ensures DirectStage(input).stage.outcome == "allow" ==> DirectStage(input).stage.policyId == Some("rbac:permissions")
    ensures RoleStage(input).stage.outcome == "allow" ==> RoleStage(input).stage.policyId == Some("rbac:role")
    ensures IndexStage(input).stage.outcome == "allow" ==> IndexStage(input).stage.policyId == Some("relationship:index")
    ensures ModelStage(input).stage.outcome != "abstain" ==> ModelStage(input).stage.policyId == Some("auth-model:" + input.action)
  {
    assert |"allow"| == 5 && |"abstain"| == 7;
    IndexAllowsAs(input.indexEntries, input);
    hide IndexScan, ExplicitPermissions, Satisfied, ModelApplies;
  }

  lemma {:induction false} IndexAllowsAs(entries: seq<IndexEntry>, input: AuthorizationInput)
    ensures IndexScan(entries, input).stage.outcome == "allow" ==> IndexScan(entries, input).stage.policyId == Some("relationship:index")
  {
    hide IndexGrants;
    assert |"allow"| == 5 && |"abstain"| == 7;
    if entries == [] {
    } else {
      IndexAllowsAs(entries[1..], input);
    }
  }

  // ------------------------------------------------------------------------ traces

  // The step that an ACL row leaves in the trace.
  predicate TellsOf(st: Step, e: IndexEntry) {
    && st.step == "acl" && st.policyId == Some("acl:" + (if e.id.Some? then e.id.value else "None"))
    && st.outcome == (if Text.Lower(e.effect) in {"allow", "deny"} then Text.Lower(e.effect) else "abstain")
  }

  // The rows for the request up to the first that has an effect.
  function Told(rows: seq<IndexEntry>, input: AuthorizationInput): seq<IndexEntry> {
    if rows == [] then []
    else if !IsFor(rows[0], input) then Told(rows[1..], input)
    else if Text.Lower(rows[0].effect) in {"allow", "deny"} then [rows[0]]
    else [rows[0]] + Told(rows[1..], input)
  }

  /** The trace of the ACL stage has a step for each of those rows, in order, and no other
      but the one that says that there is none. */
  lemma {:induction false} AclTraceTells(rows: seq<IndexEntry>, input: AuthorizationInput, matched: bool)
    ensures
      var steps, told := AclScan(rows, input, matched).steps, Told(rows, input);
      if told == [] && !matched then |steps| == 1 && steps[0].outcome == "abstain" && steps[0].policyId == None
      else |steps| == |told| && forall i :: 0 <= i < |told| ==> TellsOf(steps[i], told[i])
  {
    hide AclMatches, IsFor, AclDetail, AclStep, AclId, TellsOf;
    if rows == [] {
    } else {
      IsForIs(rows[0], input);
      StepTells(rows[0], input);
      AclTraceTells(rows[1..], input, matched);
      AclTraceTells(rows[1..], input, true);
    }
  }

  lemma StepTells(e: IndexEntry, input: AuthorizationInput)
    ensures TellsOf(AclStep(e, input), e)
  {
  }

  lemma IsForIs(e: IndexEntry, input: AuthorizationInput)
    ensures AclMatches(e, input) <==> IsFor(e, input)
  {
    AclMatchesExactly(e, input);
  }

  // What each stage gives as its reason.
  lemma ReasonsAre(input: AuthorizationInput)
    ensures DirectStage(input).stage.outcome == "allow" ==> DirectStage(input).stage.reason == Some("explicit permission grant")
    ensures RoleStage(input).stage.outcome == "allow" ==> RoleStage(input).stage.reason == Some("role permission grant")
    ensures IndexStage(input).stage.outcome == "allow" ==>
      IndexStage(input).stage.reason == Some("relationship index match for " + TypeOf(input.resource) + ":" + IdOf(input.resource))
    ensures ModelStage(input).stage.outcome == "allow" ==>
      ModelStage(input).stage.reason == Some("matched authorization model permission " + input.action)
    ensures ModelStage(input).stage.outcome == "deny" ==>
      ModelStage(input).stage.reason == Some("authorization model denied " + input.action)
  {
    assert |"allow"| == 5 && |"deny"| == 4 && |"abstain"| == 7;
    IdentityIs(input.resource);
    IndexReason(input.indexEntries, input);
    hide IndexScan, ExplicitPermissions, Satisfied, ModelApplies;
  }

  lemma {:induction false} IndexReason(entries: seq<IndexEntry>, input: AuthorizationInput)
    ensures IndexScan(entries, input).stage.outcome == "allow" ==>
      IndexScan(entries, input).stage.reason == Some("relationship index match for " + ResourceType(input.resource) + ":" + ResourceId(input.resource))
  {
    hide IndexGrants, ResourceType, ResourceId;
    assert |"allow"| == 5 && |"abstain"| == 7;
    if entries == [] {
    } else {
      IndexReason(entries[1..], input);
    }
  }

  // An ACL decision names the row's subject, the action and the resource.
  lemma AclReason(input: AuthorizationInput) returns (e: IndexEntry)
    requires AclStage(input).stage.outcome != "abstain"
    ensures IsOffered(e, input) && IsFor(e, input)
    ensures AclStage(input).stage.reason ==
      Some("matched ACL entry " + e.subjectType + ":" + e.subjectId + " " + input.action + " "
           + TypeOf(input.resource) + ":" + IdOf(input.resource))
  {
    var i := AclScanFinds(AclRows(input), input, false);
    e := AclRows(input)[i];
    AclMatchesExactly(e, input);
    FromAclKeeps(input.indexEntries, e);
    IdentityIs(input.resource);
    hide AclMatches, AclScan, FromAcl, RowReaches, TypeOf, IdOf, AclId, ResourceType, ResourceId;
  }

  /** The final step explains the decision by its reason, but for an explicit permission,
      which has words of its own. */
  lemma FinalStepExplains(ps: seq<Policy>, ev: Evaluator, input: AuthorizationInput)
    ensures
      var d := Decide(ps, ev, input);
      && d.trace != []
      && d.trace[|d.trace| - 1].detail ==
           if d.policyId == Some("rbac:permissions") && d.allowed then "granted by explicit permission"
           else if d.reason.Some? && d.reason.value != "" then d.reason.value
           else "decision " + d.trace[|d.trace| - 1].outcome
  {
    var k := PipelineTakesFirst(Answers(ps, ev, input), [StartStep(input)]);
    hide Answers, Pipeline, StartStep, StepsOf;
    assert |"allow"| == 5 && |"no matching policy"| == 18;
  }
}
