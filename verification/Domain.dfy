/** The explicit request the engine evaluates, and the records it is built from. */
module Domain {
  import opened Wrappers
  import SchemaParser

  // A stored JSON value. Condition operands are compared but never inspected here.
  datatype Json =
    | Null
    | Bool(b: bool)
    | Number(n: int)
    | Text(s: string)
    | Array(items: seq<Json>)
    | Object(members: map<string, Json>)

  datatype Relation = Relation(relation: string, objectType: string, objectId: string)

  /** A hydrated user. A field that is missing or not a list is an empty list;
      `directPermissions` is None when the key itself is missing. `attributes` is
      everything else a condition handler may look at, such as the role. */
  datatype User = User(
    id: Option<string>,
    roles: seq<string>,
    permissions: seq<string>,
    directPermissions: Option<seq<string>>,
    rolePermissions: seq<string>,
    relations: seq<Relation>,
    attributes: map<string, Json>)

  // A missing or falsy name is "". `attributes` holds amount, owner and the like.
  datatype Resource = Resource(
    resourceType: string,
    typeName: string,
    kind: string,
    entityType: string,
    resourceId: string,
    id: string,
    attributes: map<string, Json>)

  // One row of the access index: an ACL row or the resource's relationships.
  datatype IndexEntry = IndexEntry(
    resourceType: string,
    resourceId: string,
    action: string,
    allowedSubjects: seq<string>,
    source: string,
    subjectType: string,
    subjectId: string,
    effect: string,
    id: Option<string>)

  datatype Model = Model(permissions: map<string, SchemaParser.Expr>)

  datatype AuthorizationInput = AuthorizationInput(
    user: User,
    resource: Resource,
    action: string,
    context: map<string, Json>,
    aclEntries: seq<IndexEntry>,
    indexEntries: seq<IndexEntry>,
    model: Option<Model>)

  function FirstNonEmpty(names: seq<string>): string {
    if names == [] then "" else if names[0] != "" then names[0] else FirstNonEmpty(names[1..])
  }

  // ---------------------------------------------------------------- policies

  // A dictionary of conditions, in its own order.
  type Conditions = seq<(string, Json)>

  predicate DistinctKeys(c: Conditions) {
    forall i, j :: 0 <= i < j < |c| ==> c[i].0 != c[j].0
  }

  datatype Policy = Policy(
    action: string,
    effect: string,
    priority: int,
    policyId: Option<string>,
    conditions: Conditions)

  // What a condition handler answers; a key may also have no handler.
  datatype Check = Unknown | Holds | Fails(reason: Option<string>)

  type Evaluator = (string, Json, AuthorizationInput) -> Check
}
