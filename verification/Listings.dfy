/** The three listings that page by key: policies, the relationships of a subject, and
    the audit log. Each cursor predicate is its listing's order. */
module Listings {
  import opened Pagination
  import opened Sorting
  import opened Text

  // ---------------------------------------------------------------- policies

  datatype PolicyKey = PolicyKey(priority: int, id: int)

  function PolicyBefore(): (PolicyKey, PolicyKey) -> bool {
    (c: PolicyKey, r: PolicyKey) => r.priority > c.priority || (r.priority == c.priority && r.id > c.id)
  }

  lemma PolicyOrder()
    ensures StrictTotal(PolicyBefore())
  {
  }

  // ORDER BY priority, then id, each rising.
  lemma PolicyPredicateIsOrder(c: PolicyKey, r: PolicyKey)
    ensures PolicyBefore()(c, r) <==> ThenBy(CompareInt(c.priority, r.priority), CompareInt(c.id, r.id)) == Before
  {
  }

  // ------------------------------------------------------------ relationships

  datatype RelationshipKey = RelationshipKey(relation: string, objectType: string, objectId: string, id: int)

  // The cursor predicate as the query states it.
  function RelationshipBeyond(): (RelationshipKey, RelationshipKey) -> bool {
    (c: RelationshipKey, r: RelationshipKey) =>
      || TextBefore(c.relation, r.relation)
      || (r.relation == c.relation && TextBefore(c.objectType, r.objectType))
      || (r.relation == c.relation && r.objectType == c.objectType && TextBefore(c.objectId, r.objectId))
      || (r.relation == c.relation && r.objectType == c.objectType && r.objectId == c.objectId && r.id > c.id)
  }

  datatype Compared = Before | Same | After

  function CompareText(a: string, b: string): Compared {
    if TextBefore(a, b) then Before else if a == b then Same else After
  }

  function CompareInt(a: int, b: int): Compared {
    if a < b then Before else if a == b then Same else After
  }

  function ThenBy(first: Compared, second: Compared): Compared {
    if first == Same then second else first
  }

  // ORDER BY relation, object type, object id, id: the first column that differs decides.
  function CompareKeys(a: RelationshipKey, b: RelationshipKey): Compared {
    ThenBy(CompareText(a.relation, b.relation),
           ThenBy(CompareText(a.objectType, b.objectType),
                  ThenBy(CompareText(a.objectId, b.objectId),
                         CompareInt(a.id, b.id))))
  }

  // The four-column predicate is exactly the lexicographic order of the listing.
  lemma CursorPredicateIsOrder(c: RelationshipKey, r: RelationshipKey)
    ensures RelationshipBeyond()(c, r) <==> CompareKeys(c, r) == Before
  {
    TextIrreflexive(c.relation);
    TextIrreflexive(c.objectType);
    TextIrreflexive(c.objectId);
    hide TextBefore;
  }

  lemma RelationshipTransitive(a: RelationshipKey, b: RelationshipKey, c: RelationshipKey)
    requires RelationshipBeyond()(a, b) && RelationshipBeyond()(b, c)
    ensures RelationshipBeyond()(a, c)
  {
    if TextBefore(a.relation, b.relation) && TextBefore(b.relation, c.relation) {
      TextTransitive(a.relation, b.relation, c.relation);
    }
    if TextBefore(a.objectType, b.objectType) && TextBefore(b.objectType, c.objectType) {
      TextTransitive(a.objectType, b.objectType, c.objectType);
    }
    if TextBefore(a.objectId, b.objectId) && TextBefore(b.objectId, c.objectId) {
      TextTransitive(a.objectId, b.objectId, c.objectId);
    }
    hide TextBefore;
  }

  lemma RelationshipTotal(a: RelationshipKey, b: RelationshipKey)
    ensures !RelationshipBeyond()(a, a)
    ensures a != b ==> RelationshipBeyond()(a, b) || RelationshipBeyond()(b, a)
  {
    TextIrreflexive(a.relation);
    TextIrreflexive(a.objectType);
    TextIrreflexive(a.objectId);
    if a.relation != b.relation {
      TextTotal(a.relation, b.relation);
    } else if a.objectType != b.objectType {
      TextTotal(a.objectType, b.objectType);
    } else if a.objectId != b.objectId {
      TextTotal(a.objectId, b.objectId);
    }
    hide TextBefore;
  }

  lemma RelationshipOrder()
    ensures StrictTotal(RelationshipBeyond())
  {
    forall a: RelationshipKey, b: RelationshipKey
      ensures !RelationshipBeyond()(a, a)
      ensures a != b ==> RelationshipBeyond()(a, b) || RelationshipBeyond()(b, a)
    {
      RelationshipTotal(a, b);
    }
    forall a: RelationshipKey, b: RelationshipKey, c: RelationshipKey | RelationshipBeyond()(a, b) && RelationshipBeyond()(b, c)
      ensures RelationshipBeyond()(a, c)
    {
      RelationshipTransitive(a, b, c);
    }
    hide RelationshipBeyond;
  }

  // --------------------------------------------------------------- audit log

  // Newest first, by moment and then by id.
  datatype AuditKey = AuditKey(createdAt: int, id: int)

  function AuditBefore(): (AuditKey, AuditKey) -> bool {
    (c: AuditKey, r: AuditKey) => r.createdAt < c.createdAt || (r.createdAt == c.createdAt && r.id < c.id)
  }

  lemma AuditOrder()
    ensures StrictTotal(AuditBefore())
  {
  }

  // ORDER BY moment, then id, each falling.
  lemma AuditPredicateIsOrder(c: AuditKey, r: AuditKey)
    ensures AuditBefore()(c, r) <==> ThenBy(CompareInt(r.createdAt, c.createdAt), CompareInt(r.id, c.id)) == Before
  {
  }

  // --------------------------------------------------- what a client may rely on

  // Following the policy cursors while policies come and go.
  lemma PolicyWalk(tables: seq<seq<PolicyKey>>, limit: nat)
    requires AllDistinct(tables) && limit > 0 && Walk(tables, limit, PolicyBefore())
    ensures
      var returned := Returned(tables, limit, PolicyBefore(), |tables|);
      && Distinct(returned)
      && forall y :: (forall k :: 0 <= k < |tables| ==> y in tables[k]) ==> y in returned
  {
    PolicyOrder();
    WalkMissesNothing(tables, limit, PolicyBefore());
  }

  lemma RelationshipWalk(tables: seq<seq<RelationshipKey>>, limit: nat)
    requires AllDistinct(tables) && limit > 0 && Walk(tables, limit, RelationshipBeyond())
    ensures
      var returned := Returned(tables, limit, RelationshipBeyond(), |tables|);
      && Distinct(returned)
      && forall y :: (forall k :: 0 <= k < |tables| ==> y in tables[k]) ==> y in returned
  {
    RelationshipOrder();
    WalkMissesNothing(tables, limit, RelationshipBeyond());
    AscendingDistinct(Returned(tables, limit, RelationshipBeyond(), |tables|), RelationshipBeyond());
    hide RelationshipBeyond;
  }

  lemma AscendingDistinct<K(!new)>(s: seq<K>, less: (K, K) -> bool)
    requires StrictTotal(less) && Ascending(s, less)
    ensures Distinct(s)
  {
  }

  lemma AuditWalk(tables: seq<seq<AuditKey>>, limit: nat)
    requires AllDistinct(tables) && limit > 0 && Walk(tables, limit, AuditBefore())
    ensures
      var returned := Returned(tables, limit, AuditBefore(), |tables|);
      && Distinct(returned)
      && forall y :: (forall k :: 0 <= k < |tables| ==> y in tables[k]) ==> y in returned
  {
    AuditOrder();
    WalkMissesNothing(tables, limit, AuditBefore());
  }
}
