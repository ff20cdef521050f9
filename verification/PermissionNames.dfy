/** Permissions that name permissions: the validator accepts them, and the evaluator
    looks every name up as a relation. */
module PermissionNames {
  import opened Wrappers
  import opened Domain
  import opened SchemaParser
  import opened ModelValidator
  import Engine
  import ModelFile

  type Schema = ModelFile.Schema

  // The model compiled from a schema, one expression for each permission.
  function Compiled(s: Schema): Model {
    Model(PermissionMap(s.permissions))
  }

  function PermissionMap(ps: seq<(string, Expr)>): map<string, Expr> {
    if ps == [] then map[] else map[ps[0].0 := ps[0].1] + PermissionMap(ps[1..])
  }

  // ------------------------------------------------------ evaluation as it is

  // The relations that the user of an input has to its resource.
  function Held(input: AuthorizationInput): set<string> {
    set r | r in input.user.relations
            && r.objectType == Engine.ModelResourceType(input.resource) && r.objectId == Engine.ResourceId(input.resource)
      :: r.relation
  }

  // An expression with every name looked up in a set.
  predicate Holds(e: Expr, held: set<string>) {
    match e
    case Identifier(n) => n in held
    case Not(x) => !Holds(x, held)
    case And(l, r) => Holds(l, held) && Holds(r, held)
    case Or(l, r) => Holds(l, held) || Holds(r, held)
  }

  lemma {:induction false} EvaluationLooksUp(e: Expr, input: AuthorizationInput)
    ensures Engine.Satisfied(e, input) == Holds(e, Held(input))
  {
    match e
    case Identifier(n) =>
      if Engine.HasRelation(n, input) {
        assert Relation(n, Engine.ModelResourceType(input.resource), Engine.ResourceId(input.resource)) in input.user.relations;
      }
    case Not(x) => EvaluationLooksUp(x, input);
    case And(l, r) =>
      EvaluationLooksUp(l, input);
      EvaluationLooksUp(r, input);
    case Or(l, r) =>
      EvaluationLooksUp(l, input);
      EvaluationLooksUp(r, input);
  }

  // --------------------------------------------------------------- unfolding

  // A name that only a permission has.
  predicate NamesPermission(s: Schema, n: string) {
    IsKey(s.permissions, n) && !IsKey(s.relations, n)
  }

  function ExpressionNamed(ps: seq<(string, Expr)>, n: string): Expr
    requires IsKey(ps, n)
  {
    if ps[0].0 == n then ps[0].1
    else
      assert IsKey(ps[1..], n) by {
        var i :| 0 <= i < |ps| && ps[i].0 == n;
        assert ps[1..][i - 1].0 == n;
      }
      ExpressionNamed(ps[1..], n)
  }

  // An expression with the permissions it names replaced by their own expressions, so
  // many levels deep; a permission met below that counts as not granted.
  predicate Unfolded(e: Expr, s: Schema, held: set<string>, depth: nat)
    decreases depth, e
  {
    match e
    case Identifier(n) =>
      if !NamesPermission(s, n) then n in held
      else depth > 0 && Unfolded(ExpressionNamed(s.permissions, n), s, held, depth - 1)
    case Not(x) => !Unfolded(x, s, held, depth)
    case And(l, r) => Unfolded(l, s, held, depth) && Unfolded(r, s, held, depth)
    case Or(l, r) => Unfolded(l, s, held, depth) || Unfolded(r, s, held, depth)
  }

  // Every permission names only permissions of a lower rank.
  ghost predicate Ranked(s: Schema, rank: string -> nat) {
    forall p, n :: NamesPermission(s, p) && n in Names(ExpressionNamed(s.permissions, p)) && NamesPermission(s, n)
      ==> rank(n) < rank(p)
  }

  // Without a cycle among the permissions, any depth beyond the ranks gives the same.
  lemma {:induction false} DepthEnough(e: Expr, s: Schema, held: set<string>, rank: string -> nat, a: nat, b: nat)
    requires Ranked(s, rank)
    requires forall n :: n in Names(e) && NamesPermission(s, n) ==> rank(n) < a && rank(n) < b
    ensures Unfolded(e, s, held, a) == Unfolded(e, s, held, b)
    decreases a, e
  {
    match e
    case Identifier(n) =>
      if NamesPermission(s, n) {
        assert n in Names(e);
        DepthEnough(ExpressionNamed(s.permissions, n), s, held, rank, a - 1, b - 1);
      }
    case Not(x) => DepthEnough(x, s, held, rank, a, b);
    case And(l, r) =>
      DepthEnough(l, s, held, rank, a, b);
      DepthEnough(r, s, held, rank, a, b);
    case Or(l, r) =>
      DepthEnough(l, s, held, rank, a, b);
      DepthEnough(r, s, held, rank, a, b);
  }

  // ------------------------------------------------------- when the two agree

  ghost predicate Agrees(e: Expr, s: Schema, depth: nat) {
    forall input: AuthorizationInput :: Engine.Satisfied(e, input) == Unfolded(e, s, Held(input), depth)
  }

  ghost predicate SameRelations(s: Schema, a: set<string>, b: set<string>) {
    forall n :: !NamesPermission(s, n) ==> (n in a <==> n in b)
  }

  // The value never depends on relations that bear a permission's name.
  ghost predicate IgnoresPermissionNames(e: Expr, s: Schema) {
    forall a, b :: SameRelations(s, a, b) ==> Holds(e, a) == Holds(e, b)
  }

  ghost function Edges(held: set<string>): (edges: seq<Relation>)
    ensures forall e :: e in edges <==> e.relation in held && e.objectType == "doc" && e.objectId == "1"
  {
    if held == {} then []
    else
      var n :| n in held;
      [Relation(n, "doc", "1")] + Edges(held - {n})
  }

  // Any set of names is what some user holds.
  lemma SomeInputHolds(held: set<string>) returns (input: AuthorizationInput)
    ensures Held(input) == held
  {
    var user := User(None, [], [], None, [], Edges(held), map[]);
    input := AuthorizationInput(user, Resource("doc", "", "", "", "1", "", map[]), "", map[], [], [], None);
    forall n | n in held ensures n in Held(input) {
      assert Relation(n, "doc", "1") in input.user.relations;
    }
  }

  lemma AgreesMeans(e: Expr, s: Schema, depth: nat)
    ensures Agrees(e, s, depth) <==> forall held :: Holds(e, held) == Unfolded(e, s, held, depth)
  {
    forall input: AuthorizationInput ensures Engine.Satisfied(e, input) == Holds(e, Held(input)) {
      EvaluationLooksUp(e, input);
    }
    hide Held, Holds, Unfolded, Engine.Satisfied;
    if Agrees(e, s, depth) {
      forall held ensures Holds(e, held) == Unfolded(e, s, held, depth) {
        var input := SomeInputHolds(held);
        assert Engine.Satisfied(e, input) == Unfolded(e, s, Held(input), depth);
      }
    } else {
      var input: AuthorizationInput :| Engine.Satisfied(e, input) != Unfolded(e, s, Held(input), depth);
      assert Holds(e, Held(input)) != Unfolded(e, s, Held(input), depth);
    }
  }

  lemma {:induction false} UnfoldedReadsRelations(e: Expr, s: Schema, a: set<string>, b: set<string>, depth: nat)
    requires SameRelations(s, a, b)
    ensures Unfolded(e, s, a, depth) == Unfolded(e, s, b, depth)
    decreases depth, e
  {
    match e
    case Identifier(n) =>
      if NamesPermission(s, n) && depth > 0 {
        UnfoldedReadsRelations(ExpressionNamed(s.permissions, n), s, a, b, depth - 1);
      }
    case Not(x) => UnfoldedReadsRelations(x, s, a, b, depth);
    case And(l, r) =>
      UnfoldedReadsRelations(l, s, a, b, depth);
      UnfoldedReadsRelations(r, s, a, b, depth);
    case Or(l, r) =>
      UnfoldedReadsRelations(l, s, a, b, depth);
      UnfoldedReadsRelations(r, s, a, b, depth);
  }

  // The set in which each permission's name stands for what the permission unfolds to.
  function Resolved(names: set<string>, s: Schema, held: set<string>, depth: nat): set<string> {
    (set n | n in held && !NamesPermission(s, n)) + (set n | n in names && NamesPermission(s, n) && Unfolded(Identifier(n), s, held, depth))
  }

  lemma {:induction false} ResolvedUnfolds(e: Expr, names: set<string>, s: Schema, held: set<string>, depth: nat)
    requires Names(e) <= names
    ensures Holds(e, Resolved(names, s, held, depth)) == Unfolded(e, s, held, depth)
    decreases e
  {
    match e
    case Identifier(n) =>
      assert n in Names(e);
    case Not(x) => ResolvedUnfolds(x, names, s, held, depth);
    case And(l, r) =>
      ResolvedUnfolds(l, names, s, held, depth);
      ResolvedUnfolds(r, names, s, held, depth);
    case Or(l, r) =>
      ResolvedUnfolds(l, names, s, held, depth);
      ResolvedUnfolds(r, names, s, held, depth);
  }

  /** For every input, evaluating an expression is unfolding the permissions it names, to
      any depth, exactly when its value does not depend on relations that bear a
      permission's name. */
  lemma AgreesExactly(e: Expr, s: Schema, depth: nat)
    ensures Agrees(e, s, depth) <==> IgnoresPermissionNames(e, s)
  {
    AgreesMeans(e, s, depth);
    hide Agrees, Holds, Unfolded, SameRelations, Resolved;
    if Agrees(e, s, depth) {
      forall a, b | SameRelations(s, a, b) ensures Holds(e, a) == Holds(e, b) {
        UnfoldedReadsRelations(e, s, a, b, depth);
      }
    }
    if IgnoresPermissionNames(e, s) {
      forall held ensures Holds(e, held) == Unfolded(e, s, held, depth) {
        ResolvedUnfolds(e, Names(e), s, held, depth);
        ResolvedSame(Names(e), s, held, depth);
      }
    }
  }

  lemma ResolvedSame(names: set<string>, s: Schema, held: set<string>, depth: nat)
    ensures SameRelations(s, held, Resolved(names, s, held, depth))
  {
    hide Unfolded, NamesPermission;
  }

  // ------------------------------------------- expressions that repeat no name

  predicate RepeatsNoName(e: Expr) {
    match e
    case Identifier(_) => true
    case Not(x) => RepeatsNoName(x)
    case And(l, r) => Names(l) !! Names(r) && RepeatsNoName(l) && RepeatsNoName(r)
    case Or(l, r) => Names(l) !! Names(r) && RepeatsNoName(l) && RepeatsNoName(r)
  }

  lemma {:induction false} OnlyOwnNames(e: Expr, a: set<string>, b: set<string>)
    requires a * Names(e) == b * Names(e)
    ensures Holds(e, a) == Holds(e, b)
  {
    match e
    case Identifier(n) =>
      assert n in a <==> n in a * Names(e);
      assert n in b <==> n in b * Names(e);
    case Not(x) => OnlyOwnNames(x, a, b);
    case And(l, r) =>
      OwnParts(e, l, a, b);
      OwnParts(e, r, a, b);
      OnlyOwnNames(l, a, b);
      OnlyOwnNames(r, a, b);
    case Or(l, r) =>
      OwnParts(e, l, a, b);
      OwnParts(e, r, a, b);
      OnlyOwnNames(l, a, b);
      OnlyOwnNames(r, a, b);
  }

  lemma OwnParts(e: Expr, part: Expr, a: set<string>, b: set<string>)
    requires a * Names(e) == b * Names(e) && Names(part) <= Names(e)
    ensures a * Names(part) == b * Names(part)
  {
    forall n ensures n in a * Names(part) <==> n in b * Names(part) {
      assert n in a * Names(e) <==> n in b * Names(e);
    }
  }

  // Some sets of its own names make it hold and fail.
  lemma {:induction false} BothValues(e: Expr) returns (yes: set<string>, no: set<string>)
    requires RepeatsNoName(e)
    ensures yes <= Names(e) && no <= Names(e) && Holds(e, yes) && !Holds(e, no)
  {
    match e
    case Identifier(n) =>
      yes, no := {n}, {};
    case Not(x) =>
      no, yes := BothValues(x);
    case And(l, r) =>
      var a, b := BothValues(l);
      var c, d := BothValues(r);
      yes, no := a + c, b + d;
      Joined(l, r, a, c);
      Joined(l, r, b, d);
    case Or(l, r) =>
      var a, b := BothValues(l);
      var c, d := BothValues(r);
      yes, no := a + c, b + d;
      Joined(l, r, a, c);
      Joined(l, r, b, d);
  }

  // Two expressions without common names can be given their sets together.
  lemma Joined(l: Expr, r: Expr, a: set<string>, b: set<string>)
    requires Names(l) !! Names(r) && a <= Names(l) && b <= Names(r)
    ensures Holds(l, a + b) == Holds(l, a) && Holds(r, a + b) == Holds(r, b)
  {
    assert (a + b) * Names(l) == a * Names(l);
    assert (a + b) * Names(r) == b * Names(r);
    OnlyOwnNames(l, a + b, a);
    OnlyOwnNames(r, a + b, b);
  }

  // It depends on each of its names.
  lemma {:induction false} EveryNameMatters(e: Expr, n: string) returns (held: set<string>)
    requires RepeatsNoName(e) && n in Names(e)
    ensures held <= Names(e) && Holds(e, held + {n}) != Holds(e, held - {n})
  {
    match e
    case Identifier(_) =>
      held := {};
    case Not(x) =>
      held := EveryNameMatters(x, n);
    case And(l, r) =>
      if n in Names(l) {
        var a := EveryNameMatters(l, n);
        var yes, no := BothValues(r);
        held := a + yes;
        AddedBeside(l, r, a, yes, n);
      } else {
        var b := EveryNameMatters(r, n);
        var yes, no := BothValues(l);
        held := b + yes;
        AddedBeside(r, l, b, yes, n);
      }
    case Or(l, r) =>
      if n in Names(l) {
        var a := EveryNameMatters(l, n);
        var yes, no := BothValues(r);
        held := a + no;
        AddedBeside(l, r, a, no, n);
      } else {
        var b := EveryNameMatters(r, n);
        var yes, no := BothValues(l);
        held := b + no;
        AddedBeside(r, l, b, no, n);
      }
  }

  lemma AddedBeside(l: Expr, r: Expr, a: set<string>, b: set<string>, n: string)
    requires Names(l) !! Names(r) && a <= Names(l) && b <= Names(r) && n in Names(l)
    ensures Holds(l, a + b + {n}) == Holds(l, a + {n}) && Holds(l, a + b - {n}) == Holds(l, a - {n})
    ensures Holds(r, a + b + {n}) == Holds(r, b) && Holds(r, a + b - {n}) == Holds(r, b)
  {
    assert n !in Names(r);
    assert a + b + {n} == (a + {n}) + b && a + b - {n} == (a - {n}) + b;
    Joined(l, r, a + {n}, b);
    Joined(l, r, a - {n}, b);
  }

  lemma PermissionNameMatters(e: Expr, s: Schema, n: string)
    requires RepeatsNoName(e) && n in Names(e) && NamesPermission(s, n)
    ensures !IgnoresPermissionNames(e, s)
  {
    hide NamesPermission;
    var held := EveryNameMatters(e, n);
    assert SameRelations(s, held + {n}, held - {n});
  }

  /** An expression that repeats no name means the same evaluated as unfolded exactly when
      none of its names is that of a permission and no relation. */
  lemma AgreesOnRelationsOnly(e: Expr, s: Schema, depth: nat)
    requires RepeatsNoName(e)
    ensures Agrees(e, s, depth) <==> forall n :: n in Names(e) ==> !NamesPermission(s, n)
  {
    AgreesExactly(e, s, depth);
    hide Agrees, NamesPermission;
    if forall n :: n in Names(e) ==> !NamesPermission(s, n) {
      forall a, b | SameRelations(s, a, b) ensures Holds(e, a) == Holds(e, b) {
        assert a * Names(e) == b * Names(e);
        OnlyOwnNames(e, a, b);
      }
    }
    if IgnoresPermissionNames(e, s) {
      forall n | n in Names(e) ensures !NamesPermission(s, n) {
        if NamesPermission(s, n) {
          PermissionNameMatters(e, s, n);
        }
      }
    }
  }

  // ---------------------------------------------------------------- an example

  // Viewing is for owners, and editing for those who may view.
  const NESTED := ModelFile.Schema(
    1, ["doc", "user"], [("owner", ["user"])], [("view", Identifier("owner")), ("edit", Identifier("view"))])

  function OwnerDoes(action: string): AuthorizationInput {
    AuthorizationInput(
      User(Some("7"), [], [], None, [], [Relation("owner", "doc", "1")], map[]),
      Resource("doc", "", "", "", "1", "", map[]),
      action, map[], [], [],
      Some(Compiled(NESTED)))
  }

  // The model passes validation, yet its owner may view and not edit.
  lemma PermissionIsNotUnfolded()
    ensures Validate(NESTED).None?
    ensures Engine.ModelStage(OwnerDoes("view")).stage.outcome == "allow"
    ensures Engine.ModelStage(OwnerDoes("edit")).stage.outcome == "deny"
    ensures Unfolded(Identifier("view"), NESTED, Held(OwnerDoes("edit")), 1)
  {
    assert |"owner"| == 5 && |"view"| == 4 && |"edit"| == 4 && "view"[0] != "edit"[0];
    assert NESTED.relations[0].0 == "owner" && NESTED.permissions[0].0 == "view" && NESTED.permissions[1].0 == "edit";
    assert IsKey(NESTED.relations, "owner") && IsKey(NESTED.permissions, "view");
    assert !IsKey(NESTED.relations, "view");
    assert NESTED.permissions[1..] == [("edit", Identifier("view"))] && NESTED.relations[1..] == [];
    assert Compiled(NESTED).permissions == map["view" := Identifier("owner"), "edit" := Identifier("view")];
    assert Relation("owner", "doc", "1") in OwnerDoes("edit").user.relations;
    assert "owner" in Held(OwnerDoes("edit"));
  }
}
