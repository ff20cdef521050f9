/** Validation of a parsed authorization model, and what it asks of a model file. */
module ModelValidator {
  import opened Wrappers
  import opened TextLines
  import opened ModelFile
  import opened ModelRoundTrip

  datatype Complaint =
    | VersionTooLow
    | NoTypes
    | NoUserType
    | NoPermissions
    | UnnamedRelation
    | UnknownSubject(relation: string, subject: string)
    | UnnamedPermission
    | UnknownName(name: string)

  predicate IsKey<V>(entries: seq<(string, V)>, name: string) {
    exists i :: 0 <= i < |entries| && entries[i].0 == name
  }

  function ValidateSubjects(name: string, subjects: seq<string>, types: seq<string>): Option<Complaint> {
    if subjects == [] then None
    else if subjects[0] !in types then Some(UnknownSubject(name, subjects[0]))
    else ValidateSubjects(name, subjects[1..], types)
  }

  function ValidateRelations(rs: seq<(string, seq<string>)>, types: seq<string>): Option<Complaint> {
    if rs == [] then None
    else if rs[0].0 == "" then Some(UnnamedRelation)
    else
      match ValidateSubjects(rs[0].0, rs[0].1, types)
      case Some(complaint) => Some(complaint)
      case None => ValidateRelations(rs[1..], types)
  }

  function ValidateExpr(e: Expr, s: Schema): Option<Complaint> {
    match e
    case Identifier(n) => if !IsKey(s.relations, n) && !IsKey(s.permissions, n) then Some(UnknownName(n)) else None
    case Not(x) => ValidateExpr(x, s)
    case And(l, r) => if ValidateExpr(l, s).Some? then ValidateExpr(l, s) else ValidateExpr(r, s)
    case Or(l, r) => if ValidateExpr(l, s).Some? then ValidateExpr(l, s) else ValidateExpr(r, s)
  }

  function ValidatePermissions(ps: seq<(string, Expr)>, s: Schema): Option<Complaint> {
    if ps == [] then None
    else if ps[0].0 == "" then Some(UnnamedPermission)
    else
      match ValidateExpr(ps[0].1, s)
      case Some(complaint) => Some(complaint)
      case None => ValidatePermissions(ps[1..], s)
  }

  // The first thing wrong with a schema.
  function Validate(s: Schema): Option<Complaint> {
    if s.version < 1 then Some(VersionTooLow)
    else if s.types == [] then Some(NoTypes)
    else if "user" !in s.types then Some(NoUserType)
    else if s.permissions == [] then Some(NoPermissions)
    else
      match ValidateRelations(s.relations, s.types)
      case Some(complaint) => Some(complaint)
      case None => ValidatePermissions(s.permissions, s)
  }

  // ------------------------------------------------------------ what it accepts

  function Names(e: Expr): set<string> {
    match e
    case Identifier(n) => {n}
    case Not(x) => Names(x)
    case And(l, r) => Names(l) + Names(r)
    case Or(l, r) => Names(l) + Names(r)
  }

  ghost predicate Known(e: Expr, s: Schema) {
    forall n :: n in Names(e) ==> IsKey(s.relations, n) || IsKey(s.permissions, n)
  }

  ghost predicate Acceptable(s: Schema) {
    && s.version >= 1 && "user" in s.types && s.permissions != []
    && (forall r :: r in s.relations ==> r.0 != "" && forall n :: n in r.1 ==> n in s.types)
    && (forall p :: p in s.permissions ==> p.0 != "" && Known(p.1, s))
  }

  lemma {:induction false} SubjectsAccepted(name: string, subjects: seq<string>, types: seq<string>)
    ensures ValidateSubjects(name, subjects, types).None? <==> forall n :: n in subjects ==> n in types
  {
    if subjects == [] {
    } else {
      SubjectsAccepted(name, subjects[1..], types);
      assert subjects == [subjects[0]] + subjects[1..];
    }
  }

  lemma {:induction false} RelationsAccepted(rs: seq<(string, seq<string>)>, types: seq<string>)
    ensures ValidateRelations(rs, types).None? <==>
      forall r :: r in rs ==> r.0 != "" && forall n :: n in r.1 ==> n in types
  {
    if rs == [] {
    } else {
      SubjectsAccepted(rs[0].0, rs[0].1, types);
      RelationsAccepted(rs[1..], types);
      assert rs == [rs[0]] + rs[1..];
    }
  }

  lemma {:induction false} ExprAccepted(e: Expr, s: Schema)
    ensures ValidateExpr(e, s).None? <==> Known(e, s)
  {
    hide IsKey;
    match e
    case Identifier(_) =>
    case Not(x) => ExprAccepted(x, s);
    case And(l, r) =>
      ExprAccepted(l, s);
      ExprAccepted(r, s);
    case Or(l, r) =>
      ExprAccepted(l, s);
      ExprAccepted(r, s);
  }

  lemma {:induction false} PermissionsAccepted(ps: seq<(string, Expr)>, s: Schema)
    ensures ValidatePermissions(ps, s).None? <==> forall p :: p in ps ==> p.0 != "" && Known(p.1, s)
  {
    hide Known, ValidateExpr;
    if ps == [] {
    } else {
      ExprAccepted(ps[0].1, s);
      PermissionsAccepted(ps[1..], s);
      assert ps == [ps[0]] + ps[1..];
    }
  }

  // Validation finds nothing wrong exactly with the schemas that are well put together.
  lemma ValidatesExactly(s: Schema)
    ensures Validate(s).None? <==> Acceptable(s)
  {
    RelationsAccepted(s.relations, s.types);
    PermissionsAccepted(s.permissions, s);
    hide Known, ValidateRelations, ValidatePermissions;
  }

  // What a complaint says of a schema.
  ghost predicate IsFault(complaint: Complaint, s: Schema) {
    match complaint
    case VersionTooLow => s.version < 1
    case NoTypes => s.types == []
    case NoUserType => "user" !in s.types
    case NoPermissions => s.permissions == []
    case UnnamedRelation => exists r :: r in s.relations && r.0 == ""
    case UnknownSubject(relation, subject) => subject !in s.types && exists r :: r in s.relations && r.0 == relation && subject in r.1
    case UnnamedPermission => exists p :: p in s.permissions && p.0 == ""
    case UnknownName(name) =>
      && (forall i :: 0 <= i < |s.relations| ==> s.relations[i].0 != name)
      && (forall i :: 0 <= i < |s.permissions| ==> s.permissions[i].0 != name)
      && exists p :: p in s.permissions && name in Names(p.1)
  }

  lemma {:induction false} SubjectFault(name: string, subjects: seq<string>, types: seq<string>)
    ensures
      match ValidateSubjects(name, subjects, types)
      case Some(complaint) => complaint.UnknownSubject? && complaint.relation == name && complaint.subject in subjects && complaint.subject !in types
      case None => true
  {
    if subjects == [] {
    } else {
      SubjectFault(name, subjects[1..], types);
    }
  }

  lemma {:induction false} RelationFault(rs: seq<(string, seq<string>)>, s: Schema)
    requires forall r :: r in rs ==> r in s.relations
    ensures
      match ValidateRelations(rs, s.types)
      case Some(complaint) => IsFault(complaint, s)
      case None => true
  {
    if rs == [] {
    } else {
      assert rs[0] in rs;
      SubjectFault(rs[0].0, rs[0].1, s.types);
      RelationFault(rs[1..], s);
    }
  }

  lemma {:induction false} ExprFault(e: Expr, s: Schema)
    ensures
      match ValidateExpr(e, s)
      case Some(complaint) => complaint.UnknownName? && complaint.name in Names(e) && !IsKey(s.relations, complaint.name) && !IsKey(s.permissions, complaint.name)
      case None => true
  {
    hide IsKey;
    match e
    case Identifier(_) =>
    case Not(x) => ExprFault(x, s);
    case And(l, r) =>
      ExprFault(l, s);
      ExprFault(r, s);
    case Or(l, r) =>
      ExprFault(l, s);
      ExprFault(r, s);
  }

  lemma {:induction false} PermissionFault(ps: seq<(string, Expr)>, s: Schema)
    requires forall p :: p in ps ==> p in s.permissions
    ensures
      match ValidatePermissions(ps, s)
      case Some(complaint) => IsFault(complaint, s)
      case None => true
  {
    if ps == [] {
    } else {
      assert ps[0] in ps;
      ExprFault(ps[0].1, s);
      PermissionFault(ps[1..], s);
    }
  }

  // Whatever validation complains of is really wrong.
  lemma ComplaintIsTrue(s: Schema)
    ensures Validate(s).Some? ==> IsFault(Validate(s).value, s)
  {
    RelationFault(s.relations, s);
    PermissionFault(s.permissions, s);
    hide IsFault, ValidateRelations, ValidatePermissions;
    PlainFaults(s);
  }

  lemma PlainFaults(s: Schema)
    ensures s.version < 1 ==> IsFault(VersionTooLow, s)
    ensures s.types == [] ==> IsFault(NoTypes, s)
    ensures "user" !in s.types ==> IsFault(NoUserType, s)
    ensures s.permissions == [] ==> IsFault(NoPermissions, s)
  {
  }

  // ------------------------------------------------------------ of a model file

  lemma {:induction false} RelationsKept(rs: seq<Relation>)
    ensures |WithNames(rs)| == |rs|
    ensures forall i :: 0 <= i < |rs| ==> WithNames(rs)[i] == (rs[i].0, rs[i].1.Names())
  {
    if rs == [] {
    } else {
      RelationsKept(rs[1..]);
    }
  }

  ghost predicate Declared(m: Mapping, e: Expr) {
    forall n :: n in Names(e) ==> IsKey(m.relations, n) || IsKey(m.permissions, n)
  }

  lemma RelationsFit(m: Mapping)
    requires WellFormed(m)
    ensures forall r :: r in WithNames(m.relations) ==> r.0 != "" && forall n :: n in r.1 ==> n in TypesOf(m)
  {
    hide WithNames, TypesOf, ObjectType, Subjects.Names;
    RelationsKept(m.relations);
    TypesSortedDistinct(m);
    forall r | r in WithNames(m.relations) ensures r.0 != "" && forall n :: n in r.1 ==> n in TypesOf(m) {
      var i :| 0 <= i < |m.relations| && WithNames(m.relations)[i] == r;
      assert m.relations[i] in m.relations;
    }
  }

  lemma SameKeys<V, W>(a: seq<(string, V)>, b: seq<(string, W)>, name: string)
    requires |a| == |b| && forall i :: 0 <= i < |a| ==> a[i].0 == b[i].0
    ensures IsKey(a, name) <==> IsKey(b, name)
  {
    if IsKey(a, name) {
      var i :| 0 <= i < |a| && a[i].0 == name;
      assert b[i].0 == name;
    }
    if IsKey(b, name) {
      var i :| 0 <= i < |b| && b[i].0 == name;
      assert a[i].0 == name;
    }
  }

  lemma SameDeclarations(m: Mapping, s: Schema, e: Expr)
    requires s.relations == WithNames(m.relations) && |s.permissions| == |m.permissions|
    requires forall i :: 0 <= i < |s.permissions| ==> s.permissions[i].0 == m.permissions[i].0
    ensures Known(e, s) <==> Declared(m, e)
  {
    RelationsKept(m.relations);
    forall n ensures IsKey(s.relations, n) <==> IsKey(m.relations, n) {
      SameKeys(s.relations, m.relations, n);
    }
    forall n ensures IsKey(s.permissions, n) <==> IsKey(m.permissions, n) {
      SameKeys(s.permissions, m.permissions, n);
    }
    hide IsKey, WithNames;
  }

  /** A well-formed model file that is read back whole passes validation exactly when its
      version is at least 1, it has a permission, and every name in its expressions is
      one of its relations or permissions: its types always fit its relations. */
  lemma RenderedModelValidates(m: Mapping)
    requires WellFormed(m) && Restores(m)
    ensures Validate(SchemaOf(SchemaText(m).value).value).None? <==>
      && m.version >= 1 && m.permissions != []
      && forall p :: p in m.permissions ==> Declared(m, ExpressionOf(p.1).value)
  {
    hide SchemaOf, SchemaText, ExpressionOf, TypesOf, RelationOk, ObjectType, WithNames, Known, Declared, Validate, IsBreak;
    var s := SchemaOf(SchemaText(m).value).value;
    ValidatesExactly(s);
    RelationsFit(m);
    TypesSortedDistinct(m);
    forall e: Expr ensures Known(e, s) <==> Declared(m, e) {
      SameDeclarations(m, s, e);
    }
    forall i | 0 <= i < |m.permissions|
      ensures m.permissions[i].0 != "" && ExpressionOf(m.permissions[i].1) == Ok(s.permissions[i].1)
    {
      assert m.permissions[i] in m.permissions;
    }
    hide WellFormed, Restores;
  }
}
