/** Rendering a model and reading it back. */
module ModelRoundTrip {
  import opened Wrappers
  import opened Text
  import opened TextLines
  import opened ModelFile
  import Sorting

  // ---------------------------------------------------------------- type names

  lemma TextBeforeIsOrder()
    ensures Sorting.StrictTotal(TextBefore)
  {
    forall a: string ensures !TextBefore(a, a) {
      TextIrreflexive(a);
    }
    forall a: string, b: string | a != b ensures TextBefore(a, b) || TextBefore(b, a) {
      TextTotal(a, b);
    }
    forall a: string, b: string, c: string | TextBefore(a, b) && TextBefore(b, c) ensures TextBefore(a, c) {
      TextTransitive(a, b, c);
    }
  }

  lemma {:induction false} OnceKeeps(names: seq<string>)
    ensures Sorting.Distinct(Once(names))
    ensures forall n :: n in Once(names) <==> n in names
  {
    if names == [] {
    } else {
      OnceKeeps(names[1..]);
      assert names == [names[0]] + names[1..];
    }
  }

  lemma {:induction false} SubjectsCollected(rs: seq<Relation>, n: string)
    ensures n in AllSubjects(rs) <==> exists r :: r in rs && n in r.1.Names()
  {
    if rs == [] {
    } else {
      SubjectsCollected(rs[1..], n);
      assert rs == [rs[0]] + rs[1..];
    }
  }

  // The type names are sorted and distinct: "user", the object type and every subject.
  lemma TypesSortedDistinct(m: Mapping)
    ensures Sorting.Ascending(TypesOf(m), TextBefore)
    ensures forall n :: n in TypesOf(m) <==>
      n == "user" || n == ObjectType(m.rawType) || exists r :: r in m.relations && n in r.1.Names()
  {
    TextBeforeIsOrder();
    var names := ["user", ObjectType(m.rawType)] + AllSubjects(m.relations);
    OnceKeeps(names);
    Sorting.OrderedAscends(Once(names), TextBefore);
    forall n ensures n in names <==> n == "user" || n == ObjectType(m.rawType) || exists r :: r in m.relations && n in r.1.Names() {
      SubjectsCollected(m.relations, n);
    }
    hide Once, Sorting.Ordered, Sorting.StrictTotal, ObjectType, AllSubjects;
  }

  // ------------------------------------------------------------- well-formedness

  predicate IsName(s: string, forbidden: set<char>) {
    s != "" && Solid(s) && forall c :: c in s ==> c !in forbidden
  }

  predicate RelationOk(r: Relation) {
    && IsName(r.0, {'#', ':'})
    && !r.1.Other?
    && forall n :: n in r.1.Names() ==> IsName(n, {'#', ','})
  }

  predicate PermissionOk(p: Permission) {
    && IsName(p.0, {'#', '='})
    && forall c :: c in p.1 ==> c != '#' && !IsBreak(c)
  }

  predicate DistinctKeys<V>(entries: seq<(string, V)>) {
    forall i, j :: 0 <= i < j < |entries| ==> entries[i].0 != entries[j].0
  }

  predicate WellFormed(m: Mapping) {
    && IsName(ObjectType(m.rawType), {'#'})
    && (forall r :: r in m.relations ==> RelationOk(r))
    && (forall p :: p in m.permissions ==> PermissionOk(p))
    && DistinctKeys(m.relations) && DistinctKeys(m.permissions)
  }

  // The expression that a permission's text stands for.
  function ExpressionOf(text: string): Result<Expr, SchemaError> {
    if Strip(text) == "" then Err(InvalidPermission(text)) else ReadExpression(Strip(text))
  }

  predicate NamedType(p: Permission) {
    Lower(p.0) == "type"
  }

  predicate Readable(p: Permission) {
    !NamedType(p) && ExpressionOf(p.1).Ok?
  }

  // ---------------------------------------------------------- reading one line

  lemma CleanStays(line: string)
    requires line != "" && '#' !in line && !IsSpace(line[0]) && !IsSpace(line[|line| - 1])
    ensures Clean(line) == line
  {
    BeforeStops(line, "", '#');
    assert line + "" == line;
    StripRightDone(line);
  }

  lemma NoHeading(line: string, c: char)
    requires c in {':', '='} && c in line
    ensures Lower(line) !in {"relations", "permissions"}
  {
    var i :| 0 <= i < |line| && line[i] == c;
    assert Lower(line)[i] == c;
    assert ':' !in "relations" && '=' !in "relations" && ':' !in "permissions" && '=' !in "permissions";
  }

  // Of the lines that begin with a name, those of "type" and a blank declare a type.
  lemma TypeLineIs(name: string, rest: string)
    requires Solid(name) && name != "" && rest != "" && rest[0] in {':', ' '}
    ensures IsTypeLine(name + rest) <==> rest[0] == ' ' && Lower(name) == "type"
  {
    var line := name + rest;
    assert forall i :: 0 <= i < |name| ==> line[i] == name[i] && name[i] in name;
    assert line[|name|] == rest[0];
    if |line| >= 5 {
      var start := Lower(line)[..5];
      assert start == [start[0], start[1], start[2], start[3], start[4]];
    }
    if |name| == 4 {
      var lowered := Lower(name);
      assert lowered == [lowered[0], lowered[1], lowered[2], lowered[3]];
    }
  }

  lemma {:induction false} ItemsRead(split: seq<string>, names: seq<string>)
    requires |split| == |names|
    requires forall i :: 0 <= i < |names| ==> names[i] != "" && Strip(split[i]) == names[i]
    ensures Items(split) == names
  {
    if names == [] {
    } else {
      ItemsRead(split[1..], names[1..]);
      assert names == [names[0]] + names[1..];
    }
  }

  lemma ItemsOfJoined(names: seq<string>)
    requires forall n :: n in names ==> IsName(n, {'#', ','})
    ensures Items(Split(Joined(", ", names), ',')) == names
  {
    var split := Split(Joined(", ", names), ',');
    if names == [] {
      assert Before("", ',') == "" && split == [""];
      assert Items(split) == [];
    } else {
      SplitAfter("", names);
      assert "" + Joined(", ", names) == Joined(", ", names);
      forall i | 0 <= i < |names| ensures names[i] != "" && Strip(split[i]) == names[i] {
        assert names[i] in names;
        hide Strip, Joined, Split, Solid;
        StripSolid(names[i]);
        StripLead(names[i]);
        assert "" + names[i] == names[i];
      }
      ItemsRead(split, names);
    }
  }

  lemma StripLead(s: string)
    ensures Strip(" " + s) == Strip(s)
  {
    assert (" " + s)[1..] == s;
  }

  lemma {:induction false} JoinedAvoids(separator: string, parts: seq<string>, c: char)
    requires c !in separator && forall p :: p in parts ==> c !in p
    ensures c !in Joined(separator, parts)
  {
    if |parts| > 1 {
      JoinedAvoids(separator, parts[1..], c);
    }
  }

  lemma RelationLineRead(r: Relation)
    requires RelationOk(r)
    ensures
      var line := RelationLine(r);
      && Clean(line) == line != "" && Lower(line) !in {"relations", "permissions"} && !IsTypeLine(line)
      && ParseRelation(line) == if r.1.Names() == [] then Err(InvalidSubjects(line)) else Ok((r.0, r.1.Names()))
  {
    hide ParseRelation, IsTypeLine, Joined;
    var name, names := r.0, r.1.Names();
    var joined := Joined(", ", names);
    var rest := ": [" + joined + "]";
    var line := RelationLine(r);
    assert line == name + rest;
    assert name[0] in name;
    JoinedAvoids(", ", names, '#');
    CleanStays(line);
    assert line[|name|] == ':';
    NoHeading(line, ':');
    TypeLineIs(name, rest);
    ParsesSubjects(name, joined);
    ItemsOfJoined(names);
    assert line == name + ": [" + joined + "]";
  }

  lemma ParsesSubjects(name: string, inner: string)
    requires IsName(name, {':'})
    ensures
      var line := name + ": [" + inner + "]";
      var items := Items(Split(inner, ','));
      ParseRelation(line) == if items == [] then Err(InvalidSubjects(line)) else Ok((name, items))
  {
    hide Items, Split, Strip, Before, Solid;
    var line := name + ": [" + inner + "]";
    var subjects := "[" + inner + "]";
    assert line == name + (": " + subjects);
    BeforeStops(name, ": " + subjects, ':');
    StripSolid(name);
    BracketsStay(inner);
    assert line[|name|] == ':';
    assert line[|name| + 1..] == " " + subjects;
    assert subjects[1..|subjects| - 1] == inner;
  }

  lemma BracketsStay(inner: string)
    ensures Strip(" " + ("[" + inner + "]")) == "[" + inner + "]"
  {
    var subjects := "[" + inner + "]";
    StripLead(subjects);
    StripRightDone(subjects);
    assert StripLeft(subjects) == subjects;
  }

  lemma PermissionLineRead(p: Permission)
    requires PermissionOk(p)
    ensures
      var line := Clean(PermissionLine(p));
      && line != "" && Lower(line) !in {"relations", "permissions"}
      && (IsTypeLine(line) <==> NamedType(p))
      && (ExpressionOf(p.1).Ok? ==> ParsePermission(line) == Ok((p.0, ExpressionOf(p.1).value)))
      && (ExpressionOf(p.1).Err? ==> ParsePermission(line).Err?)
  {
    hide ParsePermission, IsTypeLine, ExpressionOf;
    var (name, text) := p;
    var tail := StripRight(" " + text);
    var line := name + " =" + tail;
    CleansPermission(name, text);
    assert line[|name| + 1] == '=';
    NoHeading(line, '=');
    TypeLineIs(name, " =" + tail);
    assert line == name + (" =" + tail);
    ParsesExpression(name, text);
  }

  lemma CleansPermission(name: string, text: string)
    requires IsName(name, {'#'}) && '#' !in text
    ensures Clean(name + " = " + text) == name + " =" + StripRight(" " + text)
  {
    var whole := name + " = " + text;
    var lead := name + " =";
    assert whole == lead + (" " + text);
    BeforeStops(whole, "", '#');
    assert whole + "" == whole;
    assert name[0] in name;
    assert StripLeft(whole) == whole;
    StripRightTail(lead, " " + text);
  }

  lemma ParsesExpression(name: string, text: string)
    requires IsName(name, {'='})
    ensures
      var line := name + " =" + StripRight(" " + text);
      if ExpressionOf(text).Ok? then ParsePermission(line) == Ok((name, ExpressionOf(text).value))
      else ParsePermission(line).Err?
  {
    hide ReadExpression, Strip, StripRight, Solid, Before;
    var tail := StripRight(" " + text);
    var line := name + " =" + tail;
    assert line == (name + " ") + ("=" + tail);
    StripTrail(name);
    StripsCommute(" " + text);
    StripLead(text);
    ParsesNamed(line, name, tail);
  }

  lemma ParsesNamed(line: string, name: string, tail: string)
    requires line == (name + " ") + ("=" + tail) && '=' !in name && Strip(name + " ") == name != ""
    ensures
      if Strip(tail) == "" then ParsePermission(line) == Err(InvalidPermission(line))
      else
        match ReadExpression(Strip(tail))
        case Ok(e) => ParsePermission(line) == Ok((name, e))
        case Err(e) => ParsePermission(line) == Err(e)
  {
    hide ReadExpression, Strip, Before;
    BeforeStops(name + " ", "=" + tail, '=');
    assert line[|name| + 1] == '=' && line[|name| + 2..] == tail;
  }

  lemma StripTrail(name: string)
    requires name != "" && Solid(name)
    ensures Strip(name + " ") == name
  {
    StripLeftSolid(name, " ");
    assert name[|name| - 1] in name;
    StripRightTail(name, " ");
    assert StripRight(" ") == "" by {
      assert StripRight("") == "";
    }
  }

  // ---------------------------------------------------------- reading all lines

  function Read(d: Draft, lines: seq<string>): Result<Draft, SchemaError> {
    FeedAll(d, Cleaned(lines))
  }

  lemma ReadStep(d: Draft, line: string, rest: seq<string>)
    requires Clean(line) != ""
    ensures Read(d, [line] + rest) ==
      match Feed(d, Clean(line))
      case Ok(next) => Read(next, rest)
      case Err(e) => Err(e)
  {
    var lines := [line] + rest;
    assert lines[1..] == rest;
    var cleaned := Cleaned(lines);
    assert cleaned == [Clean(line)] + Cleaned(rest) && cleaned[1..] == Cleaned(rest);
    hide Clean, Feed;
  }

  lemma {:induction false} ReadAppend(d: Draft, a: seq<string>, b: seq<string>)
    ensures Read(d, a + b) ==
      match Read(d, a)
      case Ok(next) => Read(next, b)
      case Err(e) => Err(e)
    decreases |a|
  {
    if a == [] {
      assert a + b == b;
    } else {
      assert a + b == [a[0]] + (a[1..] + b) && a == [a[0]] + a[1..];
      if Clean(a[0]) == "" {
        ReadAppend(d, a[1..], b);
        assert (a + b)[1..] == a[1..] + b;
      } else {
        hide Read;
        ReadStep(d, a[0], a[1..] + b);
        ReadStep(d, a[0], a[1..]);
        if Feed(d, Clean(a[0])).Ok? {
          ReadAppend(Feed(d, Clean(a[0])).value, a[1..], b);
        }
      }
    }
  }

  lemma {:induction false} TypesRead(d: Draft, types: seq<string>)
    requires forall t :: t in types ==> IsName(t, {'#'})
    ensures Read(d, TypeLines(types)) == Ok(d.(types := d.types + types))
    decreases |types|
  {
    hide Feed, Clean, Solid;
    if types == [] {
      assert d.types + types == d.types;
    } else {
      hide Read;
      TypeLineFed(d, types[0]);
      ReadStep(d, "type " + types[0], TypeLines(types[1..]));
      TypesRead(d.(types := d.types + [types[0]]), types[1..]);
      assert d.types + [types[0]] + types[1..] == d.types + types;
    }
  }

  lemma TypeLineFed(d: Draft, t: string)
    requires IsName(t, {'#'})
    ensures Clean("type " + t) != "" && Feed(d, Clean("type " + t)) == Ok(d.(types := d.types + [t]))
  {
    hide Clean, IsTypeLine, Strip;
    var line := "type " + t;
    assert t[|t| - 1] in t;
    CleanStays(line);
    StripLead(t);
    StripSolid(t);
    TypeLineIs("type", " " + t);
    assert Lower("type") == "type";
    assert line == "type" + (" " + t);
    assert line[4..] == " " + t;
    BlankInside(line);
    hide Lower;
  }

  lemma BlankInside(line: string)
    requires |line| > 4 && line[4] == ' '
    ensures Lower(line) !in {"relations", "permissions"}
  {
    assert Lower(line)[4] == ' ' && "relations"[4] == 't' && "permissions"[4] == 'i';
  }

  lemma HeadingFed(d: Draft, heading: string)
    requires heading in {"relations", "permissions"}
    ensures Clean(heading) == heading
    ensures Feed(d, heading) == Ok(d.(section := if heading == "relations" then InRelations else InPermissions))
  {
    hide Clean, IsTypeLine;
    HeadingsStay();
    hide Lower;
  }

  lemma HeadingsStay()
    ensures Clean("relations") == "relations" && Clean("permissions") == "permissions"
    ensures Lower("relations") == "relations" && Lower("permissions") == "permissions"
  {
    hide Clean;
    CleanStays("relations");
    CleanStays("permissions");
  }

  lemma {:induction false} PutNew<V>(entries: seq<(string, V)>, key: string, value: V)
    requires forall e :: e in entries ==> e.0 != key
    ensures Put(entries, key, value) == entries + [(key, value)]
  {
    if entries == [] {
    } else {
      PutNew(entries[1..], key, value);
      assert entries == [entries[0]] + entries[1..];
    }
  }

  function WithNames(rs: seq<Relation>): seq<(string, seq<string>)> {
    if rs == [] then [] else [(rs[0].0, rs[0].1.Names())] + WithNames(rs[1..])
  }

  lemma {:induction false} RelationsRead(d: Draft, rs: seq<Relation>)
    requires d.section == InRelations && DistinctKeys(rs)
    requires forall r :: r in rs ==> RelationOk(r)
    requires forall e, r :: e in d.relations && r in rs ==> e.0 != r.0
    ensures
      if forall r :: r in rs ==> r.1.Names() != []
      then Read(d, RelationLines(rs)) == Ok(d.(relations := d.relations + WithNames(rs)))
      else Read(d, RelationLines(rs)).Err?
    decreases |rs|
  {
    hide Feed, Clean, RelationLine, RelationOk, Subjects.Names, Put;
    if rs == [] {
      assert d.relations + WithNames(rs) == d.relations;
    } else {
      hide Read;
      var r := rs[0];
      RelationLineFed(d, r);
      ReadStep(d, RelationLine(r), RelationLines(rs[1..]));
      assert rs == [r] + rs[1..];
      if r.1.Names() != [] {
        PutNew(d.relations, r.0, r.1.Names());
        var next := d.(relations := d.relations + [(r.0, r.1.Names())]);
        assert forall e, q :: e in next.relations && q in rs[1..] ==> e.0 != q.0;
        RelationsRead(next, rs[1..]);
        assert next.relations + WithNames(rs[1..]) == d.relations + WithNames(rs);
      }
    }
  }

  lemma RelationLineFed(d: Draft, r: Relation)
    requires d.section == InRelations && RelationOk(r)
    ensures Clean(RelationLine(r)) != ""
    ensures
      var fed := Feed(d, Clean(RelationLine(r)));
      if r.1.Names() == [] then fed.Err?
      else fed == Ok(d.(relations := Put(d.relations, r.0, r.1.Names())))
  {
    RelationLineRead(r);
    hide Clean, RelationLine, RelationOk, Put, ParseRelation, IsTypeLine;
  }

  function WithExpressions(ps: seq<Permission>): seq<(string, Expr)>
    requires forall p :: p in ps ==> Readable(p)
  {
    if ps == [] then [] else
      assert Readable(ps[0]);
      [(ps[0].0, ExpressionOf(ps[0].1).value)] + WithExpressions(ps[1..])
  }

  lemma {:induction false} TypesGrow(d: Draft, lines: seq<string>)
    ensures FeedAll(d, lines).Ok? ==> |FeedAll(d, lines).value.types| >= |d.types|
    decreases |lines|
  {
    if lines != [] && Feed(d, lines[0]).Ok? {
      TypesGrow(Feed(d, lines[0]).value, lines[1..]);
    }
  }

  lemma PermissionLineFed(d: Draft, p: Permission)
    requires d.section == InPermissions && PermissionOk(p)
    ensures Clean(PermissionLine(p)) != ""
    ensures
      var fed := Feed(d, Clean(PermissionLine(p)));
      if NamedType(p) then fed.Ok? && |fed.value.types| == |d.types| + 1
      else if ExpressionOf(p.1).Err? then fed.Err?
      else fed == Ok(d.(permissions := Put(d.permissions, p.0, ExpressionOf(p.1).value)))
  {
    hide Clean, PermissionLine, PermissionOk, Put, ParsePermission, IsTypeLine, ExpressionOf, NamedType;
    PermissionLineRead(p);
  }

  // A permission that cannot be read stops the reading, or counts as a type.
  lemma {:induction false} PermissionsRead(d: Draft, ps: seq<Permission>)
    requires d.section == InPermissions && DistinctKeys(ps)
    requires forall p :: p in ps ==> PermissionOk(p)
    requires forall e, p :: e in d.permissions && p in ps ==> e.0 != p.0
    ensures
      var read := Read(d, PermissionLines(ps));
      if forall p :: p in ps ==> Readable(p)
      then read == Ok(d.(permissions := d.permissions + WithExpressions(ps)))
      else read.Err? || |read.value.types| > |d.types|
    decreases |ps|
  {
    hide Feed, Clean, PermissionLine, PermissionOk, Put, ExpressionOf, NamedType;
    if ps == [] {
      assert d.permissions + [] == d.permissions;
    } else {
      var p := ps[0];
      PermissionLineFed(d, p);
      ReadStep(d, PermissionLine(p), PermissionLines(ps[1..]));
      assert ps == [p] + ps[1..];
      var fed := Feed(d, Clean(PermissionLine(p)));
      if Readable(p) {
        hide Read;
        PutNew(d.permissions, p.0, ExpressionOf(p.1).value);
        var next := d.(permissions := d.permissions + [(p.0, ExpressionOf(p.1).value)]);
        assert forall e, q :: e in next.permissions && q in ps[1..] ==> e.0 != q.0;
        PermissionsRead(next, ps[1..]);
        if forall q :: q in ps[1..] ==> Readable(q) {
          assert next.permissions + WithExpressions(ps[1..]) == d.permissions + WithExpressions(ps);
        }
      } else if fed.Ok? {
        TypesGrow(fed.value, Cleaned(PermissionLines(ps[1..])));
      }
    }
  }

  // ------------------------------------------------------------ the whole text

  ghost predicate Restores(m: Mapping) {
    && SchemaText(m).Ok?
    && SchemaOf(SchemaText(m).value).Ok?
    && var s := SchemaOf(SchemaText(m).value).value;
       && s.version == m.version && s.types == TypesOf(m)
       && s.relations == WithNames(m.relations)
       && |s.permissions| == |m.permissions|
       && forall i :: 0 <= i < |s.permissions| ==>
            && s.permissions[i].0 == m.permissions[i].0
            && ExpressionOf(m.permissions[i].1) == Ok(s.permissions[i].1)
  }

  function Body(m: Mapping): seq<string> {
    TypeLines(TypesOf(m)) + (["relations"] + RelationLines(m.relations)) + (["permissions"] + PermissionLines(m.permissions))
  }

  lemma {:induction false} WithExpressionsAt(ps: seq<Permission>, i: nat)
    requires (forall p :: p in ps ==> Readable(p)) && i < |ps|
    ensures |WithExpressions(ps)| == |ps|
    ensures WithExpressions(ps)[i].0 == ps[i].0 && Ok(WithExpressions(ps)[i].1) == ExpressionOf(ps[i].1)
  {
    assert ps[i] in ps && ps[0] in ps;
    if |ps| > 1 {
      WithExpressionsAt(ps[1..], if i > 0 then i - 1 else 0);
    }
  }

  lemma {:induction false} NoBadRelation(rs: seq<Relation>)
    requires forall r :: r in rs ==> RelationOk(r)
    ensures BadRelation(rs) == None
  {
    if rs == [] {
    } else {
      assert rs[0] in rs;
      NoBadRelation(rs[1..]);
    }
  }

  predicate Plain(line: string) {
    line != "" && forall c :: c in line ==> !IsBreak(c)
  }

  predicate AllPlain(lines: seq<string>) {
    forall l :: l in lines ==> Plain(l)
  }

  lemma SolidPlain(s: string)
    requires Solid(s) && s != ""
    ensures Plain(s)
  {
  }

  lemma PlainJoins(a: string, b: string)
    requires Plain(a) && Plain(b)
    ensures Plain(a + b)
  {
  }

  lemma {:induction false} JoinedPlain(separator: string, parts: seq<string>)
    requires Plain(separator) && AllPlain(parts)
    ensures parts != [] ==> Plain(Joined(separator, parts))
  {
    if |parts| > 1 {
      JoinedPlain(separator, parts[1..]);
      PlainJoins(parts[0], separator);
      PlainJoins(parts[0] + separator, Joined(separator, parts[1..]));
    }
  }

  lemma {:induction false} TypeLinesPlain(types: seq<string>)
    requires forall t :: t in types ==> IsName(t, {'#'})
    ensures AllPlain(TypeLines(types))
  {
    if types == [] {
    } else {
      TypeLinesPlain(types[1..]);
      assert types[0] in types;
      SolidPlain(types[0]);
      PlainJoins("type ", types[0]);
    }
  }

  lemma {:induction false} RelationLinesPlain(rs: seq<Relation>)
    requires forall r :: r in rs ==> RelationOk(r)
    ensures AllPlain(RelationLines(rs))
  {
    hide Plain, RelationLine, RelationOk;
    if rs == [] {
    } else {
      RelationLinesPlain(rs[1..]);
      assert rs[0] in rs;
      RelationLinePlain(rs[0]);
    }
  }

  lemma RelationLinePlain(r: Relation)
    requires RelationOk(r)
    ensures Plain(RelationLine(r))
  {
    SolidPlain(r.0);
    forall n | n in r.1.Names() ensures Plain(n) {
      SolidPlain(n);
    }
    hide Subjects.Names, Solid;
    JoinedPlain(", ", r.1.Names());
  }

  lemma {:induction false} PermissionLinesPlain(ps: seq<Permission>)
    requires forall p :: p in ps ==> PermissionOk(p)
    ensures AllPlain(PermissionLines(ps))
  {
    if ps == [] {
    } else {
      PermissionLinesPlain(ps[1..]);
      assert ps[0] in ps;
      SolidPlain(ps[0].0);
    }
  }

  lemma HeadersPlain(version: int)
    ensures Plain("model schema " + IntText(version)) && Plain("relations") && Plain("permissions")
  {
  }

  lemma WellFormedTypes(m: Mapping)
    requires WellFormed(m)
    ensures forall t :: t in TypesOf(m) ==> IsName(t, {'#'})
  {
    hide TypesOf, ObjectType;
    TypesSortedDistinct(m);
  }

  lemma SchemaLinesPlain(m: Mapping)
    requires WellFormed(m)
    ensures AllPlain(SchemaLines(m))
  {
    hide Plain, IntText, TypesOf;
    WellFormedTypes(m);
    TypeLinesPlain(TypesOf(m));
    RelationLinesPlain(m.relations);
    PermissionLinesPlain(m.permissions);
    HeadersPlain(m.version);
    hide WellFormed;
  }

  lemma TextSplits(m: Mapping)
    requires WellFormed(m)
    ensures SchemaText(m).Ok? && SplitLines(SchemaText(m).value) == SchemaLines(m)
  {
    hide SplitLines, Joined, RelationOk, PermissionOk, ObjectType, IsBreak;
    NoBadRelation(m.relations);
    SchemaLinesPlain(m);
    hide WellFormed, BadRelation;
    var lines := SchemaLines(m);
    assert lines != [];
    hide SchemaLines;
    assert lines[|lines| - 1] in lines;
    SplitLinesReadsBack(lines);
  }

  lemma BodyRead(m: Mapping)
    requires WellFormed(m)
    ensures
      var read := Read(BLANK, Body(m));
      if (forall r :: r in m.relations ==> r.1.Names() != []) && (forall p :: p in m.permissions ==> Readable(p))
      then read == Ok(Draft(TypesOf(m), WithNames(m.relations), WithExpressions(m.permissions), InPermissions))
      else read.Err? || |read.value.types| > |TypesOf(m)|
  {
    hide Read, Feed, Clean, TypesOf, RelationOk, PermissionOk, Readable, Subjects.Names;
    hide WithNames, WithExpressions, TypeLines, RelationLines, PermissionLines, Cleaned, FeedAll;
    var types, rs, ps := TypesOf(m), m.relations, m.permissions;
    WellFormedTypes(m);
    TypesRead(BLANK, types);
    assert [] + types == types;
    var d := BLANK.(types := types);
    HeadingFed(d, "relations");
    ReadStep(d, "relations", RelationLines(rs));
    var inRelations := d.(section := InRelations);
    RelationsRead(inRelations, rs);
    ReadAppend(BLANK, TypeLines(types), ["relations"] + RelationLines(rs));
    ReadAppend(BLANK, TypeLines(types) + (["relations"] + RelationLines(rs)), ["permissions"] + PermissionLines(ps));
    if forall r :: r in rs ==> r.1.Names() != [] {
      assert [] + WithNames(rs) == WithNames(rs);
      var e := d.(relations := WithNames(rs), section := InRelations);
      HeadingFed(e, "permissions");
      ReadStep(e, "permissions", PermissionLines(ps));
      PermissionsRead(e.(section := InPermissions), ps);
      if forall p :: p in ps ==> Readable(p) {
        assert [] + WithExpressions(ps) == WithExpressions(ps);
      }
    }
  }

  lemma HeaderRead(version: int)
    ensures
      var line := "model schema " + IntText(version);
      Clean(line) == line && Header(line) == if version >= 0 then Some(version as nat) else None
  {
    hide Header, Clean;
    var digits := IntText(version);
    var line := "model schema " + digits;
    assert digits[0] in digits && digits[|digits| - 1] in digits;
    assert forall c :: c in digits ==> IsDigit(c) || c == '-';
    CleanStays(line);
    assert line == "model" + " " + ("schema" + " " + digits);
    HeaderOf(line, "schema" + " " + digits, digits);
    if version >= 0 {
      NatTextReadsBack(version);
    } else {
      assert digits[0] == '-' && !IsDigit('-');
    }
  }

  lemma HeaderOf(line: string, rest: string, digits: string)
    requires line == "model" + " " + rest && rest == "schema" + " " + digits
    requires digits != "" && !IsSpace(digits[0])
    ensures Header(line) == if forall c :: c in digits ==> IsDigit(c) then Some(TextNat(digits)) else None
  {
    hide TextNat, IsDigit, StartsWord, StripLeft;
    assert rest[0] == 's';
    WordRead("model", rest);
    WordRead("schema", digits);
    hide IsSpace;
  }

  // A word in lower case, a blank and what follows.
  lemma WordRead(word: string, rest: string)
    requires Lower(word) == word && rest != "" && !IsSpace(rest[0])
    ensures StartsWord(word + " " + rest, word)
    ensures StripLeft((word + " " + rest)[|word|..]) == rest
  {
    var s := word + " " + rest;
    assert s[..|word|] == word && s[|word|] == ' ';
    assert s[|word|..] == " " + rest && (" " + rest)[1..] == rest;
  }

  lemma TextRead(m: Mapping)
    requires WellFormed(m)
    ensures SchemaText(m).Ok?
    ensures
      var read := Read(BLANK, Body(m));
      SchemaOf(SchemaText(m).value) ==
        if m.version < 0 then Err(MissingHeader)
        else if read.Err? then Err(read.error)
        else Ok(Schema(m.version, read.value.types, read.value.relations, read.value.permissions))
  {
    hide WellFormed, SchemaLines, Header, IntText, SchemaText, Clean, Cleaned, Body, FeedAll, SplitLines;
    TextSplits(m);
    HeaderRead(m.version);
    LinesCleaned(m);
    var header := "model schema " + IntText(m.version);
    assert ([header] + Cleaned(Body(m)))[1..] == Cleaned(Body(m));
  }

  lemma LinesCleaned(m: Mapping)
    ensures Cleaned(SchemaLines(m)) == ["model schema " + IntText(m.version)] + Cleaned(Body(m))
  {
    hide IntText, Clean, Header, Cleaned;
    HeaderRead(m.version);
    var header := "model schema " + IntText(m.version);
    assert SchemaLines(m) == [header] + Body(m);
    hide SchemaLines, Body;
    HeaderStays(header, Body(m));
  }

  lemma HeaderStays(header: string, rest: seq<string>)
    requires Clean(header) == header != ""
    ensures Cleaned([header] + rest) == [header] + Cleaned(rest)
  {
    hide Clean;
    var lines := [header] + rest;
    assert lines[0] == header && lines[1..] == rest;
  }

  /** Rendering a well-formed model and reading the text back restores the version,
      the sorted type names, the relations and every permission's expression exactly
      when the version is not negative, no relation is without subjects, and every
      permission has a readable text and a name other than "type". */
  lemma ModelFileRoundTrip(m: Mapping)
    requires WellFormed(m)
    ensures Restores(m) <==>
      && m.version >= 0
      && (forall r :: r in m.relations ==> r.1.Names() != [])
      && (forall p :: p in m.permissions ==> Readable(p))
  {
    hide TypesOf, WithNames, SchemaText, SchemaOf, Read, Readable, ExpressionOf;
    TextRead(m);
    BodyRead(m);
    hide WellFormed, Body;
    if forall p :: p in m.permissions ==> Readable(p) {
      ExpressionsGiven(m.permissions);
    }
  }

  lemma ExpressionsGiven(ps: seq<Permission>)
    requires forall p :: p in ps ==> Readable(p)
    ensures |WithExpressions(ps)| == |ps|
    ensures forall i :: 0 <= i < |ps| ==>
      WithExpressions(ps)[i].0 == ps[i].0 && ExpressionOf(ps[i].1) == Ok(WithExpressions(ps)[i].1)
  {
    hide Readable, ExpressionOf;
    if ps != [] {
      WithExpressionsAt(ps, 0);
    }
    forall i | 0 <= i < |ps|
      ensures WithExpressions(ps)[i].0 == ps[i].0 && ExpressionOf(ps[i].1) == Ok(WithExpressions(ps)[i].1)
    {
      WithExpressionsAt(ps, i);
    }
  }
}
