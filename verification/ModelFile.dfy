/** Authorization model files: a model given as a mapping is rendered to schema text,
    and schema text is read back line by line. */
module ModelFile {
  import opened Wrappers
  import opened Text
  import opened TextLines
  import SchemaParser
  import Tokenizer
  import Sorting

  type Expr = SchemaParser.Expr

  // --------------------------------------------------------------- the mapping

  // The subjects of a relation: one name, a list of names, or anything else.
  datatype Subjects = One(name: string) | Many(names: seq<string>) | Other
  {
    function Names(): seq<string> {
      match this
      case One(n) => [n]
      case Many(ns) => NonEmpty(ns)
      case Other => []
    }
  }

  type Relation = (string, Subjects)
  type Permission = (string, string)

  // Dictionaries keep their insertion order; keys do not repeat.
  datatype Mapping = Mapping(version: int, rawType: string, relations: seq<Relation>, permissions: seq<Permission>)

  function NonEmpty(names: seq<string>): seq<string> {
    if names == [] then []
    else if names[0] == "" then NonEmpty(names[1..])
    else [names[0]] + NonEmpty(names[1..])
  }

  function ObjectType(raw: string): string {
    if Strip(raw) == "" then "resource" else Strip(raw)
  }

  function AllSubjects(rs: seq<Relation>): seq<string> {
    if rs == [] then [] else rs[0].1.Names() + AllSubjects(rs[1..])
  }

  function Once(names: seq<string>): seq<string> {
    if names == [] then []
    else if names[0] in names[1..] then Once(names[1..])
    else [names[0]] + Once(names[1..])
  }

  function TypesOf(m: Mapping): seq<string> {
    Sorting.Ordered(Once(["user", ObjectType(m.rawType)] + AllSubjects(m.relations)), TextBefore)
  }

  // ---------------------------------------------------------------- rendering

  function TypeLines(types: seq<string>): seq<string> {
    if types == [] then [] else ["type " + types[0]] + TypeLines(types[1..])
  }

  function RelationLine(r: Relation): string {
    r.0 + ": [" + Joined(", ", r.1.Names()) + "]"
  }

  function RelationLines(rs: seq<Relation>): seq<string> {
    if rs == [] then [] else [RelationLine(rs[0])] + RelationLines(rs[1..])
  }

  function PermissionLine(p: Permission): string {
    p.0 + " = " + p.1
  }

  function PermissionLines(ps: seq<Permission>): seq<string> {
    if ps == [] then [] else [PermissionLine(ps[0])] + PermissionLines(ps[1..])
  }

  function SchemaLines(m: Mapping): seq<string> {
    ["model schema " + IntText(m.version)] + TypeLines(TypesOf(m))
    + (["relations"] + RelationLines(m.relations)) + (["permissions"] + PermissionLines(m.permissions))
  }

  // The first relation whose subjects are neither a name nor a list.
  function BadRelation(rs: seq<Relation>): Option<string> {
    if rs == [] then None else if rs[0].1.Other? then Some(rs[0].0) else BadRelation(rs[1..])
  }

  function SchemaText(m: Mapping): Result<string, string> {
    match BadRelation(m.relations)
    case Some(name) => Err(name)
    case None => Ok(Joined("\n", SchemaLines(m)))
  }

  method CollectTypes(m: Mapping) returns (sorted: seq<string>)
    ensures sorted == TypesOf(m)
  {
    var types := ["user", ObjectType(m.rawType)];
    for i := 0 to |m.relations|
      invariant types + AllSubjects(m.relations[i..]) == ["user", ObjectType(m.rawType)] + AllSubjects(m.relations)
    {
      types := types + m.relations[i].1.Names();
    }
    assert types == ["user", ObjectType(m.rawType)] + AllSubjects(m.relations);
    return Sorting.Ordered(Once(types), TextBefore);
  }

  method ModelMappingToSchema(m: Mapping) returns (r: Result<string, string>)
    ensures r == SchemaText(m)
  {
    hide TypesOf, RelationLine, PermissionLine, IntText;
    var sorted := CollectTypes(m);
    var lines := ["model schema " + IntText(m.version)];
    ghost var head := lines;
    for i := 0 to |sorted|
      invariant lines + TypeLines(sorted[i..]) == head + TypeLines(sorted)
    {
      lines := lines + ["type " + sorted[i]];
    }
    assert lines == head + TypeLines(TypesOf(m));
    hide TypeLines;
    lines := lines + ["relations"];
    ghost var before := lines;
    for i := 0 to |m.relations|
      invariant lines + RelationLines(m.relations[i..]) == before + RelationLines(m.relations)
      invariant BadRelation(m.relations) == BadRelation(m.relations[i..])
    {
      if m.relations[i].1.Other? {
        return Err(m.relations[i].0);
      }
      lines := lines + [RelationLine(m.relations[i])];
    }
    assert lines == before + RelationLines(m.relations);
    hide RelationLines;
    lines := lines + ["permissions"];
    ghost var middle := lines;
    for i := 0 to |m.permissions|
      invariant lines + PermissionLines(m.permissions[i..]) == middle + PermissionLines(m.permissions)
    {
      lines := lines + [PermissionLine(m.permissions[i])];
    }
    assert lines == middle + PermissionLines(m.permissions);
    hide PermissionLines;
    assert lines == SchemaLines(m);
    return Ok(Joined("\n", lines));
  }

  // ------------------------------------------------------------------- reading

  datatype Schema = Schema(
    version: nat, types: seq<string>,
    relations: seq<(string, seq<string>)>, permissions: seq<(string, Expr)>)

  datatype SchemaError =
    | EmptySchema
    | MissingHeader
    | InvalidRelation(line: string)
    | InvalidSubjects(line: string)
    | InvalidPermission(line: string)
    | UnreadableExpression(text: string)
    | WrongExpression(error: SchemaParser.ParseError)
    | UnexpectedLine(line: string)

  datatype Section = NoSection | InRelations | InPermissions

  // What the lines read so far have given.
  datatype Draft = Draft(
    types: seq<string>, relations: seq<(string, seq<string>)>, permissions: seq<(string, Expr)>, section: Section)

  // Assignment to a key of a dictionary.
  function Put<V>(entries: seq<(string, V)>, key: string, value: V): seq<(string, V)> {
    if entries == [] then [(key, value)]
    else if entries[0].0 == key then [(key, value)] + entries[1..]
    else [entries[0]] + Put(entries[1..], key, value)
  }

  function Clean(line: string): string {
    Strip(Before(line, '#'))
  }

  function Cleaned(lines: seq<string>): seq<string> {
    if lines == [] then []
    else if Clean(lines[0]) == "" then Cleaned(lines[1..])
    else [Clean(lines[0])] + Cleaned(lines[1..])
  }

  predicate StartsWord(s: string, word: string) {
    |word| < |s| && Lower(s[..|word|]) == word && IsSpace(s[|word|])
  }

  function Header(line: string): Option<nat> {
    if !StartsWord(line, "model") then None
    else
      var rest := StripLeft(line[5..]);
      if !StartsWord(rest, "schema") then None
      else
        var digits := StripLeft(rest[6..]);
        if digits != "" && forall c :: c in digits ==> IsDigit(c) then Some(TextNat(digits)) else None
  }

  function Items(parts: seq<string>): seq<string> {
    if parts == [] then []
    else if Strip(parts[0]) == "" then Items(parts[1..])
    else [Strip(parts[0])] + Items(parts[1..])
  }

  function ParseRelation(line: string): Result<(string, seq<string>), SchemaError> {
    if ':' !in line then Err(InvalidRelation(line))
    else
      var name := Strip(Before(line, ':'));
      var subjects := Strip(line[|Before(line, ':')| + 1..]);
      if name == "" then Err(InvalidRelation(line))
      else if |subjects| < 2 || subjects[0] != '[' || subjects[|subjects| - 1] != ']' then Err(InvalidSubjects(line))
      else
        var items := Items(Split(subjects[1..|subjects| - 1], ','));
        if items == [] then Err(InvalidSubjects(line)) else Ok((name, items))
  }

  function ReadExpression(text: string): Result<Expr, SchemaError> {
    match Tokenizer.Tokenize(text)
    case None => Err(UnreadableExpression(text))
    case Some(tokens) =>
      match SchemaParser.ParseWhole(tokens)
      case Ok(e) => Ok(e)
      case Err(e) => Err(WrongExpression(e))
  }

  function ParsePermission(line: string): Result<(string, Expr), SchemaError> {
    if '=' !in line then Err(InvalidPermission(line))
    else
      var name := Strip(Before(line, '='));
      var text := Strip(line[|Before(line, '=')| + 1..]);
      if name == "" || text == "" then Err(InvalidPermission(line))
      else
        var e :- ReadExpression(text);
        Ok((name, e))
  }

  predicate IsTypeLine(line: string) {
    |line| >= 5 && Lower(line)[..5] == "type "
  }

  function Feed(d: Draft, line: string): Result<Draft, SchemaError> {
    if Lower(line) == "relations" then Ok(d.(section := InRelations))
    else if Lower(line) == "permissions" then Ok(d.(section := InPermissions))
    else if IsTypeLine(line) then Ok(d.(types := d.types + [Strip(line[4..])]))
    else
      match d.section
      case InRelations =>
        var (name, subjects) :- ParseRelation(line);
        Ok(d.(relations := Put(d.relations, name, subjects)))
      case InPermissions =>
        var (name, e) :- ParsePermission(line);
        Ok(d.(permissions := Put(d.permissions, name, e)))
      case NoSection => Err(UnexpectedLine(line))
  }

  function FeedAll(d: Draft, lines: seq<string>): Result<Draft, SchemaError>
    decreases |lines|
  {
    if lines == [] then Ok(d)
    else
      var next :- Feed(d, lines[0]);
      FeedAll(next, lines[1..])
  }

  const BLANK := Draft([], [], [], NoSection)

  function SchemaOf(text: string): Result<Schema, SchemaError> {
    SchemaOfLines(Cleaned(SplitLines(text)))
  }

  function SchemaOfLines(lines: seq<string>): Result<Schema, SchemaError> {
    if lines == [] then Err(EmptySchema)
    else
      match Header(lines[0])
      case None => Err(MissingHeader)
      case Some(version) =>
        var d :- FeedAll(BLANK, lines[1..]);
        Ok(Schema(version, d.types, d.relations, d.permissions))
  }

  method ReadPermission(line: string) returns (r: Result<(string, Expr), SchemaError>)
    ensures r == ParsePermission(line)
  {
    if '=' !in line {
      return Err(InvalidPermission(line));
    }
    var name := Strip(Before(line, '='));
    var text := Strip(line[|Before(line, '=')| + 1..]);
    if name == "" || text == "" {
      return Err(InvalidPermission(line));
    }
    var tokens := Tokenizer.Tokenize(text);
    if tokens.None? {
      return Err(UnreadableExpression(text));
    }
    var parsed := SchemaParser.RunWhole(tokens.value);
    if parsed.Err? {
      return Err(WrongExpression(parsed.error));
    }
    return Ok((name, parsed.value));
  }

  method ParseAuthorizationSchema(text: string) returns (r: Result<Schema, SchemaError>)
    ensures r == SchemaOf(text)
  {
    var lines := Cleaned(SplitLines(text));
    if lines == [] {
      return Err(EmptySchema);
    }
    var header, body := lines[0], lines[1..];
    var version := Header(header);
    if version.None? {
      return Err(MissingHeader);
    }
    var types: seq<string> := [];
    var relations: seq<(string, seq<string>)> := [];
    var permissions: seq<(string, Expr)> := [];
    var section := NoSection;
    for i := 0 to |body|
      invariant FeedAll(BLANK, body) == FeedAll(Draft(types, relations, permissions, section), body[i..])
    {
      var line := body[i];
      var lowered := Lower(line);
      if lowered == "relations" {
        section := InRelations;
      } else if lowered == "permissions" {
        section := InPermissions;
      } else if |lowered| >= 5 && lowered[..5] == "type " {
        types := types + [Strip(line[4..])];
      } else if section == InRelations {
        var parsed :- ParseRelation(line);
        relations := Put(relations, parsed.0, parsed.1);
      } else if section == InPermissions {
        var parsed :- ReadPermission(line);
        permissions := Put(permissions, parsed.0, parsed.1);
      } else {
        return Err(UnexpectedLine(line));
      }
    }
    return Ok(Schema(version.value, types, relations, permissions));
  }
}
