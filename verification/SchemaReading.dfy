/** What of a schema text is read over: comments, blank lines, indentation, line ends, and
    the case of its headings. */
module SchemaReading {
  import opened Wrappers
  import opened Text
  import opened TextLines
  import opened ModelFile

  predicate OneLine(s: string) {
    forall c :: c in s ==> !IsBreak(c)
  }

  predicate AllSpaces(s: string) {
    forall c :: c in s ==> IsSpace(c)
  }

  ghost predicate Lines(lines: seq<string>) {
    forall l :: l in lines ==> OneLine(l)
  }

  // The schema that a list of lines is read as.
  function Reading(lines: seq<string>): Result<Schema, SchemaError> {
    SchemaOf(Joined("\n", lines))
  }

  // --------------------------------------------------------------- lines in a text

  // Splitting gives the lines back, but for an empty last one.
  lemma {:induction false} SplitJoined(lines: seq<string>)
    requires Lines(lines)
    ensures SplitLines(Joined("\n", lines)) ==
      if lines == [] || lines[|lines| - 1] != "" then lines else lines[..|lines| - 1]
  {
    hide SplitLines;
    if lines == [] {
      NoLines();
    } else {
      assert lines[0] in lines;
      LineStep(lines[0], Joined("\n", lines[1..]));
      if |lines| == 1 {
        NoLines();
      } else {
        SplitJoined(lines[1..]);
        assert lines == [lines[0]] + lines[1..];
      }
    }
  }

  lemma NoLines()
    ensures SplitLines("") == []
  {
  }

  lemma {:induction false} CleanedJoin(a: seq<string>, b: seq<string>)
    ensures Cleaned(a + b) == Cleaned(a) + Cleaned(b)
  {
    hide Cleaned, Clean;
    if a == [] {
      NothingCleaned();
      assert a + b == b && [] + Cleaned(b) == Cleaned(b);
    } else {
      CleanedFirst(a + b);
      CleanedFirst(a);
      CleanedJoin(a[1..], b);
      assert (a + b)[1..] == a[1..] + b && (a + b)[0] == a[0];
    }
  }

  lemma NothingCleaned()
    ensures Cleaned([]) == []
  {
  }

  lemma CleanedFirst(lines: seq<string>)
    requires lines != []
    ensures Cleaned(lines) == (if Clean(lines[0]) == "" then [] else [Clean(lines[0])]) + Cleaned(lines[1..])
  {
    hide Clean;
  }

  lemma CleanedOne(l: string)
    ensures Cleaned([l]) == if Clean(l) == "" then [] else [Clean(l)]
  {
    assert [l][1..] == [];
  }

  lemma CleanedJoined(lines: seq<string>)
    requires Lines(lines)
    ensures Cleaned(SplitLines(Joined("\n", lines))) == Cleaned(lines)
  {
    SplitJoined(lines);
    if lines != [] && lines[|lines| - 1] == "" {
      var init := lines[..|lines| - 1];
      assert lines == init + [""];
      CleanedJoin(init, [""]);
      CleanedOne("");
      assert Clean("") == "";
    }
    hide Cleaned, SplitLines;
  }

  // Texts whose lines clean to the same are read the same, errors and all.
  lemma SameCleaned(a: seq<string>, b: seq<string>)
    requires Lines(a) && Lines(b) && Cleaned(a) == Cleaned(b)
    ensures Reading(a) == Reading(b)
  {
    CleanedJoined(a);
    CleanedJoined(b);
    hide Cleaned, SplitLines, Header, FeedAll;
  }

  lemma SameLine(before: seq<string>, l: string, k: string, after: seq<string>)
    requires Lines(before) && Lines(after) && OneLine(l) && OneLine(k) && Clean(l) == Clean(k)
    ensures Reading(before + [l] + after) == Reading(before + [k] + after)
  {
    hide Clean;
    CleanedJoin(before + [l], after);
    CleanedJoin(before, [l]);
    CleanedJoin(before + [k], after);
    CleanedJoin(before, [k]);
    CleanedOne(l);
    CleanedOne(k);
    hide Cleaned, OneLine, Reading;
    SameCleaned(before + [l] + after, before + [k] + after);
  }

  // ----------------------------------------------------------------- what is ignored

  lemma {:induction false} CommentCut(l: string, comment: string)
    ensures Before(l + "#" + comment, '#') == Before(l, '#')
  {
    if l == "" {
      assert l + "#" + comment == "#" + comment;
    } else if l[0] == '#' {
    } else {
      CommentCut(l[1..], comment);
      assert (l + "#" + comment)[1..] == l[1..] + "#" + comment;
    }
  }

  /** A '#' and what follows it on a line change nothing. */
  lemma CommentIsIgnored(before: seq<string>, l: string, comment: string, after: seq<string>)
    requires Lines(before) && Lines(after) && OneLine(l) && OneLine(comment)
    ensures Reading(before + [l + "#" + comment] + after) == Reading(before + [l] + after)
  {
    CommentCut(l, comment);
    assert !IsBreak('#');
    SameLine(before, l + "#" + comment, l, after);
  }

  lemma {:induction false} IndentCut(indent: string, l: string)
    requires AllSpaces(indent)
    ensures Before(indent + l, '#') == indent + Before(l, '#')
  {
    if indent == "" {
      assert indent + l == l && indent + Before(l, '#') == Before(l, '#');
    } else {
      assert indent[0] in indent && indent[0] != '#' by {
        assert !IsSpace('#');
      }
      hide IsSpace;
      IndentCut(indent[1..], l);
      assert (indent + l)[1..] == indent[1..] + l;
      BeforeFirst(indent + l);
      assert indent + Before(l, '#') == [indent[0]] + (indent[1..] + Before(l, '#'));
    }
  }

  lemma BeforeFirst(s: string)
    requires s != "" && s[0] != '#'
    ensures Before(s, '#') == [s[0]] + Before(s[1..], '#')
  {
  }

  lemma {:induction false} IndentStripped(indent: string, s: string)
    requires AllSpaces(indent)
    ensures Strip(indent + s) == Strip(s)
  {
    if indent == "" {
      assert indent + s == s;
    } else {
      assert indent[0] in indent;
      IndentStripped(indent[1..], s);
      assert (indent + s)[1..] == indent[1..] + s;
    }
  }

  /** Neither does indenting a line. */
  lemma IndentIsIgnored(before: seq<string>, indent: string, l: string, after: seq<string>)
    requires Lines(before) && Lines(after) && OneLine(indent) && OneLine(l) && AllSpaces(indent)
    ensures Reading(before + [indent + l] + after) == Reading(before + [l] + after)
  {
    IndentCut(indent, l);
    IndentStripped(indent, Before(l, '#'));
    SameLine(before, indent + l, l, after);
  }

  lemma {:induction false} SpacesAfter(s: string, spaces: string)
    requires AllSpaces(spaces)
    ensures StripRight(s + spaces) == StripRight(s)
  {
    if s == "" {
      assert s + spaces == spaces;
      SpacesVanish(spaces);
    } else {
      SpacesAfter(s[1..], spaces);
      assert (s + spaces)[1..] == s[1..] + spaces;
    }
  }

  lemma {:induction false} SpacesVanish(spaces: string)
    requires AllSpaces(spaces)
    ensures StripRight(spaces) == "" && StripLeft(spaces) == ""
  {
    if spaces == "" {
    } else {
      assert spaces[0] in spaces;
      SpacesVanish(spaces[1..]);
    }
  }

  /** Nor do blanks at its end. */
  lemma TrailIsIgnored(before: seq<string>, l: string, trail: string, after: seq<string>)
    requires Lines(before) && Lines(after) && OneLine(trail) && OneLine(l) && AllSpaces(trail) && '#' !in l
    ensures Reading(before + [l + trail] + after) == Reading(before + [l] + after)
  {
    assert '#' !in trail by {
      assert !IsSpace('#');
    }
    BeforeStops(l + trail, "", '#');
    BeforeStops(l, "", '#');
    assert l + trail + "" == l + trail && l + "" == l;
    SpacesAfter(l, trail);
    StripsCommute(l + trail);
    StripsCommute(l);
    SameLine(before, l + trail, l, after);
  }

  /** A blank line, or one that holds only a comment, may be put in anywhere. */
  lemma EmptyLineIsIgnored(before: seq<string>, indent: string, comment: string, after: seq<string>)
    requires Lines(before) && Lines(after) && OneLine(indent) && OneLine(comment) && AllSpaces(indent)
    ensures Reading(before + [indent] + after) == Reading(before + after)
    ensures Reading(before + [indent + "#" + comment] + after) == Reading(before + after)
  {
    hide Clean, Cleaned, OneLine, Reading, AllSpaces;
    BlankCleans(indent);
    CommentIsIgnored(before, indent, comment, after);
    BlankDrops(before, indent, after);
  }

  lemma BlankDrops(before: seq<string>, blank: string, after: seq<string>)
    requires Lines(before) && Lines(after) && OneLine(blank) && Clean(blank) == ""
    ensures Reading(before + [blank] + after) == Reading(before + after)
  {
    hide Clean, Cleaned, OneLine, Reading;
    CleanedJoin(before + [blank], after);
    CleanedJoin(before, [blank]);
    CleanedJoin(before, after);
    CleanedOne(blank);
    assert Cleaned(before) + [] == Cleaned(before);
    SameCleaned(before + [blank] + after, before + after);
  }

  lemma BlankCleans(indent: string)
    requires AllSpaces(indent)
    ensures Clean(indent) == ""
  {
    assert '#' !in indent by {
      assert !IsSpace('#');
    }
    BeforeStops(indent, "", '#');
    assert indent + "" == indent;
    SpacesVanish(indent);
  }

  // -------------------------------------------------------------- other line ends

  lemma {:induction false} CrLfSplits(lines: seq<string>)
    requires Lines(lines)
    ensures SplitLines(Joined("\r\n", lines)) == SplitLines(Joined("\n", lines))
  {
    hide SplitLines;
    if |lines| <= 1 {
    } else {
      assert lines[0] in lines;
      LineStep(lines[0], Joined("\n", lines[1..]));
      CrLfStep(lines[0], Joined("\r\n", lines[1..]));
      CrLfSplits(lines[1..]);
    }
  }

  lemma CrLfStep(s: string, t: string)
    requires OneLine(s)
    ensures SplitLines(s + "\r\n" + t) == [s] + SplitLines(t)
  {
    FindAfter(s, "\r\n" + t, IsBreak);
    var whole := s + "\r\n" + t;
    assert whole == s + ("\r\n" + t);
    assert whole[|s|] == '\r' && whole[|s| + 1] == '\n' && whole[..|s|] == s && whole[|s| + 2..] == t;
  }

  // A text reads the same whether its lines end as on Unix or as on Windows.
  lemma LineEndsAreIgnored(lines: seq<string>)
    requires Lines(lines)
    ensures SchemaOf(Joined("\r\n", lines)) == Reading(lines)
  {
    CrLfSplits(lines);
    hide SplitLines, Cleaned, Header, FeedAll;
  }

  // ---------------------------------------------------------------- case of keywords

  lemma {:induction false} FeedJoin(d: Draft, a: seq<string>, b: seq<string>)
    ensures FeedAll(d, a + b) ==
      match FeedAll(d, a)
      case Ok(next) => FeedAll(next, b)
      case Err(e) => Err(e)
    decreases |a|
  {
    if a == [] {
      assert a + b == b;
    } else {
      assert (a + b)[1..] == a[1..] + b && (a + b)[0] == a[0];
      hide Feed;
      if Feed(d, a[0]).Ok? {
        FeedJoin(Feed(d, a[0]).value, a[1..], b);
      }
    }
  }

  // Two lines that are no header and are always fed alike are read alike.
  lemma FedAlike(before: seq<string>, l: string, k: string, after: seq<string>)
    requires Lines(before) && Lines(after) && OneLine(l) && OneLine(k)
    requires Clean(l) != "" && Clean(k) != "" && Header(Clean(l)) == None == Header(Clean(k))
    requires forall d: Draft :: Feed(d, Clean(l)) == Feed(d, Clean(k))
    ensures Reading(before + [l] + after) == Reading(before + [k] + after)
  {
    hide Clean, Cleaned, Header, Feed, SplitLines, SchemaOfLines, OneLine;
    CleanedThere(before, l, after);
    CleanedThere(before, k, after);
    LinesFedAlike(Cleaned(before), Clean(l), Clean(k), Cleaned(after));
  }

  lemma LinesFedAlike(a: seq<string>, x: string, y: string, b: seq<string>)
    requires Header(x) == None == Header(y) && forall d: Draft :: Feed(d, x) == Feed(d, y)
    ensures SchemaOfLines(a + [x] + b) == SchemaOfLines(a + [y] + b)
  {
    hide Header;
    var l, k := a + [x] + b, a + [y] + b;
    if a == [] {
      assert l[0] == x && k[0] == y;
      hide FeedAll, Feed;
    } else {
      BodyFedAlike(BLANK, a[1..], x, y, b);
      assert l[0] == a[0] == k[0] && l[1..] == a[1..] + ([x] + b) && k[1..] == a[1..] + ([y] + b);
      hide FeedAll, Feed;
    }
  }

  lemma BodyFedAlike(d: Draft, a: seq<string>, x: string, y: string, b: seq<string>)
    requires forall e: Draft :: Feed(e, x) == Feed(e, y)
    ensures FeedAll(d, a + ([x] + b)) == FeedAll(d, a + ([y] + b))
  {
    hide Feed;
    FeedJoin(d, a, [x] + b);
    FeedJoin(d, a, [y] + b);
    assert ([x] + b)[0] == x && ([y] + b)[0] == y && ([x] + b)[1..] == b && ([y] + b)[1..] == b;
  }

  lemma CleanedThere(before: seq<string>, l: string, after: seq<string>)
    requires Lines(before) && Lines(after) && OneLine(l) && Clean(l) != ""
    ensures Cleaned(SplitLines(Joined("\n", before + [l] + after))) == Cleaned(before) + [Clean(l)] + Cleaned(after)
  {
    CleanedJoin(before + [l], after);
    CleanedJoin(before, [l]);
    CleanedOne(l);
    CleanedJoined(before + [l] + after);
    hide Clean, Cleaned, SplitLines;
  }

  lemma WordStays(h: string)
    requires Lower(h) in {"relations", "permissions"}
    ensures Clean(h) == h && h != "" && OneLine(h) && Header(h) == None
  {
    forall c | c in h ensures !IsSpace(c) && c != '#' && !IsBreak(c) {
      var i :| 0 <= i < |h| && h[i] == c;
      assert Lower(h)[i] == LowerChar(c);
      assert forall x :: x in "relations" || x in "permissions" ==> 'a' <= x <= 'z';
    }
    BeforeStops(h, "", '#');
    assert h + "" == h;
    StripSolid(h);
    assert forall i :: 0 <= i < |h| ==> h[i] in h;
  }

  /** A section may be headed in capitals or small letters. */
  lemma HeadingInAnyCase(before: seq<string>, h: string, k: string, after: seq<string>)
    requires Lines(before) && Lines(after) && Lower(h) == Lower(k) && Lower(h) in {"relations", "permissions"}
    ensures Reading(before + [h] + after) == Reading(before + [k] + after)
  {
    WordStays(h);
    WordStays(k);
    hide Clean, Header, Reading, OneLine;
    FedAlike(before, h, k, after);
  }

  // ----------------------------------------------------------------------- the header

  lemma {:induction false} Leading(s: string) returns (spaces: string)
    ensures AllSpaces(spaces) && s == spaces + StripLeft(s)
  {
    if s == "" || !IsSpace(s[0]) {
      spaces := "";
      assert s == "" + s;
    } else {
      var rest := Leading(s[1..]);
      spaces := [s[0]] + rest;
      assert s == [s[0]] + s[1..];
    }
  }

  lemma {:induction false} LeadingGone(spaces: string, s: string)
    requires AllSpaces(spaces) && (s == "" || !IsSpace(s[0]))
    ensures StripLeft(spaces + s) == s
  {
    if spaces == "" {
      assert spaces + s == s;
    } else {
      assert spaces[0] in spaces;
      LeadingGone(spaces[1..], s);
      assert (spaces + s)[1..] == spaces[1..] + s;
    }
  }

  // The header as its pattern has it.
  ghost predicate IsHeader(line: string, w: string, gap: string, x: string, space: string, digits: string) {
    && line == w + (gap + (x + (space + digits)))
    && Lower(w) == "model" && Lower(x) == "schema"
    && gap != "" && AllSpaces(gap) && space != "" && AllSpaces(space)
    && digits != "" && forall c :: c in digits ==> IsDigit(c)
  }

  /** A line heads a schema exactly when it is "model" and "schema" in any case and a
      number, with any blanks between them; the number is the version. */
  lemma HeaderExactly(line: string, version: nat)
    ensures Header(line) == Some(version) <==>
      exists w, gap, x, space, digits :: IsHeader(line, w, gap, x, space, digits) && TextNat(digits) == version
  {
    if Header(line) == Some(version) {
      var gap := Leading(line[5..]);
      var rest := StripLeft(line[5..]);
      var space := Leading(rest[6..]);
      var digits := StripLeft(rest[6..]);
      WordsApart(line, gap, rest, space, digits);
      hide TextNat, IsDigit;
      assert IsHeader(line, line[..5], gap, rest[..6], space, digits);
    }
    forall w, gap, x, space, digits | IsHeader(line, w, gap, x, space, digits) ensures Header(line) == Some(TextNat(digits)) {
      HeaderReads(line, w, gap, x, space, digits);
    }
  }

  lemma WordsApart(line: string, gap: string, rest: string, space: string, digits: string)
    requires StartsWord(line, "model") && line[5..] == gap + rest && rest == StripLeft(line[5..])
    requires StartsWord(rest, "schema") && rest[6..] == space + digits && digits == StripLeft(rest[6..])
    ensures line == line[..5] + (gap + (rest[..6] + (space + digits))) && gap != "" && space != ""
  {
    assert line == line[..5] + line[5..] && rest == rest[..6] + rest[6..];
    assert line[5..][0] == line[5] && rest[6..][0] == rest[6];
  }

  lemma HeaderReads(line: string, w: string, gap: string, x: string, space: string, digits: string)
    requires IsHeader(line, w, gap, x, space, digits)
    ensures Header(line) == Some(TextNat(digits))
  {
    var rest := x + (space + digits);
    assert |w| == 5 && |x| == 6;
    assert line[..5] == w && line[5..] == gap + rest && line[5] == gap[0] && gap[0] in gap;
    assert rest[..6] == x && rest[6..] == space + digits && rest[6] == space[0] && space[0] in space;
    assert digits[0] in digits && !IsSpace(digits[0]);
    assert !IsSpace(rest[0]) by {
      assert Lower(x)[0] == 's' && rest[0] == x[0];
    }
    LeadingGone(gap, rest);
    LeadingGone(space, digits);
    hide TextNat, IsDigit;
  }

  // ------------------------------------------------------------------- dictionaries

  /** Giving a relation or a permission a second time replaces the first in its place. */
  lemma {:induction false} LaterReplaces<V>(entries: seq<(string, V)>, i: nat, value: V)
    requires i < |entries| && forall j :: 0 <= j < i ==> entries[j].0 != entries[i].0
    ensures Put(entries, entries[i].0, value) == entries[i := (entries[i].0, value)]
  {
    if i == 0 {
    } else {
      LaterReplaces(entries[1..], i - 1, value);
      assert entries == [entries[0]] + entries[1..];
    }
  }

  // ------------------------------------------------------------------ relation lines

  // An item of a relation's list, with the blanks around it.
  datatype Item = Item(left: string, name: string, right: string)
  {
    predicate Valid() {
      AllSpaces(left) && AllSpaces(right) && Solid(name) && ',' !in name
    }

    function Written(): string {
      left + name + right
    }
  }

  function WrittenItems(items: seq<Item>): seq<string> {
    if items == [] then [] else [items[0].Written()] + WrittenItems(items[1..])
  }

  function NamesOf(items: seq<Item>): seq<string> {
    if items == [] then []
    else (if items[0].name == "" then [] else [items[0].name]) + NamesOf(items[1..])
  }

  lemma ItemStripped(item: Item)
    requires item.Valid()
    ensures Strip(item.Written()) == item.name && ',' !in item.Written()
  {
    assert !IsSpace(',');
    assert item.Written() == item.left + (item.name + item.right);
    IndentStripped(item.left, item.name + item.right);
    StripsCommute(item.name + item.right);
    SpacesAfter(item.name, item.right);
    StripsCommute(item.name);
    StripSolid(item.name);
  }

  lemma {:induction false} ItemsSplit(items: seq<Item>)
    requires items != [] && forall i :: 0 <= i < |items| ==> items[i].Valid()
    ensures Split(Joined(",", WrittenItems(items)), ',') == WrittenItems(items)
  {
    hide Split, Item.Written, Item.Valid;
    ItemStripped(items[0]);
    if |items| == 1 {
      assert items[1..] == [] && WrittenItems([]) == [];
      SplitStep(items[0].Written(), "", ',');
    } else {
      ItemsSplit(items[1..]);
      SplitStep(items[0].Written(), Joined(",", WrittenItems(items[1..])), ',');
      assert "," == [','];
    }
  }

  lemma {:induction false} ItemsNamed(items: seq<Item>)
    requires forall i :: 0 <= i < |items| ==> items[i].Valid()
    ensures Items(WrittenItems(items)) == NamesOf(items)
  {
    hide Item.Written, Item.Valid, Strip;
    if items == [] {
    } else {
      ItemStripped(items[0]);
      ItemsNamed(items[1..]);
      assert WrittenItems(items)[1..] == WrittenItems(items[1..]);
    }
  }

  /** Blanks around the name, the colon, the list and its items, and empty items, change
      nothing in what a relation line says. */
  lemma RelationSpaced(name: string, gap: string, space: string, items: seq<Item>)
    requires name != "" && Solid(name) && ':' !in name && AllSpaces(gap) && AllSpaces(space)
    requires items != [] && forall i :: 0 <= i < |items| ==> items[i].Valid()
    ensures
      var line := name + gap + ":" + (space + ("[" + Joined(",", WrittenItems(items)) + "]"));
      ParseRelation(line) == if NamesOf(items) == [] then Err(InvalidSubjects(line)) else Ok((name, NamesOf(items)))
  {
    ItemsSplit(items);
    ItemsNamed(items);
    hide WrittenItems, NamesOf, Joined, Items, Split, ParseRelation, Item.Valid;
    hide Strip, Solid, AllSpaces;
    var inner := Joined(",", WrittenItems(items));
    HeadStripped(name, gap);
    SpacesLackColons(gap);
    BracketsStripped(space, inner);
    ParsesParts(name + gap, space + ("[" + inner + "]"), name, inner);
  }

  lemma SpacesLackColons(gap: string)
    requires AllSpaces(gap)
    ensures ':' !in gap
  {
    assert !IsSpace(':');
  }

  lemma BracketsStripped(space: string, inner: string)
    requires AllSpaces(space)
    ensures Strip(space + ("[" + inner + "]")) == "[" + inner + "]"
  {
    var subjects := "[" + inner + "]";
    IndentStripped(space, subjects);
    StripRightDone(subjects);
    assert StripLeft(subjects) == subjects;
  }

  lemma ParsesParts(head: string, rest: string, name: string, inner: string)
    requires ':' !in head && Strip(head) == name != "" && Strip(rest) == "[" + inner + "]"
    ensures
      var line := head + ":" + rest;
      var items := Items(Split(inner, ','));
      ParseRelation(line) == if items == [] then Err(InvalidSubjects(line)) else Ok((name, items))
  {
    HeadCut(head, rest);
    hide Items, Split, Strip, Before;
    var subjects := "[" + inner + "]";
    assert subjects[1..|subjects| - 1] == inner;
  }

  lemma HeadCut(head: string, rest: string)
    requires ':' !in head
    ensures Before(head + ":" + rest, ':') == head && ':' in head + ":" + rest
    ensures (head + ":" + rest)[|head| + 1..] == rest
  {
    BeforeStops(head, ":" + rest, ':');
    assert head + ":" + rest == head + (":" + rest);
    assert (head + ":" + rest)[|head|] == ':';
  }

  lemma HeadStripped(name: string, gap: string)
    requires name != "" && Solid(name) && AllSpaces(gap)
    ensures Strip(name + gap) == name
  {
    StripsCommute(name + gap);
    SpacesAfter(name, gap);
    StripsCommute(name);
    StripSolid(name);
  }

  // --------------------------------------------------------------- lines that are refused

  lemma BlankIsNothing(spaces: string)
    requires AllSpaces(spaces)
    ensures Strip(spaces) == ""
  {
    SpacesVanish(spaces);
  }

  /** A relation without a colon or a name, or whose subjects are not in brackets, and a
      permission without an equals sign, a name or an expression are refused by name. */
  lemma RefusedLines(line: string, blank: string, rest: string)
    requires AllSpaces(blank)
    ensures ':' !in line ==> ParseRelation(line) == Err(InvalidRelation(line))
    ensures ParseRelation(blank + ":" + rest) == Err(InvalidRelation(blank + ":" + rest))
    ensures '=' !in line ==> ParsePermission(line) == Err(InvalidPermission(line))
    ensures ParsePermission(blank + "=" + rest) == Err(InvalidPermission(blank + "=" + rest))
    ensures '=' !in line ==> ParsePermission(line + "=" + blank) == Err(InvalidPermission(line + "=" + blank))
  {
    assert !IsSpace(':') && !IsSpace('=');
    BlankIsNothing(blank);
    HeadCut(blank, rest);
    EqualsCut(blank, rest);
    if '=' !in line {
      EqualsCut(line, blank);
    }
    hide Strip, Before, ReadExpression;
  }

  lemma EqualsCut(head: string, rest: string)
    requires '=' !in head
    ensures Before(head + "=" + rest, '=') == head && '=' in head + "=" + rest
    ensures (head + "=" + rest)[|head| + 1..] == rest
  {
    BeforeStops(head, "=" + rest, '=');
    assert head + "=" + rest == head + ("=" + rest);
    assert (head + "=" + rest)[|head|] == '=';
  }

  lemma UnbracketedIsRefused(head: string, rest: string)
    requires ':' !in head && Strip(head) != ""
    requires |Strip(rest)| < 2 || Strip(rest)[0] != '[' || Strip(rest)[|Strip(rest)| - 1] != ']'
    ensures ParseRelation(head + ":" + rest) == Err(InvalidSubjects(head + ":" + rest))
  {
    HeadCut(head, rest);
    hide Strip, Before;
  }

  // Before any section heading only type lines are allowed.
  lemma StrayLineIsRefused(types: seq<string>, line: string)
    requires Lower(line) !in {"relations", "permissions"} && !(|line| >= 5 && Lower(line)[..5] == "type ")
    ensures Feed(Draft(types, [], [], NoSection), line) == Err(UnexpectedLine(line))
  {
  }

  // The type of a model is given with or without blanks around it, and is "resource" where
  // nothing is given.
  lemma ObjectTypeIs(left: string, name: string, right: string)
    requires AllSpaces(left) && AllSpaces(right) && Solid(name)
    ensures ObjectType(left + name + right) == if name == "" then "resource" else name
  {
    assert left + name + right == left + (name + right);
    IndentStripped(left, name + right);
    StripsCommute(name + right);
    SpacesAfter(name, right);
    StripsCommute(name);
    StripSolid(name);
    hide Strip;
  }

  // A model is not rendered exactly where some relation's subjects are neither a name nor a
  // list, and then the first such relation is named.
  lemma {:induction false} FirstBadRelation(rs: seq<Relation>) returns (i: nat)
    ensures BadRelation(rs).None? <==> forall r :: r in rs ==> !r.1.Other?
    ensures BadRelation(rs).Some? ==>
      i < |rs| && rs[i].1.Other? && BadRelation(rs) == Some(rs[i].0) && forall j :: 0 <= j < i ==> !rs[j].1.Other?
  {
    i := 0;
    if rs == [] {
    } else {
      assert rs == [rs[0]] + rs[1..];
      if !rs[0].1.Other? {
        i := FirstBadRelation(rs[1..]);
        i := i + 1;
      }
    }
  }
}
