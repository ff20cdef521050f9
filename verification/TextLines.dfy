/** Lines, whitespace and separators, as the text-handling parts of the source use them. */
module TextLines {

  predicate IsBreak(c: char) {
    || 0x0a <= c as int <= 0x0d
    || 0x1c <= c as int <= 0x1e
    || c as int in {0x85, 0x2028, 0x2029}
  }

  predicate IsSpace(c: char) {
    || 0x09 <= c as int <= 0x0d
    || 0x1c <= c as int <= 0x20
    || 0x2000 <= c as int <= 0x200a
    || c as int in {0x85, 0xa0, 0x1680, 0x2028, 0x2029, 0x202f, 0x205f, 0x3000}
  }

  function StripLeft(s: string): (r: string)
    ensures |r| <= |s|
    ensures r != "" ==> !IsSpace(r[0])
  {
    if s != "" && IsSpace(s[0]) then StripLeft(s[1..]) else s
  }

  function StripRight(s: string): (r: string)
    ensures |r| <= |s|
  {
    if s == "" then ""
    else
      var rest := StripRight(s[1..]);
      if rest == "" && IsSpace(s[0]) then "" else [s[0]] + rest
  }

  function Strip(s: string): string {
    StripRight(StripLeft(s))
  }

  // Where the first character satisfying p stands, or the length of the text.
  function Find(s: string, p: char -> bool): (n: nat)
    ensures n <= |s|
    ensures forall i :: 0 <= i < n ==> !p(s[i])
    ensures n < |s| ==> p(s[n])
  {
    if s == "" || p(s[0]) then 0 else 1 + Find(s[1..], p)
  }

  // The text before the first c.
  function Before(s: string, c: char): (r: string)
    ensures r <= s && c !in r
    ensures |r| < |s| ==> s[|r|] == c
  {
    if s == "" || s[0] == c then "" else [s[0]] + Before(s[1..], c)
  }

  function Split(s: string, c: char): seq<string>
    decreases |s|
  {
    var first := Before(s, c);
    if first == s then [s] else [first] + Split(s[|first| + 1..], c)
  }

  function SplitLines(s: string): seq<string>
    decreases |s|
  {
    if s == "" then []
    else
      var n := Find(s, IsBreak);
      if n == |s| then [s]
      else
        var width := if s[n] == '\r' && n + 1 < |s| && s[n + 1] == '\n' then 2 else 1;
        [s[..n]] + SplitLines(s[n + width..])
  }

  // A text is one line exactly when it holds none of the ten line ends.
  lemma {:induction false} OneLineExactly(s: string)
    requires s != ""
    ensures SplitLines(s) == [s]
      <==> forall c :: c in s ==> c !in "\n\U{0b}\U{0c}\r\U{1c}\U{1d}\U{1e}\U{85}\U{2028}\U{2029}"
  {
    var ends := "\n\U{0b}\U{0c}\r\U{1c}\U{1d}\U{1e}\U{85}\U{2028}\U{2029}";
    forall c: char ensures c in ends <==> IsBreak(c) {
      assert ends[0] == '\n' && ends[1] == '\U{0b}' && ends[2] == '\U{0c}' && ends[3] == '\r'
        && ends[4] == '\U{1c}' && ends[5] == '\U{1d}' && ends[6] == '\U{1e}' && ends[7] == '\U{85}'
        && ends[8] == '\U{2028}' && ends[9] == '\U{2029}';
    }
    var n := Find(s, IsBreak);
    if n < |s| {
      assert s[n] in s;
      assert |SplitLines(s)[0]| < |s|;
    } else {
      forall c | c in s ensures !IsBreak(c) {
        var i :| 0 <= i < |s| && s[i] == c;
      }
    }
  }

  function Joined(separator: string, parts: seq<string>): string {
    if parts == [] then ""
    else if |parts| == 1 then parts[0]
    else parts[0] + separator + Joined(separator, parts[1..])
  }

  // No character of s is a space.
  predicate Solid(s: string) {
    forall c :: c in s ==> !IsSpace(c)
  }

  // ------------------------------------------------------------- reading back

  lemma FindAfter(s: string, t: string, p: char -> bool)
    requires forall c :: c in s ==> !p(c)
    requires t != "" ==> p(t[0])
    ensures Find(s + t, p) == |s|
  {
    forall i | 0 <= i < |s| ensures !p((s + t)[i]) {
      assert s[i] in s;
    }
    assert t != "" ==> (s + t)[|s|] == t[0];
  }

  lemma {:induction false} BeforeStops(s: string, t: string, c: char)
    requires c !in s && (t == "" || t[0] == c)
    ensures Before(s + t, c) == s
  {
    if s == "" {
      assert s + t == t;
    } else {
      BeforeStops(s[1..], t, c);
      assert (s + t)[1..] == s[1..] + t && [s[0]] + s[1..] == s;
    }
  }

  lemma {:induction false} SplitLinesReadsBack(lines: seq<string>)
    requires lines != [] && lines[|lines| - 1] != ""
    requires forall l, c :: l in lines && c in l ==> !IsBreak(c)
    ensures SplitLines(Joined("\n", lines)) == lines
  {
    hide SplitLines, IsBreak;
    LineStep(lines[0], Joined("\n", lines[1..]));
    if |lines| > 1 {
      SplitLinesReadsBack(lines[1..]);
    }
  }

  lemma LineStep(s: string, t: string)
    requires forall c :: c in s ==> !IsBreak(c)
    ensures SplitLines(s + "\n" + t) == [s] + SplitLines(t)
    ensures s != "" ==> SplitLines(s) == [s]
  {
    FindAfter(s, "\n" + t, IsBreak);
    var whole := s + "\n" + t;
    assert whole == s + ("\n" + t);
    assert whole[|s|] == '\n' && whole[..|s|] == s && whole[|s| + 1..] == t;
    FindAfter(s, "", IsBreak);
    assert s + "" == s;
  }

  lemma StripLeftSolid(s: string, t: string)
    requires s != "" && Solid(s)
    ensures StripLeft(s + t) == s + t
  {
    assert (s + t)[0] == s[0] && s[0] in s;
  }

  // Stripping on the right leaves what ends in s alone.
  lemma {:induction false} StripRightTail(s: string, t: string)
    requires s == "" || !IsSpace(s[|s| - 1])
    ensures StripRight(s + t) == s + StripRight(t)
  {
    if s == "" {
      assert s + t == t;
    } else {
      StripRightTail(s[1..], t);
      assert (s + t)[1..] == s[1..] + t;
      assert s == [s[0]] + s[1..];
      assert s[1..] == "" ==> s[0] == s[|s| - 1];
    }
  }

  lemma StripRightDone(s: string)
    requires s == "" || !IsSpace(s[|s| - 1])
    ensures StripRight(s) == s
  {
    StripRightTail(s, "");
    assert s + "" == s;
  }

  lemma {:induction false} StripRightEnds(s: string)
    ensures StripRight(s) == "" || !IsSpace(StripRight(s)[|StripRight(s)| - 1])
    ensures forall c :: c in StripRight(s) ==> c in s
  {
    if s == "" {
    } else {
      StripRightEnds(s[1..]);
      assert s == [s[0]] + s[1..];
    }
  }

  lemma {:induction false} StripsCommute(s: string)
    ensures Strip(StripRight(s)) == Strip(s)
  {
    if s == "" {
    } else {
      var rest := StripRight(s[1..]);
      if IsSpace(s[0]) {
        StripsCommute(s[1..]);
        assert ([s[0]] + rest)[1..] == rest;
        if rest == "" {
          assert Strip("") == "";
        }
      } else {
        StripRightEnds(s);
        StripRightDone(StripRight(s));
      }
    }
  }

  lemma StripSolid(s: string)
    requires Solid(s)
    ensures Strip(s) == s
  {
    if s != "" {
      assert s[|s| - 1] in s && s[0] in s;
      StripRightDone(s);
    }
  }

  lemma SplitStep(s: string, t: string, c: char)
    requires c !in s
    ensures Split(s + [c] + t, c) == [s] + Split(t, c)
    ensures Split(s, c) == [s]
  {
    BeforeStops(s, [c] + t, c);
    assert s + [c] + t == s + ([c] + t);
    assert (s + [c] + t)[|s| + 1..] == t;
    BeforeStops(s, "", c);
    assert s + "" == s;
  }

  // Splitting at commas finds the parts again, each after its lead.
  lemma {:induction false} SplitAfter(lead: string, parts: seq<string>)
    requires ',' !in lead
    requires parts != [] && forall p :: p in parts ==> ',' !in p
    ensures
      var split := Split(lead + Joined(", ", parts), ',');
      && |split| == |parts| && split[0] == lead + parts[0]
      && forall i :: 1 <= i < |parts| ==> split[i] == " " + parts[i]
    decreases |parts|
  {
    hide Split;
    var first := lead + parts[0];
    var s := lead + Joined(", ", parts);
    if |parts| == 1 {
      SplitStep(first, "", ',');
    } else {
      var rest := Joined(", ", parts[1..]);
      SplitAfter(" ", parts[1..]);
      SplitStep(first, " " + rest, ',');
      assert s == first + [','] + (" " + rest);
    }
  }
}
