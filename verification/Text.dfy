/** The string operations the source leans on. */
module Text {
  function LowerChar(c: char): char {
    if 'A' <= c <= 'Z' then ((c as int) + 32) as char else c
  }

  // Lower case, for ASCII text.
  function Lower(s: string): (r: string)
    ensures |r| == |s|
  {
    seq(|s|, i requires 0 <= i < |s| => LowerChar(s[i]))
  }

  const CAPITALS := "ABCDEFGHIJKLMNOPQRSTUVWXYZ"
  const SMALL := "abcdefghijklmnopqrstuvwxyz"

  lemma {:induction false} CapitalsAre()
    ensures |CAPITALS| == |SMALL| == 26
    ensures forall i :: 0 <= i < 26 ==> CAPITALS[i] as int == 'A' as int + i && SMALL[i] as int == 'a' as int + i
  {
  }

  // Every capital has its small letter, and nothing but a capital is changed.
  lemma {:induction false} CapitalsExactly(s: string)
    ensures Lower(CAPITALS) == SMALL
    ensures Lower(s) == s <==> forall c :: c in s ==> c !in CAPITALS
  {
    hide CAPITALS, SMALL;
    CapitalsAre();
    forall i | 0 <= i < 26 ensures LowerChar(CAPITALS[i]) == SMALL[i] {
    }
    if Lower(s) == s {
      forall c | c in s ensures c !in CAPITALS {
        var i :| 0 <= i < |s| && s[i] == c;
        assert Lower(s)[i] == LowerChar(c);
      }
    } else {
      var i :| 0 <= i < |s| && Lower(s)[i] != s[i];
      var k := s[i] as int - 'A' as int;
      assert CAPITALS[k] == s[i];
      assert s[i] in s;
    }
  }

  function Digit(d: nat): char
    requires d < 10
  {
    (d + ('0' as int)) as char
  }

  predicate IsDigit(c: char) {
    '0' <= c <= '9'
  }

  // Decimal text of a natural number.
  function NatText(n: nat): (s: string)
    ensures |s| > 0 && forall c :: c in s ==> IsDigit(c)
  {
    if n < 10 then [Digit(n)] else NatText(n / 10) + [Digit(n % 10)]
  }

  function IntText(n: int): string {
    if n < 0 then "-" + NatText(-n) else NatText(n)
  }

  // The number a decimal text denotes.
  function TextNat(s: string): nat
    requires forall c :: c in s ==> IsDigit(c)
  {
    if s == "" then 0
    else
      assert IsDigit(s[|s| - 1]);
      TextNat(s[..|s| - 1]) * 10 + (s[|s| - 1] as int - '0' as int)
  }

  lemma {:induction false} NatTextReadsBack(n: nat)
    ensures TextNat(NatText(n)) == n
  {
    if n < 10 {
      assert NatText(n)[..0] == "";
    } else {
      NatTextReadsBack(n / 10);
      var s := NatText(n);
      assert s[..|s| - 1] == NatText(n / 10);
      assert s[|s| - 1] == Digit(n % 10);
    }
  }

  // Character by character, a proper prefix first.
  predicate TextBefore(a: string, b: string) {
    if b == "" then false
    else if a == "" then true
    else a[0] < b[0] || (a[0] == b[0] && TextBefore(a[1..], b[1..]))
  }

  lemma {:induction false} TextIrreflexive(a: string)
    ensures !TextBefore(a, a)
  {
    if a == "" {
    } else {
      TextIrreflexive(a[1..]);
    }
  }

  lemma {:induction false} TextTransitive(a: string, b: string, c: string)
    requires TextBefore(a, b) && TextBefore(b, c)
    ensures TextBefore(a, c)
  {
    if a != "" && b != "" && c != "" && a[0] == b[0] == c[0] {
      TextTransitive(a[1..], b[1..], c[1..]);
    }
  }

  lemma {:induction false} TextTotal(a: string, b: string)
    requires a != b
    ensures TextBefore(a, b) || TextBefore(b, a)
  {
    if a != "" && b != "" && a[0] == b[0] {
      assert a == [a[0]] + a[1..] && b == [b[0]] + b[1..];
      TextTotal(a[1..], b[1..]);
    }
  }
}
