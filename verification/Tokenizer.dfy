/** The tokenizer of permission expressions: a scan that skips what it does not know,
    and a final comparison that rejects the text if anything was skipped. */
module Tokenizer {
  import opened Wrappers
  import opened TextLines

  predicate IsWordChar(c: char) {
    'a' <= c <= 'z' || 'A' <= c <= 'Z' || '0' <= c <= '9' || c == '_'
  }

  predicate StartsName(c: char) {
    IsWordChar(c) && !('0' <= c <= '9')
  }

  predicate IsNameChar(c: char) {
    IsWordChar(c) || c == ':' || c == '-'
  }

  // The keyword k stands at the start of s and ends at a word boundary.
  predicate Keyword(s: string, k: string) {
    k <= s && (|s| == |k| || !IsWordChar(s[|k|]))
  }

  function NameLength(s: string): (n: nat)
    ensures n <= |s|
    ensures forall i :: 0 <= i < n ==> IsNameChar(s[i])
    ensures n < |s| ==> !IsNameChar(s[n])
  {
    if s == "" || !IsNameChar(s[0]) then 0 else 1 + NameLength(s[1..])
  }

  // The length of the token at the start of s; 0 when there is none.
  function TokenLength(s: string): (n: nat)
    ensures n <= |s|
  {
    if s == "" then 0
    else if s[0] in {'(', ')'} then 1
    else if Keyword(s, "and") || Keyword(s, "not") then 3
    else if Keyword(s, "or") then 2
    else if StartsName(s[0]) then NameLength(s)
    else 0
  }

  function Tokens(text: string): seq<string>
    decreases |text|
  {
    var s := StripLeft(text);
    if s == "" then []
    else if TokenLength(s) == 0 then Tokens(s[1..])
    else [s[..TokenLength(s)]] + Tokens(s[TokenLength(s)..])
  }

  function WithoutBlanks(s: string): (r: string)
    ensures ' ' !in r
  {
    if s == "" then "" else if s[0] == ' ' then WithoutBlanks(s[1..]) else [s[0]] + WithoutBlanks(s[1..])
  }

  function Tokenize(text: string): Option<seq<string>> {
    var tokens := Tokens(text);
    if WithoutBlanks(Joined("", tokens)) == WithoutBlanks(text) then Some(tokens) else None
  }

  // --------------------------------------------------------------- reading back

  // A text that is a token of its own.
  predicate IsToken(t: string) {
    t != "" && TokenLength(t) == |t|
  }

  lemma TokenChars(t: string)
    requires IsToken(t)
    ensures forall i :: 0 <= i < |t| ==> IsNameChar(t[i]) || t[i] in {'(', ')'}
    ensures Solid(t) && ' ' !in t
  {
  }

  lemma TokenStands(t: string, rest: string)
    requires IsToken(t) && (rest == "" || rest[0] == ' ')
    ensures TokenLength(t + rest) == |t|
  {
    var s := t + rest;
    assert rest != "" ==> s[|t|] == ' ';
    assert forall i :: 0 <= i < |t| ==> s[i] == t[i];
    TokenChars(t);
    forall k | k in {"and", "or", "not"} ensures Keyword(s, k) <==> Keyword(t, k) {
      assert ' ' !in k;
      if Keyword(s, k) {
        assert forall i :: 0 <= i < |k| ==> s[i] in k;
        assert t[..|k|] == s[..|k|];
      }
    }
  }

  lemma TokenFound(s: string)
    requires TokenLength(s) > 0
    ensures IsToken(s[..TokenLength(s)])
  {
    var n := TokenLength(s);
    var t := s[..n];
    forall k | k in {"and", "or", "not"} && Keyword(t, k) ensures k <= s {
      assert s[..|k|] == k;
    }
  }

  lemma {:induction false} TokensAreTokens(text: string)
    ensures forall t :: t in Tokens(text) ==> IsToken(t)
    decreases |text|
  {
    var s := StripLeft(text);
    if s == "" {
    } else {
      if TokenLength(s) == 0 {
        TokensAreTokens(s[1..]);
      } else {
        TokenFound(s);
        TokensAreTokens(s[TokenLength(s)..]);
      }
    }
  }

  lemma {:induction false} BlanksDropOut(s: string, t: string)
    ensures WithoutBlanks(s + t) == WithoutBlanks(s) + WithoutBlanks(t)
    ensures ' ' !in s ==> WithoutBlanks(s) == s
  {
    if s == "" {
      assert s + t == t;
    } else {
      BlanksDropOut(s[1..], t);
      assert (s + t)[1..] == s[1..] + t && s == [s[0]] + s[1..];
    }
  }

  lemma TokensStep(t: string, rest: string)
    requires IsToken(t)
    ensures Tokens(t + " " + rest) == [t] + Tokens(rest)
    ensures Tokens(t) == [t]
  {
    TokenChars(t);
    assert t[0] in t;
    StripLeftSolid(t, " " + rest);
    TokenStands(t, " " + rest);
    var s := t + " " + rest;
    assert s == t + (" " + rest);
    assert s[..|t|] == t && s[|t|..] == " " + rest;
    assert (" " + rest)[1..] == rest;
    assert Tokens(" " + rest) == Tokens(rest);
    assert t[..|t|] == t && t[|t|..] == "";
    assert Tokens("") == [];
  }

  lemma {:induction false} SpacedTokens(tokens: seq<string>)
    requires forall t :: t in tokens ==> IsToken(t)
    ensures Tokens(Joined(" ", tokens)) == tokens
    ensures WithoutBlanks(Joined(" ", tokens)) == WithoutBlanks(Joined("", tokens))
  {
    hide Tokens, IsToken, WithoutBlanks;
    if tokens == [] {
      NoTokens();
    } else {
      TokensStep(tokens[0], Joined(" ", tokens[1..]));
      if |tokens| > 1 {
        SpacedTokens(tokens[1..]);
        BlanksDropOut(tokens[0] + " ", Joined(" ", tokens[1..]));
        BlanksDropOut(tokens[0], " ");
        BlanksDropOut(tokens[0], Joined("", tokens[1..]));
        OneBlank();
        assert tokens[0] + "" + Joined("", tokens[1..]) == tokens[0] + Joined("", tokens[1..]);
      }
    }
  }

  lemma NoTokens()
    ensures Tokens("") == []
  {
  }

  lemma OneBlank()
    ensures WithoutBlanks(" ") == ""
  {
  }

  // Written with single blanks between them, tokens are read back exactly when
  // each is a token of its own.
  lemma TokensReadBack(tokens: seq<string>)
    ensures Tokenize(Joined(" ", tokens)) == Some(tokens) <==> forall t :: t in tokens ==> IsToken(t)
  {
    if forall t :: t in tokens ==> IsToken(t) {
      SpacedTokens(tokens);
    }
    TokensAreTokens(Joined(" ", tokens));
  }

  // A name that starts with a keyword and goes on with ':' or '-' is no token.
  lemma KeywordPrefixIsNoToken(k: string, c: char, rest: string)
    requires k in {"and", "or", "not"} && c in {':', '-'}
    ensures !IsToken(k + [c] + rest)
  {
    var s := k + [c] + rest;
    assert s[..|k|] == k && s[|k|] == c;
    assert Keyword(s, k);
  }

  // -------------------------------------------------------- what is a token, exactly

  // A letter or "_", then letters, digits, "_", ":" and "-".
  predicate IsIdentifier(t: string) {
    && t != "" && ('a' <= t[0] <= 'z' || 'A' <= t[0] <= 'Z' || t[0] == '_')
    && forall i :: 0 <= i < |t| ==>
         'a' <= t[i] <= 'z' || 'A' <= t[i] <= 'Z' || '0' <= t[i] <= '9' || t[i] == '_' || t[i] == ':' || t[i] == '-'
  }

  // It begins with a keyword that ":" or "-" cuts off.
  predicate IsCutShort(t: string) {
    exists k :: k in {"and", "or", "not"} && k <= t && |k| < |t| && (t[|k|] == ':' || t[|k|] == '-')
  }

  /** The tokens are the parentheses, the keywords in small letters, and the identifiers
      that no keyword cuts short. */
  lemma IsTokenExactly(t: string)
    ensures IsToken(t) <==> t in {"(", ")", "and", "or", "not"} || (IsIdentifier(t) && !IsCutShort(t))
  {
    if t == "" {
    } else if t[0] == '(' || t[0] == ')' {
      assert t == [t[0]] <==> |t| == 1;
      assert "and"[0] == 'a' && "or"[0] == 'o' && "not"[0] == 'n';
    } else {
      KeywordsCut(t, "and");
      KeywordsCut(t, "or");
      KeywordsCut(t, "not");
      assert NameLength(t) == |t| <==> forall i :: 0 <= i < |t| ==> IsNameChar(t[i]);
      assert t != "(" && t != ")";
    }
  }

  // Where a keyword stands at the start, the text is the keyword, goes on after it as a
  // name, is cut short by it, or holds what no name holds.
  lemma KeywordsCut(t: string, k: string)
    requires k in {"and", "or", "not"}
    ensures Keyword(t, k) && t != k ==> |k| < |t| && !IsWordChar(t[|k|])
    ensures Keyword(t, k) && t == k ==> IsIdentifier(t)
    ensures t == k ==> Keyword(t, k)
  {
    if t == k {
      assert "and"[0] == 'a' && "and"[1] == 'n' && "and"[2] == 'd' && "or"[0] == 'o' && "or"[1] == 'r';
      assert "not"[0] == 'n' && "not"[1] == 'o' && "not"[2] == 't';
    } else if Keyword(t, k) {
      assert |t| == |k| ==> t == k;
    }
  }

  lemma {:induction false} OnlyBlanksDrop(s: string, c: char)
    ensures c in WithoutBlanks(s) <==> c in s && c != ' '
  {
    if s == "" {
    } else {
      OnlyBlanksDrop(s[1..], c);
      assert s == [s[0]] + s[1..];
    }
  }

  lemma {:induction false} JoinedChars(tokens: seq<string>, c: char)
    ensures c in Joined("", tokens) <==> exists t :: t in tokens && c in t
  {
    if |tokens| <= 1 {
    } else {
      JoinedChars(tokens[1..], c);
      assert tokens == [tokens[0]] + tokens[1..];
      assert Joined("", tokens) == tokens[0] + "" + Joined("", tokens[1..]);
    }
  }

  /** Nothing of a text is lost: the tokens put together are the text without its blanks. */
  lemma NothingLost(text: string)
    ensures Tokenize(text).Some? ==> Joined("", Tokenize(text).value) == WithoutBlanks(text)
  {
    if Tokenize(text).Some? {
      var joined := Joined("", Tokens(text));
      TokensAreTokens(text);
      if ' ' in joined {
        JoinedChars(Tokens(text), ' ');
        var t :| t in Tokens(text) && ' ' in t;
        TokenChars(t);
      }
      BlanksDropOut(joined, "");
    }
  }

  /** A text with any other character, a tab for one, is refused. */
  lemma ForeignIsRefused(text: string, c: char)
    requires c in text && c != ' ' && c != '(' && c != ')' && !IsIdentifier([c]) && !('0' <= c <= '9') && c != ':' && c != '-'
    ensures Tokenize(text).None?
  {
    if Tokenize(text).Some? {
      NothingLost(text);
      OnlyBlanksDrop(text, c);
      JoinedChars(Tokens(text), c);
      var t :| t in Tokens(text) && c in t;
      TokensAreTokens(text);
      TokenChars(t);
    }
  }
}
