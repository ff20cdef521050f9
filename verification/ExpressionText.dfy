/** Permission expressions written out as text, and the text read back. */
module ExpressionText {
  import opened Wrappers
  import opened TextLines
  import opened SchemaParser
  import Tokenizer
  import ModelFile
  import ModelRoundTrip

  // The printed tokens with single blanks between them.
  function Spelled(e: Expr): string {
    Joined(" ", Print(e))
  }

  // Every identifier is a name, and a token of its own.
  predicate Spellable(e: Expr) {
    match e
    case Identifier(n) => IsName(n) && Tokenizer.IsToken(n)
    case Not(x) => Spellable(x)
    case And(l, r) => Spellable(l) && Spellable(r)
    case Or(l, r) => Spellable(l) && Spellable(r)
  }

  predicate AllTokens(tokens: seq<string>) {
    forall t :: t in tokens ==> Tokenizer.IsToken(t)
  }

  lemma SignsAreTokens()
    ensures AllTokens(["and", "or", "not", "(", ")"])
  {
    assert Tokenizer.Keyword("and", "and") && Tokenizer.Keyword("or", "or") && Tokenizer.Keyword("not", "not");
  }

  lemma SpellableNames(e: Expr)
    requires Spellable(e)
    ensures NamesOnly(e)
  {
  }

  lemma {:induction false} LayoutTokens(e: Expr, level: Level)
    requires Spellable(e)
    ensures AllTokens(Yield(Layout(e, level)))
    decreases e
  {
    SignsAreTokens();
    hide Tokenizer.IsToken;
    assert forall t :: t in {"and", "or", "not", "(", ")"} ==> t in ["and", "or", "not", "(", ")"];
    match e
    case Identifier(n) =>
    case Not(x) =>
      LayoutTokens(x, FactorLevel);
    case And(l, r) =>
      LayoutTokens(l, TermLevel);
      LayoutTokens(r, FactorLevel);
    case Or(l, r) =>
      LayoutTokens(l, ExprLevel);
      LayoutTokens(r, TermLevel);
  }

  lemma {:induction false} DerivedSpellable(d: Derivation, level: Level)
    requires Derives(level, d) && AllTokens(Yield(d))
    ensures Spellable(Tree(d))
    decreases d
  {
    hide Tokenizer.IsToken;
    match d
    case Atom(t) =>
      assert t in Yield(d);
    case Negation(_, x) =>
      assert forall t :: t in Yield(x) ==> t in Yield(d);
      DerivedSpellable(x, FactorLevel);
    case Group(x) =>
      assert forall t :: t in Yield(x) ==> t in Yield(d);
      DerivedSpellable(x, ExprLevel);
    case Conjunction(l, _, r) =>
      assert forall t :: t in Yield(l) || t in Yield(r) ==> t in Yield(d);
      DerivedSpellable(l, TermLevel);
      DerivedSpellable(r, FactorLevel);
    case Disjunction(l, _, r) =>
      assert forall t :: t in Yield(l) || t in Yield(r) ==> t in Yield(d);
      DerivedSpellable(l, ExprLevel);
      DerivedSpellable(r, TermLevel);
  }

  lemma {:induction false} TokensStayStripped(tokens: seq<string>)
    requires tokens != [] && AllTokens(tokens)
    ensures
      var s := Joined(" ", tokens);
      s != "" && !IsSpace(s[0]) && !IsSpace(s[|s| - 1])
  {
    hide Tokenizer.IsToken;
    var t := tokens[0];
    assert t in tokens;
    TokenEnds(t);
    if |tokens| > 1 {
      TokensStayStripped(tokens[1..]);
    }
  }

  lemma TokenEnds(t: string)
    requires Tokenizer.IsToken(t)
    ensures t != "" && !IsSpace(t[0]) && !IsSpace(t[|t| - 1])
  {
    Tokenizer.TokenChars(t);
    assert t[0] in t && t[|t| - 1] in t;
  }

  /** An expression written with single blanks and no parentheses but the needed ones is
      read back from its text exactly when every identifier is a name and a token. */
  lemma ExpressionReadsBack(e: Expr)
    ensures ModelRoundTrip.ExpressionOf(Spelled(e)) == Ok(e) <==> Spellable(e)
  {
    hide Tokenizer.Tokenize, Strip, Joined, ParseWhole, Tokenizer.IsToken;
    var text := Spelled(e);
    if Spellable(e) {
      SpellableNames(e);
      RoundTrip(e);
      LayoutTokens(e, ExprLevel);
      TokensStayStripped(Print(e));
      StripRightDone(text);
      assert Strip(text) == text by {
        assert StripLeft(text) == text;
        StripOnce(text);
      }
      Tokenizer.TokensReadBack(Print(e));
    }
    if ModelRoundTrip.ExpressionOf(text) == Ok(e) {
      ReadIsSpellable(Strip(text), e);
    }
  }

  lemma StripOnce(s: string)
    ensures Strip(s) == StripRight(StripLeft(s))
  {
  }

  // Whatever text an expression is read from, its identifiers are names and tokens.
  lemma ReadIsSpellable(text: string, e: Expr)
    requires ModelFile.ReadExpression(text) == Ok(e)
    ensures Spellable(e)
  {
    hide Tokenizer.IsToken, Tokenizer.Tokens, ParseWhole;
    var tokens := Tokenizer.Tokenize(text).value;
    Tokenizer.TokensAreTokens(text);
    ParserDecidesGrammar(tokens, e);
    var d :| Derives(ExprLevel, d) && Yield(d) == tokens && Tree(d) == e;
    DerivedSpellable(d, ExprLevel);
  }

  // No permission can name a relation such as "or:role" or "not-member".
  lemma KeywordPrefixUnspellable(k: string, c: char, rest: string, text: string)
    requires k in {"and", "or", "not"} && c in {':', '-'}
    ensures ModelRoundTrip.ExpressionOf(text) != Ok(Identifier(k + [c] + rest))
  {
    Tokenizer.KeywordPrefixIsNoToken(k, c, rest);
    var e := Identifier(k + [c] + rest);
    if ModelRoundTrip.ExpressionOf(text) == Ok(e) {
      ReadIsSpellable(Strip(text), e);
    }
  }
}
