/** Permission expressions: the recursive-descent parser, the grammar it decides,
    and the printer whose output it reads back. */
module SchemaParser {
  import opened Wrappers
  import opened Text

  datatype Expr =
    | Identifier(name: string)
    | Not(operand: Expr)
    | And(left: Expr, right: Expr)
    | Or(left: Expr, right: Expr)

  datatype ParseError = UnexpectedEnd | MissingClosingParenthesis | InvalidExpression | TrailingTokens

  predicate IsWord(token: string, word: string) {
    Lower(token) == word
  }

  // The tokens the parser accepts as an operand name. Keywords in capitals pass,
  // except those that spell "not".
  predicate IsName(token: string) {
    !IsWord(token, "not") && token !in {"(", ")", "and", "or"}
  }

  // ----------------------------------------------------------------- grammar

  /** A derivation of the grammar
        expr   ::= expr "or" term | term
        term   ::= term "and" factor | factor
        factor ::= "not" factor | "(" expr ")" | name
      that remembers each keyword as it was spelled and each pair of parentheses. */
  datatype Derivation =
    | Atom(token: string)
    | Negation(word: string, operand: Derivation)
    | Group(inner: Derivation)
    | Conjunction(left: Derivation, word: string, right: Derivation)
    | Disjunction(left: Derivation, word: string, right: Derivation)

  datatype Level = FactorLevel | TermLevel | ExprLevel
  {
    function Rank(): nat {
      match this
      case FactorLevel => 0
      case TermLevel => 1
      case ExprLevel => 2
    }
  }

  predicate Derives(level: Level, d: Derivation)
    decreases d
  {
    match d
    case Atom(t) => IsName(t)
    case Negation(w, x) => IsWord(w, "not") && Derives(FactorLevel, x)
    case Group(x) => Derives(ExprLevel, x)
    case Conjunction(l, w, r) =>
      level.Rank() >= 1 && Derives(TermLevel, l) && IsWord(w, "and") && Derives(FactorLevel, r)
    case Disjunction(l, w, r) =>
      level.Rank() >= 2 && Derives(ExprLevel, l) && IsWord(w, "or") && Derives(TermLevel, r)
  }

  // The tokens a derivation derives.
  function Yield(d: Derivation): (tokens: seq<string>)
    ensures |tokens| > 0
  {
    match d
    case Atom(t) => [t]
    case Negation(w, x) => [w] + Yield(x)
    case Group(x) => ["("] + Yield(x) + [")"]
    case Conjunction(l, w, r) => Yield(l) + [w] + Yield(r)
    case Disjunction(l, w, r) => Yield(l) + [w] + Yield(r)
  }

  // The expression tree a derivation stands for.
  function Tree(d: Derivation): Expr {
    match d
    case Atom(t) => Identifier(t)
    case Negation(_, x) => Not(Tree(x))
    case Group(x) => Tree(x)
    case Conjunction(l, _, r) => And(Tree(l), Tree(r))
    case Disjunction(l, _, r) => Or(Tree(l), Tree(r))
  }

  // ------------------------------------------- the parser, keeping derivations

  type Parsed = Result<(Derivation, nat), ParseError>

  function ParseExpr(tokens: seq<string>, index: nat): (r: Parsed)
    ensures r.Ok? ==> index < r.value.1 <= |tokens|
    decreases |tokens| - index, 4
  {
    var (left, next) :- ParseTerm(tokens, index);
    ExprLoop(tokens, left, next)
  }

  function ExprLoop(tokens: seq<string>, left: Derivation, index: nat): (r: Parsed)
    requires index <= |tokens|
    ensures r.Ok? ==> index <= r.value.1 <= |tokens|
    decreases |tokens| - index, 3
  {
    if index < |tokens| && IsWord(tokens[index], "or") then
      var (right, next) :- ParseTerm(tokens, index + 1);
      ExprLoop(tokens, Disjunction(left, tokens[index], right), next)
    else
      Ok((left, index))
  }

  function ParseTerm(tokens: seq<string>, index: nat): (r: Parsed)
    ensures r.Ok? ==> index < r.value.1 <= |tokens|
    decreases |tokens| - index, 2
  {
    var (left, next) :- ParseFactor(tokens, index);
    TermLoop(tokens, left, next)
  }

  function TermLoop(tokens: seq<string>, left: Derivation, index: nat): (r: Parsed)
    requires index <= |tokens|
    ensures r.Ok? ==> index <= r.value.1 <= |tokens|
    decreases |tokens| - index, 1
  {
    if index < |tokens| && IsWord(tokens[index], "and") then
      var (right, next) :- ParseFactor(tokens, index + 1);
      TermLoop(tokens, Conjunction(left, tokens[index], right), next)
    else
      Ok((left, index))
  }

  function ParseFactor(tokens: seq<string>, index: nat): (r: Parsed)
    ensures r.Ok? ==> index < r.value.1 <= |tokens|
    decreases |tokens| - index, 0
  {
    if index >= |tokens| then
      Err(UnexpectedEnd)
    else if IsWord(tokens[index], "not") then
      var (operand, next) :- ParseFactor(tokens, index + 1);
      Ok((Negation(tokens[index], operand), next))
    else if tokens[index] == "(" then
      var (inner, next) :- ParseExpr(tokens, index + 1);
      if next >= |tokens| || tokens[next] != ")" then Err(MissingClosingParenthesis)
      else Ok((Group(inner), next + 1))
    else if tokens[index] in {")", "and", "or"} then
      Err(InvalidExpression)
    else
      Ok((Atom(tokens[index]), index + 1))
  }

  // ---------------------------------------------------- the parser as written

  function Forget(r: Parsed): Result<(Expr, nat), ParseError> {
    match r
    case Ok((d, next)) => Ok((Tree(d), next))
    case Err(e) => Err(e)
  }

  method RunExpr(tokens: seq<string>, start: nat) returns (r: Result<(Expr, nat), ParseError>)
    ensures r == Forget(ParseExpr(tokens, start))
    decreases |tokens| - start, 2
  {
    var first :- RunTerm(tokens, start);
    var (left, index) := first;
    ghost var seen := ParseTerm(tokens, start).value.0;
    while index < |tokens| && IsWord(tokens[index], "or")
      invariant start < index <= |tokens|
      invariant left == Tree(seen)
      invariant ParseExpr(tokens, start) == ExprLoop(tokens, seen, index)
      decreases |tokens| - index
    {
      var parsed :- RunTerm(tokens, index + 1);
      var (right, next) := parsed;
      seen := Disjunction(seen, tokens[index], ParseTerm(tokens, index + 1).value.0);
      left, index := Or(left, right), next;
    }
    return Ok((left, index));
  }

  method RunTerm(tokens: seq<string>, start: nat) returns (r: Result<(Expr, nat), ParseError>)
    ensures r == Forget(ParseTerm(tokens, start))
    decreases |tokens| - start, 1
  {
    var first :- RunFactor(tokens, start);
    var (left, index) := first;
    ghost var seen := ParseFactor(tokens, start).value.0;
    while index < |tokens| && IsWord(tokens[index], "and")
      invariant start < index <= |tokens|
      invariant left == Tree(seen)
      invariant ParseTerm(tokens, start) == TermLoop(tokens, seen, index)
      decreases |tokens| - index
    {
      var parsed :- RunFactor(tokens, index + 1);
      var (right, next) := parsed;
      seen := Conjunction(seen, tokens[index], ParseFactor(tokens, index + 1).value.0);
      left, index := And(left, right), next;
    }
    return Ok((left, index));
  }

  method RunFactor(tokens: seq<string>, index: nat) returns (r: Result<(Expr, nat), ParseError>)
    ensures r == Forget(ParseFactor(tokens, index))
    decreases |tokens| - index, 0
  {
    if index >= |tokens| {
      return Err(UnexpectedEnd);
    }
    var token := tokens[index];
    if IsWord(token, "not") {
      var parsed :- RunFactor(tokens, index + 1);
      var (value, next) := parsed;
      return Ok((Not(value), next));
    }
    if token == "(" {
      var parsed :- RunExpr(tokens, index + 1);
      var (expr, next) := parsed;
      if next >= |tokens| || tokens[next] != ")" {
        return Err(MissingClosingParenthesis);
      }
      return Ok((expr, next + 1));
    }
    if token in {")", "and", "or"} {
      return Err(InvalidExpression);
    }
    return Ok((Identifier(token), index + 1));
  }

  // A permission's expression must use up every token of its line.
  function ParseWhole(tokens: seq<string>): Result<Expr, ParseError> {
    match ParseExpr(tokens, 0)
    case Ok((d, next)) => if next == |tokens| then Ok(Tree(d)) else Err(TrailingTokens)
    case Err(e) => Err(e)
  }

  method RunWhole(tokens: seq<string>) returns (r: Result<Expr, ParseError>)
    ensures r == ParseWhole(tokens)
  {
    var first :- RunExpr(tokens, 0);
    var (expr, index) := first;
    if index != |tokens| {
      return Err(TrailingTokens);
    }
    return Ok(expr);
  }

  // --------------------------------------------------------------- soundness

  // The tokens from i to j are the yield of d.
  ghost predicate Spans(tokens: seq<string>, i: nat, j: nat, d: Derivation) {
    i <= j <= |tokens| && tokens[i..j] == Yield(d)
  }

  ghost predicate Sound(tokens: seq<string>, index: nat, level: Level, r: Parsed) {
    r.Ok? ==> Derives(level, r.value.0) && Spans(tokens, index, r.value.1, r.value.0)
  }

  lemma SplitSpan(tokens: seq<string>, i: nat, j: nat, k: nat)
    requires i <= j < k <= |tokens|
    ensures tokens[i..k] == tokens[i..j] + [tokens[j]] + tokens[j + 1..k]
  {
  }

  lemma {:induction false} ExprSound(tokens: seq<string>, index: nat)
    ensures Sound(tokens, index, ExprLevel, ParseExpr(tokens, index))
    decreases |tokens| - index, 4
  {
    TermSound(tokens, index);
    var r := ParseTerm(tokens, index);
    if r.Ok? {
      LevelUp(r.value.0, TermLevel, ExprLevel);
      ExprLoopSound(tokens, index, r.value.0, r.value.1);
    }
  }

  lemma LevelUp(d: Derivation, low: Level, high: Level)
    requires Derives(low, d) && low.Rank() <= high.Rank()
    ensures Derives(high, d)
  {
  }

  lemma {:induction false} ExprLoopSound(tokens: seq<string>, start: nat, left: Derivation, index: nat)
    requires start < index && Derives(ExprLevel, left) && Spans(tokens, start, index, left)
    ensures Sound(tokens, start, ExprLevel, ExprLoop(tokens, left, index))
    decreases |tokens| - index, 3
  {
    if index < |tokens| && IsWord(tokens[index], "or") {
      TermSound(tokens, index + 1);
      var r := ParseTerm(tokens, index + 1);
      if r.Ok? {
        SplitSpan(tokens, start, index, r.value.1);
        ExprLoopSound(tokens, start, Disjunction(left, tokens[index], r.value.0), r.value.1);
      }
    }
  }

  lemma {:induction false} TermSound(tokens: seq<string>, index: nat)
    ensures Sound(tokens, index, TermLevel, ParseTerm(tokens, index))
    decreases |tokens| - index, 2
  {
    FactorSound(tokens, index);
    var r := ParseFactor(tokens, index);
    if r.Ok? {
      LevelUp(r.value.0, FactorLevel, TermLevel);
      TermLoopSound(tokens, index, r.value.0, r.value.1);
    }
  }

  lemma {:induction false} TermLoopSound(tokens: seq<string>, start: nat, left: Derivation, index: nat)
    requires start < index && Derives(TermLevel, left) && Spans(tokens, start, index, left)
    ensures Sound(tokens, start, TermLevel, TermLoop(tokens, left, index))
    decreases |tokens| - index, 1
  {
    if index < |tokens| && IsWord(tokens[index], "and") {
      FactorSound(tokens, index + 1);
      var r := ParseFactor(tokens, index + 1);
      if r.Ok? {
        SplitSpan(tokens, start, index, r.value.1);
        TermLoopSound(tokens, start, Conjunction(left, tokens[index], r.value.0), r.value.1);
      }
    }
  }

  lemma {:induction false} FactorSound(tokens: seq<string>, index: nat)
    ensures Sound(tokens, index, FactorLevel, ParseFactor(tokens, index))
    decreases |tokens| - index, 0
  {
    if index < |tokens| {
      if IsWord(tokens[index], "not") {
        FactorSound(tokens, index + 1);
        var r := ParseFactor(tokens, index + 1);
        if r.Ok? {
          SplitSpan(tokens, index, index, r.value.1);
        }
      } else if tokens[index] == "(" {
        ExprSound(tokens, index + 1);
        var r := ParseExpr(tokens, index + 1);
        if r.Ok? && r.value.1 < |tokens| {
          SplitSpan(tokens, index, index, r.value.1 + 1);
          SplitSpan(tokens, index + 1, r.value.1, r.value.1 + 1);
        }
      }
    }
  }

  // ------------------------------------------------------------ completeness

  predicate StopsAt(tokens: seq<string>, index: nat, word: string) {
    index < |tokens| ==> !IsWord(tokens[index], word)
  }

  lemma SpanParts(tokens: seq<string>, i: nat, j: nat, x: seq<string>, w: string, y: seq<string>)
    requires i <= j <= |tokens| && tokens[i..j] == x + [w] + y
    ensures
      var m := i + |x|;
      m < j && tokens[i..m] == x && tokens[m] == w && tokens[m + 1..j] == y
  {
    var m := i + |x|;
    assert tokens[i..j][|x|] == w;
    assert tokens[i..m] == tokens[i..j][..|x|];
    assert tokens[m + 1..j] == tokens[i..j][|x| + 1..];
  }

  lemma GroupParts(tokens: seq<string>, i: nat, j: nat, x: seq<string>)
    requires i <= j <= |tokens| && tokens[i..j] == ["("] + x + [")"]
    ensures i + 1 <= j - 1 && tokens[i] == "(" && tokens[j - 1] == ")" && tokens[i + 1..j - 1] == x
  {
    var span := tokens[i..j];
    assert span[0] == "(" && span[|span| - 1] == ")";
    assert span[1..|span| - 1] == x;
    forall k | 0 <= k < |x| ensures tokens[i + 1 + k] == x[k] {
      assert span[k + 1] == x[k];
    }
  }

  // On the tokens of an expression the parser reaches exactly that derivation,
  // and is then at the top of its "or" loop.
  lemma {:induction false} ExprComplete(tokens: seq<string>, i: nat, j: nat, d: Derivation)
    requires Derives(ExprLevel, d) && Spans(tokens, i, j, d) && StopsAt(tokens, j, "and")
    ensures ParseExpr(tokens, i) == ExprLoop(tokens, d, j)
    decreases d, 2
  {
    match d
    case Disjunction(l, w, r) =>
      SpanParts(tokens, i, j, Yield(l), w, Yield(r));
      var m := i + |Yield(l)|;
      ExprComplete(tokens, i, m, l);
      TermComplete(tokens, m + 1, j, r);
    case _ =>
      TermComplete(tokens, i, j, d);
  }

  lemma {:induction false} TermComplete(tokens: seq<string>, i: nat, j: nat, d: Derivation)
    requires Derives(TermLevel, d) && Spans(tokens, i, j, d)
    ensures ParseTerm(tokens, i) == TermLoop(tokens, d, j)
    decreases d, 1
  {
    match d
    case Conjunction(l, w, r) =>
      SpanParts(tokens, i, j, Yield(l), w, Yield(r));
      var m := i + |Yield(l)|;
      TermComplete(tokens, i, m, l);
      FactorComplete(tokens, m + 1, j, r);
    case Disjunction(_, _, _) =>
      assert false;
    case Atom(_) | Negation(_, _) | Group(_) =>
      FactorComplete(tokens, i, j, d);
  }

  lemma {:induction false} FactorComplete(tokens: seq<string>, i: nat, j: nat, d: Derivation)
    requires Derives(FactorLevel, d) && Spans(tokens, i, j, d)
    ensures ParseFactor(tokens, i) == Ok((d, j))
    decreases d, 0
  {
    match d
    case Atom(t) =>
      assert tokens[i..j][0] == t;
    case Negation(w, x) =>
      SpanParts(tokens, i, j, [], w, Yield(x));
      FactorComplete(tokens, i + 1, j, x);
    case Group(x) =>
      GroupParts(tokens, i, j, Yield(x));
      ExprComplete(tokens, i + 1, j - 1, x);
  }

  // A whole line parses exactly when the grammar derives it, to the derived tree.
  lemma ParserDecidesGrammar(tokens: seq<string>, e: Expr)
    ensures ParseWhole(tokens) == Ok(e)
       <==> exists d :: Derives(ExprLevel, d) && Yield(d) == tokens && Tree(d) == e
  {
    if ParseWhole(tokens) == Ok(e) {
      ExprSound(tokens, 0);
      var d := ParseExpr(tokens, 0).value.0;
      assert Derives(ExprLevel, d) && Yield(d) == tokens && Tree(d) == e;
    }
    forall d | Derives(ExprLevel, d) && Yield(d) == tokens && Tree(d) == e
      ensures ParseWhole(tokens) == Ok(e)
    {
      ExprComplete(tokens, 0, |tokens|, d);
    }
  }

  lemma DerivationUnique(d0: Derivation, d1: Derivation)
    requires Derives(ExprLevel, d0) && Derives(ExprLevel, d1) && Yield(d0) == Yield(d1)
    ensures d0 == d1
  {
    var tokens := Yield(d0);
    ExprComplete(tokens, 0, |tokens|, d0);
    ExprComplete(tokens, 0, |tokens|, d1);
  }

  // ------------------------------------------------------------- case of keywords

  // The same derivation, with its keywords in any case.
  ghost predicate Recased(d: Derivation, e: Derivation) {
    match (d, e)
    case (Atom(t), Atom(u)) => t == u
    case (Negation(w, x), Negation(v, y)) => Lower(w) == Lower(v) && Recased(x, y)
    case (Group(x), Group(y)) => Recased(x, y)
    case (Conjunction(l, w, r), Conjunction(m, v, s)) => Recased(l, m) && Lower(w) == Lower(v) && Recased(r, s)
    case (Disjunction(l, w, r), Disjunction(m, v, s)) => Recased(l, m) && Lower(w) == Lower(v) && Recased(r, s)
    case _ => false
  }

  lemma {:induction false} RecasedDerives(level: Level, d: Derivation, e: Derivation)
    requires Recased(d, e) && Derives(level, d)
    ensures Derives(level, e) && Tree(e) == Tree(d)
    decreases d
  {
    match d
    case Atom(_) =>
    case Negation(_, x) =>
      RecasedDerives(FactorLevel, x, e.operand);
    case Group(x) =>
      RecasedDerives(ExprLevel, x, e.inner);
    case Conjunction(l, _, r) =>
      RecasedDerives(TermLevel, l, e.left);
      RecasedDerives(FactorLevel, r, e.right);
    case Disjunction(l, _, r) =>
      RecasedDerives(ExprLevel, l, e.left);
      RecasedDerives(TermLevel, r, e.right);
  }

  /** Keywords may be written in capitals or small letters. */
  lemma KeywordsInAnyCase(d: Derivation, e: Derivation)
    requires Derives(ExprLevel, d) && Recased(d, e)
    ensures ParseWhole(Yield(e)) == ParseWhole(Yield(d)) == Ok(Tree(d))
  {
    RecasedDerives(ExprLevel, d, e);
    ParserDecidesGrammar(Yield(d), Tree(d));
    ParserDecidesGrammar(Yield(e), Tree(d));
  }

  // "a AND NOT b", for one; but in capitals a keyword may also be a name.
  lemma CapitalsRead(a: string, b: string)
    requires IsName(a) && IsName(b)
    ensures ParseWhole([a, "AND", "NOT", b]) == Ok(And(Identifier(a), Not(Identifier(b))))
    ensures ParseWhole(["OR"]) == Ok(Identifier("OR"))
  {
    CapitalWords();
    var x, y := Atom(a), Negation("NOT", Atom(b));
    var d := Conjunction(x, "AND", y);
    assert Yield(Atom(b)) == [b] && Yield(y) == ["NOT"] + [b] && Yield(x) == [a];
    assert Yield(d) == [a] + ["AND"] + (["NOT"] + [b]) == [a, "AND", "NOT", b];
    assert Derives(FactorLevel, Atom(b)) && Derives(FactorLevel, y) && Derives(TermLevel, x);
    assert Derives(ExprLevel, d);
    assert Tree(y) == Not(Identifier(b)) && Tree(d) == And(Identifier(a), Not(Identifier(b)));
    ParserDecidesGrammar([a, "AND", "NOT", b], Tree(d));
    assert Derives(ExprLevel, Atom("OR")) && Yield(Atom("OR")) == ["OR"];
    ParserDecidesGrammar(["OR"], Identifier("OR"));
  }

  lemma CapitalWords()
    ensures IsWord("AND", "and") && IsWord("NOT", "not") && IsName("OR")
  {
    assert Lower("AND") == "and" && Lower("NOT") == "not" && |Lower("OR")| == 2;
    assert "OR"[0] == 'O' && "or"[0] == 'o' && |"and"| == 3 && |"("| == 1 && |")"| == 1 && |"not"| == 3;
  }

  // ---------------------------------------------------------------- printing

  function Bracket(d: Derivation, needed: bool): Derivation {
    if needed then Group(d) else d
  }

  // An expression laid out for a level, with parentheses only where precedence
  // or left associativity would otherwise regroup it.
  function Layout(e: Expr, level: Level): (d: Derivation)
    ensures Tree(d) == e
    decreases e
  {
    match e
    case Identifier(n) => Atom(n)
    case Not(x) => Negation("not", Layout(x, FactorLevel))
    case And(l, r) =>
      Bracket(Conjunction(Layout(l, TermLevel), "and", Layout(r, FactorLevel)), level.Rank() < 1)
    case Or(l, r) =>
      Bracket(Disjunction(Layout(l, ExprLevel), "or", Layout(r, TermLevel)), level.Rank() < 2)
  }

  function Print(e: Expr): seq<string> {
    Yield(Layout(e, ExprLevel))
  }

  predicate NamesOnly(e: Expr) {
    match e
    case Identifier(n) => IsName(n)
    case Not(x) => NamesOnly(x)
    case And(l, r) => NamesOnly(l) && NamesOnly(r)
    case Or(l, r) => NamesOnly(l) && NamesOnly(r)
  }

  lemma {:induction false} LayoutDerives(e: Expr, level: Level)
    requires NamesOnly(e)
    ensures Derives(level, Layout(e, level))
    decreases e
  {
    match e
    case Identifier(_) =>
    case Not(x) =>
      LayoutDerives(x, FactorLevel);
    case And(l, r) =>
      LayoutDerives(l, TermLevel);
      LayoutDerives(r, FactorLevel);
    case Or(l, r) =>
      LayoutDerives(l, ExprLevel);
      LayoutDerives(r, TermLevel);
  }

  lemma {:induction false} DerivedNames(d: Derivation, level: Level)
    requires Derives(level, d)
    ensures NamesOnly(Tree(d))
    decreases d
  {
    match d
    case Atom(_) =>
    case Negation(_, x) => DerivedNames(x, FactorLevel);
    case Group(x) => DerivedNames(x, ExprLevel);
    case Conjunction(l, _, r) =>
      DerivedNames(l, TermLevel);
      DerivedNames(r, FactorLevel);
    case Disjunction(l, _, r) =>
      DerivedNames(l, ExprLevel);
      DerivedNames(r, TermLevel);
  }

  // Printing and parsing is the identity exactly on the trees whose identifiers
  // are all names.
  lemma RoundTrip(e: Expr)
    ensures ParseWhole(Print(e)) == Ok(e) <==> NamesOnly(e)
  {
    if NamesOnly(e) {
      var d := Layout(e, ExprLevel);
      LayoutDerives(e, ExprLevel);
      assert Derives(ExprLevel, d) && Yield(d) == Print(e) && Tree(d) == e;
    }
    ParserDecidesGrammar(Print(e), e);
    if ParseWhole(Print(e)) == Ok(e) {
      var d :| Derives(ExprLevel, d) && Yield(d) == Print(e) && Tree(d) == e;
      DerivedNames(d, ExprLevel);
    }
  }

  // No other way of writing the expression is shorter than the printed one.
  lemma {:induction false} LayoutShortest(d: Derivation, level: Level)
    requires Derives(level, d)
    ensures |Yield(Layout(Tree(d), level))| <= |Yield(d)|
    decreases d
  {
    match d
    case Atom(_) =>
    case Negation(_, x) =>
      LayoutShortest(x, FactorLevel);
    case Group(x) =>
      LayoutShortest(x, ExprLevel);
    case Conjunction(l, _, r) =>
      LayoutShortest(l, TermLevel);
      LayoutShortest(r, FactorLevel);
    case Disjunction(l, _, r) =>
      LayoutShortest(l, ExprLevel);
      LayoutShortest(r, TermLevel);
  }

  lemma PrintIsShortest(e: Expr, tokens: seq<string>)
    requires ParseWhole(tokens) == Ok(e)
    ensures |Print(e)| <= |tokens|
  {
    ParserDecidesGrammar(tokens, e);
    var d :| Derives(ExprLevel, d) && Yield(d) == tokens && Tree(d) == e;
    LayoutShortest(d, ExprLevel);
  }
}
