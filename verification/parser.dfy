/**
 * The recursive-descent parser. Its grammar, lowest precedence first:
 *
 *   expression := term (("+" | "-") term)*
 *   term       := factor (("*" | "/") factor)*
 *   factor     := ("+" | "-") factor | NUMBER | VARIABLE | "(" expression ")"
 *
 * The grammar functions below (`FactorAt`, `TermAt`, `TermRest`,
 * `ExpressionAt`, `ExpressionRest`, `ParseAt`) read it over a token sequence
 * and a cursor; class `Parser` is the imperative parser with its mutable
 * `current` cursor and folding loops, proved to compute exactly what the
 * grammar functions say.
 */
module Parser {
  import opened Wrappers
  import opened Types
  import Lexer

  // ---------------------------------------------------------------------
  // Numerals

  function DigitValue(c: char): real
    requires Lexer.IsDigit(c)
  {
    (c as int - '0' as int) as real
  }

  /**
   * Reads the integer digits of a numeral onto `acc`, then its fraction
   * after a `.`; `seen` records whether any digit has been read.
   */
  function ReadWhole(s: string, acc: real, seen: bool): (r: Option<real>)
    ensures acc >= 0.0 && r.Some? ==> r.value >= acc
  {
    if s != [] && Lexer.IsDigit(s[0]) then ReadWhole(s[1..], 10.0 * acc + DigitValue(s[0]), true)
    else if s != [] && s[0] == '.' then ReadFraction(s[1..], acc, 0.1, seen)
    else if seen then Some(acc) else None
  }

  /** Reads fraction digits onto `acc`, the next one weighing `scale`. */
  function ReadFraction(s: string, acc: real, scale: real, seen: bool): (r: Option<real>)
    ensures acc >= 0.0 && scale > 0.0 && r.Some? ==> r.value >= acc
  {
    if s != [] && Lexer.IsDigit(s[0]) then ReadFraction(s[1..], acc + scale * DigitValue(s[0]), scale / 10.0, true)
    else if seen then Some(acc) else None
  }

  /**
   * JavaScript's `parseFloat` on the decimal forms the lexer can produce: the
   * value of the longest prefix `digits [. digits]` (or `. digits`), where
   * reading stops at the first character that cannot continue it; `None`
   * stands for NaN, when no digit is read.
   */
  function ParseFloat(s: string): (r: Option<real>)
    ensures r.Some? ==> r.value >= 0.0
  {
    ReadWhole(s, 0.0, false)
  }

  lemma {:induction false} FractionAfterDigit(s: string, acc: real, scale: real)
    ensures ReadFraction(s, acc, scale, true).Some?
    decreases |s|
  {
    if s != [] && Lexer.IsDigit(s[0]) {
      FractionAfterDigit(s[1..], acc + scale * DigitValue(s[0]), scale / 10.0);
    }
  }

  lemma {:induction false} WholeAfterDigit(s: string, acc: real)
    ensures ReadWhole(s, acc, true).Some?
    decreases |s|
  {
    if s != [] && Lexer.IsDigit(s[0]) {
      WholeAfterDigit(s[1..], 10.0 * acc + DigitValue(s[0]));
    } else if s != [] && s[0] == '.' {
      FractionAfterDigit(s[1..], acc, 0.1);
    }
  }

  /** `parseFloat` gives a number exactly when a digit starts the string, or a `.` and then a digit. */
  lemma ParseFloatDefined(s: string)
    ensures ParseFloat(s).Some? <==> (|s| > 0 && Lexer.IsDigit(s[0])) || (|s| > 1 && s[0] == '.' && Lexer.IsDigit(s[1]))
  {
    if s != [] && Lexer.IsDigit(s[0]) {
      WholeAfterDigit(s[1..], DigitValue(s[0]));
    } else if |s| > 1 && s[0] == '.' && Lexer.IsDigit(s[1]) {
      FractionAfterDigit(s[2..], 0.1 * DigitValue(s[1]), 0.01);
    }
  }

  predicate AllDigits(s: string) {
    forall k :: 0 <= k < |s| ==> Lexer.IsDigit(s[k])
  }

  /** The value of a digit string, read from its last digit backwards. */
  function DecimalValue(s: string): real
    requires AllDigits(s)
  {
    if s == [] then 0.0
    else 10.0 * DecimalValue(s[..|s| - 1]) + DigitValue(s[|s| - 1])
  }

  /**
   * Reading the digits `s` onto the value of the digits `t` read so far
   * gives the value of `t + s`.
   */
  lemma {:induction false} ReadDigits(t: string, s: string)
    requires AllDigits(t) && AllDigits(s)
    ensures ReadWhole(s, DecimalValue(t), true) == Some(DecimalValue(t + s))
    decreases |s|
  {
    if s == [] {
      assert t + s == t;
    } else {
      var t' := t + [s[0]];
      assert t'[..|t'| - 1] == t;
      assert t' + s[1..] == t + s;
      ReadDigits(t', s[1..]);
    }
  }

  /** `parseFloat` reads a numeral of digits only as its decimal value. */
  lemma ParseFloatInteger(s: string)
    requires |s| > 0 && AllDigits(s)
    ensures ParseFloat(s) == Some(DecimalValue(s))
  {
    assert DecimalValue([s[0]]) == DigitValue(s[0]) by {
      assert [s[0]][..0] == [];
    }
    ReadDigits([s[0]], s[1..]);
    assert [s[0]] + s[1..] == s;
  }

  // ---------------------------------------------------------------------
  // The grammar as functions over (tokens, cursor)

  /** A parsed node and the index of the first token after it. */
  datatype Parsed = Parsed(node: Node, next: nat)

  predicate IsAdditive(t: Token) {
    t.kind == OPERATOR && (t.value == "+" || t.value == "-")
  }

  predicate IsMultiplicative(t: Token) {
    t.kind == OPERATOR && (t.value == "*" || t.value == "/")
  }

  function AdditiveOp(v: string): BinOp {
    if v == "+" then Add else Sub
  }

  function MultiplicativeOp(v: string): BinOp {
    if v == "*" then Mul else Div
  }

  function SignOp(v: string): UnOp {
    if v == "+" then Pos else Neg
  }

  /** factor := ("+" | "-") factor | NUMBER | VARIABLE | "(" expression ")" */
  function FactorAt(ts: seq<Token>, i: nat): (r: Result<Parsed, Error>)
    requires i <= |ts|
    ensures r.Ok? ==> i < r.value.next <= |ts|
    decreases |ts| - i, 0
  {
    if i == |ts| then Err(UnexpectedEnd)
    else
      var t := ts[i];
      if IsAdditive(t) then
        match FactorAt(ts, i + 1)
        case Err(e) => Err(e)
        case Ok(p) => Ok(Parsed(UnaryOp(SignOp(t.value), p.node), p.next))
      else if t.kind == NUMBER then
        match ParseFloat(t.value)
        case None => Err(InvalidNumber(t.value, t.position))
        case Some(v) => Ok(Parsed(Number(v), i + 1))
      else if t.kind == VARIABLE then
        Ok(Parsed(Variable(t.value), i + 1))
      else if t.kind == LPAREN then
        match ExpressionAt(ts, i + 1)
        case Err(e) => Err(e)
        case Ok(p) =>
          if p.next >= |ts| || ts[p.next].kind != RPAREN then Err(MissingClosingParenthesis)
          else Ok(Parsed(p.node, p.next + 1))
      else
        Err(UnexpectedToken(t.value, t.position))
  }

  /** term := factor (("*" | "/") factor)* */
  function TermAt(ts: seq<Token>, i: nat): (r: Result<Parsed, Error>)
    requires i <= |ts|
    ensures r.Ok? ==> i < r.value.next <= |ts|
    decreases |ts| - i, 2
  {
    match FactorAt(ts, i)
    case Err(e) => Err(e)
    case Ok(p) => TermRest(ts, p.next, p.node)
  }

  /** The `(("*" | "/") factor)*` tail of a term, folded left onto `acc`. */
  function TermRest(ts: seq<Token>, i: nat, acc: Node): (r: Result<Parsed, Error>)
    requires i <= |ts|
    ensures r.Ok? ==> i <= r.value.next <= |ts|
    decreases |ts| - i, 1
  {
    if i < |ts| && IsMultiplicative(ts[i]) then
      match FactorAt(ts, i + 1)
      case Err(e) => Err(e)
      case Ok(p) => TermRest(ts, p.next, BinaryOp(MultiplicativeOp(ts[i].value), acc, p.node))
    else
      Ok(Parsed(acc, i))
  }

  /** expression := term (("+" | "-") term)* */
  function ExpressionAt(ts: seq<Token>, i: nat): (r: Result<Parsed, Error>)
    requires i <= |ts|
    ensures r.Ok? ==> i < r.value.next <= |ts|
    decreases |ts| - i, 4
  {
    match TermAt(ts, i)
    case Err(e) => Err(e)
    case Ok(p) => ExpressionRest(ts, p.next, p.node)
  }

  /** The `(("+" | "-") term)*` tail of an expression, folded left onto `acc`. */
  function ExpressionRest(ts: seq<Token>, i: nat, acc: Node): (r: Result<Parsed, Error>)
    requires i <= |ts|
    ensures r.Ok? ==> i <= r.value.next <= |ts|
    decreases |ts| - i, 3
  {
    if i < |ts| && IsAdditive(ts[i]) then
      match TermAt(ts, i + 1)
      case Err(e) => Err(e)
      case Ok(p) => ExpressionRest(ts, p.next, BinaryOp(AdditiveOp(ts[i].value), acc, p.node))
    else
      Ok(Parsed(acc, i))
  }

  /** A whole parse from cursor `i`: an expression that must reach the end. */
  function ParseAt(ts: seq<Token>, i: nat): Result<Node, Error>
    requires i <= |ts|
  {
    match ExpressionAt(ts, i)
    case Err(e) => Err(e)
    case Ok(p) =>
      if p.next < |ts| then Err(UnexpectedToken(ts[p.next].value, ts[p.next].position))
      else Ok(p.node)
  }

  function NodeOf(r: Result<Parsed, Error>): Result<Node, Error> {
    match r
    case Err(e) => Err(e)
    case Ok(p) => Ok(p.node)
  }

  // ---------------------------------------------------------------------
  // The imperative parser

  class Parser {
    const tokens: seq<Token>
    var current: nat

    constructor (tokens: seq<Token>)
      ensures this.tokens == tokens && current == 0
    {
      this.tokens := tokens;
      current := 0;
    }

    /** Parses an expression that must consume every remaining token. */
    method Parse() returns (r: Result<Node, Error>)
      requires current <= |tokens|
      modifies this
      ensures r == ParseAt(tokens, old(current))
      ensures r.Ok? ==> current == |tokens|
      ensures old(current) <= current <= |tokens|
    {
      var result := Expression();
      if result.Err? {
        return Err(result.error);
      }
      if current < |tokens| {
        return Err(UnexpectedToken(tokens[current].value, tokens[current].position));
      }
      return Ok(result.value);
    }

    method Expression() returns (r: Result<Node, Error>)
      requires current <= |tokens|
      modifies this
      decreases |tokens| - current, 4
      ensures old(current) <= current <= |tokens|
      ensures r == NodeOf(ExpressionAt(tokens, old(current)))
      ensures r.Ok? ==> current == ExpressionAt(tokens, old(current)).value.next
    {
      var first := Term();
      if first.Err? {
        return Err(first.error);
      }
      var node := first.value;
      while current < |tokens| && IsAdditive(tokens[current])
        invariant old(current) < current <= |tokens|
        invariant ExpressionRest(tokens, current, node) == ExpressionAt(tokens, old(current))
        decreases |tokens| - current
      {
        var operator := tokens[current].value;
        current := current + 1;
        var right := Term();
        if right.Err? {
          return Err(right.error);
        }
        node := BinaryOp(AdditiveOp(operator), node, right.value);
      }
      return Ok(node);
    }

    method Term() returns (r: Result<Node, Error>)
      requires current <= |tokens|
      modifies this
      decreases |tokens| - current, 2
      ensures old(current) <= current <= |tokens|
      ensures r == NodeOf(TermAt(tokens, old(current)))
      ensures r.Ok? ==> current == TermAt(tokens, old(current)).value.next
    {
      var first := Factor();
      if first.Err? {
        return Err(first.error);
      }
      var node := first.value;
      while current < |tokens| && IsMultiplicative(tokens[current])
        invariant old(current) < current <= |tokens|
        invariant TermRest(tokens, current, node) == TermAt(tokens, old(current))
        decreases |tokens| - current
      {
        var operator := tokens[current].value;
        current := current + 1;
        var right := Factor();
        if right.Err? {
          return Err(right.error);
        }
        node := BinaryOp(MultiplicativeOp(operator), node, right.value);
      }
      return Ok(node);
    }

    /** Every successful factor consumes at least one token. */
    method Factor() returns (r: Result<Node, Error>)
      requires current <= |tokens|
      modifies this
      decreases |tokens| - current, 0
      ensures old(current) <= current <= |tokens|
      ensures r == NodeOf(FactorAt(tokens, old(current)))
      ensures r.Ok? ==> old(current) < current == FactorAt(tokens, old(current)).value.next
    {
      if current >= |tokens| {
        return Err(UnexpectedEnd);
      }
      var token := tokens[current];
      if token.kind == OPERATOR && (token.value == "+" || token.value == "-") {
        current := current + 1;
        var operand := Factor();
        if operand.Err? {
          return Err(operand.error);
        }
        return Ok(UnaryOp(SignOp(token.value), operand.value));
      }
      if token.kind == NUMBER {
        current := current + 1;
        var value := ParseFloat(token.value);
        if value.None? {
          return Err(InvalidNumber(token.value, token.position));
        }
        return Ok(Number(value.value));
      }
      if token.kind == VARIABLE {
        current := current + 1;
        return Ok(Variable(token.value));
      }
      if token.kind == LPAREN {
        current := current + 1;
        var node := Expression();
        if node.Err? {
          return Err(node.error);
        }
        if current >= |tokens| || tokens[current].kind != RPAREN {
          return Err(MissingClosingParenthesis);
        }
        current := current + 1;
        return Ok(node.value);
      }
      return Err(UnexpectedToken(token.value, token.position));
    }
  }

  /** The module-level entry point: a fresh parser over the tokens. */
  method Parse(tokens: seq<Token>) returns (r: Result<Node, Error>)
    ensures r == ParseAt(tokens, 0)
  {
    var parser := new Parser(tokens);
    r := parser.Parse();
  }
}
