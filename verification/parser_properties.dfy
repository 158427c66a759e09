/**
 * What the parser promises about its input: fully parenthesised token
 * sequences parse back to the tree they came from, `*` and `/` bind tighter
 * than `+` and `-` with every binary operator left-associative, the error
 * cases of the grammar, and that the "Invalid number" error cannot arise from
 * the lexer's output.
 */
module ParserProperties {
  import opened Wrappers
  import opened Types
  import opened Parser
  import Lexer

  // ---------------------------------------------------------------------
  // Token spellings of a tree

  /** How many tokens spell a tree fully parenthesised. */
  function TokenCount(n: Node): (k: nat)
    ensures k >= 1
  {
    match n
    case Number(_) => 1
    case Variable(_) => 1
    case UnaryOp(_, e) => 1 + TokenCount(e)
    case BinaryOp(_, l, r) => 3 + TokenCount(l) + TokenCount(r)
  }

  /**
   * The tokens of `ts` from index `i` on spell `n` fully parenthesised, the
   * way the evaluator's `NodeToString` prints a tree: a binary node as
   * `( left op right )`, a unary node as its sign followed by its operand, a
   * number as the numeral `show` gives it. Positions are left free: the
   * parser reads them only into error messages.
   */
  predicate Spells(ts: seq<Token>, i: nat, n: Node, show: real -> string)
    decreases n
  {
    i + TokenCount(n) <= |ts| &&
    match n
    case Number(v) => ts[i].kind == NUMBER && ts[i].value == show(v)
    case Variable(x) => ts[i].kind == VARIABLE && ts[i].value == x
    case UnaryOp(sign, e) =>
      ts[i].kind == OPERATOR && ts[i].value == UnSymbol(sign) && Spells(ts, i + 1, e, show)
    case BinaryOp(op, l, r) =>
      ts[i].kind == LPAREN && Spells(ts, i + 1, l, show)
      && ts[i + 1 + TokenCount(l)].kind == OPERATOR && ts[i + 1 + TokenCount(l)].value == BinSymbol(op)
      && Spells(ts, i + 2 + TokenCount(l), r, show)
      && ts[i + 2 + TokenCount(l) + TokenCount(r)].kind == RPAREN
  }

  /** Every number of the tree is printed as a numeral that reads back as itself. */
  predicate Printable(n: Node, show: real -> string) {
    match n
    case Number(v) => ParseFloat(show(v)) == Some(v)
    case Variable(_) => true
    case UnaryOp(_, e) => Printable(e, show)
    case BinaryOp(_, l, r) => Printable(l, show) && Printable(r, show)
  }

  // ---------------------------------------------------------------------
  // One grammar rule at a time

  lemma NumberFactor(ts: seq<Token>, i: nat, v: real)
    requires i < |ts| && ts[i].kind == NUMBER && ParseFloat(ts[i].value) == Some(v)
    ensures FactorAt(ts, i) == Ok(Parsed(Number(v), i + 1))
  {
  }

  lemma VariableFactor(ts: seq<Token>, i: nat)
    requires i < |ts| && ts[i].kind == VARIABLE
    ensures FactorAt(ts, i) == Ok(Parsed(Variable(ts[i].value), i + 1))
  {
  }

  lemma SignedFactor(ts: seq<Token>, i: nat, sign: UnOp, f: Parsed)
    requires i < |ts| && ts[i].kind == OPERATOR && ts[i].value == UnSymbol(sign)
    requires FactorAt(ts, i + 1) == Ok(f)
    ensures FactorAt(ts, i) == Ok(Parsed(UnaryOp(sign, f.node), f.next))
  {
    assert SignOp(UnSymbol(sign)) == sign;
  }

  lemma ParenthesisedFactor(ts: seq<Token>, i: nat, e: Parsed)
    requires i < |ts| && ts[i].kind == LPAREN
    requires ExpressionAt(ts, i + 1) == Ok(e)
    ensures e.next < |ts| && ts[e.next].kind == RPAREN ==> FactorAt(ts, i) == Ok(Parsed(e.node, e.next + 1))
    ensures e.next == |ts| ==> FactorAt(ts, i) == Err(MissingClosingParenthesis)
  {
  }

  lemma TermStart(ts: seq<Token>, i: nat, f: Parsed)
    requires i <= |ts| && FactorAt(ts, i) == Ok(f)
    ensures TermAt(ts, i) == TermRest(ts, f.next, f.node)
  {
  }

  lemma TermRestStep(ts: seq<Token>, i: nat, acc: Node, f: Result<Parsed, Error>)
    requires i < |ts| && IsMultiplicative(ts[i]) && FactorAt(ts, i + 1) == f
    ensures f.Ok? ==> TermRest(ts, i, acc) == TermRest(ts, f.value.next, BinaryOp(MultiplicativeOp(ts[i].value), acc, f.value.node))
    ensures f.Err? ==> TermRest(ts, i, acc) == Err(f.error)
  {
  }

  lemma TermRestEnd(ts: seq<Token>, i: nat, acc: Node)
    requires i <= |ts| && (i == |ts| || !IsMultiplicative(ts[i]))
    ensures TermRest(ts, i, acc) == Ok(Parsed(acc, i))
  {
  }

  lemma ExpressionStart(ts: seq<Token>, i: nat, t: Result<Parsed, Error>)
    requires i <= |ts| && TermAt(ts, i) == t
    ensures t.Ok? ==> ExpressionAt(ts, i) == ExpressionRest(ts, t.value.next, t.value.node)
    ensures t.Err? ==> ExpressionAt(ts, i) == Err(t.error)
  {
  }

  lemma ExpressionRestStep(ts: seq<Token>, i: nat, acc: Node, t: Result<Parsed, Error>)
    requires i < |ts| && IsAdditive(ts[i]) && TermAt(ts, i + 1) == t
    ensures t.Ok? ==> ExpressionRest(ts, i, acc) == ExpressionRest(ts, t.value.next, BinaryOp(AdditiveOp(ts[i].value), acc, t.value.node))
    ensures t.Err? ==> ExpressionRest(ts, i, acc) == Err(t.error)
  {
  }

  lemma ExpressionRestEnd(ts: seq<Token>, i: nat, acc: Node)
    requires i <= |ts| && (i == |ts| || !IsAdditive(ts[i]))
    ensures ExpressionRest(ts, i, acc) == Ok(Parsed(acc, i))
  {
  }

  /** How tightly a binary operator binds. */
  function Binding(op: BinOp): nat {
    if op == Mul || op == Div then 2 else 1
  }

  lemma OperatorToken(t: Token, op: BinOp)
    requires t.kind == OPERATOR && t.value == BinSymbol(op)
    ensures IsMultiplicative(t) <==> Binding(op) == 2
    ensures IsAdditive(t) <==> Binding(op) == 1
    ensures Binding(op) == 2 ==> MultiplicativeOp(t.value) == op
    ensures Binding(op) == 1 ==> AdditiveOp(t.value) == op
  {
  }

  /** A single factor followed by the end or a closing parenthesis is a whole expression. */
  lemma LoneFactor(ts: seq<Token>, i: nat, f: Parsed)
    requires i <= |ts| && FactorAt(ts, i) == Ok(f)
    requires f.next == |ts| || ts[f.next].kind == RPAREN
    ensures ExpressionAt(ts, i) == Ok(f)
  {
    TermStart(ts, i, f);
    TermRestEnd(ts, f.next, f.node);
    ExpressionStart(ts, i, Ok(f));
    ExpressionRestEnd(ts, f.next, f.node);
  }

  /** `l op r` after the factors are parsed, ending at the end or before a `)`. */
  lemma BinaryExpression(ts: seq<Token>, i: nat, l: Node, op: BinOp, r: Node, j: nat, k: nat)
    requires i <= |ts| && FactorAt(ts, i) == Ok(Parsed(l, j))
    requires j < |ts| && ts[j].kind == OPERATOR && ts[j].value == BinSymbol(op)
    requires FactorAt(ts, j + 1) == Ok(Parsed(r, k))
    requires k == |ts| || ts[k].kind == RPAREN
    ensures ExpressionAt(ts, i) == Ok(Parsed(BinaryOp(op, l, r), k))
  {
    var node := BinaryOp(op, l, r);
    OperatorToken(ts[j], op);
    TermStart(ts, i, Parsed(l, j));
    if Binding(op) == 2 {
      TermRestStep(ts, j, l, Ok(Parsed(r, k)));
      TermRestEnd(ts, k, node);
      ExpressionStart(ts, i, Ok(Parsed(node, k)));
    } else {
      TermRestEnd(ts, j, l);
      ExpressionStart(ts, i, Ok(Parsed(l, j)));
      TermStart(ts, j + 1, Parsed(r, k));
      TermRestEnd(ts, k, r);
      ExpressionRestStep(ts, j, l, Ok(Parsed(r, k)));
    }
    ExpressionRestEnd(ts, k, node);
  }

  lemma SpelledUnary(ts: seq<Token>, i: nat, sign: UnOp, e: Node, show: real -> string)
    requires Spells(ts, i, UnaryOp(sign, e), show)
    requires FactorAt(ts, i + 1) == Ok(Parsed(e, i + 1 + TokenCount(e)))
    ensures FactorAt(ts, i) == Ok(Parsed(UnaryOp(sign, e), i + TokenCount(UnaryOp(sign, e))))
  {
    SignedFactor(ts, i, sign, Parsed(e, i + 1 + TokenCount(e)));
  }

  /** A spelled binary tree parses as one parenthesised factor, its operands read first. */
  lemma {:induction false} SpelledBinary(ts: seq<Token>, i: nat, op: BinOp, l: Node, r: Node, show: real -> string)
    requires Printable(BinaryOp(op, l, r), show) && Spells(ts, i, BinaryOp(op, l, r), show)
    ensures FactorAt(ts, i) == Ok(Parsed(BinaryOp(op, l, r), i + TokenCount(BinaryOp(op, l, r))))
    decreases BinaryOp(op, l, r), 0
  {
    var j := i + 1 + TokenCount(l);
    var k := j + 1 + TokenCount(r);
    assert j + 1 == i + 2 + TokenCount(l);
    FactorOfSpelling(ts, i + 1, l, show);
    FactorOfSpelling(ts, j + 1, r, show);
    BinaryExpression(ts, i + 1, l, op, r, j, k);
    ParenthesisedFactor(ts, i, Parsed(BinaryOp(op, l, r), k));
  }

  /** A spelled tree, wherever it appears, parses as one factor that ends right after it. */
  lemma {:induction false} FactorOfSpelling(ts: seq<Token>, i: nat, n: Node, show: real -> string)
    requires Printable(n, show) && Spells(ts, i, n, show)
    ensures FactorAt(ts, i) == Ok(Parsed(n, i + TokenCount(n)))
    decreases n, 1
  {
    match n
    case Number(v) =>
      NumberFactor(ts, i, v);
    case Variable(x) =>
      VariableFactor(ts, i);
    case UnaryOp(sign, e) =>
      FactorOfSpelling(ts, i + 1, e, show);
      SpelledUnary(ts, i, sign, e, show);
    case BinaryOp(op, l, r) =>
      SpelledBinary(ts, i, op, l, r, show);
  }

  /** Round trip: tokens that spell a tree, and nothing more, parse back to that tree. */
  lemma RoundTrip(ts: seq<Token>, n: Node, show: real -> string)
    requires Printable(n, show) && Spells(ts, 0, n, show) && |ts| == TokenCount(n)
    ensures ParseAt(ts, 0) == Ok(n)
  {
    FactorOfSpelling(ts, 0, n, show);
    LoneFactor(ts, 0, Parsed(n, |ts|));
  }

  // ---------------------------------------------------------------------
  // Precedence and associativity

  /** The tree `x op1 y op2 z` stands for, by precedence and then left associativity. */
  function Grouped(x: Node, op1: BinOp, y: Node, op2: BinOp, z: Node): Node {
    if Binding(op2) > Binding(op1) then BinaryOp(op1, x, BinaryOp(op2, y, z))
    else BinaryOp(op2, BinaryOp(op1, x, y), z)
  }

  /**
   * Three factors joined by two binary operators, `x op1 y op2 z`, make up
   * the whole input: the second operator applies first only when it binds
   * strictly tighter (a `*` or `/` after a `+` or `-`); otherwise the first
   * one does (left associativity). The factors may be anything `factor`
   * accepts: numbers, names, signed or parenthesised expressions.
   */
  lemma Precedence(ts: seq<Token>, x: Node, op1: BinOp, y: Node, op2: BinOp, z: Node, j1: nat, j2: nat)
    requires FactorAt(ts, 0) == Ok(Parsed(x, j1))
    requires j1 < |ts| && ts[j1].kind == OPERATOR && ts[j1].value == BinSymbol(op1)
    requires FactorAt(ts, j1 + 1) == Ok(Parsed(y, j2))
    requires j2 < |ts| && ts[j2].kind == OPERATOR && ts[j2].value == BinSymbol(op2)
    requires FactorAt(ts, j2 + 1) == Ok(Parsed(z, |ts|))
    ensures ParseAt(ts, 0)
         == Ok(if Binding(op2) > Binding(op1) then BinaryOp(op1, x, BinaryOp(op2, y, z))
               else BinaryOp(op2, BinaryOp(op1, x, y), z))
  {
    var e := |ts|;
    OperatorToken(ts[j1], op1);
    OperatorToken(ts[j2], op2);
    TermStart(ts, 0, Parsed(x, j1));
    TermRestEnd(ts, e, z);
    var xy := BinaryOp(op1, x, y);
    var yz := BinaryOp(op2, y, z);
    if Binding(op1) == 2 {
      TermRestStep(ts, j1, x, Ok(Parsed(y, j2)));
      if Binding(op2) == 2 {
        TermRestStep(ts, j2, xy, Ok(Parsed(z, e)));
        TermRestEnd(ts, e, BinaryOp(op2, xy, z));
        ExpressionStart(ts, 0, Ok(Parsed(BinaryOp(op2, xy, z), e)));
      } else {
        TermRestEnd(ts, j2, xy);
        ExpressionStart(ts, 0, Ok(Parsed(xy, j2)));
        TermStart(ts, j2 + 1, Parsed(z, e));
        ExpressionRestStep(ts, j2, xy, Ok(Parsed(z, e)));
      }
    } else {
      TermRestEnd(ts, j1, x);
      ExpressionStart(ts, 0, Ok(Parsed(x, j1)));
      TermStart(ts, j1 + 1, Parsed(y, j2));
      if Binding(op2) == 2 {
        TermRestStep(ts, j2, y, Ok(Parsed(z, e)));
        TermRestEnd(ts, e, yz);
        ExpressionRestStep(ts, j1, x, Ok(Parsed(yz, e)));
      } else {
        TermRestEnd(ts, j2, y);
        ExpressionRestStep(ts, j1, x, Ok(Parsed(y, j2)));
        TermStart(ts, j2 + 1, Parsed(z, e));
        ExpressionRestStep(ts, j2, xy, Ok(Parsed(z, e)));
      }
    }
    ExpressionRestEnd(ts, e, Grouped(x, op1, y, op2, z));
    assert ExpressionAt(ts, 0) == Ok(Parsed(Grouped(x, op1, y, op2, z), e));
  }

  // ---------------------------------------------------------------------
  // Errors

  /** No tokens at all: the expression ends before its first factor. */
  lemma EmptyInput()
    ensures ParseAt([], 0) == Err(UnexpectedEnd)
  {
    ExpressionStart([], 0, Err(UnexpectedEnd));
  }

  /** An opening parenthesis whose expression runs to the end of the tokens. */
  lemma UnclosedParenthesis(ts: seq<Token>, n: Node, show: real -> string)
    requires Printable(n, show)
    requires |ts| == 1 + TokenCount(n) && ts[0].kind == LPAREN && Spells(ts, 1, n, show)
    ensures ParseAt(ts, 0) == Err(MissingClosingParenthesis)
  {
    FactorOfSpelling(ts, 1, n, show);
    LoneFactor(ts, 1, Parsed(n, |ts|));
    ParenthesisedFactor(ts, 0, Parsed(n, |ts|));
    ExpressionStart(ts, 0, Err(MissingClosingParenthesis));
  }

  /** A token after a complete expression that no operator rule can take is reported as unexpected. */
  lemma TrailingToken(ts: seq<Token>, n: Node, show: real -> string)
    requires Printable(n, show)
    requires |ts| == TokenCount(n) + 1 && Spells(ts, 0, n, show)
    requires !IsAdditive(ts[TokenCount(n)]) && !IsMultiplicative(ts[TokenCount(n)])
    ensures ParseAt(ts, 0) == Err(UnexpectedToken(ts[TokenCount(n)].value, ts[TokenCount(n)].position))
  {
    var q := TokenCount(n);
    FactorOfSpelling(ts, 0, n, show);
    TermStart(ts, 0, Parsed(n, q));
    TermRestEnd(ts, q, n);
    ExpressionStart(ts, 0, Ok(Parsed(n, q)));
    ExpressionRestEnd(ts, q, n);
  }

  /** An operator after a complete expression still needs an operand. */
  lemma DanglingOperator(ts: seq<Token>, n: Node, show: real -> string)
    requires Printable(n, show)
    requires |ts| == TokenCount(n) + 1 && Spells(ts, 0, n, show)
    requires IsAdditive(ts[TokenCount(n)]) || IsMultiplicative(ts[TokenCount(n)])
    ensures ParseAt(ts, 0) == Err(UnexpectedEnd)
  {
    var q := TokenCount(n);
    FactorOfSpelling(ts, 0, n, show);
    TermStart(ts, 0, Parsed(n, q));
    if IsMultiplicative(ts[q]) {
      TermRestStep(ts, q, n, Err(UnexpectedEnd));
      ExpressionStart(ts, 0, Err(UnexpectedEnd));
    } else {
      TermRestEnd(ts, q, n);
      ExpressionStart(ts, 0, Ok(Parsed(n, q)));
      assert TermAt(ts, |ts|) == Err(UnexpectedEnd);
      ExpressionRestStep(ts, q, n, Err(UnexpectedEnd));
    }
  }

  // ---------------------------------------------------------------------
  // "Invalid number" cannot come from lexed tokens

  /** Every NUMBER token reads as a number. */
  predicate NumeralsRead(ts: seq<Token>) {
    forall k | 0 <= k < |ts| && ts[k].kind == NUMBER :: ParseFloat(ts[k].value).Some?
  }

  predicate NotInvalidNumber(r: Result<Parsed, Error>) {
    r.Err? ==> !r.error.InvalidNumber?
  }

  /** The lexer's numerals all start with a digit, so each reads as a number. */
  lemma LexedNumeralsRead(s: string, ts: seq<Token>)
    requires Lexer.Tokenization(s, ts)
    ensures NumeralsRead(ts)
  {
    forall k | 0 <= k < |ts| && ts[k].kind == NUMBER
      ensures ParseFloat(ts[k].value).Some?
    {
      assert Lexer.ValidAt(s, ts, k);
      ParseFloatDefined(ts[k].value);
    }
  }

  lemma FactorReadsNumerals(ts: seq<Token>, i: nat)
    requires i <= |ts| && NumeralsRead(ts)
    ensures NotInvalidNumber(FactorAt(ts, i))
    decreases |ts| - i, 0
  {
    if i < |ts| {
      if IsAdditive(ts[i]) {
        FactorReadsNumerals(ts, i + 1);
      } else if ts[i].kind == LPAREN {
        ExpressionReadsNumerals(ts, i + 1);
      }
    }
  }

  lemma TermRestReadsNumerals(ts: seq<Token>, i: nat, acc: Node)
    requires i <= |ts| && NumeralsRead(ts)
    ensures NotInvalidNumber(TermRest(ts, i, acc))
    decreases |ts| - i, 1
  {
    if i < |ts| && IsMultiplicative(ts[i]) {
      FactorReadsNumerals(ts, i + 1);
      var f := FactorAt(ts, i + 1);
      if f.Ok? {
        TermRestReadsNumerals(ts, f.value.next, BinaryOp(MultiplicativeOp(ts[i].value), acc, f.value.node));
      }
    }
  }

  lemma TermReadsNumerals(ts: seq<Token>, i: nat)
    requires i <= |ts| && NumeralsRead(ts)
    ensures NotInvalidNumber(TermAt(ts, i))
    decreases |ts| - i, 2
  {
    FactorReadsNumerals(ts, i);
    var f := FactorAt(ts, i);
    if f.Ok? {
      TermRestReadsNumerals(ts, f.value.next, f.value.node);
    }
  }

  lemma ExpressionRestReadsNumerals(ts: seq<Token>, i: nat, acc: Node)
    requires i <= |ts| && NumeralsRead(ts)
    ensures NotInvalidNumber(ExpressionRest(ts, i, acc))
    decreases |ts| - i, 3
  {
    if i < |ts| && IsAdditive(ts[i]) {
      TermReadsNumerals(ts, i + 1);
      var t := TermAt(ts, i + 1);
      if t.Ok? {
        ExpressionRestReadsNumerals(ts, t.value.next, BinaryOp(AdditiveOp(ts[i].value), acc, t.value.node));
      }
    }
  }

  lemma ExpressionReadsNumerals(ts: seq<Token>, i: nat)
    requires i <= |ts| && NumeralsRead(ts)
    ensures NotInvalidNumber(ExpressionAt(ts, i))
    decreases |ts| - i, 4
  {
    TermReadsNumerals(ts, i);
    var t := TermAt(ts, i);
    if t.Ok? {
      ExpressionRestReadsNumerals(ts, t.value.next, t.value.node);
    }
  }

  /** Parsing the lexer's output never reports an invalid number. */
  lemma NoInvalidNumber(s: string, ts: seq<Token>)
    requires Lexer.Tokenization(s, ts)
    ensures ParseAt(ts, 0).Err? ==> !ParseAt(ts, 0).error.InvalidNumber?
  {
    LexedNumeralsRead(s, ts);
    ExpressionReadsNumerals(ts, 0);
  }
}
