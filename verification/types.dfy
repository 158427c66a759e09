/**
 * The data shapes shared by the lexer, the parser, the evaluator and the tree
 * renderer: tokens, the four AST node variants, evaluation steps and the
 * errors each stage raises.
 */
module Types {

  /** The five token kinds, tagged as in the source. */
  datatype TokenKind = NUMBER | OPERATOR | VARIABLE | LPAREN | RPAREN

  /** A lexeme, its kind, and the offset of its first character in the
      whitespace-free input. */
  datatype Token = Token(kind: TokenKind, value: string, position: nat)

  /** Unary operators: `+` and `-`. */
  datatype UnOp = Pos | Neg

  /** Binary operators: `+ - * /`. */
  datatype BinOp = Add | Sub | Mul | Div

  /** The four AST variants. Binary nodes have two ordered children, unary
      nodes exactly one, numbers and variables none. */
  datatype Node =
    | BinaryOp(op: BinOp, left: Node, right: Node)
    | UnaryOp(sign: UnOp, operand: Node)
    | Number(value: real)
    | Variable(name: string)

  function UnSymbol(op: UnOp): string {
    match op
    case Pos => "+"
    case Neg => "-"
  }

  function BinSymbol(op: BinOp): string {
    match op
    case Add => "+"
    case Sub => "-"
    case Mul => "*"
    case Div => "/"
  }

  /** The facts a step's human-readable description interpolates. */
  datatype Description =
    | SubstituteVariable(variable: string, binding: real)
    | ApplyUnary(unOp: UnOp)
    | ApplyBinary(binOp: BinOp, leftValue: real, rightValue: real)

  /** One reduction recorded by the step-by-step evaluator. */
  datatype Step = Step(expression: string, description: Description, result: real)

  /** Every error the pipeline throws. */
  datatype Error =
    | UnexpectedCharacter(character: char, position: nat)
    | UnexpectedEnd
    | UnexpectedToken(lexeme: string, at: nat)
    | InvalidNumber(numeral: string, numeralAt: nat)
    | MissingClosingParenthesis
    | UndefinedVariable(undefinedName: string)
    | DivisionByZero

  function DigitChar(d: nat): (c: char)
    requires d < 10
    ensures c as int == '0' as int + d
  {
    "0123456789"[d]
  }

  /** Decimal rendering of a position, as a template literal prints it. */
  function NatToString(n: nat): (s: string)
    ensures |s| > 0 && (n < 10 <==> |s| == 1)
    decreases n
  {
    if n < 10 then [DigitChar(n)] else NatToString(n / 10) + [DigitChar(n % 10)]
  }

  /** Different positions print differently. */
  lemma {:induction false} NatToStringInjective(a: nat, b: nat)
    requires NatToString(a) == NatToString(b)
    ensures a == b
    decreases a
  {
    var s := NatToString(a);
    if a >= 10 {
      assert NatToString(a / 10) == s[..|s| - 1] == NatToString(b / 10);
      NatToStringInjective(a / 10, b / 10);
    }
  }

  /**
   * The text of the error the source throws. It quotes the offending
   * character and the undefined name.
   */
  function Message(e: Error): (m: string)
    ensures e.UnexpectedCharacter? ==> |m| > 22 && m[22] == e.character
    ensures e.UndefinedVariable? ==> |m| == 21 + |e.undefinedName| && m[20 .. 20 + |e.undefinedName|] == e.undefinedName
  {
    match e
    case UnexpectedCharacter(c, i) => "Unexpected character '" + [c] + "' at position " + NatToString(i)
    case UnexpectedEnd => "Unexpected end of expression"
    case UnexpectedToken(v, i) => "Unexpected token '" + v + "' at position " + NatToString(i)
    case InvalidNumber(v, i) => "Invalid number '" + v + "' at position " + NatToString(i)
    case MissingClosingParenthesis => "Missing closing parenthesis"
    case UndefinedVariable(x) => "Undefined variable '" + x + "'"
    case DivisionByZero => "Division by zero"
  }

  /** Which of the seven errors was thrown. */
  function Kind(e: Error): nat {
    match e
    case UnexpectedCharacter(_, _) => 0
    case UnexpectedEnd => 1
    case UnexpectedToken(_, _) => 2
    case InvalidNumber(_, _) => 3
    case MissingClosingParenthesis => 4
    case UndefinedVariable(_) => 5
    case DivisionByZero => 6
  }

  /** The error kind read off three letters of its message. */
  function KindFromMarks(first: char, third: char, twelfth: char): nat {
    if first == 'I' then 3
    else if first == 'M' then 4
    else if first == 'D' then 6
    else if third == 'd' then 5
    else if twelfth == 'c' then 0
    else if twelfth == 'e' then 1
    else 2
  }

  lemma MessageMarks(e: Error)
    ensures |Message(e)| > 11 && KindFromMarks(Message(e)[0], Message(e)[2], Message(e)[11]) == Kind(e)
  {
  }

  /**
   * A message tells which error was thrown; an "Unexpected character"
   * message also gives back the character and the position, and an
   * "Undefined variable" message the name.
   */
  lemma MessageDeterminesError(e1: Error, e2: Error)
    requires Message(e1) == Message(e2)
    ensures Kind(e1) == Kind(e2)
    ensures e1.UnexpectedCharacter? ==> e1 == e2
    ensures e1.UndefinedVariable? ==> e1 == e2
  {
    var m := Message(e1);
    MessageMarks(e1);
    MessageMarks(e2);
    if e1.UnexpectedCharacter? && e2.UnexpectedCharacter? {
      var suffix := "' at position ";
      assert m == "Unexpected character '" + [e1.character] + suffix + NatToString(e1.position);
      assert m == "Unexpected character '" + [e2.character] + suffix + NatToString(e2.position);
      assert m[37..] == NatToString(e1.position) == NatToString(e2.position);
      NatToStringInjective(e1.position, e2.position);
    }
  }

  /** Number of nodes in a tree. */
  function Size(n: Node): (k: nat)
    ensures k >= 1
  {
    match n
    case BinaryOp(_, l, r) => 1 + Size(l) + Size(r)
    case UnaryOp(_, e) => 1 + Size(e)
    case Number(_) => 1
    case Variable(_) => 1
  }
}
