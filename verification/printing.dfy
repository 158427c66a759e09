/**
 * The printed form of a tree (`nodeToString`) read back by the front end.
 * With its spaces stripped, the text tokenizes into tokens that spell the
 * tree fully parenthesised, and those tokens parse back to the tree.
 */
module Printing {
  import opened Wrappers
  import opened Types
  import opened Lexer
  import Parser
  import ParserProperties
  import Evaluator

  /**
   * Every numeral `show` prints is a digit-led run of digits and dots, and
   * every name is an identifier, so each prints as exactly one token.
   */
  predicate Readable(n: Node, show: real -> string) {
    match n
    case Number(v) => WellFormed(Token(NUMBER, show(v), 0))
    case Variable(x) => WellFormed(Token(VARIABLE, x, 0))
    case UnaryOp(_, e) => Readable(e, show)
    case BinaryOp(_, l, r) => Readable(l, show) && Readable(r, show)
  }

  /** The printed text as the lexer sees it, without the spaces around binary operators. */
  function Compact(n: Node, show: real -> string): string {
    match n
    case Number(v) => show(v)
    case Variable(x) => x
    case UnaryOp(sign, e) => UnSymbol(sign) + Compact(e, show)
    case BinaryOp(op, l, r) => "(" + Compact(l, show) + BinSymbol(op) + Compact(r, show) + ")"
  }

  // ---------------------------------------------------------------------
  // Tokenizations glued end to end

  /** Tokens moved `d` characters to the right. */
  function Shift(ts: seq<Token>, d: nat): (r: seq<Token>)
    ensures |r| == |ts|
    ensures forall k :: 0 <= k < |ts| ==> r[k] == Token(ts[k].kind, ts[k].value, ts[k].position + d)
  {
    seq(|ts|, k requires 0 <= k < |ts| => Token(ts[k].kind, ts[k].value, ts[k].position + d))
  }

  lemma ShiftAppend(a: seq<Token>, b: seq<Token>, d: nat)
    ensures Shift(a + b, d) == Shift(a, d) + Shift(b, d)
  {
  }

  /** The last token of `a` cannot take the first character of `b`. */
  predicate Separated(a: seq<Token>, b: string) {
    a == [] || b == [] || !Continues(a[|a| - 1].kind, b[0])
  }

  lemma {:induction false} LexemesShift(ts: seq<Token>, d: nat)
    ensures Lexemes(Shift(ts, d)) == Lexemes(ts)
    decreases |ts|
  {
    if ts != [] {
      var init := ts[..|ts| - 1];
      assert Shift(ts, d)[..|ts| - 1] == Shift(init, d);
      LexemesShift(init, d);
    }
  }

  lemma LexemesAppend(a: seq<Token>, b: seq<Token>)
    ensures Lexemes(a + b) == Lexemes(a) + Lexemes(b)
  {
    LexemesSplit(a + b, |a|);
    assert (a + b)[..|a|] == a;
    assert (a + b)[|a|..] == b;
  }

  /** A well-formed lexeme on its own is tokenized by its one token. */
  lemma SingleTokenization(kind: TokenKind, v: string)
    requires WellFormed(Token(kind, v, 0))
    ensures Tokenization(v, [Token(kind, v, 0)])
  {
    var ts := [Token(kind, v, 0)];
    assert ts[..0] == [];
    assert ValidAt(v, ts, 0);
  }

  /** Every token of a tokenization ends inside the string, and all but the last strictly before its end. */
  lemma TokenEnds(s: string, ts: seq<Token>, k: nat)
    requires Tokenization(s, ts) && k < |ts|
    ensures ts[k].position + |ts[k].value| <= |s|
    ensures k + 1 < |ts| ==> ts[k].position + |ts[k].value| < |s|
  {
    assert s[..|s|] == s;
    TokenText(s, ts, k);
    if k + 1 < |ts| {
      TokenText(s, ts, k + 1);
      assert ValidAt(s, ts, k) && ValidAt(s, ts, k + 1);
      assert ts[..k + 1] == ts[..k] + [ts[k]];
      LexemesSnoc(ts[..k], ts[k]);
    }
  }

  /** A token of the first part keeps its place and stays maximal after `b` is appended. */
  lemma FirstPartValid(a: string, ta: seq<Token>, b: string, tb: seq<Token>, k: nat)
    requires Tokenization(a, ta) && Tokenization(b, tb) && Separated(ta, b)
    requires k < |ta|
    ensures ValidAt(a + b, ta + Shift(tb, |a|), k)
  {
    var ts := ta + Shift(tb, |a|);
    assert ValidAt(a, ta, k);
    assert ts[..k] == ta[..k];
    TokenEnds(a, ta, k);
    var e := ta[k].position + |ta[k].value|;
    if e < |a| {
      assert (a + b)[e] == a[e];
    } else if e < |a + b| {
      assert (a + b)[e] == b[0];
    }
  }

  /** A token of the second part, moved by the length of `a`, is valid in `a + b`. */
  lemma SecondPartValid(a: string, ta: seq<Token>, b: string, tb: seq<Token>, j: nat)
    requires Tokenization(a, ta) && Tokenization(b, tb)
    requires j < |tb|
    ensures ValidAt(a + b, ta + Shift(tb, |a|), |ta| + j)
  {
    var ts := ta + Shift(tb, |a|);
    var d := |a|;
    assert ValidAt(b, tb, j);
    assert ts[|ta| + j] == Token(tb[j].kind, tb[j].value, tb[j].position + d);
    assert ts[..|ta| + j] == ta + Shift(tb[..j], d);
    LexemesAppend(ta, Shift(tb[..j], d));
    LexemesShift(tb[..j], d);
    var e := tb[j].position + |tb[j].value|;
    if e < |b| {
      assert (a + b)[d + e] == b[e];
    }
  }

  /** Every token of two glued tokenizations is valid in the concatenated text. */
  lemma GlueValid(a: string, ta: seq<Token>, b: string, tb: seq<Token>)
    requires Tokenization(a, ta) && Tokenization(b, tb) && Separated(ta, b)
    ensures ValidIn(a + b, ta + Shift(tb, |a|))
  {
    var ts := ta + Shift(tb, |a|);
    forall k | 0 <= k < |ts|
      ensures ValidAt(a + b, ts, k)
    {
      if k < |ta| {
        FirstPartValid(a, ta, b, tb, k);
      } else {
        SecondPartValid(a, ta, b, tb, k - |ta|);
      }
    }
  }

  /** Two tokenizations glue into a tokenization of the concatenated text when the seam splits them. */
  lemma GlueTokenization(a: string, ta: seq<Token>, b: string, tb: seq<Token>)
    requires Tokenization(a, ta) && Tokenization(b, tb) && Separated(ta, b)
    ensures Tokenization(a + b, ta + Shift(tb, |a|))
  {
    LexemesAppend(ta, Shift(tb, |a|));
    LexemesShift(tb, |a|);
    GlueValid(a, ta, b, tb);
  }

  // ---------------------------------------------------------------------
  // Token texts and their positions

  /** A token's kind and text, before it is given a position. */
  datatype Piece = Piece(kind: TokenKind, text: string)

  /** The texts of the pieces, concatenated. */
  function Text(ls: seq<Piece>): string
    decreases |ls|
  {
    if ls == [] then "" else ls[0].text + Text(ls[1..])
  }

  /** The pieces made tokens, each placed where the previous one ends, the first at `at`. */
  function Place(ls: seq<Piece>, at: nat): (ts: seq<Token>)
    ensures |ts| == |ls|
    decreases |ls|
  {
    if ls == [] then [] else [Token(ls[0].kind, ls[0].text, at)] + Place(ls[1..], at + |ls[0].text|)
  }

  /** The tokens `us[j..]` carry the kinds and texts of the pieces, in order. */
  predicate Shows(ls: seq<Piece>, us: seq<Token>, j: nat) {
    j + |ls| <= |us| &&
    forall p :: j <= p < j + |ls| ==> us[p].kind == ls[p - j].kind && us[p].value == ls[p - j].text
  }

  /** `b[m..m + |a|]` is `a`. */
  predicate Within(a: seq<Piece>, b: seq<Piece>, m: nat) {
    m + |a| <= |b| && forall p :: m <= p < m + |a| ==> b[p] == a[p - m]
  }

  /** The text of two lists of pieces is the text of the first followed by that of the second. */
  lemma {:induction false} TextAppend(a: seq<Piece>, b: seq<Piece>)
    ensures Text(a + b) == Text(a) + Text(b)
    decreases |a|
  {
    if a == [] {
      assert a + b == b;
    } else {
      assert (a + b)[0] == a[0] && (a + b)[1..] == a[1..] + b;
      TextAppend(a[1..], b);
    }
  }

  /** Placing pieces keeps their kinds and texts. */
  lemma {:induction false} PlaceShows(ls: seq<Piece>, at: nat)
    ensures Shows(ls, Place(ls, at), 0)
    decreases |ls|
  {
    if ls != [] {
      var ts := Place(ls, at);
      PlaceShows(ls[1..], at + |ls[0].text|);
      forall p | 1 <= p < |ls|
        ensures ts[p].kind == ls[p].kind && ts[p].value == ls[p].text
      {
        assert ts[p] == Place(ls[1..], at + |ls[0].text|)[p - 1];
      }
    }
  }

  /** The second list of pieces is placed where the text of the first ends. */
  lemma {:induction false} PlaceAppend(a: seq<Piece>, b: seq<Piece>, at: nat, at2: nat)
    requires at2 == at + |Text(a)|
    ensures Place(a + b, at) == Place(a, at) + Place(b, at2)
    decreases |a|
  {
    if a == [] {
      assert a + b == b;
    } else {
      var t := Token(a[0].kind, a[0].text, at);
      assert (a + b)[0] == a[0] && (a + b)[1..] == a[1..] + b;
      PlaceAppend(a[1..], b, at + |a[0].text|, at2);
      Regroup([t], Place(a[1..], at + |a[0].text|), Place(b, at2));
    }
  }

  /** Placing `d` characters further right moves every token by `d`. */
  lemma {:induction false} PlaceShift(ls: seq<Piece>, at: nat, d: nat, at2: nat)
    requires at2 == at + d
    ensures Place(ls, at2) == Shift(Place(ls, at), d)
    decreases |ls|
  {
    if ls == [] {
      assert Shift([], d) == [];
    } else {
      var t := Token(ls[0].kind, ls[0].text, at);
      PlaceShift(ls[1..], at + |ls[0].text|, d, at2 + |ls[0].text|);
      ShiftAppend([t], Place(ls[1..], at + |ls[0].text|), d);
      ShiftOne(t, d, at2);
    }
  }

  /** A one-token sequence lands at the given offset. */
  lemma ShiftOne(t: Token, d: nat, p: nat)
    requires p == t.position + d
    ensures Shift([t], d) == [Token(t.kind, t.value, p)]
  {
  }

  /** The pieces spell `s`, and placed from offset 0 they tokenize it. */
  predicate Lexed(s: string, ls: seq<Piece>) {
    Text(ls) == s && Tokenization(s, Place(ls, 0))
  }

  /** A well-formed lexeme on its own is one piece. */
  lemma SinglePiece(kind: TokenKind, v: string)
    requires WellFormed(Token(kind, v, 0))
    ensures Lexed(v, [Piece(kind, v)])
  {
    var ls := [Piece(kind, v)];
    assert ls[1..] == [];
    assert Place(ls, 0) == [Token(kind, v, 0)];
    SingleTokenization(kind, v);
  }

  /** Two lexed texts written one after the other are lexed by the two lists of pieces, when the seam splits them. */
  lemma AppendStep(a: string, la: seq<Piece>, b: string, lb: seq<Piece>)
    requires Lexed(a, la) && Lexed(b, lb)
    requires la == [] || b == [] || !Continues(la[|la| - 1].kind, b[0])
    ensures Lexed(a + b, la + lb)
  {
    TextAppend(la, lb);
    PlaceShows(la, 0);
    GlueTokenization(a, Place(la, 0), b, Place(lb, 0));
    PlaceAppend(la, lb, 0, |a|);
    PlaceShift(lb, 0, |a|, |a|);
  }

  /** A lexed text after an opening bracket. */
  lemma OpenBracket(b: string, lb: seq<Piece>)
    requires Lexed(b, lb)
    ensures Lexed("(" + b, [Piece(LPAREN, "(")] + lb)
  {
    SinglePiece(LPAREN, "(");
    AppendStep("(", [Piece(LPAREN, "(")], b, lb);
  }

  /** An operator character after a lexed text. */
  lemma AppendOperator(a: string, la: seq<Piece>, sym: string)
    requires Lexed(a, la) && |sym| == 1 && IsOperatorChar(sym[0])
    ensures Lexed(a + sym, la + [Piece(OPERATOR, sym)])
  {
    SinglePiece(OPERATOR, sym);
    AppendStep(a, la, sym, [Piece(OPERATOR, sym)]);
  }

  /** A lexed text after one that ends with an operator. */
  lemma AfterOperator(a: string, la: seq<Piece>, b: string, lb: seq<Piece>)
    requires Lexed(a, la) && Lexed(b, lb) && la != [] && la[|la| - 1].kind == OPERATOR
    ensures Lexed(a + b, la + lb)
  {
    AppendStep(a, la, b, lb);
  }

  /** A closing bracket after a lexed text. */
  lemma CloseBracket(a: string, la: seq<Piece>)
    requires Lexed(a, la)
    ensures Lexed(a + ")", la + [Piece(RPAREN, ")")])
  {
    SinglePiece(RPAREN, ")");
    AppendStep(a, la, ")", [Piece(RPAREN, ")")]);
  }

  // ---------------------------------------------------------------------
  // The printed tree

  /** The pieces of the printed tree, in the order the text holds them. */
  function Printed(n: Node, show: real -> string): seq<Piece> {
    match n
    case Number(v) => [Piece(NUMBER, show(v))]
    case Variable(x) => [Piece(VARIABLE, x)]
    case UnaryOp(sign, e) => [Piece(OPERATOR, UnSymbol(sign))] + Printed(e, show)
    case BinaryOp(op, l, r) =>
      [Piece(LPAREN, "(")] + Printed(l, show) + [Piece(OPERATOR, BinSymbol(op))] + Printed(r, show) + [Piece(RPAREN, ")")]
  }

  /** With whitespace-free numerals and names, stripping the printed tree leaves its compact spelling. */
  lemma {:induction false} StripPrinted(n: Node, show: real -> string)
    requires Readable(n, show)
    ensures Strip(Evaluator.NodeToString(n, show)) == Compact(n, show)
    decreases n
  {
    match n
    case Number(v) =>
      StripIdentity(show(v));
    case Variable(x) =>
      StripIdentity(x);
    case UnaryOp(sign, e) =>
      StripPrinted(e, show);
      StripConcat(UnSymbol(sign), Evaluator.NodeToString(e, show));
      StripIdentity(UnSymbol(sign));
    case BinaryOp(op, l, r) =>
      StripPrinted(l, show);
      StripPrinted(r, show);
      StripBinary(Evaluator.NodeToString(l, show), BinSymbol(op), Evaluator.NodeToString(r, show));
  }

  /** Stripping `( a op b )` with its two spaces removes the spaces and strips each operand. */
  lemma StripBinary(pl: string, sym: string, pr: string)
    requires |sym| == 1 && IsOperatorChar(sym[0])
    ensures Strip("(" + pl + " " + sym + " " + pr + ")") == "(" + Strip(pl) + sym + Strip(pr) + ")"
  {
    var cl, cr := Strip(pl), Strip(pr);
    var x1 := "(" + pl;
    StripConcat("(", pl);
    StripIdentity("(");
    assert Strip(x1) == "(" + cl;
    var x2 := x1 + " ";
    StripConcat(x1, " ");
    assert Strip(" ") == "";
    NoText("(" + cl);
    assert Strip(x2) == "(" + cl;
    var x3 := x2 + sym;
    StripConcat(x2, sym);
    StripIdentity(sym);
    assert Strip(x3) == "(" + cl + sym;
    var x4 := x3 + " ";
    StripConcat(x3, " ");
    NoText("(" + cl + sym);
    assert Strip(x4) == "(" + cl + sym;
    var x5 := x4 + pr;
    StripConcat(x4, pr);
    assert Strip(x5) == "(" + cl + sym + cr;
    StripConcat(x5, ")");
    StripIdentity(")");
  }

  /** The compact spelling of a readable tree is lexed by its printed pieces. */
  lemma {:induction false} CompactTokenizes(n: Node, show: real -> string)
    requires Readable(n, show)
    ensures Lexed(Compact(n, show), Printed(n, show))
    decreases n
  {
    match n
    case Number(v) =>
      SinglePiece(NUMBER, show(v));
    case Variable(x) =>
      SinglePiece(VARIABLE, x);
    case UnaryOp(sign, e) =>
      CompactTokenizes(e, show);
      SinglePiece(OPERATOR, UnSymbol(sign));
      AfterOperator(UnSymbol(sign), [Piece(OPERATOR, UnSymbol(sign))], Compact(e, show), Printed(e, show));
    case BinaryOp(op, l, r) =>
      CompactTokenizes(l, show);
      CompactTokenizes(r, show);
      CompactBinary(op, l, r, show);
  }

  /** A parenthesised binary node is lexed by its printed pieces when its operands are. */
  lemma {:induction false} CompactBinary(op: BinOp, l: Node, r: Node, show: real -> string)
    requires Lexed(Compact(l, show), Printed(l, show)) && Lexed(Compact(r, show), Printed(r, show))
    ensures Lexed(Compact(BinaryOp(op, l, r), show), Printed(BinaryOp(op, l, r), show))
  {
    var sym := BinSymbol(op);
    var cl, cr := Compact(l, show), Compact(r, show);
    var left := [Piece(LPAREN, "(")] + Printed(l, show);
    OpenBracket(cl, Printed(l, show));
    AppendOperator("(" + cl, left, sym);
    assert (left + [Piece(OPERATOR, sym)])[|left|] == Piece(OPERATOR, sym);
    AfterOperator("(" + cl + sym, left + [Piece(OPERATOR, sym)], cr, Printed(r, show));
    CloseBracket("(" + cl + sym + cr, left + [Piece(OPERATOR, sym)] + Printed(r, show));
  }

  /** Pieces found at `m` in `b`, which is shown at `j`, are shown at `at == j + m`. */
  lemma ShowsWithin(a: seq<Piece>, b: seq<Piece>, m: nat, us: seq<Token>, j: nat, at: nat)
    requires Within(a, b, m) && Shows(b, us, j) && at == j + m
    ensures Shows(a, us, at)
  {
    forall p | at <= p < at + |a|
      ensures us[p].kind == a[p - at].kind && us[p].value == a[p - at].text
    {
      assert us[p].kind == b[p - j].kind && us[p].value == b[p - j].text;
    }
  }

  /** Where the operand sits after a sign. */
  lemma UnaryLayout(a1: seq<Piece>, a2: seq<Piece>)
    requires |a1| == 1
    ensures Within(a2, a1 + a2, 1)
  {
  }

  /** Where the operands sit in `( l op r )`. */
  lemma BinaryLayout(a1: seq<Piece>, a2: seq<Piece>, a3: seq<Piece>, a4: seq<Piece>, a5: seq<Piece>)
    requires |a1| == |a3| == |a5| == 1
    ensures var xs := a1 + a2 + a3 + a4 + a5;
      && |xs| == 3 + |a2| + |a4|
      && xs[0] == a1[0]
      && Within(a2, xs, 1)
      && xs[1 + |a2|] == a3[0]
      && Within(a4, xs, 2 + |a2|)
      && xs[2 + |a2| + |a4|] == a5[0]
  {
    var xs := a1 + a2 + a3 + a4 + a5;
    assert Within(a2, xs, 1) by {
      forall p | 1 <= p < 1 + |a2|
        ensures xs[p] == a2[p - 1]
      {
        assert xs[p] == (a1 + a2)[p];
      }
    }
    assert Within(a4, xs, 2 + |a2|) by {
      forall p | 2 + |a2| <= p < 2 + |a2| + |a4|
        ensures xs[p] == a4[p - 2 - |a2|]
      {
        assert xs[p] == (a1 + a2 + a3 + a4)[p];
      }
    }
    assert xs[1 + |a2|] == (a1 + a2 + a3)[1 + |a2|];
  }

  /** Where the pieces of `( l op r )` are shown, the operands are shown between the brackets and the operator. */
  lemma BinaryShows(ll: seq<Piece>, sym: string, lr: seq<Piece>, us: seq<Token>, j: nat)
    requires Shows([Piece(LPAREN, "(")] + ll + [Piece(OPERATOR, sym)] + lr + [Piece(RPAREN, ")")], us, j)
    ensures us[j].kind == LPAREN && Shows(ll, us, j + 1)
    ensures us[j + 1 + |ll|].kind == OPERATOR && us[j + 1 + |ll|].value == sym
    ensures Shows(lr, us, j + 2 + |ll|)
    ensures us[j + 2 + |ll| + |lr|].kind == RPAREN
  {
    var ls := [Piece(LPAREN, "(")] + ll + [Piece(OPERATOR, sym)] + lr + [Piece(RPAREN, ")")];
    BinaryLayout([Piece(LPAREN, "(")], ll, [Piece(OPERATOR, sym)], lr, [Piece(RPAREN, ")")]);
    ShowsWithin(ll, ls, 1, us, j, j + 1);
    ShowsWithin(lr, ls, 2 + |ll|, us, j, j + 2 + |ll|);
    assert us[j].kind == ls[0].kind;
    assert us[j + 1 + |ll|].kind == ls[1 + |ll|].kind && us[j + 1 + |ll|].value == ls[1 + |ll|].text;
    assert us[j + 2 + |ll| + |lr|].kind == ls[2 + |ll| + |lr|].kind;
  }

  /** The parts of a binary node's spelling, each in its place, make its spelling. */
  lemma SpellsBinary(op: BinOp, l: Node, r: Node, show: real -> string, us: seq<Token>, j: nat)
    requires j + ParserProperties.TokenCount(BinaryOp(op, l, r)) <= |us|
    requires us[j].kind == LPAREN && ParserProperties.Spells(us, j + 1, l, show)
    requires us[j + 1 + ParserProperties.TokenCount(l)].kind == OPERATOR
    requires us[j + 1 + ParserProperties.TokenCount(l)].value == BinSymbol(op)
    requires ParserProperties.Spells(us, j + 2 + ParserProperties.TokenCount(l), r, show)
    requires us[j + 2 + ParserProperties.TokenCount(l) + ParserProperties.TokenCount(r)].kind == RPAREN
    ensures ParserProperties.Spells(us, j, BinaryOp(op, l, r), show)
  {
  }

  /**
   * Wherever the kinds and texts of the printed pieces are found, they spell
   * the tree fully parenthesised; there are as many as the spelling needs.
   */
  lemma {:induction false} PrintedSpellsAt(n: Node, show: real -> string, us: seq<Token>, j: nat)
    requires Shows(Printed(n, show), us, j)
    ensures |Printed(n, show)| == ParserProperties.TokenCount(n)
    ensures ParserProperties.Spells(us, j, n, show)
    decreases n
  {
    match n
    case Number(_) =>
      assert us[j].kind == Printed(n, show)[0].kind && us[j].value == Printed(n, show)[0].text;
    case Variable(_) =>
      assert us[j].kind == Printed(n, show)[0].kind && us[j].value == Printed(n, show)[0].text;
    case UnaryOp(sign, e) =>
      var ls, le := Printed(n, show), Printed(e, show);
      assert us[j].kind == ls[0].kind && us[j].value == ls[0].text;
      UnaryLayout([Piece(OPERATOR, UnSymbol(sign))], le);
      ShowsWithin(le, ls, 1, us, j, j + 1);
      PrintedSpellsAt(e, show, us, j + 1);
    case BinaryOp(op, l, r) =>
      BinaryShows(Printed(l, show), BinSymbol(op), Printed(r, show), us, j);
      PrintedSpellsAt(l, show, us, j + 1);
      PrintedSpellsAt(r, show, us, j + 2 + |Printed(l, show)|);
      SpellsBinary(op, l, r, show, us, j);
  }

  /** The printed tokens spell the tree fully parenthesised, and nothing more. */
  lemma {:induction false} PrintedTokensSpell(n: Node, show: real -> string)
    ensures |Place(Printed(n, show), 0)| == ParserProperties.TokenCount(n)
    ensures ParserProperties.Spells(Place(Printed(n, show), 0), 0, n, show)
  {
    PlaceShows(Printed(n, show), 0);
    PrintedSpellsAt(n, show, Place(Printed(n, show), 0), 0);
  }

  /**
   * `nodeToString` and the front end are inverse: the printed form of a tree
   * whose numerals read back as their values and whose names are identifiers
   * tokenizes, and any tokenization of it parses back to the same tree.
   */
  lemma {:induction false} PrintedTreeParsesBack(n: Node, show: real -> string, ts: seq<Token>)
    requires ParserProperties.Printable(n, show) && Readable(n, show)
    ensures Tokenizable(Strip(Evaluator.NodeToString(n, show)))
    ensures Tokenization(Strip(Evaluator.NodeToString(n, show)), ts) ==> Parser.ParseAt(ts, 0) == Ok(n)
  {
    var s := Strip(Evaluator.NodeToString(n, show));
    var printed := Place(Printed(n, show), 0);
    StripPrinted(n, show);
    CompactTokenizes(n, show);
    assert Tokenization(s, printed);
    if Tokenization(s, ts) {
      TokenizationUnique(s, ts, printed);
      PrintedTokensSpell(n, show);
      ParserProperties.RoundTrip(printed, n, show);
    }
  }

  /** Printing a tree, then tokenizing and parsing the text, gives the tree back. */
  method Reparse(n: Node, show: real -> string) returns (r: Result<Node, Error>)
    requires ParserProperties.Printable(n, show) && Readable(n, show)
    ensures r == Ok(n)
  {
    var text := Evaluator.NodeToString(n, show);
    var tokens := Lexer.Tokenize(text);
    PrintedTreeParsesBack(n, show, if tokens.Ok? then tokens.value else []);
    match tokens
    case Ok(ts) =>
      r := Parser.Parse(ts);
    case Err(e) =>
      assert false;
      r := Err(e);
  }
}
