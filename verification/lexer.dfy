/**
 * The lexer: whitespace is removed first, then the whitespace-free string is
 * scanned left to right with one cursor. Digit runs (with any number of dots)
 * become NUMBER tokens, letter-led alphanumeric runs VARIABLE tokens, and each
 * of `+ - * / ( )` a one-character token. Any other character at the start of
 * a token aborts the scan.
 */
module Lexer {
  import opened Wrappers
  import opened Types

  /** The characters of JavaScript's `\s` class. */
  predicate IsWhitespace(c: char) {
    || c == ' ' || c == '\t' || c == '\n' || c == '\r' || c == '\U{000B}' || c == '\U{000C}'
    || c == '\U{00A0}' || c == '\U{1680}' || ('\U{2000}' <= c <= '\U{200A}')
    || c == '\U{2028}' || c == '\U{2029}' || c == '\U{202F}' || c == '\U{205F}'
    || c == '\U{3000}' || c == '\U{FEFF}'
  }

  predicate IsDigit(c: char) { '0' <= c <= '9' }
  predicate IsLetter(c: char) { 'a' <= c <= 'z' || 'A' <= c <= 'Z' }
  predicate IsAlnum(c: char) { IsDigit(c) || IsLetter(c) }
  predicate IsNumberChar(c: char) { IsDigit(c) || c == '.' }
  predicate IsOperatorChar(c: char) { c == '+' || c == '-' || c == '*' || c == '/' }

  /** The characters that may begin a token. */
  predicate StartsToken(c: char) {
    IsDigit(c) || IsLetter(c) || IsOperatorChar(c) || c == '(' || c == ')'
  }

  /**
   * The input with every whitespace character removed (`replace(/\s+/g, '')`):
   * no whitespace survives, and the result is never longer.
   */
  function Strip(s: string): (r: string)
    ensures |r| <= |s|
    ensures forall k :: 0 <= k < |r| ==> !IsWhitespace(r[k])
  {
    if s == [] then []
    else if IsWhitespace(s[0]) then Strip(s[1..])
    else [s[0]] + Strip(s[1..])
  }

  /** Stripping distributes over concatenation. */
  lemma {:induction false} StripConcat(a: string, b: string)
    ensures Strip(a + b) == Strip(a) + Strip(b)
  {
    if a != [] {
      assert (a + b)[1..] == a[1..] + b;
      StripConcat(a[1..], b);
    } else {
      assert a + b == b;
    }
  }

  /** A string without whitespace is left unchanged. */
  lemma {:induction false} StripIdentity(s: string)
    requires forall k :: 0 <= k < |s| ==> !IsWhitespace(s[k])
    ensures Strip(s) == s
  {
    if s != [] {
      StripIdentity(s[1..]);
      assert [s[0]] + s[1..] == s;
    }
  }

  /** The shape of each kind's lexeme. */
  predicate WellFormed(t: Token) {
    var v := t.value;
    match t.kind
    case NUMBER => |v| > 0 && IsDigit(v[0]) && forall k :: 0 <= k < |v| ==> IsNumberChar(v[k])
    case VARIABLE => |v| > 0 && IsLetter(v[0]) && forall k :: 0 <= k < |v| ==> IsAlnum(v[k])
    case OPERATOR => |v| == 1 && IsOperatorChar(v[0])
    case LPAREN => v == "("
    case RPAREN => v == ")"
  }

  /** Whether a run of the given kind would take character `c` too. */
  predicate Continues(kind: TokenKind, c: char) {
    match kind
    case NUMBER => IsNumberChar(c)
    case VARIABLE => IsAlnum(c)
    case _ => false
  }

  /** The token is a longest run: the character after it cannot extend it. */
  predicate Maximal(s: string, t: Token) {
    var e := t.position + |t.value|;
    e < |s| ==> !Continues(t.kind, s[e])
  }

  /** The token values concatenated in order. */
  function Lexemes(ts: seq<Token>): string {
    if ts == [] then "" else Lexemes(ts[..|ts| - 1]) + ts[|ts| - 1].value
  }

  /** Each token is well formed, maximal in `s`, and positioned at the offset
      where its lexeme starts in the concatenation. */
  predicate ValidIn(s: string, ts: seq<Token>) {
    forall k | 0 <= k < |ts| :: ValidAt(s, ts, k)
  }

  predicate ValidAt(s: string, ts: seq<Token>, k: nat)
    requires k < |ts|
  {
    ts[k].position == |Lexemes(ts[..k])| && WellFormed(ts[k]) && Maximal(s, ts[k])
  }

  /** `ts` is a tokenization of the whole of `s`. */
  predicate Tokenization(s: string, ts: seq<Token>) {
    Lexemes(ts) == s && ValidIn(s, ts)
  }

  /** Some token sequence tokenizes all of `s`. */
  ghost predicate Tokenizable(s: string) {
    exists ts :: Tokenization(s, ts)
  }

  /** Scanning `s` stops at `p`: everything before `p` tokenizes, and the
      character at `p` cannot start a token. */
  ghost predicate StopsAt(s: string, p: nat) {
    p < |s| && !StartsToken(s[p]) && exists ts :: TokenizesUpTo(s, ts, p)
  }

  /** `ts` tokenizes the first `p` characters of `s`. */
  predicate TokenizesUpTo(s: string, ts: seq<Token>, p: nat) {
    p <= |s| && Lexemes(ts) == s[..p] && ValidIn(s, ts)
  }

  lemma {:induction false} LexemesSplit(ts: seq<Token>, k: nat)
    requires k <= |ts|
    ensures Lexemes(ts) == Lexemes(ts[..k]) + Lexemes(ts[k..])
    decreases |ts|
  {
    if k == |ts| {
      assert ts[..k] == ts;
      assert ts[k..] == [];
    } else {
      var init := ts[..|ts| - 1];
      LexemesSplit(init, k);
      assert init[..k] == ts[..k];
      assert ts[k..][..|ts[k..]| - 1] == init[k..];
    }
  }

  lemma LexemesSnoc(ts: seq<Token>, t: Token)
    ensures Lexemes(ts + [t]) == Lexemes(ts) + t.value
  {
    assert (ts + [t])[..|ts|] == ts;
  }

  /** Within a tokenization, each token's value is the slice of `s` at its position. */
  lemma TokenText(s: string, ts: seq<Token>, k: nat)
    requires ValidIn(s, ts) && k < |ts|
    requires |Lexemes(ts)| <= |s| && s[..|Lexemes(ts)|] == Lexemes(ts)
    ensures ts[k].position + |ts[k].value| <= |s|
    ensures s[ts[k].position .. ts[k].position + |ts[k].value|] == ts[k].value
  {
    assert ValidAt(s, ts, k);
    var p, v := ts[k].position, ts[k].value;
    LexemesSplit(ts, k + 1);
    assert ts[..k + 1][..k] == ts[..k];
    var pre, rest := Lexemes(ts[..k]), Lexemes(ts[k + 1..]);
    assert Lexemes(ts[..k + 1]) == pre + v;
    assert Lexemes(ts) == pre + v + rest;
    assert |pre| == p;
    assert Lexemes(ts)[p .. p + |v|] == v;
    assert s[p .. p + |v|] == s[..|Lexemes(ts)|][p .. p + |v|];
  }

  /** Positions are strictly increasing. */
  lemma PositionsIncrease(s: string, ts: seq<Token>)
    requires ValidIn(s, ts)
    ensures forall j, k :: 0 <= j < k < |ts| ==> ts[j].position < ts[k].position
  {
    forall j, k | 0 <= j < k < |ts|
      ensures ts[j].position < ts[k].position
    {
      assert ValidAt(s, ts, j) && ValidAt(s, ts, k);
      var pre := ts[..k];
      LexemesSplit(pre, j + 1);
      assert pre[..j + 1] == ts[..j + 1];
      assert ts[..j + 1][..j] == ts[..j];
      assert Lexemes(ts[..j + 1]) == Lexemes(ts[..j]) + ts[j].value;
    }
  }

  /** A maximal token is at least as long as any same-kind token starting at
      the same offset. */
  lemma NotLonger(s: string, t: Token, u: Token)
    requires t.position == u.position && t.kind == u.kind
    requires WellFormed(t) && WellFormed(u) && Maximal(s, t)
    requires t.position + |t.value| <= |s| && s[t.position .. t.position + |t.value|] == t.value
    requires u.position + |u.value| <= |s| && s[u.position .. u.position + |u.value|] == u.value
    ensures |u.value| <= |t.value|
  {
    var p := t.position;
    assert |t.value| < |u.value| ==> s[p + |t.value|] == u.value[|t.value|];
    assert |t.value| < |u.value| ==> Continues(u.kind, u.value[|t.value|]);
  }

  /** Two well-formed maximal tokens starting at the same offset of `s` are equal. */
  lemma TokenDetermined(s: string, t: Token, u: Token)
    requires t.position == u.position
    requires WellFormed(t) && WellFormed(u) && Maximal(s, t) && Maximal(s, u)
    requires t.position + |t.value| <= |s| && s[t.position .. t.position + |t.value|] == t.value
    requires u.position + |u.value| <= |s| && s[u.position .. u.position + |u.value|] == u.value
    ensures t == u
  {
    var p := t.position;
    assert t.value[0] == s[p] == u.value[0];
    assert t.kind == u.kind;
    NotLonger(s, t, u);
    NotLonger(s, u, t);
  }

  /** Two token sequences that are both valid in `s` and spell prefixes of `s`
      agree on their common length. */
  lemma {:induction false} SamePrefix(s: string, a: seq<Token>, b: seq<Token>, m: nat)
    requires ValidIn(s, a) && ValidIn(s, b)
    requires |Lexemes(a)| <= |s| && s[..|Lexemes(a)|] == Lexemes(a)
    requires |Lexemes(b)| <= |s| && s[..|Lexemes(b)|] == Lexemes(b)
    requires m <= |a| && m <= |b|
    ensures forall k :: 0 <= k < m ==> a[k] == b[k]
  {
    if m > 0 {
      SamePrefix(s, a, b, m - 1);
      assert a[..m - 1] == b[..m - 1];
      assert ValidAt(s, a, m - 1) && ValidAt(s, b, m - 1);
      TokenText(s, a, m - 1);
      TokenText(s, b, m - 1);
      TokenDetermined(s, a[m - 1], b[m - 1]);
    }
  }

  /** A string has at most one tokenization. */
  lemma TokenizationUnique(s: string, a: seq<Token>, b: seq<Token>)
    requires Tokenization(s, a) && Tokenization(s, b)
    ensures a == b
  {
    assert s[..|s|] == s;
    if |a| <= |b| {
      SamePrefix(s, a, b, |a|);
      assert a == b[..|a|];
      NoTokensBeyond(s, a, b);
    } else {
      SamePrefix(s, b, a, |b|);
      assert b == a[..|b|];
      NoTokensBeyond(s, b, a);
    }
  }

  /** If `a` already spells all of `s` and is a prefix of `b`, `b` adds nothing. */
  lemma NoTokensBeyond(s: string, a: seq<Token>, b: seq<Token>)
    requires Tokenization(s, a) && Tokenization(s, b)
    requires |a| <= |b| && a == b[..|a|]
    ensures a == b
  {
    assert s[..|s|] == s;
    if |a| < |b| {
      assert ValidAt(s, b, |a|);
      TokenText(s, b, |a|);
      assert false;
    }
    assert b[..|a|] == b;
  }

  /** In any tokenization of `s`, the token after a valid prefix tokenization
      that stops at `p` starts at `p`, so `s[p]` can start a token. */
  lemma NextTokenStarts(s: string, a: seq<Token>, p: nat, b: seq<Token>)
    requires TokenizesUpTo(s, a, p) && p < |s| && Tokenization(s, b)
    ensures StartsToken(s[p])
  {
    assert s[..|s|] == s;
    assert |Lexemes(a)| == p;
    var m := if |a| < |b| then |a| else |b|;
    SamePrefix(s, a, b, m);
    assert a[..m] == b[..m];
    LexemesSplit(a, m);
    LexemesSplit(b, m);
    assert m == |a|;
    assert |a| < |b|;
    assert ValidAt(s, b, |a|);
    TokenText(s, b, |a|);
    assert a[..m] == a;
    assert b[|a|].position == p;
    assert b[|a|].value[0] == s[p];
  }

  /** Whenever the whole string tokenizes, the character at any boundary
      reached by a valid prefix tokenization can start a token. */
  lemma NoTokenizationPastBadStart(s: string, a: seq<Token>, p: nat)
    requires TokenizesUpTo(s, a, p) && p < |s|
    ensures Tokenizable(s) ==> StartsToken(s[p])
  {
    if Tokenizable(s) {
      var b: seq<Token> :| Tokenization(s, b);
      NextTokenStarts(s, a, p, b);
    }
  }

  /** Appending a well-formed maximal token that spells the next slice of `s`. */
  lemma Extend(s: string, ts: seq<Token>, i: nat, t: Token)
    requires TokenizesUpTo(s, ts, i)
    requires t.position == i && WellFormed(t) && Maximal(s, t)
    requires i + |t.value| <= |s| && s[i .. i + |t.value|] == t.value
    ensures TokenizesUpTo(s, ts + [t], i + |t.value|)
  {
    LexemesSnoc(ts, t);
    assert s[..i] + s[i .. i + |t.value|] == s[..i + |t.value|];
    var ts' := ts + [t];
    forall k | 0 <= k < |ts'|
      ensures ValidAt(s, ts', k)
    {
      if k < |ts| {
        assert ValidAt(s, ts, k);
        assert ts'[..k] == ts[..k];
      } else {
        assert ts'[..k] == ts;
      }
    }
  }

  /** Reaching the end of the string with a valid prefix tokenization. */
  lemma Complete(s: string, ts: seq<Token>, i: nat)
    requires TokenizesUpTo(s, ts, i) && i >= |s|
    ensures Tokenization(s, ts) && Tokenizable(s)
  {
    assert s[..i] == s;
    assert Tokenization(s, ts);
  }

  /** Stopping at a character that cannot start a token. */
  lemma Stop(s: string, ts: seq<Token>, i: nat)
    requires TokenizesUpTo(s, ts, i) && i < |s| && !StartsToken(s[i])
    ensures StopsAt(s, i) && !Tokenizable(s)
  {
    NoTokenizationPastBadStart(s, ts, i);
  }

  /** A maximal digit-led run of digits and dots is a well-formed NUMBER token. */
  lemma NumberRun(s: string, i: nat, j: nat)
    requires i < j <= |s| && IsDigit(s[i])
    requires forall k :: i <= k < j ==> IsNumberChar(s[k])
    requires j < |s| ==> !IsNumberChar(s[j])
    ensures WellFormed(Token(NUMBER, s[i..j], i)) && Maximal(s, Token(NUMBER, s[i..j], i))
  {
  }

  /** A maximal letter-led alphanumeric run is a well-formed VARIABLE token. */
  lemma VariableRun(s: string, i: nat, j: nat)
    requires i < j <= |s| && IsLetter(s[i])
    requires forall k :: i <= k < j ==> IsAlnum(s[k])
    requires j < |s| ==> !IsAlnum(s[j])
    ensures WellFormed(Token(VARIABLE, s[i..j], i)) && Maximal(s, Token(VARIABLE, s[i..j], i))
  {
  }

  /** Reads the number that starts at `i`: the longest run of digits and dots. */
  method ScanNumber(s: string, i: nat) returns (numberStr: string)
    requires i < |s| && IsDigit(s[i])
    ensures i + |numberStr| <= |s| && numberStr == s[i .. i + |numberStr|]
    ensures WellFormed(Token(NUMBER, numberStr, i)) && Maximal(s, Token(NUMBER, numberStr, i))
  {
    numberStr := "";
    var j := i;
    while j < |s| && IsNumberChar(s[j])
      invariant i <= j <= |s|
      invariant numberStr == s[i..j]
      invariant forall k :: i <= k < j ==> IsNumberChar(s[k])
    {
      assert s[i..j + 1] == s[i..j] + [s[j]];
      numberStr := numberStr + [s[j]];
      j := j + 1;
    }
    NumberRun(s, i, j);
  }

  /** Reads the variable name that starts at `i`: the longest alphanumeric run. */
  method ScanVariable(s: string, i: nat) returns (varName: string)
    requires i < |s| && IsLetter(s[i])
    ensures i + |varName| <= |s| && varName == s[i .. i + |varName|]
    ensures WellFormed(Token(VARIABLE, varName, i)) && Maximal(s, Token(VARIABLE, varName, i))
  {
    varName := "";
    var j := i;
    while j < |s| && IsAlnum(s[j])
      invariant i <= j <= |s|
      invariant varName == s[i..j]
      invariant forall k :: i <= k < j ==> IsAlnum(s[k])
    {
      assert s[i..j + 1] == s[i..j] + [s[j]];
      varName := varName + [s[j]];
      j := j + 1;
    }
    VariableRun(s, i, j);
  }

  /**
   * Scans the whitespace-free input. On success the tokens are its unique
   * tokenization; otherwise the error names the first character, at a token
   * boundary, that cannot start a token, and no tokenization exists.
   */
  method Tokenize(input: string) returns (r: Result<seq<Token>, Error>)
    ensures r.Ok? ==> Tokenization(Strip(input), r.value)
    ensures r.Ok? <==> Tokenizable(Strip(input))
    ensures r.Err? ==>
      && r.error.UnexpectedCharacter?
      && StopsAt(Strip(input), r.error.position)
      && r.error.character == Strip(input)[r.error.position]
  {
    var tokens: seq<Token> := [];
    var s := Strip(input);
    var i := 0;
    while i < |s|
      invariant TokenizesUpTo(s, tokens, i)
    {
      var c := s[i];
      var token: Token;
      if IsDigit(c) {
        var numberStr := ScanNumber(s, i);
        token := Token(NUMBER, numberStr, i);
      } else if IsLetter(c) {
        var varName := ScanVariable(s, i);
        token := Token(VARIABLE, varName, i);
      } else if IsOperatorChar(c) {
        token := Token(OPERATOR, [c], i);
      } else if c == '(' {
        token := Token(LPAREN, [c], i);
      } else if c == ')' {
        token := Token(RPAREN, [c], i);
      } else {
        Stop(s, tokens, i);
        return Err(UnexpectedCharacter(c, i));
      }
      Extend(s, tokens, i, token);
      tokens := tokens + [token];
      i := i + |token.value|;
    }
    Complete(s, tokens, i);
    return Ok(tokens);
  }
}
