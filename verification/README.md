# expredu compiler core, modelled in Dafny

expredu is a teaching tool for arithmetic expressions. Its compiler turns
text such as `2 * (x + 3)` into tokens, parses them into an abstract syntax
tree, evaluates the tree against variable bindings while recording each
step, and draws the tree as indented text. This project models those four
stages and proves properties of the model.

- `wrappers.dfy` (`Wrappers`): `Option` and `Result` with failure propagation.
  Every `throw` of the source becomes an `Err` value. The module also holds two
  concatenation facts that the proofs share.
- `types.dfy` (`Types`): tokens, tree nodes, evaluation steps and the error
  messages the stages raise.
- `lexer.dfy` (`Lexer`): `tokenize`. The input loses its whitespace. Then it
  is cut into maximal number runs, identifier runs, operators and
  parentheses. `Tokenization` is a declarative description of a correct
  cut. The scanning method is proved to produce it, and it is proved unique.
- `parser.dfy` (`Parser`): the recursive-descent `Parser` class. Its
  `expression`, `term` and `factor` methods advance a cursor over the
  tokens. Each is proved equal to a pure grammar function (`ExpressionAt`,
  `TermAt`, `FactorAt`). `parseFloat` is modelled for the numerals the
  lexer yields.
- `parser_properties.dfy` (`ParserProperties`): facts about those grammar
  functions. Fully parenthesised token sequences parse back to their tree.
  `*` and `/` bind tighter than `+` and `-`, and all four are
  left-associative. The syntax errors arise exactly where the grammar says.
  "Invalid number" never arises from lexed tokens.
- `evaluator.dfy` (`Evaluator`):
  - `evaluate` as a recursive function;
  - `evaluateStepByStep` as a `StepRecorder` class whose `steps` field is
    appended in post-order, proved equal to a pure `Trace`;
  - `nodeToString`.
- `printing.dfy` (`Printing`): the printed form of a tree, stripped and
  lexed, yields tokens that parse back to the same tree.
- `visualizer.dfy` (`Visualizer`): `visualizeAST`. Its loop over the children
  is proved to produce the text of a pure pre-order line list. That list
  has one line per node, each framed by the prefix and ending in the node's
  label.

JavaScript numbers are modelled as exact reals. The printing of a number
(`toString` or template interpolation) is a parameter `show: real -> string`.
Lemmas that need it to read back correctly say so in their preconditions.

## Model

| member | source | states |
|---|---|---|
| Lexer.Tokenize | expredu/src/compiler/lexer.ts:4-82 | On success the tokens are a tokenization of the stripped input: their lexemes concatenate to it, each token is well formed and maximal, and each position is the offset where its lexeme starts. Success holds exactly when such a tokenization exists. On failure the error is "Unexpected character" with the character and its position, where a valid prefix scan stops at a character that cannot start a token. |
| Lexer.TokenizationUnique | expredu/src/compiler/lexer.ts:11-79 | Two tokenizations of the same string are equal, so the scan's longest-run choice leaves no ambiguity. |
| Lexer.PositionsIncrease | expredu/src/compiler/lexer.ts:11-74 | Token positions are strictly increasing. |
| Lexer.Strip | expredu/src/compiler/lexer.ts:9 | No whitespace character survives the strip, and the result is never longer than the input. |
| Lexer.StripConcat | expredu/src/compiler/lexer.ts:9 | Stripping a concatenation strips each part. |
| Lexer.StripIdentity | expredu/src/compiler/lexer.ts:9 | A string without whitespace is unchanged by the strip. |
| Lexer.ScanNumber | expredu/src/compiler/lexer.ts:16-23 | The scanning loop for a digit reads the input slice at that position, and that slice is a well-formed, maximal NUMBER token. |
| Lexer.ScanVariable | expredu/src/compiler/lexer.ts:35-42 | The scanning loop for a letter reads the input slice at that position, and that slice is a well-formed, maximal VARIABLE token. |
| Lexer.NumberRun | expredu/src/compiler/lexer.ts:15-32 | A digit followed by the longest run of digits and dots is a well-formed, maximal NUMBER token. |
| Lexer.VariableRun | expredu/src/compiler/lexer.ts:34-51 | A letter followed by the longest alphanumeric run is a well-formed, maximal VARIABLE token. |
| Lexer.NoTokenizationPastBadStart | expredu/src/compiler/lexer.ts:76-78 | If a valid prefix scan reaches a character that cannot start a token, the string has no tokenization, so the error is justified. |
| Lexer.TokenText | expredu/src/compiler/lexer.ts:15-48 | Each token's value is the slice of the input at its position. |
| Parser.ParseFloat | expredu/src/compiler/parser.ts:85 | A numeral read as a number is never negative, because the lexer's numerals carry no sign. |
| Parser.ParseFloatInteger | expredu/src/compiler/parser.ts:85 | A numeral of digits only reads as its decimal value. That value is defined independently, from the last digit backwards. |
| Parser.ParseFloatDefined | expredu/src/compiler/parser.ts:85-88 | The numeral reader yields a number exactly when the text starts with a digit, or with a dot and then a digit. Otherwise the "Invalid number" branch is taken. |
| Types.Message | expredu/src/compiler/lexer.ts:77 | The text of each thrown error. The "Unexpected character" text quotes the character, and the "Undefined variable" text quotes the name. |
| Types.MessageDeterminesError | expredu/src/compiler/lexer.ts:77 | A message tells which of the seven errors was thrown. An "Unexpected character" message gives back the character and the position, and an "Undefined variable" message gives back the name. |
| Types.NatToStringInjective | expredu/src/compiler/lexer.ts:77 | Different positions print as different decimal texts. |
| Parser.Parser.constructor | expredu/src/compiler/parser.ts:8-10 | A new parser holds the tokens with the cursor at 0. |
| Parser.Parser.Parse | expredu/src/compiler/parser.ts:12-20 | The result is the grammar's parse from the initial cursor. On success every token was consumed; a leftover token is an "Unexpected token" error. |
| Parser.Parser.Expression | expredu/src/compiler/parser.ts:22-41 | The result and the new cursor are those of the grammar's `expression` rule: terms joined left to right by `+` and `-`. |
| Parser.Parser.Term | expredu/src/compiler/parser.ts:43-62 | The result and the new cursor are those of the `term` rule: factors joined left to right by `*` and `/`. |
| Parser.Parser.Factor | expredu/src/compiler/parser.ts:64-118 | The result and the new cursor are those of the `factor` rule: a signed factor, a number, a variable or a parenthesised expression, with each error case of the source. |
| Parser.Parse | expredu/src/compiler/parser.ts:121-124 | The exported `parse` returns the grammar's parse of the whole token list. |
| ParserProperties.RoundTrip | expredu/src/compiler/parser.ts:22-118 | Tokens that spell a tree fully parenthesised, with nothing after it, parse back to that tree. |
| ParserProperties.FactorOfSpelling | expredu/src/compiler/parser.ts:64-118 | A factor read at the start of a spelled tree yields that tree and stops right after its spelling. |
| ParserProperties.Precedence | expredu/src/compiler/parser.ts:22-62 | For `x op1 y op2 z`, the second operator applies first only when it binds strictly tighter. Otherwise the first does, so equal-precedence operators associate to the left. |
| ParserProperties.EmptyInput | expredu/src/compiler/parser.ts:65-69 | An empty token list is an "Unexpected end of expression" error. |
| ParserProperties.DanglingOperator | expredu/src/compiler/parser.ts:65-69 | An operator after a complete expression, with nothing after it, is an "Unexpected end of expression" error. |
| ParserProperties.UnclosedParenthesis | expredu/src/compiler/parser.ts:109-111 | `(` followed by a spelled tree and nothing else is a "Missing closing parenthesis" error. |
| ParserProperties.TrailingToken | expredu/src/compiler/parser.ts:15-17 | A spelled tree followed by a `)` is an "Unexpected token" error at that `)`. |
| ParserProperties.LexedNumeralsRead | expredu/src/compiler/lexer.ts:15-32 | Every NUMBER token the lexer yields reads as a number. |
| ParserProperties.NoInvalidNumber | expredu/src/compiler/parser.ts:85-88 | Parsing the tokens of any tokenization never fails with "Invalid number". |
| Evaluator.UnaryValue | expredu/src/compiler/evaluator.ts:21-25 | Unary `+` leaves the operand's value, and unary `-` yields its additive inverse. |
| Evaluator.BinaryValue | expredu/src/compiler/evaluator.ts:35-49 | The operation fails exactly for `/` with a zero divisor, with "Division by zero". A sum minus the addend gives the augend back. A difference plus the subtrahend gives the minuend back. A product divided by a nonzero factor gives the other factor back. A quotient times the divisor gives the dividend back. |
| Evaluator.Evaluate | expredu/src/compiler/evaluator.ts:6-54 | `evaluate` fails only with "Undefined variable" or "Division by zero". |
| Evaluator.BoundVariables | expredu/src/compiler/evaluator.ts:6-54 | Success implies every free variable is bound. With every free variable bound, the only possible failure is division by zero. Without any division, success is certain. |
| Evaluator.FailureCause | expredu/src/compiler/evaluator.ts:13-45 | A failure is either an undefined free variable missing from the bindings, or a division by zero in a tree that contains a division. |
| Evaluator.LeftErrorFirst | expredu/src/compiler/evaluator.ts:32-33 | The left operand is evaluated first, so its error wins over the right operand's. |
| Evaluator.DivisionByZeroExactly | expredu/src/compiler/evaluator.ts:42-46 | With both operands evaluated, a division fails exactly when the right value is zero; otherwise it yields the quotient. |
| Evaluator.OnlyFreeVariablesMatter | expredu/src/compiler/evaluator.ts:11-16 | Two bindings that agree on the free variables give the same outcome. |
| Evaluator.StepOf | expredu/src/compiler/evaluator.ts:73-127 | The step recorded for a variable or operator node carries that node's value as its result. |
| Evaluator.TraceLength | expredu/src/compiler/evaluator.ts:62-134 | One step is recorded per variable or operator node; numbers record none. |
| Evaluator.TraceInPostOrder | expredu/src/compiler/evaluator.ts:62-134 | The k-th recorded step is the step of the k-th non-number subtree in post-order: operands before operators, left before right. |
| Evaluator.LastStep | expredu/src/compiler/evaluator.ts:59-138 | No steps are recorded exactly when the tree is a number. Otherwise the last step's result is the value of the whole expression. |
| Evaluator.StepRecorder.constructor | expredu/src/compiler/evaluator.ts:59-60 | A recorder starts with the bindings, the number printer and no steps. |
| Evaluator.StepRecorder.EvaluateWithSteps | expredu/src/compiler/evaluator.ts:62-134 | The value equals `evaluate`'s. Steps are only ever appended. On success the appended steps are the tree's post-order trace. |
| Evaluator.StepRecorder.Substitute | expredu/src/compiler/evaluator.ts:67-78 | An unbound name is an "Undefined variable" error. A bound one appends its substitution step and yields its value. |
| Evaluator.StepRecorder.EvaluateUnary | expredu/src/compiler/evaluator.ts:80-91 | The operand's steps are followed by the sign's step. The value equals `evaluate`'s. |
| Evaluator.StepRecorder.EvaluateBinary | expredu/src/compiler/evaluator.ts:93-129 | The left steps, then the right steps, then the operator's step. The value and any error equal `evaluate`'s. |
| Evaluator.EvaluateStepByStep | expredu/src/compiler/evaluator.ts:59-138 | Succeeds exactly when `evaluate` does, with the same error otherwise. On success it returns the post-order trace. |
| Evaluator.NodeToString | expredu/src/compiler/evaluator.ts:143-163 | The text of a binary node opens with `(` and closes with `)`. Printing.StripPrinted and Printing.Reparse show that the text reads back as the same tree. |
| Printing.StripPrinted | expredu/src/compiler/evaluator.ts:143-163 | With whitespace-free numerals and names, stripping the printed tree leaves its compact spelling. |
| Printing.CompactTokenizes | expredu/src/compiler/evaluator.ts:143-163 | The compact spelling of a tree with well-formed numerals and identifier names is the text of its printed pieces, and those pieces, each placed where the previous one ends, tokenize it. |
| Printing.PrintedTokensSpell | expredu/src/compiler/evaluator.ts:143-163 | The placed printed pieces spell the tree fully parenthesised, and there are exactly as many as the spelling needs. |
| Printing.Reparse | expredu/src/compiler/evaluator.ts:143-163 | Printing a tree, tokenizing the text and parsing the tokens gives the same tree back. |
| Printing.PrintedTreeParsesBack | expredu/src/compiler/evaluator.ts:143-163 | The printed form of such a tree is tokenizable, and any tokenization of it parses back to the same tree. |
| Visualizer.Label | expredu/src/compiler/visualizer.ts:22-39 | The first letter of a label tells the node's kind: N for a number, V for a variable, U for a unary operator, B for a binary operator. |
| Visualizer.LabelIdentifiesNode | expredu/src/compiler/visualizer.ts:22-39 | Equal labels belong to nodes of the same kind. A variable's label gives back its name, and an operator's label gives back its sign or operator. |
| Visualizer.Children | expredu/src/compiler/visualizer.ts:42-58 | The children are proper subtrees, and together with the node they account for every node of the tree. |
| Visualizer.VisualizeAST | expredu/src/compiler/visualizer.ts:4-19 | The drawn text is the pre-order line list, each line followed by a newline. |
| Visualizer.SplitLines | expredu/src/compiler/visualizer.ts:8-16 | A node's text is its own line followed by each child's text, drawn with the extended prefix, the last child marked. |
| Visualizer.LinesInPreOrder | expredu/src/compiler/visualizer.ts:4-58 | There is one line per node, in pre-order. Each line starts with the prefix its subtree was given and ends with that node's label. |
| Visualizer.RootLine | expredu/src/compiler/visualizer.ts:4-8 | With the default arguments, the root's line is `└── ` followed by its label. |

## Left out

- The user interface (`App.tsx` and `components/`) is not part of this model.
- JavaScript's IEEE doubles are modelled as exact reals, so the model has no rounding, no overflow to Infinity and no negative zero.
- `parseFloat` is modelled for unsigned decimal numerals, which is what the lexer produces. Signs, exponents, `Infinity` and leading whitespace are not modelled.
- Number-to-text conversion (`toString` and template interpolation) is the parameter `show`, not a model of JavaScript's shortest round-trip formatting.
- The Portuguese description texts of the evaluation steps are the `Description` datatype: which variable was substituted with which value, which sign was applied, or which operator was applied to which operands.
- The `default:` branches for unknown node types and operators cannot be reached once nodes and operators are datatypes, so they are not modelled.
- Evaluator.StepRecorder.EvaluateWithSteps: drops the `expression` argument of `evaluateWithSteps`. The argument is computed by `nodeToString` on every call but never read.
- Visualizer.VisualizeAST: keeps `depth` as a parameter, but, as in the source, it has no effect.
- The lexer's unused `position` variable is not modelled.
- The lexer's comment says the input is converted to lowercase, but the code does not convert it. The model follows the code.
- The lexer's comment says a number takes at most one decimal point. The code takes every digit and dot, so `1.2.3` is one NUMBER token, and `parseFloat` reads only its `1.2`. The model follows the code: the lexer takes the whole run and `ParseFloat` stops at the second dot.
- Strings are modelled as sequences of Unicode scalar values, while JavaScript strings are sequences of UTF-16 code units. For a character outside the Basic Multilingual Plane (for example the input `2😀`), the source's "Unexpected character" message quotes only the first code unit, a lone surrogate. The model quotes the whole character. Positions agree, because every character that can start or continue a token is ASCII.
- Parser.ParseFloatInteger: gives the value read only for numerals without a dot. For a numeral with a fraction, the model states only that a value exists and that it is not negative. JavaScript rounds a decimal fraction to the nearest double, so an exact real value would not be what the source computes.
- A JavaScript `in` test also accepts names inherited from `Object.prototype` (for example `toString`). Bindings are modelled as a map, so only names bound explicitly count as defined.
- ParserProperties.Precedence: is stated for three factors, not for arbitrary expressions. Nesting then follows from the grammar functions themselves.
- ParserProperties.RoundTrip: leaves token positions free, because the parser reads positions only into error messages.
- The parser's cursor after a failed parse is not specified, because the source discards the parser after an exception.
