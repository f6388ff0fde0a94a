# Kaleidoscope front end: lexer, AST and parser in Dafny

This project models the front end of a small Kaleidoscope compiler written in C++. It has three parts.

- **The lexer** (`Lexer`) reads a character stream one look-ahead character at a time and classifies the next token. A token is one of:
  - end of input (`TOK_EOF`);
  - the keywords `def` and `extern`;
  - an identifier;
  - a number;
  - any other single character, as its own code.

  The lexer skips whitespace and `#` comments. It also owns a mutable operator-precedence table, changed with `add_op` and read with `get_op_prec`.
- **The AST** has six node kinds: number, variable, binary operation, call, prototype and function.
- **The parser** (`Parser`) is a recursive-descent parser over the lexer:
  - primaries, prototypes and the `def` / `extern` / top-level wrappers;
  - precedence climbing for binary-operator chains, driven by the lexer's table;
  - `handle_*` members that skip one token after a failed parse.

## Layout

| file | module | contents |
|---|---|---|
| `tokens.dfy` | `Tokens` | token codes, character classes, conversion of a token to `char` |
| `lexer_spec.dfy` | `LexerSpec` | the lexer as a pure function `NextTok` on an abstract state `LexState` (unread input, look-ahead, identifier text, number text, current token, operator table) |
| `lexer_facts.dfy` | `LexerFacts` | what one `get_next_tok` does with a given input: whitespace, maximal munch, comments, EOF, single characters, the operator table |
| `lexer.dfy` | `Lexing` | class `Lexer`, with fields updated in place; each method is proved to move `State()` as `NextTok` does |
| `ast.dfy` | `Ast` | the AST datatypes |
| `parser_spec.dfy` | `ParserSpec` | each `parse_*` as a pure function from the lexer state on entry to a result and the lexer state on return; the `parse_binop_rhs` loop is split into one round (`BinopRound`, `Merge`) and the loop over rounds |
| `parser_facts.dfy` | `ParserFacts` | how the argument and parameter loops collect, how `parse_primary` dispatches, and the rounds of the `parse_binop_rhs` loop, for every token stream |
| `parser.dfy` | `Parsing` | class `Parser`, owning a `Lexer`; each method is proved to compute its `ParserSpec` function |
| `parser_examples.dfy` | `ParserExamples` | concrete inputs with the driver's operator table (`>` 10, `+` and `-` 20, `*` 40) |

### Representation choices

- **Input.** The character stream is a `string` read through a position. End of input is `EOF` (-1).
- **Look-ahead.** The function-local `static last_char` becomes the field `lastChar`, which starts as a space.
- **Numbers.** A number is kept as its text (its lexeme), not as a `double`.
- **Failures.** A parse failure is `Fail(d)`. `d` is the diagnostic logged on that path; a null propagated from a nested call carries that call's diagnostic.
- **Conversion to `char`.** The parser converts the `int` token to `char` before looking it up in the table (`Tokens.Narrow`, taking `char` as signed 8-bit). So the negative `TOK_*` codes are looked up as negative characters.
- **The AST.** `Expr` holds the four expression nodes. `Prototype` and `Function` are their own types, and `get_name` is the `name` field. Every node is a datatype value, so each constructor keeps its arguments unchanged and in order, and no tree can be changed after it is built. The left child of a binary node is an `Option<Expr>`, because the parser as written can build one with a null left child (see Findings).
- **Uninitialised fields.** The default constructor leaves `cur_tok_` and `number_val_` uninitialised. The ghost field `primed` records whether `get_next_tok` has run yet. The parser's methods require it, as the driver calls `get_next_tok` before parsing.
- **Dispatch preconditions.** Each `parse_*` member that begins by eating a known token requires that token to be current. This is the condition under which its callers enter it: `(` for `parse_paren_expr`, an identifier for `parse_identifier_expr`, and `def` / `extern` for the wrappers. `parse_number_expr` and `parse_variable_expr` begin by reading the current token's payload. `parse_variable_expr` (src/parser.cpp:22-27) has no caller in the code, so its precondition, an identifier as the current token, has no call site to match. It is required because `identifier_str_` is the text of the current token only while that token is an identifier; otherwise it is the text of an earlier word. It is also the state in which the variable leaf at src/parser.cpp:51-52 is built.

### Where the design document and the code differ

The model follows the code in each case below.

- **Binary chains.** The design document describes `parse_binop_rhs` as absorbing tighter operators into the right-hand side. The code at `src/parser.cpp:134` hands the left-hand side to the recursive call instead (see Findings). `ParserSpec` takes a `Variant`:
  - `AsWritten` follows the code, and the class `Parser` uses it;
  - `Corrected` is the intended algorithm, and its well-formedness is proved.
- **Lexer state.** The design document says the lexer has no state beyond its instance. In the code, the look-ahead is a function-local static, so it is shared by every `Lexer`. The model gives each `Lexer` its own look-ahead.
- **Dotted numbers.** The design document leaves malformed numbers such as `1.2.3` open. The code takes any run of digits and dots as one number token, and so does the model.

## Model

| member | source | states |
|---|---|---|
| Tokens.ReservedCodes | include/lexer.h:7-22 | the five token codes are exactly the integers -5..-1, so they never collide with a character token |
| Tokens.Narrow | src/parser.cpp:114 | converting a token to `char` keeps it modulo 256 and leaves every value in -128..127 unchanged |
| LexerSpec.GetChar | src/lexer.cpp:12 | one `getchar`, the source `Fresh` builds from the unread input: the new look-ahead is EOF exactly when nothing was left unread, and otherwise input is consumed |
| LexerSpec.SkipSpace | src/lexer.cpp:11-13 | the whitespace loop stops at a non-space look-ahead and never adds input |
| LexerSpec.Munch | src/lexer.cpp:18-22 | a run loop stops at a character outside the run; the text only grows, by characters of the run; a run that starts consumes input |
| LexerSpec.SkipToEol | src/lexer.cpp:48-50 | the comment loop stops exactly at a line break or EOF and consumes input while inside the comment |
| LexerSpec.Prec | src/lexer.cpp:76-81 | the precedence of a character in the table is its entry, and -1 when it has none |
| LexerSpec.Keyword | src/lexer.cpp:24-30 | a word is `TOK_DEF` iff it is `def`, `TOK_EXTERN` iff it is `extern`, otherwise `TOK_IDENTIFIER` |
| LexerSpec.NextTok | src/lexer.cpp:8-66 | `get_next_tok` keeps the table; afterwards a word token's text has the documented identifier shape and matches its keyword code, and a number token's text is digits and dots; the identifier text changes only on word tokens and the number only on number tokens; EOF is returned only at end of input; every other token consumes input |
| LexerFacts.LeadingSpaceIgnored | src/lexer.cpp:11-13 | leading whitespace never affects the token: `w + t` lexes as `t` when `w` is all spaces |
| LexerFacts.MunchRun | src/lexer.cpp:18-22 | a run followed by a non-member is collected whole (maximal munch) |
| LexerFacts.IdentifierToken | src/lexer.cpp:16-31 | an identifier-shaped word is one token; `def` / `extern` become keywords, and the identifier text is the word in every case |
| LexerFacts.NumberToken | src/lexer.cpp:34-44 | a run of digits and dots, `1.2.3` included, is one number token and the identifier text is left unchanged |
| LexerFacts.CommentSkipped | src/lexer.cpp:47-55 | a comment ended by a line break is discarded: `#c` + line break + `t` lexes as `t` |
| LexerFacts.CommentLine | src/lexer.cpp:47-51 | skipping a comment stops at the line break that ends it, which becomes the look-ahead |
| LexerFacts.CommentToEnd | src/lexer.cpp:47-59 | a comment that runs to end of input yields `TOK_EOF` |
| LexerFacts.AtEnd | src/lexer.cpp:58-60 | at end of input the token is `TOK_EOF` and nothing else changes |
| LexerFacts.EofIsSticky | src/lexer.cpp:58-60 | once `TOK_EOF` is returned every later call returns it again and changes nothing |
| LexerFacts.SingleCharToken | src/lexer.cpp:63-65 | any other character is its own non-negative token, and exactly that character is consumed |
| LexerFacts.PrecAfterAddOp | src/lexer.cpp:74-81 | after `add_op(c, p)` the precedence of `c` is `p` and every other entry is unchanged |
| LexerFacts.ReservedNotOperator | src/parser.cpp:114-117 | with only non-negative operator characters in the table, every token code converted to `char` has precedence -1 |
| Lexing.Lexer.constructor | include/lexer.h:24-36 | a fresh lexer with an empty identifier, an empty table and a space as look-ahead |
| Lexing.Lexer.ReadChar | src/lexer.cpp:12 | reading one character moves the source exactly as `GetChar` |
| Lexing.Lexer.SkipWhitespace | src/lexer.cpp:11-13 | the loop leaves the source exactly as `SkipSpace` |
| Lexing.Lexer.CollectRun | src/lexer.cpp:17-22 | the do-while loop returns the text and leaves the source exactly as `Munch` |
| Lexing.Lexer.LexWord | src/lexer.cpp:16-31 | an identifier-shaped word is collected as `Munch` does, and the token is `def`, `extern` or identifier according to that text |
| Lexing.Lexer.LexNumber | src/lexer.cpp:34-44 | a run of digits and dots is collected as `Munch` does into the number text, and the token is `TOK_NUMBER` |
| Lexing.Lexer.SkipCommentText | src/lexer.cpp:48-50 | the loop leaves the source exactly as `SkipToEol` |
| Lexing.Lexer.NextToken | src/lexer.cpp:8-66 | `get_next_tok` moves the whole state exactly as `NextTok`, keeps the invariant, and returns the token it stores in `cur_tok_` |
| Lexing.Lexer.CurTok | include/lexer.h:38 | `get_cur_tok` reads the current token without changing anything; a negative token is a reserved code |
| Lexing.Lexer.TokenText | src/lexer.cpp:68-70 | the text of the current word token has identifier shape and matches its code |
| Lexing.Lexer.TokenNumber | src/lexer.cpp:72 | the payload of the current number token is a run of digits and dots |
| Lexing.Lexer.AddOp | src/lexer.cpp:74 | `add_op` overwrites the one table entry and changes nothing else |
| Lexing.Lexer.OpPrec | src/lexer.cpp:76-81 | `get_op_prec` is the table entry, or -1 when the character is absent |
| ParserSpec.ParseNumberExpr | src/parser.cpp:15-20 | a number leaf, a numeral when the state is coherent; input is consumed and the table is kept (that the text is the current payload and one token is eaten is stated by `ParserFacts.PrimaryDispatch`) |
| ParserSpec.ParseVariableExpr | src/parser.cpp:22-27 | a variable leaf, identifier-shaped when the state is coherent; input is consumed and the table is kept (that the name is the current identifier and one token is eaten is stated by `ParserFacts.PlainVariable`) |
| ParserSpec.ParseParenExpr | src/parser.cpp:29-43 | input is consumed, the table is kept, and with the corrected algorithm the result is a complete tree |
| ParserSpec.ParseIdentifierExpr | src/parser.cpp:45-79 | input is consumed, the table is kept, and with the corrected algorithm the variable or call is a complete tree |
| ParserSpec.ParseArgs | src/parser.cpp:59-74 | the arguments handed in stay in front and in order, a successful list stops at `)`, and with the corrected algorithm every argument is a complete tree |
| ParserSpec.ParsePrimary | src/parser.cpp:81-92 | the table is kept; input is consumed on success or whenever the state moves; with the corrected algorithm the result is a complete tree |
| ParserSpec.ParseExpression | src/parser.cpp:98-105 | consumes input on success, keeps the table, and with the corrected algorithm builds only complete trees |
| ParserSpec.ParseBinopRhs | src/parser.cpp:109-144 | below `prec` it returns `lhs` and consumes nothing; at or above it, it consumes input; with the corrected call at line 134 every tree has both children; as written, a `lhs` that has lost a child is never repaired |
| ParserSpec.BinopRound | src/parser.cpp:113-142 | one pass of the `while (true)` loop: it returns `lhs` exactly when the current operator is below `prec`, a failure otherwise, or goes on with a node for the current operator over less input; as written that node's left child is missing or is `lhs` |
| ParserSpec.Merge | src/parser.cpp:129-142 | the end of a pass: either a failure, or a node for the current operator that goes on; corrected, it is complete when both operands are; as written its left child is missing or is `lhs` (each branch exactly: `ParserFacts.TighterMerge`, `ParserFacts.LooserMerge`) |
| ParserSpec.ParseParams | src/parser.cpp:162-165 | the names handed in stay in front, the first name read follows them, all are identifiers, and the loop stops at the first non-identifier, at once when there is none |
| ParserSpec.ParsePrototype | src/parser.cpp:150-172 | no name gives "expected function name"; no `(` gives "expected '('"; a parameter list not closed by `)` gives "expected ')' in prototype"; it succeeds exactly otherwise, eating the `)`, with the name read first and the parameters the loop collected |
| ParserSpec.ParseDefinition | src/parser.cpp:174-186 | succeeds iff the prototype and then the body parse, and is exactly that prototype with that body |
| ParserSpec.ParseExtern | src/parser.cpp:188-191 | after `extern`, the same cases as a prototype: "expected function name", "expected '('" and "expected ')' in prototype" on their inputs, and otherwise the name and parameters that follow, with the `)` eaten |
| ParserSpec.ParseTopLevelExpr | src/parser.cpp:193-200 | succeeds iff the expression does, and wraps it as a function named `__anony_expr` with no parameters |
| ParserSpec.HandleDefinition | src/parser.cpp:206-213 | handling a definition always consumes input, so a driver loop over it terminates |
| ParserSpec.HandleExtern | src/parser.cpp:215-222 | handling an `extern` always consumes input |
| ParserSpec.HandleTopLevelExpression | src/parser.cpp:224-231 | handling a top-level expression consumes input unless the input is already at its end |
| ParserFacts.ArgsAccumulate | src/parser.cpp:59-74 | the argument loop started from any list gives the loop started from the empty list with that list in front, failures included |
| ParserFacts.ArgsInSourceOrder | src/parser.cpp:59-74 | the first expression parsed is the first argument, and after a `,` the rest are those of the next round; a failed expression is returned; anything but `)` or `,` after an argument is "expected ')' or ','" |
| ParserFacts.PrimaryDispatch | src/parser.cpp:81-92 | an identifier, a number and `(` go to their parsers; a number leaf eats one token; any other token is "unknown token" and consumes nothing |
| ParserFacts.ParenExprCases | src/parser.cpp:29-43 | a failed inner expression is returned; one not followed by `)` is "expected ')'"; otherwise the result is the inner expression itself and the `)` is eaten |
| ParserFacts.PlainVariable | src/parser.cpp:45-53 | an identifier not followed by `(` is a reference to the variable with that identifier's name, and only the identifier is eaten |
| ParserFacts.EmptyCall | src/parser.cpp:56-78 | `f()` is a call of `f` with no arguments, the `)` eaten |
| ParserFacts.CallArguments | src/parser.cpp:56-78 | a call succeeds exactly when its argument loop does; it is named by the identifier read before `(`, its arguments are those the loop collected, and the `)` is eaten; a failure of the loop is returned |
| ParserFacts.ParamsAccumulate | src/parser.cpp:162-165 | the parameter loop started from any list gives the names collected from nothing with that list in front |
| ParserFacts.ParamsInSourceOrder | src/parser.cpp:162-165 | the parameters are the identifier read first followed by those read after it |
| ParserFacts.ContinueStep | src/parser.cpp:113-142 | after a pass that goes on, the loop continues from that pass's node and state |
| ParserFacts.PassMerges | src/parser.cpp:121-127 | a pass at or above `prec` eats the operator and parses a primary; a failed primary is returned |
| ParserFacts.TighterMerge | src/parser.cpp:129-142 | when the next operator binds tighter, the recursive call at one more than the current precedence supplies the right child; as written it is handed `lhs` and the node has no left child, corrected it is handed the right operand and the node keeps `lhs` |
| ParserFacts.LooserMerge | src/parser.cpp:133-142 | when the next operator does not bind tighter, the node is `lhs op rhs` with both operands in order, and nothing more is read |
| ParserFacts.LooserPass | src/parser.cpp:113-142 | a pass over any primary not followed by a tighter operator: the loop goes on from `lhs op rhs` and the state after the primary, so operators of equal or falling precedence group to the left |
| ParserFacts.TighterRound | src/parser.cpp:129-142 | as written, a pass that meets a tighter operator goes on with a node without a left child |
| ParserFacts.TighterBreaksTree | src/parser.cpp:134 | as written, whenever a pass meets a tighter operator after its right operand, the whole result of the loop, if any, lacks a child |
| Parsing.Parser.constructor | include/parser.h:10-14 | the parser's only state is a fresh lexer over the input |
| Parsing.Parser.ParseNumberExpr | src/parser.cpp:15-20 | computes `ParseNumberExpr` and leaves the lexer in its state |
| Parsing.Parser.ParseVariableExpr | src/parser.cpp:22-27 | computes `ParseVariableExpr` and leaves the lexer in its state |
| Parsing.Parser.ParseParenExpr | src/parser.cpp:29-43 | computes `ParseParenExpr` and leaves the lexer in its state |
| Parsing.Parser.ParseIdentifierExpr | src/parser.cpp:45-79 | computes `ParseIdentifierExpr`, its argument loop included, and leaves the lexer in its state |
| Parsing.Parser.ParsePrimary | src/parser.cpp:81-92 | computes `ParsePrimary` and leaves the lexer in its state |
| Parsing.Parser.ParseExpression | src/parser.cpp:98-105 | computes `ParseExpression` and leaves the lexer in its state |
| Parsing.Parser.ParseBinopRhs | src/parser.cpp:109-144 | computes `ParseBinopRhs` as written, the `lhs` handed at line 134 included, and leaves the lexer in its state |
| Parsing.Parser.ParsePrototype | src/parser.cpp:150-172 | computes `ParsePrototype`, its parameter loop included, and leaves the lexer in its state |
| Parsing.Parser.ParseDefinition | src/parser.cpp:174-186 | computes `ParseDefinition` and leaves the lexer in its state |
| Parsing.Parser.ParseExtern | src/parser.cpp:188-191 | computes `ParseExtern` and leaves the lexer in its state |
| Parsing.Parser.ParseTopLevelExpr | src/parser.cpp:193-200 | computes `ParseTopLevelExpr` and leaves the lexer in its state |
| Parsing.Parser.HandleDefinition | src/parser.cpp:206-213 | skips exactly one token after a failed definition and none after a successful one |
| Parsing.Parser.HandleExtern | src/parser.cpp:215-222 | skips exactly one token after a failed `extern` and none after a successful one |
| Parsing.Parser.HandleTopLevelExpression | src/parser.cpp:224-231 | skips exactly one token after a failed expression and none after a successful one |
| ParserExamples.BinopLeft | src/parser.cpp:113-142 | the pass of `ParserFacts.LooserPass` when the right operand is a number token: `lhs` is extended with that number as its right child and the loop continues |
| ParserExamples.TighterRoundCorrected | src/parser.cpp:113-142 | a pass over an operator and a number when the next operator binds tighter, with the right operand handed to the recursive call: the node keeps `lhs` on the left and the recursive result on the right |
| ParserExamples.BinopTighterCorrected | src/parser.cpp:113-142 | the loop then goes on from that node |
| ParserExamples.CommentThenNumber | src/lexer.cpp:47-55 | `# c`, a line break, then `1` lexes as the number `1` |
| ParserExamples.DottedNumber | src/lexer.cpp:34-44 | `1.2.3` is one number token |
| ParserExamples.PlusTimesAsWritten | src/parser.cpp:129-142 | as written, `1+2*3` gives `+` with no left child over `1*3` |
| ParserExamples.PlusTimesCorrected | src/parser.cpp:129-142 | with the right operand handed on, `1+2*3` gives `1+(2*3)` |
| ParserExamples.LeftGroupedTree | src/parser.cpp:129-142 | `1 o 2 p 3` with `p` binding no tighter than `o` gives `(1 o 2) p 3` |
| ParserExamples.MinusIsLeftAssociative | src/parser.cpp:129-142 | `1-2-3` gives `(1-2)-3` |
| ParserExamples.TimesPlusGroupsLeft | src/parser.cpp:129-142 | `1*2+3` gives `(1*2)+3` |
| ParserExamples.PrototypeWithoutCommas | src/parser.cpp:162-171 | `f(a b)` is the prototype `f` with parameters `a`, `b` |
| ParserExamples.PrototypeWithCommaFails | src/parser.cpp:163-168 | `f(a, b)` fails with "expected ')' in prototype" |

## Left out

- Floating point: `strtod` is not modelled. A number token keeps its text.
- I/O: `getchar` becomes a finite `string` read through a position. Bytes are modelled as Dafny characters, and the single-character token is the character's code.
- Locale: `isspace`, `isalpha` and `isdigit` follow the C locale (ASCII).
- The look-ahead's sharing: the look-ahead is a `static` local shared by every `Lexer` in the process. Here it belongs to one `Lexer`.
- Console output: the messages printed by the `handle_*` members and by the error helpers. A failure carries its diagnostic instead.
- Code generation: the `gen_ir` members (`src/AST.cpp`) and the error helpers (`src/error.cpp`) are not part of this model.
- The interactive drivers: the read loops in `test/test_lexer.cpp` and `test/test_parser.cpp` are not part of this model. Their operator table and the first `get_next_tok` are used by the examples.
- `char` signedness: the conversion of a token to `char` assumes a signed 8-bit `char`.
- Parsing.Parser.ParseBinopRhs: `cur_prec + 1` is not wrapped at 32 bits; precedences are unbounded integers.
- Lexing.Lexer.TokenNumber: returns the number's text, not the `double` that `get_tok_value<double>` returns.

## Findings

| source | as written | input that shows it | evidently intended | confidence | as-written member | corrected member |
|---|---|---|---|---|---|---|
| src/parser.cpp:134 | when the next operator binds tighter, the recursive call is handed `std::move(lhs)`, so the primary just parsed is dropped and the node built at line 141 gets a null left child | `1+2*3` with `+` at 20 and `*` at 40 gives `+` with no left child over `1*3` | hand on the right operand, and build the node from `lhs` and the extended right operand, giving `1+(2*3)` | not executed | ParserExamples.PlusTimesAsWritten | ParserExamples.PlusTimesCorrected |

The corrected algorithm is `ParserSpec.ParseBinopRhs` with `Corrected`. Its contract proves that every tree it builds has both children. The defect is not limited to `1+2*3`: `ParserFacts.TighterBreaksTree` proves that, as written, every input on which a pass meets a tighter operator after its right operand parses, if at all, to a tree with a missing child. The class `Parser` keeps the code as written.
