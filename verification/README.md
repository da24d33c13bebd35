# A verified model of a Lox expression front end

This project models the three stages of a small Lox front end written in Rust and proves properties of them:

- **Scanner** (`src/scanner.rs`). A cursor over the source bytes. It pushes tokens and errors onto two vectors and ends with one `EndOfFile` token.
- **Expression parser** (`src/parser.rs`). Recursive descent over the token vector with a shared cursor. It has the levels equality, comparison, term, factor, unary and primary.
- **Evaluator** (`src/interpreter.rs`). Structural recursion from an expression tree to a value, failing with a type error.

The model follows each file's own form:

- **Scanner and parser** are imperative in the source, so each is a Dafny `class` with the source's fields and methods.
  - `Scanner.Scanner` has `start`, `current`, `line`, `errors` and `tokens`.
  - `Parser.Parser` has `tokens` and `current`.
- **Pure specification functions** say what each of those methods must do:
  - `LexStep` is one pass of the scanning loop.
  - `ScanFrom` and `Scan` are the whole scan.
  - For the parser, `Parsed` says a tree of a given level was built from exactly the consumed tokens. It is defined through `Shaped`, `WellFormed` and `Flatten`.
  - `Complete` adds that the token after the tree would extend no level up to the method's own. Each parsing method returns `Ok` of exactly such a tree when one exists, and only such a tree.
- **Every method is proved against those functions.** The properties are then proved about the functions, in `scanner_properties.dfy` and `parser_properties.dfy`.
- **The evaluator is pure**, so it is modelled as functions. Its properties are in `interpreter_properties.dfy`.

Module layout:

- `bytes.dfy` holds the byte type, the ASCII classes and well-formed UTF-8.
- `floats.dfy` is a stand-in for `f64`.
- `tokens.dfy` holds `TokenType`, `Token` and the keyword table.
- `wrappers.dfy` holds `Option` and `Result`.
- `scanner.dfy`, `parser.dfy` and `interpreter.dfy` hold the three stages, each with a `*_properties.dfy` file beside it.

Offsets follow the source exactly:

- `current` is the byte being processed.
- `Peek` reads `current + 1` and `PeekNext` reads `current + 2`.
- The scanner's `r#match` consumes the byte after the cursor.
- The parser's `r#match` tests the token at the cursor and consumes it.

Behaviour modelled as the code has it:

- **Unary operators.** The parser's `unary` consumes `!=` and `==` as prefix operators, not `!` and `-` (src/parser.rs:173). As a result, a unary node built by the parser always reaches the evaluator's `unreachable!` once its operand evaluates (`InterpreterProperties.ParsedUnaryUnreachable`).
- **Line of an unterminated string.** The error carries the line reached at the end of the string scan, not the line the string started on (src/scanner.rs:251-254).
- **Crashes.** A lone `"` as the last byte makes `handle_string` slice `source[start + 1..current]` with `start == current`, which crashes in Rust. The model has it as the outcome `SlicePanic` rather than an error value.
- **Cursor bound.** The cursor does not always stay within `source.len()`: a string that runs to the last byte leaves it at `len + 1` (`ScannerProperties.CursorStep`). The loop still ends, because its test is `current < len`.
- **Error names.** The encoding error is the source's `Utf8`, spelled as the source spells it. The source has no separate invalid-number error.

## Model

| member | source | states |
|---|---|---|
| Tokens.KeywordTable | src/scanner.rs:3-20 | every word of the sixteen-entry table maps to a keyword token |
| Tokens.KeywordsDistinct | src/scanner.rs:3-20 | each keyword token gives its word back, so no two words share a token |
| Bytes.SequenceLength | src/scanner.rs:255-258 | the length of the character a lead byte starts, as `from_utf8` checks it: at most four bytes; one byte exactly for ASCII; a continuation byte starts none |
| Bytes.CodePointRange | src/scanner.rs:255-258 | the lead-byte lengths and second-byte limits admit each scalar value in its shortest form only: no overlong form, no surrogate, nothing above U+10FFFF |
| Bytes.AsciiIsUtf8 | src/scanner.rs:199-206 | ASCII bytes are well-formed UTF-8, so `from_utf8(..).unwrap()` on an identifier never fails |
| Bytes.Utf8Concat | src/interpreter.rs:105-106 | concatenating two well-formed texts gives well-formed text |
| Bytes.AsciiText | src/scanner.rs:199-206 | the text of an ASCII lexeme has one character per byte, with the same code |
| Scanner.RunEnd | src/scanner.rs:193-198 | the end of the run of bytes a `peek` loop advances over stays inside the source |
| Scanner.RunEndMaximal | src/scanner.rs:193-198 | that run is maximal: every byte up to its end qualifies and the next one does not |
| Scanner.DigitsBelow | src/scanner.rs:219-232 | `n` digits have a value below `10^n` |
| Scanner.LexemeValue | src/scanner.rs:231-232 | the stand-in for `parse::<f64>`: the value lies between the digits before the `.` and one more than them |
| Scanner.DotIndex | src/scanner.rs:219-223 | the first `.` of a lexeme, or its length when there is none; no `.` comes before it |
| Scanner.CloseQuote | src/scanner.rs:238-250 | where the string loop stops: the first quote after the opening one, or the last byte |
| Scanner.SingleCharKind | src/scanner.rs:109-118 | the ten one-byte tokens: none of their bytes is claimed by another arm of the `match`, and none gives `EndOfFile` |
| Scanner.OperatorStep | src/scanner.rs:119-146 | `!`, `=`, `<`, `>`: the two-byte token and two bytes consumed exactly when `=` follows, else the one-byte token |
| Scanner.SlashStep | src/scanner.rs:147-159 | `/`: with a second `/` a comment that pushes no token; otherwise one `Slash` token and one byte consumed; never an error, same line, the cursor stays in the source |
| Scanner.NumberEnd | src/scanner.rs:211-230 | the last byte of a number lexeme lies inside the source |
| Scanner.NumberStep | src/scanner.rs:211-234 | a number yields no error, keeps the line and moves the cursor forward within the source |
| Scanner.NumberTaken | src/scanner.rs:231-233 | the number lexeme is well-formed UTF-8, so the `Utf8` branch of handle_number cannot be taken |
| Scanner.NumberLexemeAscii | src/scanner.rs:211-231 | the bytes of a number lexeme are ASCII |
| Scanner.IdentifierStep | src/scanner.rs:192-209 | an identifier yields exactly one token, never `EndOfFile`, no error, and moves the cursor forward |
| Scanner.IdentifierKind | src/scanner.rs:199-208 | the keyword token when the table has the text, and only then; otherwise `Identifier` with that text |
| Scanner.IdentifierTaken | src/scanner.rs:199-208 | once the run ends at `e`, the lexeme is ASCII and the token is the keyword or identifier it spells |
| Scanner.IdentLexemeAscii | src/scanner.rs:192-199 | the bytes of an identifier run are ASCII |
| Scanner.StringStep | src/scanner.rs:237-259 | a string pass moves the cursor forward by at most one past the end; its tokens are strings on the pass's final line |
| Scanner.StringEnd | src/scanner.rs:251-259 | the end of handle_string keeps the line; the cursor ends at most one past the source |
| Scanner.LexStep | src/scanner.rs:107-177 | one loop pass moves the cursor forward, never lowers the line, and pushes at most one token, never `EndOfFile`, on the final line |
| Scanner.ScanFrom | src/scanner.rs:106-190 | the loop of scan_tokens from a position: at most one token per remaining byte plus `EndOfFile`; its shape is proved by `ScanFromShape` |
| Scanner.Finish | src/scanner.rs:179-189 | the result is `Ok(tokens)` exactly when no error was recorded, otherwise `Err` with every error; a crash stays a crash |
| Scanner.Scan | src/scanner.rs:71-73 | the whole scan: a successful one has at most one token per byte plus `EndOfFile`; its shape is proved by `ScanShape` |
| Scanner.NewlinesExtend | src/scanner.rs:238-243 | one more byte of a string body adds a line exactly when it is a newline |
| Scanner.Scanner.constructor | src/scanner.rs:96-104 | a fresh scanner is at byte 0 on line 1 with no tokens and no errors |
| Scanner.Scanner.Peek | src/scanner.rs:275-277 | the byte at `current + 1`, if there is one |
| Scanner.Scanner.PeekNext | src/scanner.rs:279-281 | the byte at `current + 2`, if there is one |
| Scanner.Scanner.Advance | src/scanner.rs:262-265 | `current` goes up by one and `start` catches up with it |
| Scanner.Scanner.AddToken | src/scanner.rs:267-273 | pushes the token on the current line, then advances |
| Scanner.Scanner.Match | src/scanner.rs:283-291 | consumes the next byte exactly when it is the given one |
| Scanner.Scanner.HandleOperator | src/scanner.rs:119-146 | the operator branches do exactly what `OperatorStep` says |
| Scanner.Scanner.HandleSlash | src/scanner.rs:147-159 | the `/` branch, with its comment loop, does exactly what `SlashStep` says |
| Scanner.Scanner.HandleIdentifier | src/scanner.rs:192-209 | handle_identifier does exactly what `IdentifierStep` says |
| Scanner.Scanner.AddIdentifier | src/scanner.rs:199-208 | pushes the keyword token the lexeme spells, or `Identifier` with its text, then advances |
| Scanner.Scanner.SkipDigits | src/scanner.rs:212-218 | a digit loop stops at the end of the run of digits |
| Scanner.Scanner.SkipNumber | src/scanner.rs:211-230 | handle_number's loops stop at `NumberEnd` |
| Scanner.Scanner.HandleNumber | src/scanner.rs:211-235 | handle_number does exactly what `NumberStep` says |
| Scanner.Scanner.SkipToQuote | src/scanner.rs:238-250 | the string loop stops at `CloseQuote` and counts the newlines it passes |
| Scanner.Scanner.HandleString | src/scanner.rs:237-260 | handle_string crashes exactly when `StringStep` does, and otherwise does exactly what it says |
| Scanner.Scanner.ScanToken | src/scanner.rs:108-177 | one pass of the loop crashes exactly when `LexStep` does, and otherwise does exactly what it says |
| Scanner.Scanner.ScanTokens | src/scanner.rs:106-190 | the loop, then `EndOfFile` and the verdict: `Finish` of the tokens and errors already held followed by `ScanFrom` from the present cursor and line |
| Scanner.ScanTokens | src/scanner.rs:71-73 | `scan_tokens` on fresh state yields `Scan(content)` |
| ScannerProperties.CloseQuoteFirst | src/scanner.rs:238-250 | no quote lies before the stopping point, which is a quote or the last byte, and equals the start only for the last byte |
| ScannerProperties.CommentStep | src/scanner.rs:147-155 | `//` pushes nothing, keeps the line, and resumes at the next newline (not consumed) or the end |
| ScannerProperties.StringEndClean | src/scanner.rs:251-259 | an error-free end of a string: one token for the bytes between the quotes, and the cursor two past the closing quote |
| ScannerProperties.StringStepOutcome | src/scanner.rs:237-259 | a string crashes exactly when its quote is the last byte; "unterminated" is recorded exactly when no quote follows before the last byte |
| ScannerProperties.StringStepUtf8 | src/scanner.rs:255-258 | a `Utf8` error is recorded exactly when the bytes up to the closing quote are not well-formed |
| ScannerProperties.StringStepToken | src/scanner.rs:237-259 | an error-free string: the token holds exactly the bytes between the first two quotes, and the line grows by the newlines inside |
| ScannerProperties.FractionLexeme | src/scanner.rs:219-230 | digits, `.`, digits is a number lexeme |
| ScannerProperties.WholeLexeme | src/scanner.rs:212-218 | digits alone form a number lexeme without a `.` |
| ScannerProperties.NumberLexeme | src/scanner.rs:211-230 | the bytes taken match the number grammar, no digit follows them, and a fraction is never left behind |
| ScannerProperties.NumberStepSpec | src/scanner.rs:211-234 | a number: the longest lexeme of the grammar, one `Number` token holding its exact value |
| ScannerProperties.IdentifierStepSpec | src/scanner.rs:192-209 | an identifier: the longest run of `[A-Za-z0-9_]`, a keyword token exactly when the table has the text, else `Identifier(text)` |
| ScannerProperties.OperatorDispatch | src/scanner.rs:119-146 | `!`, `=`, `<`, `>` give the two-byte token exactly when `=` follows, consuming two bytes, else one byte |
| ScannerProperties.WhitespaceStep | src/scanner.rs:165-169 | space, `\r` and `\t` push nothing and keep the line; `\n` pushes nothing and adds exactly one line; each consumes one byte |
| ScannerProperties.CursorStep | src/scanner.rs:237-260 | only a string running to the last byte takes the cursor past the end of the source |
| ScannerProperties.ConsLines | src/scanner.rs:179-182 | a token on the next line in front of line-ordered tokens keeps them ordered |
| ScannerProperties.ConsEnds | src/scanner.rs:179-182 | a non-`EndOfFile` token in front keeps `EndOfFile` last and unique |
| ScannerProperties.PrependOrdered | src/scanner.rs:179-182 | one pass's tokens in front of an ordered rest keep it ordered |
| ScannerProperties.ScanFromShape | src/scanner.rs:179-182 | every scan that does not crash ends with exactly one `EndOfFile`, and token lines never decrease |
| ScannerProperties.ScanShape | src/scanner.rs:179-189 | a successful scan's tokens end with the only `EndOfFile`, and every line is at least 1 |
| ScannerProperties.UnexpectedErrors | src/scanner.rs:170-176 | one error per unhandled byte |
| ScannerProperties.UnexpectedStep | src/scanner.rs:170-176 | anywhere in the source, an unhandled byte records one `UnexpectedCharacter` on the current line and the scan goes on at the next byte |
| ScannerProperties.UnexpectedRun | src/scanner.rs:170-176 | a source that is unhandled bytes to its end gives one error per byte and only `EndOfFile` |
| ScannerProperties.UnexpectedExample | src/scanner.rs:170-176 | `@#$` yields three errors in order, all on line 1 |
| ScannerProperties.NumberValueExample | src/scanner.rs:480-499 | the lexemes of the number test, `123.32` and `123.12`, take exactly those values |
| ScannerProperties.DigitValues | src/scanner.rs:480-499 | the digit strings of that test have the decimal values 123, 32 and 12 |
| ScannerProperties.StringSkipsNextByte | src/scanner.rs:255-259 | as written: after `"a"` the scan resumes two bytes past the quote, so the `+` of `"a"+ ` is never scanned |
| ScannerProperties.ClosingQuoteAtEndUnterminated | src/scanner.rs:251-254 | as written: `"a"` at the very end is flagged unterminated although it is closed |
| ScannerProperties.LoneQuotePanics | src/scanner.rs:251-255 | as written: a lone `"` crashes the step and the whole scan |
| ScannerProperties.IntendedStringStepSpec | src/scanner.rs:237-259 | corrected: never crashes, "unterminated" exactly when no closing quote exists, and resumes just after it |
| ScannerProperties.IntendedQuotedA | src/scanner.rs:237-259 | corrected: `"a"` is accepted and the scan resumes at the byte after its closing quote |
| ScannerProperties.IntendedLoneQuote | src/scanner.rs:251-255 | corrected: a lone `"` is an unterminated string, not a crash |
| ScannerProperties.IntendedStringExamples | src/scanner.rs:237-259 | corrected: the three inputs above scan as intended |
| Parser.MatchesPlain | src/parser.rs:226-236 | for kinds without payload, matching a discriminant is plain membership |
| Parser.BinaryLevel | src/parser.rs:111-170 | the level whose loop takes an operator: one of the four binary levels, or `PRIMARY` for a kind no loop takes, never the unary level |
| Parser.OperatorLevel | src/parser.rs:113-161 | the operators of a level are exactly the kinds in its `r#match` list |
| Parser.PlainOps | src/parser.rs:113-161 | the operator lists of the binary levels hold only kinds without payload |
| Parser.OpsLevel | src/parser.rs:226-236 | `r#match` on a level's list consumes exactly that level's operators |
| Parser.Fold | src/parser.rs:113-120 | one loop round turns a left tree, the operator and the next operand into a tree of the level over the joined tokens |
| Parser.Prefix | src/parser.rs:172-177 | a `!=` or `==` and the unary expression after it form a unary tree over the joined tokens |
| Parser.Enclose | src/parser.rs:215-221 | `(`, an expression and `)` form a grouping over all three |
| Parser.FirstToken | src/parser.rs:183-224 | every tree reads back as at least one token, starting with the token `First` names |
| Parser.ParsedStart | src/parser.rs:172-224 | a unary-level tree starts with a literal, `(`, `!=` or `==`; a literal start means the literal alone, `(` a grouping, `!=`/`==` a unary node |
| Parser.ParsedGroup | src/parser.rs:215-221 | a grouping over the tokens ahead ends with `)` and holds a complete expression between the brackets |
| Parser.ParsedPrefix | src/parser.rs:172-177 | a unary node holds a unary-level tree over the tokens after its operator |
| Parser.Base | src/parser.rs:112 | the first operand a level's loop reads lies on the left spine of the tree and is no node of that level |
| Parser.Parent | src/parser.rs:113-120 | the spine node above a spine node, whose left side it is and whose operator belongs to the level |
| Parser.SpinePrefix | src/parser.rs:111-170 | a spine node reads back as a prefix of the tree, followed by an operator of the level unless it is the tree |
| Parser.SpineAt | src/parser.rs:111-170 | the same in token positions: a spine node is a parse from the same start, ended by an operator of the level or by the tree's end |
| Parser.BaseOperand | src/parser.rs:112 | the first operand of a complete parse is a complete parse of the level below |
| Parser.RightOperand | src/parser.rs:113-115 | after a spine node and its operator, the next operand of a complete parse is a complete parse of the level below |
| Parser.PrimaryOwed | src/parser.rs:183-224 | a literal token is a primary tree by itself and the only one starting there; every other primary tree starts with `(` |
| Parser.GroupOwed | src/parser.rs:215-221 | when the expression after `(` returns every complete parse it is owed, it returns the inside of any bracketed tree ahead and stops at its `)` |
| Parser.RightSide | src/parser.rs:113-115 | a binary node of a level holds its operator right after its left side and a tree of the level below after that |
| Parser.FirstOperand | src/parser.rs:112 | an operand that returns every complete parse of the level below starts every complete parse of the level, on its left spine |
| Parser.NextOperand | src/parser.rs:113-120 | such an operand read after a spine node and its operator yields the spine node above it |
| Parser.SpineEnd | src/parser.rs:113-122 | where the loop stops, with no operator of the level ahead, the tree it holds is every complete parse of the level |
| Parser.Parser.constructor | src/parser.rs:75-77 | a fresh parser is at token 0 |
| Parser.Parser.Match | src/parser.rs:226-236 | consumes one token exactly when its discriminant is in the list, and otherwise leaves the cursor |
| Parser.Parser.Expression | src/parser.rs:107-109 | succeeds exactly on a run that has a complete parse, with that tree, stopping right after it: a success is a well-formed tree over exactly the tokens consumed (at least one), followed by no binary operator; and whenever such a tree exists the method returns it and stops where it ends |
| Parser.Parser.Equality | src/parser.rs:111-123 | the same at the equality level: `Ok` exactly with the complete parse of that level when one exists, followed by no binary operator |
| Parser.Parser.Comparison | src/parser.rs:125-142 | the same at the comparison level: `Ok` exactly with the complete parse of that level when one exists, followed by no operator of that level or below |
| Parser.Parser.Term | src/parser.rs:144-156 | the same at the term level: `Ok` exactly with the complete term parse when one exists |
| Parser.Parser.Factor | src/parser.rs:158-170 | the same at the factor level: `Ok` exactly with the complete factor parse when one exists |
| Parser.Parser.FoldLevel | src/parser.rs:111-170 | a binary level's loop folds operands to the left into a tree of that level over exactly the tokens consumed; when a complete parse of the level exists, every round builds the next node of its left spine, so the loop returns that parse and stops where it ends |
| Parser.Parser.Extend | src/parser.rs:113-120 | one loop round consumes the right operand and keeps the loop invariant `Folded`; when the tree so far lies on the spine of a complete parse, the round succeeds and yields the spine node above it |
| Parser.Parser.Operand | src/parser.rs:112-115 | an operand is a tree of the level below over the tokens consumed; when that level has a complete parse, the operand is it |
| Parser.Parser.Unary | src/parser.rs:172-181 | a success is a unary-level tree over exactly the tokens consumed; any unary-level tree over the tokens ahead is what it returns; a literal gives its `Literal`; a token that is no literal, `(`, `!=` or `==` gives `ParseError` and consumes nothing |
| Parser.Parser.Primary | src/parser.rs:183-224 | a literal token gives its `Literal` and consumes one token; any other token but `(` gives `ParseError` and consumes nothing; any primary tree over the tokens ahead is what it returns |
| Parser.Parser.Group | src/parser.rs:215-221 | the inner result is the complete expression parse after `(` when there is one, and an error exactly when there is none; that error passes through; once it succeeds, `MissingRightBracket` exactly when the next token is not `)`, and otherwise a `Grouping` of it over both brackets; a bracketed tree over the tokens ahead is what it returns |
| Parser.Parser.Synchronize | src/parser.rs:79-101 | moves at least one token and never past the end; it stops only where the token before is `;` or the token after next is a statement keyword, or at the end, and every position it passes is neither |
| ParserProperties.LastToken | src/parser.rs:111-224 | every tree reads back as tokens ending with a literal or a `)`, so no parse ends on an operator |
| ParserProperties.ParseChain | src/parser.rs:144-156 | `1 - 2 - 3` parses to `(1 - 2) - 3` and stops at `EndOfFile` |
| ParserProperties.ParseGroup | src/parser.rs:215-221 | `(1)` parses to the grouping of `1` and stops at `EndOfFile` |
| ParserProperties.ParseDangling | src/parser.rs:144-156 | `1 +` fails: no tree ends with `+` |
| ParserProperties.NoEndOfFile | src/parser.rs:183-236 | no tree holds `EndOfFile`, so the parser never consumes it |
| ParserProperties.SingleToken | src/parser.rs:183-214 | a tree read back as one token is that token's literal |
| ParserProperties.OperatorsBelowRank | src/parser.rs:111-170 | with no `(`, `!=` or `==` token, no operator in a tree belongs to a level above the tree's own |
| ParserProperties.Split | src/parser.rs:113-120 | a binary tree's tokens split at its operator |
| ParserProperties.SingleOperator | src/parser.rs:111-170 | the only tree read back as `a op b` is the binary node of the two literals |
| ParserProperties.LiteralLevel | src/parser.rs:183-214 | literal kinds belong to no operator level |
| ParserProperties.ChainRank | src/parser.rs:111-170 | an operator between two literals reads back as a tree of at least its level |
| ParserProperties.LeftFold | src/parser.rs:111-170 | `a op1 b op2 c` with two operators of one level, at any of the four levels, parses only as `(a op1 b) op2 c` |
| ParserProperties.SinglePrefix | src/parser.rs:172-181 | `!=` or `==` before a literal parses only as the unary node |
| ParserProperties.RightNested | src/parser.rs:172-181 | prefix operators nest to the right: `== != a` parses only as `==(!=(a))` |
| Interpreter.Truthy | src/interpreter.rs:12-18 | always a `Bool`, false exactly for `Nil` and `Bool(false)` |
| Interpreter.Equals | src/interpreter.rs:20-28 | always a `Bool`; different kinds are unequal; numbers compare as floats; other values structurally |
| Interpreter.FromLiteral | src/interpreter.rs:38-45 | a literal token gives a value exactly when it is `Number`, `String`, `True`, `False` or `Nil`; any other token reaches `unreachable!` |
| Interpreter.OperateUnary | src/interpreter.rs:47-66 | `unreachable!` exactly for operators other than `-` and `!`; `!` always gives a value |
| Interpreter.Operate | src/interpreter.rs:67-158 | `unreachable!` exactly for operators outside the ten the binary case handles |
| Interpreter.Interpret | src/interpreter.rs:36-161 | only literal kinds, unary `-`/`!` and the ten binary operators yield values; `TypeSound` says exactly when evaluation succeeds |
| InterpreterProperties.TokenOf | src/interpreter.rs:38-43 | every value is written by a literal token |
| InterpreterProperties.LiteralOfValue | src/interpreter.rs:38-43 | each value is what its literal token evaluates to |
| InterpreterProperties.LiteralValue | src/interpreter.rs:38-44 | a literal evaluates exactly when its token is `Number`, `String`, `True`, `False` or `Nil`, to the value it writes |
| InterpreterProperties.Ungroup | src/interpreter.rs:46 | the tree without groupings has no grouping at its root |
| InterpreterProperties.UngroupSameValue | src/interpreter.rs:46 | brackets never change a result |
| InterpreterProperties.Negate | src/interpreter.rs:50-56 | unary `-` succeeds exactly on a number and negates it, so negating twice gives the number back; other values give `Type`; an operand error passes through |
| InterpreterProperties.Not | src/interpreter.rs:57-63 | `!` never gives `Type`: it negates the truthiness; an operand error passes through |
| InterpreterProperties.NotTwice | src/interpreter.rs:57-63 | `!!` gives the truthiness of the value |
| InterpreterProperties.NumericOperands | src/interpreter.rs:75-146 | `-`, `/`, `*` and the comparisons succeed exactly on two numbers, else `Type`; arithmetic gives a number, comparison a `Bool` |
| InterpreterProperties.ComparisonsAgree | src/interpreter.rs:111-146 | `a > b` is `b < a`, `a >= b` is `b <= a`, and `<=` is `<` or `==` |
| InterpreterProperties.PlusOperands | src/interpreter.rs:102-110 | `+` succeeds exactly on two numbers or two strings; strings concatenate with the left text first |
| InterpreterProperties.EqualityOperands | src/interpreter.rs:147-153 | `==` and `!=` never fail, always give a `Bool`, and `!=` is the negation of `==` |
| InterpreterProperties.EqualsSymmetric | src/interpreter.rs:20-28 | `equals` is symmetric, and reflexive away from numbers |
| InterpreterProperties.LeftFirst | src/interpreter.rs:72-73 | the left operand's error wins, then the right's; only then does the operator run |
| InterpreterProperties.OperateTyped | src/interpreter.rs:74-157 | an operator fails exactly where its typing rule has no result type, and otherwise gives a value of that type |
| InterpreterProperties.TypeSound | src/interpreter.rs:36-161 | an expression evaluates exactly when its static type exists, and then to a value of that type |
| InterpreterProperties.StringsStayUtf8 | src/interpreter.rs:102-110 | from well-formed string literals, every string result is well-formed text |
| InterpreterProperties.ParsedHandled | src/interpreter.rs:36-161 | a tree the parser builds without unary nodes never reaches an `unreachable!` |
| InterpreterProperties.ParsedUnaryUnreachable | src/interpreter.rs:47-66 | a parser-built unary node (`!=`/`==`) reaches `unreachable!` once its operand evaluates |

## Left out

- `src/main.rs`: the command line, file and stdin reading, the REPL loop and printing. This is I/O glue, and src/main.rs is not part of this model.
- The top-level `parse` loop and `statement()` (src/parser.rs:57-64, 103-105). `statement` is `todo!()` and `Statement` has no variants, so there is no behaviour to model.
- The `Expr` variants that nothing constructs (`Assign`, `Call`, `Get`, `Logical`, `Set`, `Super`, `This`, `Variable`), and the `unreachable!` that `interpret` has for them (src/interpreter.rs:159).
- Floating point. `Floats.Float` is the extended real line with NaN:
  - there is no rounding and no signed zero;
  - the scanner gives a number token the exact decimal value of its lexeme, where `parse::<f64>` would give the nearest double;
  - some numeric facts proved hold of this exact-decimal stand-in only, not of `parse::<f64>`, which rounds: the bound of `Scanner.LexemeValue` (the value lies in `[whole, whole + 1)`; `1.99999999999999999` parses to `2.0`), and the exact values of `ScannerProperties.NumberStepSpec` and `ScannerProperties.NumberValueExample` (`123.32` is not a double);
  - two numeric facts about the evaluator also hold for IEEE `f64`, NaN included: negating twice gives the number back (`InterpreterProperties.Negate`), and `>` and `>=` mirror `<` and `<=` while `<=` is `<` or `==` (`InterpreterProperties.ComparisonsAgree`).
- The `Utf8Error` payload of `ScanError::Utf8`. The model records only that the error occurred.
- Crashes are outcomes, not aborts:
  - `SlicePanic` for the slice in handle_string;
  - `Err(MissingRightBracket)` for the `assert_eq!` in `primary` (src/parser.rs:218);
  - `Err(Unreachable)` for the evaluator's `unreachable!`s.
- `Parser.Parser.Valid`: the parser methods require a token vector that ends with `EndOfFile`, as the scanner's always does. `primary` indexes `tokens[current]` and would crash past the end. The model does not cover token vectors without that token.
- Parser.Parser.Expression: says exactly when a parse fails (no complete parse exists), but not whether it fails with `ParseError` or `MissingRightBracket`; `Primary`, `Unary` and `Group` state which one at the token where it arises.
- `usize` overflow of `current` and `line`: both are unbounded naturals here.
- Structure:
  - The four binary levels are four methods that share one loop (`Parser.Parser.FoldLevel`, with `Extend` for a round and `Operand` for the level below).
  - The bracket branch of `primary` is `Parser.Parser.Group`.
  - In the scanner, the operator and `/` branches are `HandleOperator` and `HandleSlash`, the digit loops are `SkipDigits` and `SkipNumber`, and the string loop is `SkipToQuote`.
  - The order of the tests and of the state changes is the source's.
- `scan_tokens` takes the scanner by value. The model calls it as a method on the object.
- InterpreterProperties.ParsedHandled: covers parser output without unary nodes. With them, the result is the `unreachable!` outcome (`ParsedUnaryUnreachable`).

## Findings

The scanner class keeps handle_string as written, since it models the program. The corrected step is defined and proved beside it, in `scanner_properties.dfy`.

| source | as written | input that shows it | evidently intended | confidence | as-written member | corrected member |
|---|---|---|---|---|---|---|
| src/scanner.rs:255-259 | `add_token` already advances past the closing quote, and the `advance()` after it moves one byte further | `"a"+ `: the `+` is never scanned | resume at the byte right after the closing quote | not executed | ScannerProperties.StringSkipsNextByte | ScannerProperties.IntendedStringStepSpec |
| src/scanner.rs:251-254 | "unterminated" tests the byte after the closing quote, not whether a closing quote was found | `"a"` as the whole input is flagged unterminated | flag only a string with no closing quote | not executed | ScannerProperties.ClosingQuoteAtEndUnterminated | ScannerProperties.IntendedQuotedA |
| src/scanner.rs:251-255 | with the opening quote as the last byte, `source[start + 1..current]` has its start past its end | `"` as the whole input crashes | report an unterminated string | not executed | ScannerProperties.LoneQuotePanics | ScannerProperties.IntendedLoneQuote |
