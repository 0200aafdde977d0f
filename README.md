# ipi-lang front end in Dafny

This project models the front end of ipi-lang, a small C-like toy language
written in Rust. The repository holds two generations of that front end, and
both are modelled here.

* **The first generation** lives in the root crate:
  * the character cursor (`src/lexer/cursor.rs`);
  * the first lexer (`src/lexer/mod.rs`), which knows `+ - * / ;`, blanks and
    integers;
  * the first parser (`src/parser/mod.rs`), which parses `INT (+ expr)* ;`
    statements and converts literals with `i32::from_str_radix`;
  * its precedence table (`src/parser/priority.rs`).
* **The current generation** lives in two crates:
  * the `ipic_tokenize` crate: the token grammar (`grammar.rs`) and the lexer
    (`lib.rs`). The lexer handles doubled operators, `//` comments, newlines,
    radix prefixes, `_` separators and identifiers.
  * the `ipic_parse` crate: a parser with a prefix dispatch table
    (`lib.rs`) and its precedence table (`priority_lvl.rs`).

Each Rust routine that works step by step on a cursor or a token stream
becomes a Dafny `method` on a class:
* `LexerCursor.Cursor` models the character cursor;
* `OldParser.Peekable` models the peekable token iterator;
* `Parse.Parser` models the current parser.

Each such method is proved equal to a pure specification function of the old
state. The properties are then lemmas about those functions.

## Lexers

Lexers are modelled as total functions on the remaining text:
* `Tokenize.NextToken` and `OldLexer.NextToken` lex one token;
* `Tokenize.TokenStream` and `OldLexer.TokenStream` lex all of them.

A panic becomes a `Failure`. The Rust iterators are lazy: tokens before the
offending character are still delivered, and the panic fires only when the
consumer asks for the next one. A token stream is therefore a list of kinds
plus the failure, if any, that ends it. A parser sees that failure only when
it reads past the last kind.

## Integer parsing

`IntParse` models `i32::from_str_radix`:
* an optional sign;
* the digit loop with checked arithmetic;
* the `Empty`, `InvalidDigit`, `PosOverflow` and `NegOverflow` errors.

It is proved against the unbounded value of the digit string.

## How the model follows the code

The model follows the code:
* The tests in `ipic_parse/src/tests.rs` expect `LET` nodes holding `BINARY`
  sums. `ipic_parse` registers only prefix handlers and never builds either.
* `ipic_parse/src/priority_lvl.rs` declares precedence levels that no parser
  code reads.
* Its `parse_literal` returns `INTEGER(10)` whatever the literal.
* Its unary handler never consumes the operator, so it recurses on the same
  token until the stack overflows.
* Its `self_test` handler consumes one token and yields `INTEGER(10)`.
* The first parser groups a chain of `+` tokens to the right: the tokens
  `INT + INT + INT` give `1 + (2 + 3)`. It rejects every other operator.
* The text `1 +2 +3 ;` lexes to exactly that chain, because the first lexer
  consumes the blank after each number other than a lone `0`. A lone `0`
  leaves the character after it unread.
* Ordinary spaced text such as `1 + 2 + 3;` is rejected by the first front
  end. The blank after `+` becomes a `WHITESPACE` token, and no operand can
  start with it. In `0 + 1;` the blank after the lone `0` is already a
  `WHITESPACE` token, so decoding fails one token earlier, at the postfix
  position.
* The octal and binary scanners of both lexers accept every decimal digit.
  A bad digit is caught by `from_str_radix` in the first parser.
* The two precedence tables declare the same level enum. It is modelled
  once, as `Priority.PriorityLevel`, and `OldPriority` uses it. The number
  base enum is shared by both lexers in the same way.

## Model

| member | source | states |
|---|---|---|
| LexerCursor.Cursor.constructor | src/lexer/cursor.rs:9-11 | a new cursor has the whole input ahead, nothing consumed and `prev` = `'\0'` |
| LexerCursor.Cursor.Bump | src/lexer/cursor.rs:13-17 | at end of input: returns `None` and changes nothing. Otherwise: returns the next character, consumes exactly it and records it as `prev` |
| LexerCursor.Cursor.IsEof | src/lexer/cursor.rs:19-21 | true exactly when the whole input has been consumed |
| LexerCursor.Cursor.First | src/lexer/cursor.rs:23-25 | the next unconsumed character, or `'\0'` at end of input |
| LexerCursor.Cursor.Second | src/lexer/cursor.rs:27-31 | the character after the next one, or `'\0'` when there is none |
| LexerCursor.Cursor.EatWhile | src/lexer/cursor.rs:33-37 | consumes exactly the longest prefix satisfying the predicate: every consumed character satisfies it, and the cursor then stops at end of input or at a character that fails it |
| LexerCursor.SpanMaximal | src/lexer/cursor.rs:33-37 | the span `eat_while` consumes is maximal: all of it satisfies the predicate and the next character does not |
| TokenGrammar.Radix | ipic_tokenize/src/grammar.rs:1-7 | each number base maps to its discriminant (2, 8, 10, 16), one-to-one |
| TokenGrammar.BaseOrder | ipic_tokenize/src/grammar.rs:1-7 | the derived order on bases is the strict total order Binary < Octal < Decimal < Hex |
| TokenGrammar.Uninited | ipic_tokenize/src/grammar.rs:65-71 | the placeholder token is `EOF` at position (0, 0) |
| Tokenize.IsWhitespace | ipic_tokenize/src/lib.rs:10-15 | only the blank `' '` is whitespace. A blank is not a newline, a digit or an identifier character |
| Tokenize.IsId | ipic_tokenize/src/lib.rs:21-23 | a character that starts an identifier also continues one, and is never a digit, so a number and an identifier never start alike |
| Tokenize.SkipWhitespace | ipic_tokenize/src/lib.rs:98-100 | drops exactly the maximal run of spaces |
| Tokenize.SkipCommentLine | ipic_tokenize/src/lib.rs:94-96 | drops everything up to, and not including, the next newline |
| Tokenize.ParseNumToStr | ipic_tokenize/src/lib.rs:130-143 | returns the digits of the maximal run of decimal digits and `_`, without the underscores, and leaves the cursor after the run |
| Tokenize.ParseHexNumToStr | ipic_tokenize/src/lib.rs:145-158 | the same for hex digits of either case |
| Tokenize.ParseNum | ipic_tokenize/src/lib.rs:102-128 | the literal and the remaining text are those of the number specification `LexNumber` |
| Tokenize.ParseId | ipic_tokenize/src/lib.rs:74-92 | the identifier or `let` and the remaining text are those of `LexIdent` |
| Tokenize.AdvanceToken | ipic_tokenize/src/lib.rs:26-72 | the kind, the remaining text and the line count are those of `NextToken`. An undefined character is a failure that carries the line and column |
| Tokenize.Tokenize | ipic_tokenize/src/lib.rs:161-168 | draining the iterator yields exactly `TokenStream(input, 0, 0)` |
| Tokenize.ScanDigitsLongest | ipic_tokenize/src/lib.rs:130-158 | the scan stops at the first character that is neither `_` nor a legal digit. The digits it returns are the scanned text without underscores, and every one of them is legal |
| Tokenize.DigitRun | ipic_tokenize/src/lib.rs:130-143 | a run of digits and underscores followed by a stop character scans to the run without underscores |
| Tokenize.LexNumberShape | ipic_tokenize/src/lib.rs:102-128 | a number token is an integer literal whose digits are legal for its base and free of `_`, and it consumes a prefix of the input |
| Tokenize.RadixPrefix | ipic_tokenize/src/lib.rs:104-120 | `0x`, `0b` and `0o` select hex, binary and octal. The digits are scanned after the prefix, and only `0x` admits letters |
| Tokenize.LeadingZero | ipic_tokenize/src/lib.rs:104-123 | after `0`: a digit or `_` continues a decimal literal; any other character leaves the literal `0` and is not consumed |
| Tokenize.NonZeroDigit | ipic_tokenize/src/lib.rs:124-127 | a literal starting with 1-9 is decimal: that digit followed by the scanned run |
| Tokenize.LexIdentShape | ipic_tokenize/src/lib.rs:74-92 | `let` becomes the reserved word, never an identifier. Any other text becomes an identifier, and lexing it consumes a prefix of the input |
| Tokenize.IdentifierToken | ipic_tokenize/src/lib.rs:74-92 | an identifier start followed by continue characters lexes to that name. The first non-continue character after it is consumed as well |
| Tokenize.IdentifierEatsTerminator | ipic_tokenize/src/lib.rs:78-86 | `a+…` lexes to identifier `a` and the `+` is lost |
| Tokenize.LexSymbolDefined | ipic_tokenize/src/lib.rs:42-71 | a character starts a token exactly when it is an operator, a digit or an identifier start |
| Tokenize.OperatorShape | ipic_tokenize/src/lib.rs:43-67 | an operator character yields an operator kind (never a literal, identifier or `EOF`) and consumes one or two characters |
| Tokenize.LexSymbolShape | ipic_tokenize/src/lib.rs:42-71 | every character that starts a token yields a kind other than `EOF` or an identifier `let`, with normalised literal digits, and consumes a prefix of the input |
| Tokenize.DoubledOperator | ipic_tokenize/src/lib.rs:43-61 | `++`, `--` and `==` are one token each |
| Tokenize.SingleOperator | ipic_tokenize/src/lib.rs:43-61 | `+`, `-`, `=` and `/` not followed by themselves are single-character tokens, and the next character is not consumed |
| Tokenize.CommentSkipped | ipic_tokenize/src/lib.rs:51-55 | `//` and the rest of its line produce no token |
| Tokenize.SpaceSkipped | ipic_tokenize/src/lib.rs:32-35 | a space produces no token |
| Tokenize.NewlineSkipped | ipic_tokenize/src/lib.rs:37-40 | a newline produces no token and advances the line by one |
| Tokenize.BlanksSkipped | ipic_tokenize/src/lib.rs:32-40 | any run of spaces and newlines produces no token and advances the line by its number of newlines |
| Tokenize.BlanksYieldNothing | ipic_tokenize/src/lib.rs:32-40 | the same holds for the whole token stream |
| Tokenize.NumberToken | ipic_tokenize/src/lib.rs:68 | a leading digit is lexed as a number |
| Tokenize.UndefinedCharacter | ipic_tokenize/src/lib.rs:70 | lexing fails exactly on a character that starts no token. The failure reports the current line and column |
| Tokenize.NextTokenShape | ipic_tokenize/src/lib.rs:26-72 | a token leaves a suffix of the input unread, and `EOF` leaves nothing. The line count never decreases, literals are normalised and `let` is never an identifier. A failure reports the current column |
| Tokenize.EndOfInput | ipic_tokenize/src/lib.rs:27-30 | empty input lexes to `EOF` and to an empty, error-free stream |
| Tokenize.TokenStreamShape | ipic_tokenize/src/lib.rs:161-168 | the stream never contains `EOF` or an identifier `let`, and every literal in it is normalised. A failure reports the starting column |
| Tokenize.NumberThenSemicolon | ipic_tokenize/src/lib.rs:130-143 | `1;` lexes to literal `1` and leaves the `;` |
| Tokenize.UnderscoreSeparator | ipic_tokenize/src/lib.rs:136 | `1_2` lexes to literal `12` |
| Tokenize.OpenParens | ipic_tokenize/src/lib.rs:66 | n open parentheses lex to n `LBRACE` tokens and no error |
| Tokenize.SpacedOperatorsLexed | ipic_tokenize/src/lib.rs:32-64 | any run of `+ - / *`, each followed by one blank, lexes to one operator token per character, in order, and no error |
| Tokenize.LexesLet | ipic_tokenize/src/tests.rs:13-16 | `let` lexes to the single token `LET`, on any line |
| Tokenize.LexesOperators | ipic_tokenize/src/tests.rs:18-26 | `+ - / * ` lexes to `PLUS MINUS SLASH STAR` and nothing else |
| OldLexer.ParseNumToStr | src/lexer/mod.rs:63-76 | the digits and the remaining text are those of the bump-first scan `ScanDigits` |
| OldLexer.ParseNum | src/lexer/mod.rs:35-61 | the literal and the remaining text are those of `LexNumber` |
| OldLexer.SkipWhitespace | src/lexer/mod.rs:30-33 | drops the maximal run of spaces and returns `WHITESPACE` |
| OldLexer.AdvanceToken | src/lexer/mod.rs:12-28 | the kind and the remaining text are those of `NextToken`. An undefined character is a failure that carries that character |
| OldLexer.Tokenize | src/lexer/mod.rs:79-86 | draining the iterator yields exactly `TokenStream(input)` |
| OldLexer.ScanDigitsShape | src/lexer/mod.rs:63-76 | the scan returns only decimal digits and leaves a suffix of the input |
| OldLexer.LexNumberShape | src/lexer/mod.rs:35-61 | every number token is an integer literal with decimal digits only, whatever its base |
| OldLexer.NextTokenShape | src/lexer/mod.rs:12-28 | a token leaves a suffix of the input unread. It is `EOF` exactly when the input is empty, and its literal digits are decimal |
| OldLexer.UndefinedCharacterIff | src/lexer/mod.rs:18-27 | lexing fails exactly on a character other than `+ - / * ;`, a space or a digit, and reports that character |
| OldLexer.TokenStreamShape | src/lexer/mod.rs:79-86 | the stream never contains `EOF`, and every literal in it has decimal digits only |
| OldLexer.BlankRun | src/lexer/mod.rs:24 | a run of spaces becomes a single `WHITESPACE` token |
| OldLexer.DigitRunScan | src/lexer/mod.rs:63-76 | a run of digits followed by a character that is neither a digit nor `_` scans to exactly that run, and the stop character is consumed with it. A run that reaches the end of the input scans to itself |
| OldLexer.TerminatorLost | src/lexer/mod.rs:66-71 | a number starting with 1-9 and followed by any character other than a digit or `_` lexes to that number, and the character is lost: `1;` loses its `;` |
| OldLexer.SpacedPlusTokens | src/lexer/mod.rs:12-33 | `d + …` with a digit `d` from 1 to 9: the blank after `d` is consumed by the digit scan, and the blank after `+` becomes a `WHITESPACE` token. The tokens are `INT(d) ADD WHITESPACE`, then those of the rest after its blanks |
| OldLexer.TightSumTokens | src/lexer/mod.rs:12-76 | `a +b +c ;` with digits `a`, `b`, `c` from 1 to 9 lexes to exactly `INT(a) ADD INT(b) ADD INT(c) SEMICOLON` |
| OldLexer.UnderscoreDropsDigit | src/lexer/mod.rs:69 | `1_2` lexes to literal `1`, and the `2` is lost |
| OldLexer.HexLetterLost | src/lexer/mod.rs:39-43 | `0x` followed by a letter lexes to a hex literal with no digits, and the letter is consumed |
| OldLexer.RadixPrefix | src/lexer/mod.rs:37-53 | after `0`, the letters `x`, `b` and `o` select hex, binary and octal and are dropped. The digits after them go through the same decimal-only bump-first scan, whatever the base |
| OldLexer.LeadingZeroDropped | src/lexer/mod.rs:54 | `0` followed by a run of digits: the `0` is dropped, the run is a decimal literal, and the character that ends the run is consumed |
| OldLexer.LoneZero | src/lexer/mod.rs:55 | `0` followed by the end of the input or by a character other than a digit, `_`, `x`, `b` or `o`: the literal `0`, and that character is not consumed |
| OldLexer.ZeroBlankStream | src/lexer/mod.rs:12-33 | `0 …` lexes to `INT(0) WHITESPACE`, then the tokens of the rest after its blanks |
| OldParser.Peekable.constructor | src/parser/mod.rs:74 | the peekable stream starts before the first token |
| OldParser.Peekable.Next | src/parser/mod.rs:27 | returns the token at the current position and advances past it. At the end it returns `None`, or the lexer's failure when there is one |
| IntParse.FromStrRadix | src/parser/mod.rs:16-21 | `Empty` exactly for the empty text. `NegOverflow` only for a text that starts with `-`, and `PosOverflow` only for one that does not |
| IntParse.DecimalDigit | src/parser/mod.rs:19 | a single decimal digit parses to its own value |
| IntParse.ToDigit | src/parser/mod.rs:16-21 | a character is a digit of the radix exactly when its value (0-9, then a-z in either case) is below the radix |
| IntParse.FromStrRadixUnsigned | src/parser/mod.rs:16-21 | unsigned text: `Empty` exactly for the empty text. Success exactly when every character is a digit and the value fits in `i32`, and then the result is that value. A too-large value is `PosOverflow` |
| IntParse.FromStrRadixNegative | src/parser/mod.rs:16-21 | `-` followed by digits succeeds exactly when the value is at most 2^31, with the negated value |
| IntParse.FromStrRadixExamples | src/parser/mod.rs:16-21 | `1A` in base 16 is 26, `1010` in base 2 is 10 and `17` in base 8 is 15 |
| IntParse.FromStrRadixErrors | src/parser/mod.rs:16-21 | `2` in base 2 is an invalid digit. Empty text is `Empty` |
| IntParse.FromStrRadixMax | src/parser/mod.rs:20 | `7fffffff` in base 16 parses to the largest `i32` |
| IntParse.FromStrRadixOverflow | src/parser/mod.rs:20 | `80000000` in base 16 overflows |
| OldParser.ParseToNumExpr | src/parser/mod.rs:15-24 | succeeds exactly when `from_str_radix` in the literal's base succeeds, with that value. Otherwise fails with its error |
| OldParser.ParsePrefix | src/parser/mod.rs:26-33 | the result and the stream position are those of `PrefixSpec` |
| OldParser.ParsePostfix | src/parser/mod.rs:35-48 | the result and the stream position are those of `PostfixSpec` |
| OldParser.ParseExpr | src/parser/mod.rs:50-61 | the result and the stream position are those of `ExprSpec` |
| OldParser.ParseExprStmnt | src/parser/mod.rs:63-70 | the result and the stream position are those of `StmntSpec` |
| OldParser.DecodeText | src/parser/mod.rs:72-81 | the list of expressions, or the error, is `DecodeSpec` of the lazily lexed input |
| OldParser.OperandRequired | src/parser/mod.rs:26-33 | a prefix fails as unimplemented exactly when its token is not an integer, and then the whole expression fails the same way |
| OldParser.OnlyPlusContinues | src/parser/mod.rs:35-48 | inside an expression, any token other than `+` or `;` is an unimplemented postfix |
| OldParser.ExprStops | src/parser/mod.rs:50-61 | a parsed expression ends at a `;` or at the end of a clean stream |
| OldParser.TailStops | src/parser/mod.rs:53-58 | the postfix loop exits only at a `;` or at the end of a clean stream |
| OldParser.StatementEnd | src/parser/mod.rs:63-70 | a successful statement is its expression followed by a `;`, which it consumes. End of input after the expression is an unwrap on `None`, and the "unpredicted token" panic can never fire |
| OldParser.ChainParses | src/parser/mod.rs:35-61 | the tokens `n1 + n2 + … + nk` (valid literals joined by `ADD` tokens) parse to the right-nested sum of the literals' values |
| OldParser.ChainStatement | src/parser/mod.rs:63-70 | the same chain followed by `;` is a statement that consumes the `;` |
| OldParser.ExprShape | src/parser/mod.rs:35-61 | every parsed expression is built of integers and `+` only, and spans no `;` |
| OldParser.DecodeNeedsSemicolon | src/parser/mod.rs:72-81 | decoding succeeds only if lexing did not fail, and a non-empty input that decodes ends with `;` |
| OldParser.OneExpressionPerSemicolon | src/parser/mod.rs:72-81 | a successful decode yields one expression per `;` in the input, each built of integers and `+` |
| OldParser.BlankAfterOperand | src/parser/mod.rs:26-48 | an operand followed by a `WHITESPACE` token: decoding fails with the postfix `unimplemented!` |
| OldParser.SpacedZeroRejected | src/parser/mod.rs:26-48 | the spaced text `0 …` fails to decode with the postfix `unimplemented!`, whatever follows |
| OldParser.BlankOperandRejected | src/parser/mod.rs:26-48 | an operand, `+` and then a `WHITESPACE` token: decoding fails with the prefix `unimplemented!` |
| OldParser.SpacedPlusRejected | src/parser/mod.rs:26-33 | the spaced text `d + …` with a digit `d` from 1 to 9 fails to decode with the prefix `unimplemented!`, whatever follows |
| OldParser.DigitSumParses | src/parser/mod.rs:35-81 | the tokens `a + b + c ;` of one-digit literals decode to the one expression `a + (b + c)` |
| OldParser.TightSumParses | src/parser/mod.rs:72-81 | the text `a +b +c ;` with digits `a`, `b`, `c` from 1 to 9 decodes to `a + (b + c)` |
| OldParser.HexLetterRejected | src/main.rs:7 | the driver's input `0xa + 20; …` fails: the letter is lost, and the empty hex literal is rejected by `from_str_radix` |
| Priority.LevelOrder | ipic_parse/src/priority_lvl.rs:3-12 | the derived order on levels is a strict total order: LOWEST < EQUAL < CMP < SUM_SUB < DIV_MUL < PREFIX < LBRACE |
| Priority.TokPriority | ipic_parse/src/priority_lvl.rs:14-22 | each level is given to exactly its tokens. No token gets PREFIX, and every other token gets LOWEST |
| Priority.BindingOrder | ipic_parse/src/priority_lvl.rs:14-22 | `*` binds tighter than `+`, `+` than `<`, `<` than `==`, and `==` than `;`. No token binds tighter than `(` |
| OldPriority.TokPriority | src/parser/priority.rs:14-21 | `(` gets LBRACE, `* /` get DIV_MUL and `+ -` get SUM_SUB, each exactly. Everything else gets LOWEST |
| OldPriority.BindingOrder | src/parser/priority.rs:14-21 | `*` binds tighter than `+`, and `+` tighter than `;`. A literal has the lowest level |
| Parse.RegisteredTable | ipic_parse/src/lib.rs:29-45 | registering into an empty table gives exactly `PrefixTable()` |
| Parse.PrefixTableContents | ipic_parse/src/lib.rs:29-45 | the prefix table maps `(` to `self_test` and each of `-- ++ - +` to the unary handler, and holds nothing else |
| Parse.Parser.constructor | ipic_parse/src/lib.rs:17-27 | a new parser is at the first token, with an empty infix table and exactly `PrefixTable()` |
| Parse.Parser.RegisterPrefixes | ipic_parse/src/lib.rs:29-45 | the table becomes the old table with `(` and the four unary operators inserted |
| Parse.Parser.SelfTest | ipic_parse/src/lib.rs:53-56 | the result and the position are those of `SelfTestSpec`: the next token, if any, is consumed and the node is `INTEGER(10)`. A lexer failure there propagates |
| Parse.Parser.ParseUnaryPrefix | ipic_parse/src/lib.rs:47-51 | the result and the position are those of `UnarySpec` |
| Parse.Parser.ParseStatement | ipic_parse/src/lib.rs:73-83 | the result and the position are those of `StatementSpec` |
| Parse.CreateParseStream | ipic_parse/src/lib.rs:86-92 | the nodes drawn and how the stream ended are `StreamSpec` of the lazily lexed input |
| Parse.ParseLiteral | ipic_parse/src/lib.rs:58-63 | every literal, whatever its base and digits, becomes `INTEGER(10)` |
| Parse.StatementOutcomes | ipic_parse/src/lib.rs:73-83 | end of input gives `None`. A literal gives `INTEGER(10)` without being consumed. `(` is consumed and gives `INTEGER(10)`. A token with no handler gives `None` |
| Parse.UnaryOverflows | ipic_parse/src/lib.rs:47-51 | a statement that starts with a unary operator never returns a node: it recurses until the stack overflows |
| Parse.NodeIffLiteralOrParen | ipic_parse/src/lib.rs:73-83 | a statement yields a node exactly when the next token is a literal or `(`, and then that node is `INTEGER(10)` |
| Parse.StreamShape | ipic_parse/src/lib.rs:86-92 | the stream never yields more nodes than requested and stops early only when exhausted or aborted. Every node is `INTEGER(10)` |
| Parse.LiteralRepeats | ipic_parse/src/lib.rs:86-92 | a literal at the head of the stream is yielded again for every node requested |
| Parse.ParensStream | ipic_parse/src/lib.rs:86-92 | a stream of `(` tokens yields one `INTEGER(10)` per `(` and then ends |
| Parse.ParensInput | ipic_cli/src/main.rs:4 | the command-line driver's input `((` yields two `INTEGER(10)` nodes and then ends |

## Left out

- The drivers `src/main.rs` and `ipic_cli/src/main.rs`, and all printing (`println!` in `self_test`, the `Debug` output): they are I/O. Their inputs are used only as the examples in `OldParser.HexLetterRejected` and `Parse.ParensInput`.
- The tests in `ipic_parse/src/tests.rs`: they call a function the crate does not define, and they expect `LET` nodes that the parser cannot build. `src/lexer/test.rs` only prints tokens. The two cases of `ipic_tokenize/src/tests.rs` are `Tokenize.LexesLet` and `Tokenize.LexesOperators`.
- `ipic_tokenize/src/cursor.rs` and the `TokenIterator` type are not part of this model. The current lexer is run on the modelled cursor, with line and column starting at 0. The parser reads token kinds by position, and the `(row, column)` of each `Token` is not modelled.
- Tokenize.IsXidStart and Tokenize.IsIdContinue: Unicode XID classification is approximated by ASCII. Identifiers start with a letter or `_` and continue with letters, digits and `_`, because the Unicode tables are outside the model.
- `parse_expr_statement` and `parse_ret_statement` (`ipic_parse/src/lib.rs:65-71`): both are `unimplemented!()` and nothing calls them.
- The infix table of `ipic_parse` is modelled only as the set of its keys. The code never inserts into it.
- The old `Parser::new` (`src/parser/mod.rs:11-13`) builds an empty struct, so its methods are modelled as functions of the token stream.
- Panics and their messages are not modelled as text. Every panic or failed `unwrap` becomes a `Failure` value that names its cause.
- The token kind `WHITESPACE` returned at `src/lexer/mod.rs:32` is missing from `src/lexer/grammar.rs`. The model adds it to `OldGrammar.OldTokenKind`.
- The current lexer returns `TokenKind::LET` and `TokenKind::INT`, which `ipic_tokenize/src/grammar.rs` does not declare. They are modelled as the declared `RESERVED(LET)` and `LITERAL(INT)`.
- Cursor columns are never advanced, as in the code. The undefined-token failure therefore always reports the starting column.
- Parse.Parser.ParseUnaryPrefix, Parse.Parser.ParseStatement: unbounded recursion is modelled with a `depth` budget. The overflow of the Rust stack becomes the `StackOverflow` failure when the budget runs out, because Dafny requires termination.
- Parse.CreateParseStream: the infinite iterator is modelled with a `demand`, the number of nodes the consumer asks for, because a literal at the head of the stream makes it yield forever.
- IntParse: `from_str_radix` is modelled for radixes 2 to 36 and ASCII text. Only radixes 2, 8, 10 and 16 are used.

## Findings

| source | as written | input that shows it | evidently intended | confidence | as-written member | corrected member |
|---|---|---|---|---|---|---|
| src/lexer/mod.rs:66-71 | the digit loop bumps a character before looking at it, so the character that ends a number other than a lone `0` is consumed | `1;` lexes to literal `1`, and the `;` is lost | the terminator stays for the next token, as the later lexer does by peeking | not executed | OldLexer.TerminatorLost | Tokenize.NumberThenSemicolon |
| src/lexer/mod.rs:69 | on `_` the loop bumps once more, discarding the digit after the separator | `1_2` lexes to literal `1`, and the `2` is lost | `_` is a separator: `1_2` is `12` | not executed | OldLexer.UnderscoreDropsDigit | Tokenize.UnderscoreSeparator |
| src/lexer/mod.rs:39-43 | after `0x` the digits are scanned with the decimal scanner | `0xa` lexes to an empty hex literal, and the `a` is lost | hex literals take the digits a-f and A-F | not executed | OldLexer.HexLetterLost | Tokenize.RadixPrefix |
