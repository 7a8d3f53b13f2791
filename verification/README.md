# Scanner and token model of a Rust interpreter front end

This project is a Dafny model of the scanner (`src/parser/lexer.rs`) and the
token model (`src/parser.rs`) of a small interpreter written in Rust. It also
proves properties of that model.

The scanner walks a byte buffer with a `start`/`curr` cursor pair. Each step
consumes one byte and acts on it:

- `( ) { } , . - + ; *` each make a one-byte token.
- `! = < >` make a two-byte operator when the next byte is `=`. Otherwise
  they make a one-byte operator.
- Any other byte makes no token. The scanner writes
  `[line N] Error: Unexpected character: c` and sets a sticky exit code of 65.

Once the buffer is used up, the scanner appends a synthetic `EOF` token. The
driver (`Parser`) runs the scanner and prints every token as
`KIND lexeme literal`. It then takes over the scanner's exit code.

Modules, one per concept:

- `Wrappers`: `Option`.
- `Text`: byte-to-character decoding, decimal rendering of integers (Rust's
  `Display` for `i32`) with its read-back, and `IndexOf`.
- `Tokens`: the token model of `src/parser.rs`.
  - The 39-kind `TokenType` with its printed names and their inverse.
  - `Value` with its rendering.
  - `Token` (its datatype constructor is `Token::new`).
  - The token line `TokenText` and its parser `ParseTokenLine`.
  - The diagnostic format `ErrorLine` and its parser `ParseErrorLine`.
- `Grammar`: a reference definition of the scanner's output, stated over the
  unread rest of the input without cursors.
  - `Lex`: the tokens.
  - `Kept` and `Rejected`: the bytes that are recognised and the bytes that
    are reported.
- `Lexer`: the cursor state machine of `src/parser/lexer.rs`.
  - Each Rust method is a pure function on an immutable `State`.
  - `Tokenize` is the scanning loop. Its invariant ties the cursor state to
    the reference definition.
- `Parser`: the `Parser` struct. It has `New` and `PrintTokens`, and the
  latter returns the printed lines.

The partners:

- The state machine (`Lexer.ScanToken`, `Lexer.Tokenize`) is proved to agree
  with the cursor-free reference (`Grammar.Lex`, `Grammar.Rejected`).
- The reference is proved to:
  - keep source order (`Grammar.LexemesAreKeptBytes`);
  - match greedily (`Grammar.GreedyOperator`);
  - produce well-formed tokens (`Grammar.LexWellFormed`).
- Every printed form has a reader that gives back what was printed:
  - `KindFromName` for kind names;
  - `ParseTokenLine` for token lines;
  - `ParseErrorLine` for diagnostics.

The scanner implements less than its `TokenType` anticipates, and a few of
its details are easy to misread; the model follows the code:

- There is no whitespace, newline, comment, string, number, identifier or
  keyword handling.
  - All of those bytes are rejected as unexpected characters
    (`Grammar.UnhandledBytesRejected`).
  - The line counter is 1 throughout.
- `Lexer::new` sets `start` to 1 while `curr` is 0, so `start <= curr` does not
  hold of a fresh scanner. This does no harm, because `tokenize` sets `start`
  to `curr` before every step.
- The exit code is set to 65 on every rejected byte, not only the first one.
  The outcome is the same: the code is 65 exactly when some byte was rejected
  (`Parser.FreshExitCode`).
- The scanner refers to `LiteralValue::Null`, but the value type defines
  `Value::Nil`. Both are the single `Tokens.NilValue`.
- A non-ASCII character is rejected one byte at a time. The diagnostic shows
  each byte as the code point of the same value (`u8 as char`).

## Model

| member | source | states |
|---|---|---|
| Tokens.KindName | src/parser.rs:85-129 | Each of the 39 kinds prints as a non-empty name with no space in it, so a printed name always ends at the first space of a token line. |
| Tokens.KindNameRoundTrip | src/parser.rs:85-129 | Looking up a kind's printed name gives that kind back. |
| Tokens.KindNameInjective | src/parser.rs:34-129 | Two kinds print the same name exactly when they are the same kind. |
| Tokens.ValueText | src/parser.rs:22-29 | `Nil` prints as `null`. A string value prints as its text verbatim, without quotes or escaping. A number is left to the float formatter. |
| Tokens.NilPrintsLikeNullString | src/parser.rs:25-27 | `Nil` and the string value `null` print identically, so a printed literal alone cannot tell them apart. |
| Tokens.TokenTextParses | src/parser.rs:150-153 | A token line is kind name, space, lexeme, space, literal. When the lexeme has no space, splitting the line at its first two spaces gives back the kind, the lexeme and the printed literal. |
| Tokens.EofTokenText | src/parser.rs:150-153 | The `EOF` token, with its empty lexeme and nil literal, prints as `EOF  null` with two spaces. |
| Text.IntTextRoundTrip | src/parser.rs:12-14 | The decimal rendering of a line number, with `-` for a negative one, reads back as that number. |
| Tokens.ErrorLineParses | src/parser.rs:12-14 | A diagnostic for message `m` at line `N` is `[line N] Error: m`, and reading it back gives exactly `N` and `m`. |
| Grammar.UnhandledBytesRejected | src/parser/lexer.rs:79-82 | The following bytes are all rejected: space, tab, carriage return, newline, `/`, `"`, `_`, digits and letters. |
| Grammar.LexWellFormed | src/parser/lexer.rs:86-89 | Every token made from the source is non-`EOF` and carries a nil literal and the scanner's line. Its lexeme is 1 byte long, or 2 bytes exactly for `!=` `==` `<=` `>=`. The lexeme is ASCII and has no space. |
| Grammar.KeptRejectedPartition | src/parser/lexer.rs:42-84 | Every source byte is either recognised or rejected; as multisets, the two parts make up the source. |
| Grammar.KeptRejectedClasses | src/parser/lexer.rs:42-84 | The kept bytes are all recognised and the rejected bytes all unrecognised. |
| Grammar.LexSpelled | src/parser/lexer.rs:42-78 | Every token's lexeme is exactly the source spelling of its kind (`(` for `LEFT_PAREN`, `!=` for `BANG_EQUAL`, ...), given by a table written independently of the byte dispatch. |
| Grammar.LexemesAreKeptBytes | src/parser/lexer.rs:26-89 | The lexemes of the tokens, joined in order, are the source with its rejected bytes deleted. So tokens follow source order and no recognised byte is lost. |
| Grammar.GreedyOperator | src/parser/lexer.rs:55-78 | `!` `=` `<` `>` followed by `=` make one two-character token (`BANG_EQUAL`, `EQUAL_EQUAL`, `LESS_EQUAL`, `GREATER_EQUAL`), and scanning resumes after the `=`. |
| Grammar.LoneOperator | src/parser/lexer.rs:55-78 | `!` `=` `<` `>` not followed by `=` make the one-character token (`BANG`, `EQUAL`, `LESS`, `GREATER`), and scanning resumes at the next byte. |
| Grammar.RejectedNonEmpty | src/parser/lexer.rs:79-82 | Some byte is reported exactly when some byte of the input is not recognised. |
| Lexer.New | src/parser/lexer.rs:14-23 | A fresh scanner has no tokens, line 1, `curr` 0, `start` 1 and exit code 0, and no diagnostics written. |
| Lexer.Advance | src/parser/lexer.rs:92-96 | Returns the byte under the cursor and moves the cursor one byte on, changing nothing else. |
| Lexer.IsAtEnd | src/parser/lexer.rs:34-40 | The scanner is at the end exactly when no unread byte remains. |
| Lexer.Peek | src/parser/lexer.rs:98-104 | Returns nothing exactly when the cursor is at the end, and otherwise the byte under the cursor. |
| Lexer.MatchNext | src/parser/lexer.rs:106-117 | Returns true and moves the cursor one byte on exactly when a next byte exists and equals the expected one. Otherwise it returns false and leaves the state unchanged. |
| Lexer.AddToken | src/parser/lexer.rs:86-90 | Appends one token whose lexeme is the bytes between `start` and `curr`, with a nil literal and the current line, keeping the earlier tokens. |
| Lexer.ScanToken | src/parser/lexer.rs:42-84 | Consumes exactly 2 bytes when `!` `=` `<` `>` is followed by `=`, and exactly 1 byte otherwise, staying within the buffer. A recognised byte appends one token of the right kind with lexeme `source[start..curr]`. Any other byte appends nothing, writes `[line N] Error: Unexpected character: c` and sets exit code 65. |
| Lexer.ScanTokenRejects | src/parser/lexer.rs:79-82 | The bytes a step consumes contain a rejected byte only when the step reports that byte. |
| Lexer.ScanTokenTakesFront | src/parser/lexer.rs:42-89 | A step with `start` reset to `curr` advances the cursor by the width the reference gives the front of the unread rest, and appends exactly the reference's front token. |
| Lexer.ScanTokenFollowsLex | src/parser/lexer.rs:42-89 | A step with `start` reset to `curr` moves exactly the token the reference definition makes of the consumed bytes from the unread rest into the token list. |
| Lexer.ScanTokenFollowsRejected | src/parser/lexer.rs:79-82 | A step writes exactly the diagnostics the reference definition assigns to the bytes it consumed. |
| Lexer.ScanTokenExitCode | src/parser/lexer.rs:79-82 | A step keeps the code the scan will end with: 65 when some unread byte is rejected, the current code otherwise. This is the loop invariant of `Tokenize`; the per-step fact (65 exactly on a rejected byte, otherwise unchanged) is a clause of `Lexer.ScanToken`. |
| Lexer.Tokenize | src/parser/lexer.rs:26-32 | Runs the scanner to the end of the buffer, producing the following: the earlier tokens, then the reference tokens of the unread rest, then one `EOF` token. The `EOF` token has an empty lexeme, a nil literal and the current line. It writes one diagnostic per rejected byte, in order. The exit code becomes 65 when any byte was rejected and stays as it was otherwise. |
| Lexer.TokenizeShape | src/parser/lexer.rs:26-32 | After tokenizing, the last token is `EOF` and is the only `EOF`. Every other new token is well formed and on the scanner's line. |
| Parser.New | src/parser.rs:164-170 | A fresh driver holds a fresh scanner over the source and has exit code 0. |
| Parser.PrintLines | src/parser.rs:174-176 | Prints exactly one line per token, in token order, each line the token's printed form. |
| Parser.PrintedLinesReadBack | src/parser.rs:174-176 | Every line printed for a scanned token list reads back as that token's kind, its lexeme and `null`. |
| Parser.PrintTokens | src/parser.rs:172-178 | Runs the scanner, then prints one line per scanner token in scanner order, the last line being `EOF  null`. It then copies the scanner's exit code: 65 when a byte was rejected, the previous code otherwise, so it stays within {0, 65}. For a fresh scanner, every line reads back as its token and every token is on the starting line. |
| Parser.FreshExitCode | src/parser.rs:172-178 | For a driver fresh from `New`, the resulting exit code is 65 exactly when some source byte is unrecognised, and 0 exactly when every byte is recognised. |

## Left out

- `src/main.rs`: argument handling, file reading, process exit, the
  `parse_test` command and the empty-file `EOF  null` shortcut. This is
  command-line and I/O plumbing.
- `println!` and `eprintln!`. Printed lines are returned as a sequence of
  strings. Diagnostics are accumulated in the scanner state's `errors` field,
  in the order they would be written.
- Rendering of `Value::Number(f64)`: floating-point formatting. It is a
  parameter `numberText` of the rendering functions, and a number is kept
  only as its 64-bit pattern. The scanner never produces a number.
- `bytes::BytesMut` and `String::from_utf8(..).unwrap()`: library calls.
  - The source is a `seq<bv8>`.
  - Decoding a lexeme is byte-to-character. This agrees with UTF-8
    decoding because every lexeme is ASCII (`Grammar.LexWellFormed`).
  - The source comes from a Rust `String` and so is valid UTF-8. The model
    accepts any bytes.
- The `expr` and `ast_printer` modules, which are not part of this model.
  (The `Parser.tokens` field is modelled as `Parser.State.tokens`; nothing in
  the code fills it, and `PrintTokens` leaves it unchanged.)
- Integer widths. `line` and `exit_code` are `i32` and `curr`/`start` are
  `usize`. They are unbounded here because none of them can overflow: the
  line never changes, the exit code is only ever 0 or 65, and the cursors
  stay within the buffer.
- Lexer.Tokenize: requires `curr <= |source|`. Every scanner state reachable
  from `Lexer::new` satisfies this.
- Lexer.ScanToken: requires `start <= curr`, as in the only caller, which
  sets `start` to `curr` first.
