/**
  The scanner: a byte buffer with a `start`/`curr` cursor pair, a line
  counter that stays at 1, a token list that grows, the diagnostics written
  so far and a sticky exit code. Every operation is a pure function from one
  scanner state to the next; `Tokenize` runs the scanning loop.
 */
module Lexer {
  import opened Wrappers
  import opened Text
  import opened Tokens
  import opened Grammar

  /** The exit code recorded once any byte has been rejected. */
  const LexicalErrorCode: int := 65

  /** The scanner's state. `errors` holds, in order, the diagnostics the
      scanner has written to the error stream. */
  datatype State = State(
    source: seq<bv8>,
    tokens: seq<Token>,
    line: int,
    curr: nat,
    start: nat,
    exitCode: int,
    errors: seq<string>)

  /** The cursor never runs past the end of the buffer. */
  predicate Valid(lx: State) {
    lx.curr <= |lx.source|
  }

  /** The bytes not yet scanned. */
  function Rest(lx: State): seq<bv8>
    requires Valid(lx)
  {
    lx.source[lx.curr..]
  }

  /** A fresh scanner over `source`. `start` begins at 1 rather than at `curr`;
      no token is made before `Tokenize` resets it. */
  function New(source: seq<bv8>): (lx: State)
    ensures Valid(lx) && lx.source == source
    ensures lx.tokens == [] && lx.errors == []
    ensures lx.line == 1 && lx.exitCode == 0
    ensures lx.curr == 0 && lx.start == 1
  {
    State(source, [], 1, 0, 1, 0, [])
  }

  /** Whether the cursor has reached the end of the buffer. */
  function IsAtEnd(lx: State): (r: bool)
    ensures Valid(lx) ==> (r <==> Rest(lx) == [])
  {
    lx.curr >= |lx.source|
  }

  /** Consumes the byte under the cursor and returns it. */
  function Advance(lx: State): (r: (State, bv8))
    requires lx.curr < |lx.source|
    ensures r.1 == lx.source[lx.curr]
    ensures r.0 == lx.(curr := lx.curr + 1)
  {
    (lx.(curr := lx.curr + 1), lx.source[lx.curr])
  }

  /** The byte under the cursor, if there is one. */
  function Peek(lx: State): (r: Option<bv8>)
    ensures r.None? <==> IsAtEnd(lx)
    ensures r.Some? ==> lx.curr < |lx.source| && r.value == lx.source[lx.curr]
  {
    if !IsAtEnd(lx) then Some(lx.source[lx.curr]) else None
  }

  /** Consumes the byte under the cursor exactly when there is one and it is `c`. */
  function MatchNext(lx: State, c: bv8): (r: (State, bool))
    ensures r.1 <==> lx.curr < |lx.source| && lx.source[lx.curr] == c
    ensures r.0.curr == (if r.1 then lx.curr + 1 else lx.curr)
    ensures r.0 == lx.(curr := r.0.curr)
  {
    match Peek(lx)
    case Some(x) => if x == c then (lx.(curr := lx.curr + 1), true) else (lx, false)
    case None => (lx, false)
  }

  /** Appends a token of kind `kind` whose lexeme is the bytes between the two cursors. */
  function AddToken(lx: State, kind: TokenType): (r: State)
    requires lx.start <= lx.curr <= |lx.source|
    ensures |r.tokens| == |lx.tokens| + 1 && r.tokens[..|lx.tokens|] == lx.tokens
    ensures r.tokens[|lx.tokens|] == Token(kind, Chars(lx.source[lx.start..lx.curr]), NilValue, lx.line)
    ensures r == lx.(tokens := r.tokens)
  {
    lx.(tokens := lx.tokens + [Token(kind, Chars(lx.source[lx.start..lx.curr]), NilValue, lx.line)])
  }

  /** The message for a byte the scanner does not recognise. */
  function UnexpectedMessage(c: bv8): string {
    "Unexpected character: " + [ByteChar(c)]
  }

  /** The diagnostics for a run of rejected bytes, all reported at `line`. */
  function Diagnostics(rejected: seq<bv8>, line: int): (d: seq<string>)
    ensures |d| == |rejected|
  {
    seq(|rejected|, i requires 0 <= i < |rejected| => ErrorLine(line, UnexpectedMessage(rejected[i])))
  }

  lemma DiagnosticsAppend(a: seq<bv8>, b: seq<bv8>, line: int)
    ensures Diagnostics(a + b, line) == Diagnostics(a, line) + Diagnostics(b, line)
  {
  }

  /** Reports `c` as unexpected and records the lexical-error exit code. */
  function ReportUnexpected(lx: State, c: bv8): State {
    lx.(errors := lx.errors + [ErrorLine(lx.line, UnexpectedMessage(c))], exitCode := LexicalErrorCode)
  }

  /** One scanning step: consumes one byte, or two when an operator lead is
      followed by `=`, and makes at most one token from them. */
  function ScanToken(lx: State): (r: State)
    requires Valid(lx) && !IsAtEnd(lx) && lx.start <= lx.curr
    ensures Valid(r) && r.source == lx.source && r.line == lx.line && r.start == lx.start
    ensures lx.curr < r.curr <= lx.curr + 2
    ensures var c := lx.source[lx.curr];
      r.curr == lx.curr + 2
      <==> IsOperatorLead(c) && lx.curr + 1 < |lx.source| && lx.source[lx.curr + 1] == EqualsByte
    ensures var c := lx.source[lx.curr];
      IsOperatorLead(c) ==>
        r.tokens == lx.tokens
                    + [Token(OperatorKind(c, r.curr == lx.curr + 2), Chars(lx.source[lx.start..r.curr]), NilValue, lx.line)]
    ensures var c := lx.source[lx.curr];
      PunctuationKind(c).Some? ==>
        r.tokens == lx.tokens + [Token(PunctuationKind(c).value, Chars(lx.source[lx.start..r.curr]), NilValue, lx.line)]
    ensures var c := lx.source[lx.curr];
      Recognized(c) ==> r.exitCode == lx.exitCode && r.errors == lx.errors
    ensures var c := lx.source[lx.curr];
      !Recognized(c) ==>
        && r.tokens == lx.tokens
        && r.exitCode == LexicalErrorCode
        && r.errors == lx.errors + [ErrorLine(lx.line, UnexpectedMessage(c))]
  {
    var (next, c) := Advance(lx);
    if IsOperatorLead(c) then
      var (after, two) := MatchNext(next, EqualsByte);
      AddToken(after, OperatorKind(c, two))
    else if PunctuationKind(c).Some? then
      AddToken(next, PunctuationKind(c).value)
    else
      ReportUnexpected(next, c)
  }

  /** The bytes one scanning step consumes hold exactly the rejected byte it
      reports, if any. */
  lemma {:induction false} ScanTokenRejects(lx: State)
    requires Valid(lx) && !IsAtEnd(lx) && lx.start <= lx.curr
    ensures var c := lx.source[lx.curr];
      Rejected(Rest(lx)) == (if Recognized(c) then [] else [c]) + Rejected(Rest(ScanToken(lx)))
  {
    var r := ScanToken(lx);
    var s := Rest(lx);
    var c := s[0];
    if r.curr == lx.curr + 2 {
      assert Rest(r) == s[2..] == s[1..][1..];
      assert Recognized(c) && Recognized(s[1]);
      assert Rejected(s) == Rejected(s[1..]);
      assert Rejected(s[1..]) == Rejected(s[2..]);
    } else {
      assert Rest(r) == s[1..];
    }
  }

  /** A scanning step that starts with `start` at `curr` consumes the front of
      the unread rest and adds the token made from it. */
  lemma ScanTokenTakesFront(lx: State)
    requires Valid(lx) && !IsAtEnd(lx) && lx.start == lx.curr
    ensures var r := ScanToken(lx);
      && r.curr == lx.curr + Width(Rest(lx))
      && r.tokens == lx.tokens + FrontToken(Rest(lx), lx.line)
  {
    var r := ScanToken(lx);
    var s := Rest(lx);
    assert lx.source[lx.start..r.curr] == s[..r.curr - lx.curr];
  }

  /** A scanning step that starts with `start` at `curr` moves exactly the
      tokens `Lex` makes of the bytes it consumed from the unread rest into
      the token list. */
  lemma {:induction false} ScanTokenFollowsLex(lx: State)
    requires Valid(lx) && !IsAtEnd(lx) && lx.start == lx.curr
    ensures var r := ScanToken(lx);
      r.tokens + Lex(Rest(r), r.line) == lx.tokens + Lex(Rest(lx), lx.line)
  {
    var r := ScanToken(lx);
    var s := Rest(lx);
    ScanTokenTakesFront(lx);
    LexStep(lx.tokens, r.tokens, s, lx.line);
    assert Rest(r) == s[Width(s)..];
  }

  /** A scanning step writes exactly the diagnostics `Rejected` assigns to the
      bytes it consumed. */
  lemma ScanTokenFollowsRejected(lx: State)
    requires Valid(lx) && !IsAtEnd(lx) && lx.start <= lx.curr
    ensures var r := ScanToken(lx);
      r.errors + Diagnostics(Rejected(Rest(r)), r.line) == lx.errors + Diagnostics(Rejected(Rest(lx)), lx.line)
  {
    var r := ScanToken(lx);
    var c := lx.source[lx.curr];
    var later := Rejected(Rest(r));
    ScanTokenRejects(lx);
    if Recognized(c) {
      assert Rejected(Rest(lx)) == later;
    } else {
      assert Rejected(Rest(lx)) == [c] + later;
      DiagnosticsAppend([c], later, lx.line);
      assert Diagnostics([c], lx.line) == [ErrorLine(lx.line, UnexpectedMessage(c))];
    }
  }

  /** A scanning step sets the exit code exactly when it rejects a byte. */
  lemma ScanTokenExitCode(lx: State)
    requires Valid(lx) && !IsAtEnd(lx) && lx.start <= lx.curr
    ensures var r := ScanToken(lx);
      (if |Rejected(Rest(r))| > 0 then LexicalErrorCode else r.exitCode)
      == (if |Rejected(Rest(lx))| > 0 then LexicalErrorCode else lx.exitCode)
  {
    var r := ScanToken(lx);
    var c := lx.source[lx.curr];
    ScanTokenRejects(lx);
    if Recognized(c) {
      assert Rejected(Rest(lx)) == Rejected(Rest(r));
    } else {
      assert |Rejected(Rest(lx))| > 0;
    }
  }

  /** The `EOF` token that closes every token list. */
  function EofToken(line: int): Token {
    Token(Eof, "", NilValue, line)
  }

  /** Scans the rest of the buffer and closes the token list with `EOF`. */
  method Tokenize(lx0: State) returns (lx: State)
    requires Valid(lx0)
    ensures Valid(lx) && IsAtEnd(lx)
    ensures lx.source == lx0.source && lx.line == lx0.line
    ensures lx.tokens == lx0.tokens + Lex(Rest(lx0), lx0.line) + [EofToken(lx0.line)]
    ensures lx.errors == lx0.errors + Diagnostics(Rejected(Rest(lx0)), lx0.line)
    ensures lx.exitCode == if |Rejected(Rest(lx0))| > 0 then LexicalErrorCode else lx0.exitCode
  {
    lx := lx0;
    while !IsAtEnd(lx)
      invariant Valid(lx) && lx.source == lx0.source && lx.line == lx0.line
      invariant lx.tokens + Lex(Rest(lx), lx.line) == lx0.tokens + Lex(Rest(lx0), lx0.line)
      invariant lx.errors + Diagnostics(Rejected(Rest(lx)), lx.line)
                == lx0.errors + Diagnostics(Rejected(Rest(lx0)), lx0.line)
      invariant (if |Rejected(Rest(lx))| > 0 then LexicalErrorCode else lx.exitCode)
                == (if |Rejected(Rest(lx0))| > 0 then LexicalErrorCode else lx0.exitCode)
      decreases |lx.source| - lx.curr
    {
      lx := lx.(start := lx.curr);
      ScanTokenFollowsLex(lx);
      ScanTokenFollowsRejected(lx);
      ScanTokenExitCode(lx);
      lx := ScanToken(lx);
    }
    assert Rest(lx) == [];
    lx := lx.(tokens := lx.tokens + [EofToken(lx.line)]);
  }

  /** After `Tokenize` on a scanner holding no `EOF` yet, the token list ends
      with the only `EOF`, every other token is well formed on the scanner's
      line, and the exit code is never lowered. */
  lemma TokenizeShape(lx0: State, tokens: seq<Token>)
    requires Valid(lx0)
    requires forall i :: 0 <= i < |lx0.tokens| ==> lx0.tokens[i].kind != Eof
    requires tokens == lx0.tokens + Lex(Rest(lx0), lx0.line) + [EofToken(lx0.line)]
    ensures |tokens| > 0 && tokens[|tokens| - 1] == EofToken(lx0.line)
    ensures forall i :: 0 <= i < |tokens| - 1 ==> tokens[i].kind != Eof
    ensures forall i :: |lx0.tokens| <= i < |tokens| - 1 ==> WellFormed(tokens[i], lx0.line)
  {
    LexWellFormed(Rest(lx0), lx0.line);
  }
}
