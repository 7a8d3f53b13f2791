/**
  The front end's driver: it owns a scanner, runs it, prints one line per
  token and takes over the scanner's exit code.
 */
module Parser {
  import opened Wrappers
  import opened Tokens
  import opened Grammar
  import Lexer

  /** The driver's state. `tokens` is never filled by the operations modelled here. */
  datatype State = State(lexer: Lexer.State, tokens: seq<Token>, exitCode: int)

  /** A driver over `source`: a fresh scanner and a success exit code. */
  function New(source: seq<bv8>): (p: State)
    ensures p.lexer == Lexer.New(source)
    ensures p.tokens == [] && p.exitCode == 0
    ensures Lexer.Valid(p.lexer)
  {
    State(Lexer.New(source), [], 0)
  }

  /** Every line the driver prints for a well-formed token list reads back as
      the token's kind, its lexeme and `null`. */
  lemma PrintedLinesReadBack(tokens: seq<Token>, line: int, numberText: NumberText)
    requires |tokens| > 0 && tokens[|tokens| - 1] == Lexer.EofToken(line)
    requires forall i :: 0 <= i < |tokens| - 1 ==> WellFormed(tokens[i], line)
    ensures forall i :: 0 <= i < |tokens| ==>
      ParseTokenLine(TokenText(tokens[i], numberText)) == Some((tokens[i].kind, tokens[i].lexeme, "null"))
  {
    forall i | 0 <= i < |tokens|
      ensures ParseTokenLine(TokenText(tokens[i], numberText)) == Some((tokens[i].kind, tokens[i].lexeme, "null"))
    {
      TokenTextParses(tokens[i], numberText);
    }
  }

  /** Prints one line per token, in order. */
  method PrintLines(tokens: seq<Token>, numberText: NumberText) returns (out: seq<string>)
    ensures |out| == |tokens|
    ensures forall i :: 0 <= i < |out| ==> out[i] == TokenText(tokens[i], numberText)
  {
    out := [];
    var i := 0;
    while i < |tokens|
      invariant 0 <= i <= |tokens|
      invariant |out| == i
      invariant forall k :: 0 <= k < i ==> out[k] == TokenText(tokens[k], numberText)
    {
      out := out + [TokenText(tokens[i], numberText)];
      i := i + 1;
    }
  }

  /** Runs the scanner, prints one line per token in scanner order, and takes
      over the scanner's exit code. Returns the new state and the printed lines. */
  method PrintTokens(p: State, numberText: NumberText) returns (q: State, out: seq<string>)
    requires Lexer.Valid(p.lexer)
    ensures q.tokens == p.tokens && q.lexer.source == p.lexer.source
    ensures q.lexer.tokens
            == p.lexer.tokens + Lex(Lexer.Rest(p.lexer), p.lexer.line) + [Lexer.EofToken(p.lexer.line)]
    ensures q.lexer.errors
            == p.lexer.errors + Lexer.Diagnostics(Rejected(Lexer.Rest(p.lexer)), p.lexer.line)
    ensures |out| == |q.lexer.tokens|
    ensures forall i :: 0 <= i < |out| ==> out[i] == TokenText(q.lexer.tokens[i], numberText)
    ensures out[|out| - 1] == "EOF  null"
    ensures q.exitCode == q.lexer.exitCode
    ensures q.exitCode
            == if |Rejected(Lexer.Rest(p.lexer))| > 0 then Lexer.LexicalErrorCode else p.lexer.exitCode
    ensures p.lexer.exitCode in {0, Lexer.LexicalErrorCode} ==> q.exitCode in {0, Lexer.LexicalErrorCode}
    ensures p.lexer.tokens == [] ==>
      forall i :: 0 <= i < |out| ==>
        && q.lexer.tokens[i].line == p.lexer.line
        && ParseTokenLine(out[i]) == Some((q.lexer.tokens[i].kind, q.lexer.tokens[i].lexeme, "null"))
  {
    var lx := Lexer.Tokenize(p.lexer);
    out := PrintLines(lx.tokens, numberText);
    q := p.(lexer := lx, exitCode := lx.exitCode);
    EofTokenText(p.lexer.line, numberText);
    if p.lexer.tokens == [] {
      Lexer.TokenizeShape(p.lexer, lx.tokens);
      PrintedLinesReadBack(lx.tokens, p.lexer.line, numberText);
    }
  }

  /** For a driver fresh from `New`, every token is on line 1, and the exit code
      that `PrintTokens` leaves is 65 exactly when some byte of the source is
      not recognised, and 0 otherwise. */
  lemma FreshExitCode(source: seq<bv8>, exitCode: int)
    requires exitCode
             == if |Rejected(Lexer.Rest(New(source).lexer))| > 0 then Lexer.LexicalErrorCode
                else New(source).lexer.exitCode
    ensures exitCode == Lexer.LexicalErrorCode <==> exists i :: 0 <= i < |source| && !Recognized(source[i])
    ensures exitCode == 0 <==> forall i :: 0 <= i < |source| ==> Recognized(source[i])
  {
    assert Lexer.Rest(New(source).lexer) == source;
    RejectedNonEmpty(source);
  }
}
