/**
  A reference definition of what the scanner produces, stated over the
  unread rest of the input rather than over cursors: which bytes the
  scanner recognises, the kind each recognised form gets, the tokens of a
  byte string, and the bytes it rejects.
 */
module Grammar {
  import opened Wrappers
  import opened Text
  import opened Tokens

  /** The byte `=`, which turns a one-character operator into a two-character one. */
  const EqualsByte: bv8 := 0x3D

  /** The kind of a byte that is a token on its own: `( ) { } , . - + ; *`. */
  function PunctuationKind(b: bv8): Option<TokenType>
  {
    if b == 0x28 then Some(LeftParen)        // (
    else if b == 0x29 then Some(RightParen)  // )
    else if b == 0x7B then Some(LeftBrace)   // {
    else if b == 0x7D then Some(RightBrace)  // }
    else if b == 0x2C then Some(Comma)       // ,
    else if b == 0x2E then Some(Dot)         // .
    else if b == 0x2D then Some(Minus)       // -
    else if b == 0x2B then Some(Plus)        // +
    else if b == 0x3B then Some(Semicolon)   // ;
    else if b == 0x2A then Some(Star)        // *
    else None
  }

  /** The bytes that start an operator which may be followed by `=`: `! = < >`. */
  predicate IsOperatorLead(b: bv8) {
    b == 0x21 || b == EqualsByte || b == 0x3C || b == 0x3E
  }

  /** The kind of the operator led by `b`, in its two-character form when
      `withEquals` holds and in its one-character form otherwise. */
  function OperatorKind(b: bv8, withEquals: bool): TokenType
    requires IsOperatorLead(b)
  {
    if b == 0x21 then (if withEquals then BangEqual else Bang)
    else if b == EqualsByte then (if withEquals then EqualEqual else Equal)
    else if b == 0x3C then (if withEquals then LessEqual else Less)
    else (if withEquals then GreaterEqual else Greater)
  }

  /** The kinds whose lexeme is two bytes long. */
  predicate IsTwoCharKind(k: TokenType) {
    k == BangEqual || k == EqualEqual || k == LessEqual || k == GreaterEqual
  }

  /** A byte the scanner turns into (part of) a token; every other byte is an error. */
  predicate Recognized(b: bv8) {
    PunctuationKind(b).Some? || IsOperatorLead(b)
  }

  /** How many bytes the front of `s` takes: two for an operator lead followed
      by `=`, one otherwise. */
  function Width(s: seq<bv8>): nat
    requires |s| > 0
  {
    if IsOperatorLead(s[0]) && |s| >= 2 && s[1] == EqualsByte then 2 else 1
  }

  /** The kind of the token made from the front of `s`, or nothing when its
      first byte is rejected. */
  function FrontKind(s: seq<bv8>): Option<TokenType>
    requires |s| > 0
  {
    if IsOperatorLead(s[0]) then Some(OperatorKind(s[0], Width(s) == 2))
    else PunctuationKind(s[0])
  }

  /** The token made from the front of `s`, if its first byte is recognised. */
  function FrontToken(s: seq<bv8>, line: int): seq<Token>
    requires |s| > 0
  {
    match FrontKind(s)
    case Some(k) => [Token(k, Chars(s[..Width(s)]), NilValue, line)]
    case None => []
  }

  /** The tokens of `s`, all on `line`: an operator lead followed by `=` makes one
      two-byte token, any other recognised byte a one-byte token, and a rejected
      byte nothing. */
  function Lex(s: seq<bv8>, line: int): seq<Token>
    decreases |s|
  {
    if |s| == 0 then [] else FrontToken(s, line) + Lex(s[Width(s)..], line)
  }

  /** Appending the front token and lexing what follows the front is lexing
      the whole of `s`. */
  lemma LexStep(before: seq<Token>, after: seq<Token>, s: seq<bv8>, line: int)
    requires |s| > 0 && after == before + FrontToken(s, line)
    ensures after + Lex(s[Width(s)..], line) == before + Lex(s, line)
  {
    var front := FrontToken(s, line);
    var later := Lex(s[Width(s)..], line);
    LexUnfold(s, line);
    AppendAssociates(before, front, later);
  }

  /** `Lex` of a non-empty string is its front token followed by `Lex` of what
      follows the front. */
  lemma LexUnfold(s: seq<bv8>, line: int)
    requires |s| > 0
    ensures Lex(s, line) == FrontToken(s, line) + Lex(s[Width(s)..], line)
  {
  }

  lemma AppendAssociates(a: seq<Token>, b: seq<Token>, c: seq<Token>)
    ensures (a + b) + c == a + (b + c)
  {
  }

  /** The recognised bytes of `s`, in order. */
  function Kept(s: seq<bv8>): seq<bv8>
    decreases |s|
  {
    if |s| == 0 then []
    else (if Recognized(s[0]) then [s[0]] else []) + Kept(s[1..])
  }

  /** The rejected bytes of `s`, in order. */
  function Rejected(s: seq<bv8>): seq<bv8>
    decreases |s|
  {
    if |s| == 0 then []
    else (if Recognized(s[0]) then [] else [s[0]]) + Rejected(s[1..])
  }

  /** The lexemes of a token sequence, joined. */
  function Lexemes(ts: seq<Token>): string
    decreases |ts|
  {
    if |ts| == 0 then "" else ts[0].lexeme + Lexemes(ts[1..])
  }

  /** What every token of `Lex` looks like. */
  predicate WellFormed(t: Token, line: int) {
    && t.kind != Eof
    && t.literal == NilValue
    && t.line == line
    && (|t.lexeme| == 2 <==> IsTwoCharKind(t.kind))
    && 1 <= |t.lexeme| <= 2
    && forall k :: 0 <= k < |t.lexeme| ==> t.lexeme[k] as int < 128 && t.lexeme[k] != ' '
  }

  /** Space, tab, carriage return, newline, `/`, `"`, digits and letters are
      all rejected: the scanner has no whitespace, comment, string, number or
      identifier handling. */
  lemma UnhandledBytesRejected(b: bv8)
    requires b in {0x20, 0x09, 0x0D, 0x0A, 0x2F, 0x22, 0x5F}
             || (0x30 <= b <= 0x39) || (0x41 <= b <= 0x5A) || (0x61 <= b <= 0x7A)
    ensures !Recognized(b)
  {
  }

  /** Every token of `Lex` is a non-`EOF` token with a nil literal on the given
      line; its lexeme is two bytes long exactly for the two-character kinds,
      and is ASCII without spaces. */
  lemma {:induction false} LexWellFormed(s: seq<bv8>, line: int)
    ensures forall i :: 0 <= i < |Lex(s, line)| ==> WellFormed(Lex(s, line)[i], line)
    decreases |s|
  {
    if |s| > 0 {
      var n := Width(s);
      LexWellFormed(s[n..], line);
      if FrontKind(s).Some? {
        FrontTokenWellFormed(s, line);
      }
    }
  }

  lemma FrontTokenWellFormed(s: seq<bv8>, line: int)
    requires |s| > 0 && FrontKind(s).Some?
    ensures WellFormed(Token(FrontKind(s).value, Chars(s[..Width(s)]), NilValue, line), line)
  {
    var lexeme := Chars(s[..Width(s)]);
    assert Recognized(s[0]);
    assert lexeme[0] as int == s[0] as int;
    if Width(s) == 2 {
      assert lexeme[1] as int == EqualsByte as int;
    }
  }

  /** How each kind the scanner makes is spelled in the source, written down
      independently of the byte dispatch above; empty for every other kind. */
  function Spelling(k: TokenType): string {
    match k
    case LeftParen => "("
    case RightParen => ")"
    case LeftBrace => "{"
    case RightBrace => "}"
    case Comma => ","
    case Dot => "."
    case Minus => "-"
    case Plus => "+"
    case Semicolon => ";"
    case Star => "*"
    case Bang => "!"
    case BangEqual => "!="
    case Equal => "="
    case EqualEqual => "=="
    case Greater => ">"
    case GreaterEqual => ">="
    case Less => "<"
    case LessEqual => "<="
    case _ => ""
  }

  /** The front token's lexeme is the spelling of its kind. */
  lemma FrontTokenSpelled(s: seq<bv8>)
    requires |s| > 0 && FrontKind(s).Some?
    ensures Chars(s[..Width(s)]) == Spelling(FrontKind(s).value)
  {
    var lexeme := Chars(s[..Width(s)]);
    var spelling := Spelling(FrontKind(s).value);
    assert |spelling| == Width(s);
    assert lexeme[0] == spelling[0];
    if Width(s) == 2 {
      assert lexeme[1] == spelling[1];
    }
  }

  /** Every token of `Lex` carries exactly the spelling of its kind as its
      lexeme: the kind the scanner assigns agrees with the characters it
      consumed. */
  lemma {:induction false} LexSpelled(s: seq<bv8>, line: int)
    ensures forall i :: 0 <= i < |Lex(s, line)| ==> Lex(s, line)[i].lexeme == Spelling(Lex(s, line)[i].kind)
    decreases |s|
  {
    if |s| > 0 {
      LexUnfold(s, line);
      LexSpelled(s[Width(s)..], line);
      if FrontKind(s).Some? {
        FrontTokenSpelled(s);
      }
    }
  }

  /** Every byte of `s` is either kept or rejected. */
  lemma {:induction false} KeptRejectedPartition(s: seq<bv8>)
    ensures multiset(Kept(s)) + multiset(Rejected(s)) == multiset(s)
    decreases |s|
  {
    if |s| > 0 {
      var b := s[0];
      var rest := s[1..];
      KeptRejectedPartition(rest);
      var kept := Kept(rest);
      var rejected := Rejected(rest);
      assert multiset(s) == multiset{b} + multiset(rest) by {
        assert s == [b] + rest;
      }
      if Recognized(b) {
        assert Kept(s) == [b] + kept;
        assert Rejected(s) == rejected;
        assert multiset([b] + kept) == multiset{b} + multiset(kept);
      } else {
        assert Kept(s) == kept;
        assert Rejected(s) == [b] + rejected;
        assert multiset([b] + rejected) == multiset{b} + multiset(rejected);
      }
    }
  }

  /** The kept bytes are all recognised and the rejected ones all not. */
  lemma {:induction false} KeptRejectedClasses(s: seq<bv8>)
    ensures forall b :: b in Kept(s) ==> Recognized(b)
    ensures forall b :: b in Rejected(s) ==> !Recognized(b)
    decreases |s|
  {
    if |s| > 0 {
      KeptRejectedClasses(s[1..]);
    }
  }

  lemma {:induction false} KeptAppend(a: seq<bv8>, b: seq<bv8>)
    ensures Kept(a + b) == Kept(a) + Kept(b)
    decreases |a|
  {
    if |a| > 0 {
      assert (a + b)[0] == a[0] && (a + b)[1..] == a[1..] + b;
      KeptAppend(a[1..], b);
      assert Kept(a + b) == (if Recognized(a[0]) then [a[0]] else []) + Kept(a[1..] + b);
    } else {
      assert a + b == b;
    }
  }

  lemma {:induction false} LexemesAppend(a: seq<Token>, b: seq<Token>)
    ensures Lexemes(a + b) == Lexemes(a) + Lexemes(b)
    decreases |a|
  {
    if |a| > 0 {
      assert (a + b)[0] == a[0] && (a + b)[1..] == a[1..] + b;
      LexemesAppend(a[1..], b);
      assert Lexemes(a + b) == a[0].lexeme + Lexemes(a[1..] + b);
    } else {
      assert a + b == b;
    }
  }

  /** The lexeme of the front token is the front's recognised bytes. */
  lemma FrontLexemeIsKept(s: seq<bv8>, line: int)
    requires |s| > 0
    ensures Lexemes(FrontToken(s, line)) == Chars(Kept(s[..Width(s)]))
  {
    var front := s[..Width(s)];
    if Width(s) == 2 {
      assert Recognized(front[0]) && Recognized(front[1]);
      assert front[1..][1..] == [];
      assert Kept(front[1..]) == [front[1]];
      assert Kept(front) == front;
    } else {
      assert front[1..] == [];
    }
  }

  /** The lexemes of `Lex(s)`, joined in order, are `s` with its rejected bytes
      deleted: tokens follow source order and no recognised byte is lost. */
  lemma {:induction false} LexemesAreKeptBytes(s: seq<bv8>, line: int)
    ensures Lexemes(Lex(s, line)) == Chars(Kept(s))
    decreases |s|
  {
    if |s| > 0 {
      var n := Width(s);
      LexUnfold(s, line);
      LexemesAreKeptBytes(s[n..], line);
      LexemesAppend(FrontToken(s, line), Lex(s[n..], line));
      FrontLexemeIsKept(s, line);
      assert s == s[..n] + s[n..];
      KeptAppend(s[..n], s[n..]);
      CharsAppend(Kept(s[..n]), Kept(s[n..]));
    }
  }

  /** A lead byte followed by `=` always makes the two-character token: `!=`
      is one `BANG_EQUAL` and never `BANG` then `EQUAL`. */
  lemma GreedyOperator(s: seq<bv8>, line: int)
    requires |s| >= 2 && IsOperatorLead(s[0]) && s[1] == EqualsByte
    ensures |Lex(s, line)| > 0
    ensures Lex(s, line)[0].kind == OperatorKind(s[0], true)
    ensures IsTwoCharKind(Lex(s, line)[0].kind)
    ensures Lex(s, line)[1..] == Lex(s[2..], line)
  {
  }

  /** A lead byte not followed by `=` makes the one-character token. */
  lemma LoneOperator(s: seq<bv8>, line: int)
    requires |s| >= 1 && IsOperatorLead(s[0]) && (|s| == 1 || s[1] != EqualsByte)
    ensures |Lex(s, line)| > 0
    ensures Lex(s, line)[0].kind == OperatorKind(s[0], false)
    ensures !IsTwoCharKind(Lex(s, line)[0].kind)
    ensures Lex(s, line)[1..] == Lex(s[1..], line)
  {
  }

  /** `s` has a rejected byte exactly when one of its bytes is not recognised. */
  lemma {:induction false} RejectedNonEmpty(s: seq<bv8>)
    ensures |Rejected(s)| > 0 <==> exists i :: 0 <= i < |s| && !Recognized(s[i])
    decreases |s|
  {
    if |s| > 0 {
      RejectedNonEmpty(s[1..]);
      if exists i :: 0 <= i < |s[1..]| && !Recognized(s[1..][i]) {
        var i :| 0 <= i < |s[1..]| && !Recognized(s[1..][i]);
        assert s[i + 1] == s[1..][i];
      }
      if exists i :: 0 <= i < |s| && !Recognized(s[i]) {
        var i :| 0 <= i < |s| && !Recognized(s[i]);
        if i > 0 {
          assert s[1..][i - 1] == s[i];
        }
      }
    }
  }
}
