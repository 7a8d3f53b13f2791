/**
  The token model of the scripting language's front end: the closed set of
  token kinds and their printed names, the literal value carried by a token,
  the token record itself, its one-line textual form, and the text of a
  diagnostic.
 */
module Tokens {
  import opened Wrappers
  import opened Text

  datatype TokenType =
    // Single-character tokens.
      LeftParen
    | RightParen
    | LeftBrace
    | RightBrace
    | Comma
    | Dot
    | Minus
    | Plus
    | Semicolon
    | Slash
    | Star
    // One- or two-character tokens.
    | Bang
    | BangEqual
    | Equal
    | EqualEqual
    | Greater
    | GreaterEqual
    | Less
    | LessEqual
    // Literals.
    | Identifier
    | String
    | Number
    // Keywords.
    | And
    | Class
    | Else
    | False
    | Fun
    | For
    | If
    | Nil
    | Or
    | Print
    | Return
    | Super
    | This
    | True
    | Var
    | While
    // End of input.
    | Eof

  /** The printed name of a kind: its own upper-case identifier, which is never
      empty and has no space in it. */
  function KindName(k: TokenType): (s: string)
    ensures |s| > 0 && ' ' !in s
  {
    match k
    case LeftParen => "LEFT_PAREN"
    case RightParen => "RIGHT_PAREN"
    case LeftBrace => "LEFT_BRACE"
    case RightBrace => "RIGHT_BRACE"
    case Comma => "COMMA"
    case Dot => "DOT"
    case Minus => "MINUS"
    case Plus => "PLUS"
    case Semicolon => "SEMICOLON"
    case Slash => "SLASH"
    case Star => "STAR"
    case Bang => "BANG"
    case BangEqual => "BANG_EQUAL"
    case Equal => "EQUAL"
    case EqualEqual => "EQUAL_EQUAL"
    case Greater => "GREATER"
    case GreaterEqual => "GREATER_EQUAL"
    case Less => "LESS"
    case LessEqual => "LESS_EQUAL"
    case Identifier => "IDENTIFIER"
    case String => "STRING"
    case Number => "NUMBER"
    case And => "AND"
    case Class => "CLASS"
    case Else => "ELSE"
    case False => "FALSE"
    case Fun => "FUN"
    case For => "FOR"
    case If => "IF"
    case Nil => "NIL"
    case Or => "OR"
    case Print => "PRINT"
    case Return => "RETURN"
    case Super => "SUPER"
    case This => "THIS"
    case True => "TRUE"
    case Var => "VAR"
    case While => "WHILE"
    case Eof => "EOF"
  }

  /** The only kind whose printed name could have length `n`, first character
      `first` and last character `last`: no two names agree on all three. */
  function NameCandidate(n: int, first: char, last: char): Option<TokenType>
  {
    match (n, first, last)
    case (2, 'I', 'F') => Some(If)
    case (2, 'O', 'R') => Some(Or)
    case (3, 'A', 'D') => Some(And)
    case (3, 'D', 'T') => Some(Dot)
    case (3, 'E', 'F') => Some(Eof)
    case (3, 'F', 'R') => Some(For)
    case (3, 'F', 'N') => Some(Fun)
    case (3, 'N', 'L') => Some(Nil)
    case (3, 'V', 'R') => Some(Var)
    case (4, 'B', 'G') => Some(Bang)
    case (4, 'E', 'E') => Some(Else)
    case (4, 'L', 'S') => Some(Less)
    case (4, 'P', 'S') => Some(Plus)
    case (4, 'S', 'R') => Some(Star)
    case (4, 'T', 'S') => Some(This)
    case (4, 'T', 'E') => Some(True)
    case (5, 'C', 'S') => Some(Class)
    case (5, 'C', 'A') => Some(Comma)
    case (5, 'E', 'L') => Some(Equal)
    case (5, 'F', 'E') => Some(False)
    case (5, 'M', 'S') => Some(Minus)
    case (5, 'P', 'T') => Some(Print)
    case (5, 'S', 'H') => Some(Slash)
    case (5, 'S', 'R') => Some(Super)
    case (5, 'W', 'E') => Some(While)
    case (6, 'N', 'R') => Some(Number)
    case (6, 'R', 'N') => Some(Return)
    case (6, 'S', 'G') => Some(String)
    case (7, 'G', 'R') => Some(Greater)
    case (9, 'S', 'N') => Some(Semicolon)
    case (10, 'B', 'L') => Some(BangEqual)
    case (10, 'I', 'R') => Some(Identifier)
    case (10, 'L', 'E') => Some(LeftBrace)
    case (10, 'L', 'N') => Some(LeftParen)
    case (10, 'L', 'L') => Some(LessEqual)
    case (11, 'E', 'L') => Some(EqualEqual)
    case (11, 'R', 'E') => Some(RightBrace)
    case (11, 'R', 'N') => Some(RightParen)
    case (13, 'G', 'L') => Some(GreaterEqual)
    case _ => None
  }

  /** Looks a kind up by its printed name; the inverse of `KindName`. */
  function KindFromName(s: string): Option<TokenType>
  {
    if |s| == 0 then None
    else
      match NameCandidate(|s|, s[0], s[|s| - 1])
      case Some(k) => if KindName(k) == s then Some(k) else None
      case None => None
  }

  // The round trip is proved a few kinds at a time, which keeps each proof small.

  lemma BracketsNamesReadBack(k: TokenType)
    requires k.LeftParen? || k.RightParen? || k.LeftBrace? || k.RightBrace? || k.Comma? || k.Dot?
    ensures KindFromName(KindName(k)) == Some(k)
  {
  }

  lemma PunctuationNamesReadBack(k: TokenType)
    requires k.Minus? || k.Plus? || k.Semicolon? || k.Slash? || k.Star?
    ensures KindFromName(KindName(k)) == Some(k)
  {
  }

  lemma BangAndEqualNamesReadBack(k: TokenType)
    requires k.Bang? || k.BangEqual? || k.Equal? || k.EqualEqual?
    ensures KindFromName(KindName(k)) == Some(k)
  {
  }

  lemma ComparisonNamesReadBack(k: TokenType)
    requires k.Greater? || k.GreaterEqual? || k.Less? || k.LessEqual?
    ensures KindFromName(KindName(k)) == Some(k)
  {
  }

  lemma LiteralNamesReadBack(k: TokenType)
    requires k.Identifier? || k.String? || k.Number?
    ensures KindFromName(KindName(k)) == Some(k)
  {
  }

  lemma FirstKeywordNamesReadBack(k: TokenType)
    requires k.And? || k.Class? || k.Else? || k.False? || k.Fun?
    ensures KindFromName(KindName(k)) == Some(k)
  {
  }

  lemma SecondKeywordNamesReadBack(k: TokenType)
    requires k.For? || k.If? || k.Nil? || k.Or? || k.Print?
    ensures KindFromName(KindName(k)) == Some(k)
  {
  }

  lemma ThirdKeywordNamesReadBack(k: TokenType)
    requires k.Return? || k.Super? || k.This? || k.True?
    ensures KindFromName(KindName(k)) == Some(k)
  {
  }

  lemma LastKindNamesReadBack(k: TokenType)
    requires k.Var? || k.While? || k.Eof?
    ensures KindFromName(KindName(k)) == Some(k)
  {
  }

  /** Every kind is found again from its printed name. */
  lemma KindNameRoundTrip(k: TokenType)
    ensures KindFromName(KindName(k)) == Some(k)
  {
    if k.LeftParen? || k.RightParen? || k.LeftBrace? || k.RightBrace? || k.Comma? || k.Dot? {
      BracketsNamesReadBack(k);
    } else if k.Minus? || k.Plus? || k.Semicolon? || k.Slash? || k.Star? {
      PunctuationNamesReadBack(k);
    } else if k.Bang? || k.BangEqual? || k.Equal? || k.EqualEqual? {
      BangAndEqualNamesReadBack(k);
    } else if k.Greater? || k.GreaterEqual? || k.Less? || k.LessEqual? {
      ComparisonNamesReadBack(k);
    } else if k.Identifier? || k.String? || k.Number? {
      LiteralNamesReadBack(k);
    } else if k.And? || k.Class? || k.Else? || k.False? || k.Fun? {
      FirstKeywordNamesReadBack(k);
    } else if k.For? || k.If? || k.Nil? || k.Or? || k.Print? {
      SecondKeywordNamesReadBack(k);
    } else if k.Return? || k.Super? || k.This? || k.True? {
      ThirdKeywordNamesReadBack(k);
    } else {
      LastKindNamesReadBack(k);
    }
  }

  /** Distinct kinds print as distinct names. */
  lemma KindNameInjective(a: TokenType, b: TokenType)
    ensures KindName(a) == KindName(b) <==> a == b
  {
    KindNameRoundTrip(a);
    KindNameRoundTrip(b);
  }

  /** A literal value carried by a token. The scanner's `LiteralValue::Null`
      is `NilValue`; a number is kept as the bit pattern of its 64-bit float. */
  datatype Value = StringValue(text: string) | NumberValue(bits: bv64) | NilValue

  /** Rust's `Display` for a 64-bit float, which this model does not define. */
  type NumberText = bv64 -> string

  /** The printed form of a literal: `null` for nil, the text itself (no quotes,
      no escaping) for a string. */
  function ValueText(v: Value, numberText: NumberText): (s: string)
    ensures v.NilValue? ==> s == "null"
    ensures v.StringValue? ==> s == v.text
    ensures v.NumberValue? ==> s == numberText(v.bits)
  {
    match v
    case StringValue(text) => text
    case NumberValue(bits) => numberText(bits)
    case NilValue => "null"
  }

  /** A nil literal and the string literal `null` print alike: the printed
      literal alone does not tell them apart. */
  lemma NilPrintsLikeNullString(numberText: NumberText)
    ensures ValueText(NilValue, numberText) == ValueText(StringValue("null"), numberText)
  {
  }

  /** A token: its kind, the source text it was made from, its literal and
      the line it starts on. The constructor is the source's `Token::new`. */
  datatype Token = Token(kind: TokenType, lexeme: string, literal: Value, line: int)

  /** The one-line printed form of a token: kind, lexeme and literal separated
      by single spaces. */
  function TokenText(t: Token, numberText: NumberText): string
  {
    KindName(t.kind) + " " + t.lexeme + " " + ValueText(t.literal, numberText)
  }

  /** Splits a printed token line at its first two spaces and looks the kind
      up by name: the reading of a line that `TokenText` wrote. */
  function ParseTokenLine(line: string): Option<(TokenType, string, string)>
  {
    var i := IndexOf(line, ' ');
    if i == |line| then None
    else
      var rest := line[i + 1..];
      var j := IndexOf(rest, ' ');
      if j == |rest| then None
      else
        match KindFromName(line[..i])
        case None => None
        case Some(k) => Some((k, rest[..j], rest[j + 1..]))
  }

  /** A line of three space-separated fields, the first two without spaces,
      splits back into those fields. */
  lemma {:induction false} FieldsSplit(name: string, lexeme: string, literal: string)
    requires forall k :: 0 <= k < |name| ==> name[k] != ' '
    requires forall k :: 0 <= k < |lexeme| ==> lexeme[k] != ' '
    ensures ParseTokenLine(name + " " + lexeme + " " + literal)
            == match KindFromName(name)
               case None => None
               case Some(k) => Some((k, lexeme, literal))
  {
    var line := name + " " + lexeme + " " + literal;
    var rest := lexeme + [' '] + literal;
    assert line == name + [' '] + rest;
    IndexOfAfter(name, ' ', rest);
    assert line[..|name|] == name;
    assert line[|name| + 1..] == rest;
    IndexOfAfter(lexeme, ' ', literal);
    assert rest[..|lexeme|] == lexeme;
    assert rest[|lexeme| + 1..] == literal;
  }

  /** A printed token line gives back the kind, the lexeme and the printed
      literal, provided the lexeme has no space in it. */
  lemma TokenTextParses(t: Token, numberText: NumberText)
    requires forall k :: 0 <= k < |t.lexeme| ==> t.lexeme[k] != ' '
    ensures ParseTokenLine(TokenText(t, numberText))
            == Some((t.kind, t.lexeme, ValueText(t.literal, numberText)))
  {
    var name := KindName(t.kind);
    FieldsSplit(name, t.lexeme, ValueText(t.literal, numberText));
    KindNameRoundTrip(t.kind);
  }

  /** The end-of-input token, with its empty lexeme and nil literal, prints as
      `EOF`, two spaces and `null`. */
  lemma EofTokenText(line: int, numberText: NumberText)
    ensures TokenText(Token(Eof, "", NilValue, line), numberText) == "EOF  null"
  {
  }

  /** The text of a diagnostic for `message` reported at `line`. */
  function ErrorLine(line: int, message: string): string
  {
    "[line " + IntText(line) + "] Error: " + message
  }

  /** Reads a diagnostic line back into its line number and message. */
  function ParseErrorLine(d: string): Option<(int, string)>
  {
    if |d| < 6 || d[..6] != "[line " then None
    else
      var rest := d[6..];
      var i := IndexOf(rest, ']');
      var tail := rest[i..];
      if |tail| < 9 || tail[..9] != "] Error: " then None
      else
        match ParseInt(rest[..i])
        case None => None
        case Some(n) => Some((n, tail[9..]))
  }

  /** A diagnostic gives back the line number and the message it was made from. */
  lemma {:induction false} ErrorLineParses(line: int, message: string)
    ensures ParseErrorLine(ErrorLine(line, message)) == Some((line, message))
  {
    var number := IntText(line);
    var d := ErrorLine(line, message);
    assert d[..6] == "[line ";
    var rest := d[6..];
    assert rest == number + [']'] + (" Error: " + message);
    IndexOfAfter(number, ']', " Error: " + message);
    assert rest[..|number|] == number;
    var tail := rest[|number|..];
    assert tail == "] Error: " + message;
    assert tail[..9] == "] Error: ";
    IntTextRoundTrip(line);
  }
}
