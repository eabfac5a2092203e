/** The lexer (src/lexer/lexer.cpp): a character scanner with a start and a current cursor
    that appends one token per lexeme to its token list. */
module Lexing {
  import opened Wrappers
  import opened MachineInt
  import opened Decimal
  import opened Tokens

  /** `peek` at a position: the character there, or the terminating NUL at the end. */
  function CharAt(s: string, p: nat): char {
    if p < |s| then s[p] else '\0'
  }

  /** `is_alpha`: a letter of the C locale or an underscore. */
  predicate IsAlpha(c: char) {
    ('a' <= c <= 'z') || ('A' <= c <= 'Z') || c == '_'
  }

  predicate IsWordChar(c: char) { IsAlpha(c) || IsDigit(c) }

  predicate IsBlank(c: char) { c == ' ' || c == '\t' || c == '\r' || c == '\n' }

  // ---------------------------------------------------------------------------------------
  // The runs the scanning loops stop at
  // ---------------------------------------------------------------------------------------

  /** Where the `isdigit(peek())` loop of `consume_digit` stops. */
  function DigitsEnd(s: string, p: nat): (q: nat)
    requires p <= |s|
    ensures p <= q <= |s|
    decreases |s| - p
  {
    if p < |s| && IsDigit(s[p]) then DigitsEnd(s, p + 1) else p
  }

  /** Where the loop of `consume_identifier` stops. */
  function WordEnd(s: string, p: nat): (q: nat)
    requires p <= |s|
    ensures p <= q <= |s|
    decreases |s| - p
  {
    if p < |s| && IsWordChar(s[p]) then WordEnd(s, p + 1) else p
  }

  /** Where a `while (peek() != stop && !is_end()) advance();` loop stops: at the next `stop`
      character or at the end. */
  function UpTo(s: string, p: nat, stop: char): (q: nat)
    requires p <= |s|
    ensures p <= q <= |s|
    decreases |s| - p
  {
    if p < |s| && s[p] != stop then UpTo(s, p + 1, stop) else p
  }

  /** Where the loop of `consume_string` stops: at the next quote or at the end. */
  function QuoteEnd(s: string, p: nat): nat
    requires p <= |s|
  {
    UpTo(s, p, '"')
  }

  /** Where `skip_line` stops: at the next newline, which is left for the next lexeme, or at the end. */
  function LineEnd(s: string, p: nat): nat
    requires p <= |s|
  {
    UpTo(s, p, '\n')
  }

  /** Where `skip_multiline_comment` stops: just past the first `*` `/`, or at the end. */
  function CommentEnd(s: string, p: nat): (q: nat)
    requires p <= |s|
    ensures p <= q <= |s|
    decreases |s| - p
  {
    if p >= |s| then p
    else if s[p] == '*' && CharAt(s, p + 1) == '/' then p + 2
    else CommentEnd(s, p + 1)
  }

  /** Each run function stops at the first position where its loop condition fails. */
  lemma {:induction false} DigitsEndSpec(s: string, p: nat)
    requires p <= |s|
    ensures AllDigits(s[p..DigitsEnd(s, p)])
    ensures DigitsEnd(s, p) == |s| || !IsDigit(s[DigitsEnd(s, p)])
    decreases |s| - p
  {
    if p < |s| && IsDigit(s[p]) {
      DigitsEndSpec(s, p + 1);
      assert s[p..DigitsEnd(s, p)] == [s[p]] + s[p + 1..DigitsEnd(s, p)];
    }
  }

  lemma {:induction false} WordEndSpec(s: string, p: nat)
    requires p <= |s|
    ensures forall k :: p <= k < WordEnd(s, p) ==> IsWordChar(s[k])
    ensures WordEnd(s, p) == |s| || !IsWordChar(s[WordEnd(s, p)])
    decreases |s| - p
  {
    if p < |s| && IsWordChar(s[p]) {
      WordEndSpec(s, p + 1);
    }
  }

  lemma {:induction false} UpToSpec(s: string, p: nat, stop: char)
    requires p <= |s|
    ensures forall k :: p <= k < UpTo(s, p, stop) ==> s[k] != stop
    ensures UpTo(s, p, stop) == |s| || s[UpTo(s, p, stop)] == stop
    decreases |s| - p
  {
    if p < |s| && s[p] != stop {
      UpToSpec(s, p + 1, stop);
    }
  }

  /** A block comment ends just past its first closing `*` `/`; without one it runs to the end. */
  lemma {:induction false} CommentEndSpec(s: string, p: nat)
    requires p <= |s|
    ensures CommentEnd(s, p) == |s| ||
            (p + 2 <= CommentEnd(s, p) && s[CommentEnd(s, p) - 2] == '*' && s[CommentEnd(s, p) - 1] == '/')
    ensures forall k :: p <= k && k + 2 < CommentEnd(s, p) ==> !(s[k] == '*' && s[k + 1] == '/')
    decreases |s| - p
  {
    if p < |s| && !(s[p] == '*' && CharAt(s, p + 1) == '/') {
      CommentEndSpec(s, p + 1);
    }
  }

  // ---------------------------------------------------------------------------------------
  // Keywords
  // ---------------------------------------------------------------------------------------

  /** The keyword table of `keyword_or_identifier` (its repeated entries collapse). */
  const KEYWORDS: map<string, TokenType> := map[
    "break" := Break, "continue" := Continue, "do" := Do, "else" := Else, "false" := False,
    "for" := For, "if" := If, "return" := Return, "true" := True, "while" := While,
    "int" := Int, "void" := Void, "float" := Float, "char" := Char, "bool" := Bool,
    "goto" := Goto, "struct" := Struct]

  function KeywordOrIdentifier(word: string): TokenType {
    if word in KEYWORDS then KEYWORDS[word] else Identifier
  }

  /** Exactly the table's words are keywords; `double` is not in the table, so it lexes as an
      identifier although a `Double` token kind exists. */
  lemma KeywordExamples()
    ensures KeywordOrIdentifier("int") == Int && KeywordOrIdentifier("while") == While
    ensures KeywordOrIdentifier("double") == Identifier && KeywordOrIdentifier("main") == Identifier
    ensures forall w :: KeywordOrIdentifier(w) == Identifier <==> w !in KEYWORDS
  {
  }

  // ---------------------------------------------------------------------------------------
  // One call of `lex`
  // ---------------------------------------------------------------------------------------

  /** The token added for `s[p..q]`, and where the cursor then stands. */
  function Emit(s: string, p: nat, q: nat, kind: TokenType): Result<(Option<Token>, nat)>
    requires p <= q <= |s|
  {
    Ok((Some(Token(kind, s[p..q], None)), q))
  }

  /** `add_token(match_next(second) ? two : one)`: the longer operator when it fits. */
  function Munch(s: string, p: nat, second: char, two: TokenType, one: TokenType): Result<(Option<Token>, nat)>
    requires p < |s| && second != '\0'
  {
    if CharAt(s, p + 1) == second then Emit(s, p, p + 2, two) else Emit(s, p, p + 1, one)
  }

  /** A digit run: an integer literal, unless a `.` follows or the value overflows `int`. */
  function ScanNumber(s: string, p: nat): Result<(Option<Token>, nat)>
    requires p < |s| && IsDigit(s[p])
  {
    var q := DigitsEnd(s, p + 1);
    DigitsEndSpec(s, p + 1);
    assert AllDigits(s[p..q]) by {
      assert s[p..q] == [s[p]] + s[p + 1..q];
    }
    if CharAt(s, q) == '.' then Err("double/float values are currently unsupported")
    else if !InRange(DigitsValue(s[p..q])) then Err("stoi")
    else Ok((Some(Token(IntLiteral, s[p..q], Some(DigitsValue(s[p..q]) as int32))), q))
  }

  /** A word: a keyword or an identifier, which may not run into the end of the input. */
  function ScanWord(s: string, p: nat): Result<(Option<Token>, nat)>
    requires p < |s|
  {
    var q := WordEnd(s, p + 1);
    if q == |s| then Err("Unterminated identifier\n")
    else Emit(s, p, q, KeywordOrIdentifier(s[p..q]))
  }

  /** A string: from the opening quote up to, not including, the closing quote, which stays
      unconsumed. */
  function ScanString(s: string, p: nat): Result<(Option<Token>, nat)>
    requires p < |s|
  {
    var q := QuoteEnd(s, p + 1);
    if q == |s| then Err("Unterminated string\n")
    else Emit(s, p, q, StringLiteral)
  }

  /** `/`: a line comment, a block comment or the division operator. */
  function ScanSlash(s: string, p: nat): Result<(Option<Token>, nat)>
    requires p < |s|
  {
    if CharAt(s, p + 1) == '/' then Ok((None, LineEnd(s, p + 2)))
    else if CharAt(s, p + 1) == '*' then Ok((None, CommentEnd(s, p + 2)))
    else Emit(s, p, p + 1, Slash)
  }

  /** The characters that are a token on their own, and the kind of each. */
  predicate IsSingle(c: char) {
    c == '(' || c == ')' || c == '{' || c == '}' || c == ',' || c == '.' || c == '?' || c == ';' ||
    c == '*' || c == '~'
  }

  function SingleKind(c: char): TokenType
    requires IsSingle(c)
  {
    match c
    case '(' => LeftParen case ')' => RightParen case '{' => LeftBrace case '}' => RightBrace
    case ',' => Comma case '.' => Dot case '?' => QuestionMark case ';' => Semicolon
    case '*' => Star case _ => Tilde
  }

  /** The characters that start a one- or two-character operator. */
  predicate IsOperatorStart(c: char) {
    c == '!' || c == '=' || c == '<' || c == '>' || c == '+' || c == '-' || c == '&' || c == '|'
  }

  /** The character `match_next` looks for after an operator start. */
  function SecondOf(c: char): (d: char)
    requires IsOperatorStart(c)
    ensures d != '\0'
  {
    match c
    case '+' => '+' case '-' => '-' case '&' => '&' case '|' => '|' case _ => '='
  }

  /** The two-character operator. */
  function LongKind(c: char): TokenType
    requires IsOperatorStart(c)
  {
    match c
    case '!' => NotEqual case '=' => EqualEqual case '<' => LessEqual case '>' => GreaterEqual
    case '+' => PlusPlus case '-' => MinusMinus case '&' => LogicalAnd case _ => LogicalOr
  }

  /** The one-character operator. */
  function ShortKind(c: char): TokenType
    requires IsOperatorStart(c)
  {
    match c
    case '!' => Not case '=' => Equal case '<' => Less case '>' => Greater
    case '+' => Plus case '-' => Minus case '&' => Ampersand case _ => Pipe
  }

  /** What one call of `lex` does at the cursor `p`: the token it adds, if any, and where it
      leaves the cursor; or the error it throws. The cases are those of its `switch`. */
  function ScanStep(s: string, p: nat): (r: Result<(Option<Token>, nat)>)
    requires p < |s|
    ensures r.Ok? ==> p < r.value.1 <= |s|
  {
    var c := s[p];
    if IsSingle(c) then Emit(s, p, p + 1, SingleKind(c))
    else if c == '/' then ScanSlash(s, p)
    else if IsOperatorStart(c) then Munch(s, p, SecondOf(c), LongKind(c), ShortKind(c))
    else if c == '"' then ScanString(s, p)
    else if IsBlank(c) then Ok((None, p + 1))
    else if IsDigit(c) then ScanNumber(s, p)
    else if IsAlpha(c) then ScanWord(s, p)
    else Err("Unknown symbol while lexing")
  }

  function Emitted(t: Option<Token>): seq<Token> {
    if t.Some? then [t.value] else []
  }

  /** `parse_tokens` from cursor `p`: `lex` until the end of the input. */
  function Tokenize(s: string, p: nat): Result<seq<Token>>
    requires p <= |s|
    decreases |s| - p
  {
    if p == |s| then Ok([])
    else
      var (t, q) :- ScanStep(s, p);
      var rest :- Tokenize(s, q);
      Ok(Emitted(t) + rest)
  }

  /** The tokens of an earlier call followed by those a call reads, if it reads without error. */
  function AppendTo(prefix: seq<Token>, r: Result<seq<Token>>): Result<seq<Token>> {
    if r.Ok? then Ok(prefix + r.value) else r
  }

  lemma AppendToAssociative(a: seq<Token>, b: seq<Token>, r: Result<seq<Token>>)
    ensures AppendTo(a, AppendTo(b, r)) == AppendTo(a + b, r)
    ensures AppendTo([], r) == r
  {
    if r.Ok? {
      assert a + (b + r.value) == (a + b) + r.value;
      assert [] + r.value == r.value;
    }
  }

  /** `Tokenize` after one step. */
  lemma TokenizeUnfold(s: string, p: nat)
    requires p < |s|
    ensures ScanStep(s, p).Err? ==> Tokenize(s, p) == Err(ScanStep(s, p).msg)
    ensures ScanStep(s, p).Ok? ==>
              var (t, q) := ScanStep(s, p).value;
              (Tokenize(s, q).Err? ==> Tokenize(s, p) == Tokenize(s, q)) &&
              (Tokenize(s, q).Ok? ==> Tokenize(s, p) == Ok(Emitted(t) + Tokenize(s, q).value))
  {
  }

  // ---------------------------------------------------------------------------------------
  // What one step promises
  // ---------------------------------------------------------------------------------------

  /** Every token's lexeme is the source text between the two cursors. */
  lemma ScanStepLexeme(s: string, p: nat)
    requires p < |s|
    ensures ScanStep(s, p).Ok? && ScanStep(s, p).value.0.Some? ==>
              ScanStep(s, p).value.0.value.lexeme == s[p..ScanStep(s, p).value.1]
  {
  }

  /** Each of `( ) { } , . ? ; * ~` is a token of its own kind. */
  lemma SingleCharacterTokens(s: string, p: nat)
    requires p < |s| && IsSingle(s[p])
    ensures ScanStep(s, p) == Ok((Some(Token(SingleKind(s[p]), [s[p]], None)), p + 1))
  {
    assert s[p..p + 1] == [s[p]];
  }

  /** Maximal munch: `!= == <= >= ++ -- && ||` win over their one-character prefixes, which are
      taken only when the second character does not follow. */
  lemma OperatorTokens(s: string, p: nat)
    requires p < |s| && IsOperatorStart(s[p])
    ensures CharAt(s, p + 1) == SecondOf(s[p]) ==>
              p + 1 < |s| && ScanStep(s, p) == Ok((Some(Token(LongKind(s[p]), s[p..p + 2], None)), p + 2))
    ensures CharAt(s, p + 1) != SecondOf(s[p]) ==>
              ScanStep(s, p) == Ok((Some(Token(ShortKind(s[p]), [s[p]], None)), p + 1))
  {
    assert s[p..p + 1] == [s[p]];
  }

  /** The operator tables: each two-character operator is its start followed by `SecondOf`. */
  lemma OperatorTable()
    ensures LongKind('!') == NotEqual && SecondOf('!') == '=' && ShortKind('!') == Not
    ensures LongKind('=') == EqualEqual && SecondOf('=') == '=' && ShortKind('=') == Equal
    ensures LongKind('<') == LessEqual && SecondOf('<') == '=' && ShortKind('<') == Less
    ensures LongKind('>') == GreaterEqual && SecondOf('>') == '=' && ShortKind('>') == Greater
    ensures LongKind('+') == PlusPlus && SecondOf('+') == '+' && ShortKind('+') == Plus
    ensures LongKind('-') == MinusMinus && SecondOf('-') == '-' && ShortKind('-') == Minus
    ensures LongKind('&') == LogicalAnd && SecondOf('&') == '&' && ShortKind('&') == Ampersand
    ensures LongKind('|') == LogicalOr && SecondOf('|') == '|' && ShortKind('|') == Pipe
  {
  }

  /** Blanks and comments add no token; a line comment leaves its newline, a block comment
      without an end runs to the end of the input. */
  lemma SkippedText(s: string, p: nat)
    requires p < |s|
    ensures IsBlank(s[p]) ==> ScanStep(s, p) == Ok((None, p + 1))
    ensures s[p] == '/' && CharAt(s, p + 1) == '/' ==> ScanStep(s, p) == Ok((None, LineEnd(s, p + 2)))
    ensures s[p] == '/' && CharAt(s, p + 1) == '*' ==> ScanStep(s, p) == Ok((None, CommentEnd(s, p + 2)))
    ensures s[p] == '/' && CharAt(s, p + 1) != '/' && CharAt(s, p + 1) != '*' ==>
              ScanStep(s, p) == Ok((Some(Token(Slash, "/", None)), p + 1))
  {
    assert s[p..p + 1] == [s[p]];
  }

  /** A digit run is an integer literal carrying its value, unless a `.` follows it. */
  lemma NumberToken(s: string, p: nat)
    requires p < |s| && IsDigit(s[p])
    ensures var q := DigitsEnd(s, p);
            AllDigits(s[p..q]) &&
            (CharAt(s, q) == '.' ==> ScanStep(s, p).Err?) &&
            (CharAt(s, q) != '.' && InRange(DigitsValue(s[p..q])) ==>
               ScanStep(s, p) == Ok((Some(Token(IntLiteral, s[p..q], Some(DigitsValue(s[p..q]) as int32))), q)))
  {
    DigitsEndSpec(s, p);
  }

  /** A word is a keyword exactly when the table holds it; a word running into the end of the
      input is an error. */
  lemma WordToken(s: string, p: nat)
    requires p < |s| && IsAlpha(s[p])
    ensures var q := WordEnd(s, p);
            (q == |s| ==> ScanStep(s, p) == Err("Unterminated identifier\n")) &&
            (q < |s| ==> ScanStep(s, p) == Ok((Some(Token(KeywordOrIdentifier(s[p..q]), s[p..q], None)), q)) &&
                         !IsWordChar(s[q]))
  {
    WordEndSpec(s, p);
  }

  /** A string lexeme starts at its opening quote and stops before the closing quote, which is
      left for the next `lex`; without a closing quote it is an error. */
  lemma StringToken(s: string, p: nat)
    requires p < |s| && s[p] == '"'
    ensures var q := QuoteEnd(s, p + 1);
            (q == |s| ==> ScanStep(s, p) == Err("Unterminated string\n")) &&
            (q < |s| ==> s[q] == '"' && '"' !in s[p + 1..q] &&
                         ScanStep(s, p) == Ok((Some(Token(StringLiteral, s[p..q], None)), q)))
  {
    UpToSpec(s, p + 1, '"');
  }

  /** Any other character is an error. */
  lemma UnknownSymbol(s: string, p: nat)
    requires p < |s| && !IsBlank(s[p]) && !IsWordChar(s[p]) && !IsSingle(s[p]) && !IsOperatorStart(s[p])
    requires s[p] != '/' && s[p] != '"'
    ensures ScanStep(s, p) == Err("Unknown symbol while lexing")
  {
  }

  /** The quote left unconsumed starts a new string, so a string literal lexes only when another
      quote follows it: `"a"` alone is an unterminated string. */
  lemma ClosingQuoteExample()
    ensures Tokenize("\"a\"", 0) == Err("Unterminated string\n")
  {
    var s := "\"a\"";
    assert QuoteEnd(s, 1) == 2;
    assert s[0..2] == "\"a";
    assert ScanStep(s, 0) == Ok((Some(Token(StringLiteral, "\"a", None)), 2));
    assert QuoteEnd(s, 3) == 3;
    assert ScanStep(s, 2) == Err("Unterminated string\n");
  }

  // ---------------------------------------------------------------------------------------
  // The scanner
  // ---------------------------------------------------------------------------------------

  class Lexer {
    var source: string
    var tokens: seq<Token>
    var startPosition: nat
    var currentPosition: nat

    constructor ()
      ensures source == [] && tokens == [] && startPosition == 0 && currentPosition == 0
    {
      source := [];
      tokens := [];
      startPosition := 0;
      currentPosition := 0;
    }

    function Peek(): char
      reads this
    {
      CharAt(source, currentPosition)
    }

    method Advance()
      modifies this`currentPosition
      ensures currentPosition == old(currentPosition) + 1
    {
      currentPosition := currentPosition + 1;
    }

    /** `match_next`: consumes `c` when it is the next character. */
    method MatchNext(c: char) returns (matched: bool)
      modifies this`currentPosition
      ensures matched <==> CharAt(source, old(currentPosition)) == c
      ensures currentPosition == if matched then old(currentPosition) + 1 else old(currentPosition)
    {
      matched := Peek() == c;
      if matched {
        Advance();
      }
    }

    method AddToken(kind: TokenType, literal: Option<int32>)
      requires startPosition <= currentPosition <= |source|
      modifies this`tokens
      ensures tokens == old(tokens) + [Token(kind, source[startPosition..currentPosition], literal)]
    {
      tokens := tokens + [Token(kind, source[startPosition..currentPosition], literal)];
    }

    method SkipLine()
      requires currentPosition <= |source|
      modifies this`currentPosition
      ensures currentPosition == LineEnd(source, old(currentPosition))
    {
      while Peek() != '\n' && currentPosition < |source|
        invariant old(currentPosition) <= currentPosition <= |source|
        invariant LineEnd(source, currentPosition) == LineEnd(source, old(currentPosition))
        decreases |source| - currentPosition
      {
        Advance();
      }
    }

    method SkipMultilineComment()
      requires currentPosition <= |source|
      modifies this`currentPosition
      ensures currentPosition == CommentEnd(source, old(currentPosition))
    {
      while currentPosition < |source|
        invariant old(currentPosition) <= currentPosition <= |source|
        invariant CommentEnd(source, currentPosition) == CommentEnd(source, old(currentPosition))
        decreases |source| - currentPosition
      {
        if Peek() == '*' && CharAt(source, currentPosition + 1) == '/' {
          Advance();
          Advance();
          return;
        }
        Advance();
      }
    }

    /** `consume_string`, after the opening quote. */
    method ConsumeString() returns (r: Result<()>)
      requires startPosition < currentPosition <= |source| && source[startPosition] == '"'
      requires currentPosition == startPosition + 1
      modifies this`currentPosition, this`tokens
      ensures var want := ScanString(source, startPosition);
              (want.Err? ==> r == Err(want.msg)) &&
              (want.Ok? ==> r.Ok? && currentPosition == want.value.1 && tokens == old(tokens) + Emitted(want.value.0))
    {
      while Peek() != '"' && currentPosition < |source|
        invariant startPosition < currentPosition <= |source|
        invariant QuoteEnd(source, currentPosition) == QuoteEnd(source, startPosition + 1)
        invariant tokens == old(tokens)
        decreases |source| - currentPosition
      {
        Advance();
      }
      assert QuoteEnd(source, currentPosition) == currentPosition;
      if currentPosition >= |source| {
        return Err("Unterminated string\n");
      }
      AddToken(StringLiteral, None);
      return Ok(());
    }

    /** The `while (isdigit(peek())) advance();` loop of `consume_digit`. */
    method SkipDigits()
      requires currentPosition <= |source|
      modifies this`currentPosition
      ensures currentPosition == DigitsEnd(source, old(currentPosition))
    {
      while IsDigit(Peek())
        invariant old(currentPosition) <= currentPosition <= |source|
        invariant DigitsEnd(source, currentPosition) == DigitsEnd(source, old(currentPosition))
        decreases |source| - currentPosition
      {
        Advance();
      }
    }

    /** `consume_digit`, after the first digit. */
    method ConsumeDigit() returns (r: Result<()>)
      requires startPosition < currentPosition <= |source| && IsDigit(source[startPosition])
      requires currentPosition == startPosition + 1
      modifies this`currentPosition, this`tokens
      ensures var want := ScanNumber(source, startPosition);
              (want.Err? ==> r == Err(want.msg)) &&
              (want.Ok? ==> r.Ok? && currentPosition == want.value.1 && tokens == old(tokens) + Emitted(want.value.0))
    {
      SkipDigits();
      if Peek() == '.' {
        // The fraction is consumed before the error is thrown; the cursor no longer matters.
        Advance();
        SkipDigits();
        return Err("double/float values are currently unsupported");
      }
      DigitsEndSpec(source, startPosition + 1);
      var text := source[startPosition..currentPosition];
      assert AllDigits(text) by {
        assert text == [source[startPosition]] + source[startPosition + 1..currentPosition];
      }
      var value := DigitsValue(text);
      if !InRange(value) {
        return Err("stoi");
      }
      AddToken(IntLiteral, Some(value as int32));
      return Ok(());
    }

    /** `consume_identifier`, after the first letter. */
    method ConsumeIdentifier() returns (r: Result<()>)
      requires startPosition < currentPosition <= |source|
      requires currentPosition == startPosition + 1
      modifies this`currentPosition, this`tokens
      ensures var want := ScanWord(source, startPosition);
              (want.Err? ==> r == Err(want.msg)) &&
              (want.Ok? ==> r.Ok? && currentPosition == want.value.1 && tokens == old(tokens) + Emitted(want.value.0))
    {
      while IsWordChar(Peek())
        invariant startPosition < currentPosition <= |source|
        invariant WordEnd(source, currentPosition) == WordEnd(source, startPosition + 1)
        invariant tokens == old(tokens)
        decreases |source| - currentPosition
      {
        Advance();
      }
      assert WordEnd(source, currentPosition) == currentPosition;
      if currentPosition >= |source| {
        return Err("Unterminated identifier\n");
      }
      AddToken(KeywordOrIdentifier(source[startPosition..currentPosition]), None);
      return Ok(());
    }

    /** `add_token(match_next(second) ? two : one)`. */
    method AddMunched(second: char, two: TokenType, one: TokenType)
      requires startPosition < |source| && currentPosition == startPosition + 1 && second != '\0'
      modifies this`currentPosition, this`tokens
      ensures var want := Munch(source, startPosition, second, two, one);
              currentPosition == want.value.1 && tokens == old(tokens) + Emitted(want.value.0)
    {
      var matched := MatchNext(second);
      AddToken(if matched then two else one, None);
    }

    /** The `/` case: a comment is skipped, otherwise a division token is added. */
    method LexSlash()
      requires startPosition < |source| && currentPosition == startPosition + 1
      modifies this`currentPosition, this`tokens
      ensures var want := ScanSlash(source, startPosition);
              currentPosition == want.value.1 && tokens == old(tokens) + Emitted(want.value.0)
    {
      var slash := MatchNext('/');
      if slash {
        SkipLine();
      } else {
        var star := MatchNext('*');
        if star {
          SkipMultilineComment();
        } else {
          AddToken(Slash, None);
        }
      }
    }

    /** `lex`: one lexeme from the cursor. */
    method Lex() returns (r: Result<()>)
      requires startPosition == currentPosition < |source|
      modifies this`currentPosition, this`tokens
      ensures var want := ScanStep(source, old(currentPosition));
              (want.Err? ==> r == Err(want.msg)) &&
              (want.Ok? ==> r.Ok? && currentPosition == want.value.1 && tokens == old(tokens) + Emitted(want.value.0))
    {
      var c := Peek();
      Advance();
      r := Ok(());
      if IsSingle(c) {
        AddToken(SingleKind(c), None);
      } else if c == '/' {
        LexSlash();
      } else if IsOperatorStart(c) {
        AddMunched(SecondOf(c), LongKind(c), ShortKind(c));
      } else if c == '"' {
        r := ConsumeString();
      } else if IsBlank(c) {
      } else if IsDigit(c) {
        r := ConsumeDigit();
      } else if IsAlpha(c) {
        r := ConsumeIdentifier();
      } else {
        r := Err("Unknown symbol while lexing");
      }
    }

    /** `parse_tokens`: the cursors and the token list are not reset, so a second call continues
        from where the first stopped and appends to its tokens. */
    method ParseTokens(input: string) returns (r: Result<seq<Token>>)
      modifies this
      ensures old(currentPosition) >= |input| ==> r == Ok(old(tokens))
      ensures old(currentPosition) < |input| ==> r == AppendTo(old(tokens), Tokenize(input, old(currentPosition)))
    {
      source := input;
      ghost var from := currentPosition;
      while currentPosition < |source|
        invariant source == input
        invariant from < |input| ==> currentPosition <= |input|
        invariant from >= |input| ==> currentPosition == from && tokens == old(tokens)
        invariant from < |input| ==>
                    AppendTo(tokens, Tokenize(input, currentPosition)) == AppendTo(old(tokens), Tokenize(input, from))
        decreases |source| - currentPosition
      {
        startPosition := currentPosition;
        ghost var before, at := tokens, currentPosition;
        TokenizeUnfold(input, at);
        var step := Lex();
        if step.Err? {
          return Err(step.msg);
        }
        AppendToAssociative(before, Emitted(ScanStep(input, at).value.0), Tokenize(input, currentPosition));
      }
      if from < |input| {
        assert Tokenize(input, currentPosition) == Ok([]);
        assert tokens + [] == tokens;
      }
      return Ok(tokens);
    }
  }

  /** A fresh lexer reads the whole input. */
  method LexSource(input: string) returns (r: Result<seq<Token>>)
    ensures r == Tokenize(input, 0)
  {
    var lexer := new Lexer();
    r := lexer.ParseTokens(input);
    AppendToAssociative([], [], Tokenize(input, 0));
  }
}
