/** Token kinds and tokens produced by the lexer (src/lexer/token.h). */
module Tokens {
  import opened Wrappers
  import opened MachineInt

  /** `TokenType` is a C++ `enum class`: an integer type whose enumerators are numbered from 0
      in declaration order. */
  newtype TokenType = k: int | 0 <= k < 60

  const LeftParen: TokenType := 0
  const RightParen: TokenType := 1
  const LeftBrace: TokenType := 2
  const RightBrace: TokenType := 3
  const Colon: TokenType := 4
  const Comma: TokenType := 5
  const Dot: TokenType := 6
  const QuestionMark: TokenType := 7
  const Semicolon: TokenType := 8
  const Slash: TokenType := 9
  const Star: TokenType := 10
  const Not: TokenType := 11
  const NotEqual: TokenType := 12
  const Equal: TokenType := 13
  const EqualEqual: TokenType := 14
  const Greater: TokenType := 15
  const GreaterEqual: TokenType := 16
  const Less: TokenType := 17
  const LessEqual: TokenType := 18
  const Minus: TokenType := 19
  const MinusMinus: TokenType := 20
  const Plus: TokenType := 21
  const PlusPlus: TokenType := 22
  const Percent: TokenType := 23
  const Ampersand: TokenType := 24
  const Pipe: TokenType := 25
  const Caret: TokenType := 26
  const Tilde: TokenType := 27
  const PlusEqual: TokenType := 28
  const MinusEqual: TokenType := 29
  const StarEqual: TokenType := 30
  const SlashEqual: TokenType := 31
  const PercentEqual: TokenType := 32
  const AmpersandEqual: TokenType := 33
  const PipeEqual: TokenType := 34
  const CaretEqual: TokenType := 35
  const LogicalAnd: TokenType := 36
  const LogicalOr: TokenType := 37
  const Identifier: TokenType := 38
  const StringLiteral: TokenType := 39
  const IntLiteral: TokenType := 40
  const DoubleLiteral: TokenType := 41
  const Int: TokenType := 42
  const Float: TokenType := 43
  const Char: TokenType := 44
  const Bool: TokenType := 45
  const Void: TokenType := 46
  const Double: TokenType := 47
  const If: TokenType := 48
  const Else: TokenType := 49
  const While: TokenType := 50
  const Do: TokenType := 51
  const For: TokenType := 52
  const Return: TokenType := 53
  const Break: TokenType := 54
  const Continue: TokenType := 55
  const True: TokenType := 56
  const False: TokenType := 57
  const Goto: TokenType := 58
  const Struct: TokenType := 59

  /** A token: its kind, the source text it was read from and, for integer literals, the value. */
  datatype Token = Token(kind: TokenType, lexeme: string, literal: Option<int32>)
}
