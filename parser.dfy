/** The recursive-descent parser (src/parser/parser.cpp). The functions `…At` say what each
    parsing routine yields from a cursor position: the tree and the position after it, or the
    error it throws. The class `Parser` is the routine itself, a cursor advanced over the token
    list, proved to agree with them. */
module Parsing {
  import opened Wrappers
  import opened MachineInt
  import opened Tokens
  import opened Ast

  /** `peek()` and `peek_next()` past the last token are undefined in the source; the model makes
      them this error. */
  const PAST_END := "token read past the end of the input"
  /** `*previous().get_literal()` on a literal token that carries no value is undefined in the
      source (string and double literals); the model makes it this error. */
  const NO_LITERAL := "literal token without a value"

  // ---------------------------------------------------------------------------------------
  // Cursor primitives
  // ---------------------------------------------------------------------------------------

  /** `check`: the token at `p` has kind `k`; false at the end. */
  predicate Check(ts: seq<Token>, p: nat, k: TokenType) {
    p < |ts| && ts[p].kind == k
  }

  /** `match(kinds...)`: whether the token at `p` has one of the kinds. Every alternative reads
      the token, so at the end the first one already reads past it. */
  function MatchAny(ts: seq<Token>, p: nat, kinds: seq<TokenType>): Result<bool> {
    if kinds == [] then Ok(false)
    else if p >= |ts| then Err(PAST_END)
    else Ok(ts[p].kind in kinds)
  }

  /** `consume`: the position after the expected token, or the given error. */
  function ConsumeAt(ts: seq<Token>, p: nat, k: TokenType, message: string): (r: Result<nat>)
    ensures r.Ok? <==> Check(ts, p, k)
    ensures r.Ok? ==> r.value == p + 1
    ensures r.Err? ==> r.msg == message
  {
    if Check(ts, p, k) then Ok(p + 1) else Err(message)
  }

  // ---------------------------------------------------------------------------------------
  // Precedence levels
  // ---------------------------------------------------------------------------------------

  /** The binary levels from loosest to tightest: 1 `||`, 2 `&&`, 3 equality, 4 comparison,
      5 additive, 6 multiplicative. Assignment is level 0, unary 7, primary 8. */
  const LOOSEST: nat := 1
  const TIGHTEST: nat := 6

  function OperatorsOf(level: nat): seq<TokenType>
    requires LOOSEST <= level <= TIGHTEST
  {
    match level
    case 1 => [LogicalOr]
    case 2 => [LogicalAnd]
    case 3 => [NotEqual, EqualEqual]
    case 4 => [Less, LessEqual, Greater, GreaterEqual]
    case 5 => [Plus, Minus]
    case _ => [Star, Slash]
  }

  /** The level a binary operator belongs to, 0 for any other token kind. */
  function OpLevel(op: TokenType): nat {
    if op == LogicalOr then 1
    else if op == LogicalAnd then 2
    else if op == NotEqual || op == EqualEqual then 3
    else if op == Less || op == LessEqual || op == Greater || op == GreaterEqual then 4
    else if op == Plus || op == Minus then 5
    else if op == Star || op == Slash then 6
    else 0
  }

  /** Each operator belongs to exactly one level. */
  lemma OperatorsOfLevel(level: nat, op: TokenType)
    requires LOOSEST <= level <= TIGHTEST
    ensures op in OperatorsOf(level) <==> OpLevel(op) == level
  {
  }

  /** The node a level builds: the two logical levels build logical nodes, the others binary ones. */
  function Combine(level: nat, left: Expr, op: TokenType, right: Expr): Expr {
    if level <= 2 then LogicalExpr(left, op, right) else BinaryExpr(left, op, right)
  }

  /** How tightly an expression binds at its root. */
  function Precedence(e: Expr): nat {
    match e
    case AssignmentExpr(_, _) => 0
    case LogicalExpr(_, op, _) => OpLevel(op)
    case BinaryExpr(_, op, _) => OpLevel(op)
    case UnaryExpr(_, _) => 7
    case _ => 8
  }

  /** A tree that respects precedence and associativity: below an operator node no looser
      operator appears without parentheses, the left operand may be of the same level (left
      associativity), the right operand is strictly tighter, and unary operators apply to
      unary or primary operands. */
  ghost predicate WellNested(e: Expr) {
    match e
    case LiteralExpr(_) => true
    case VariableExpr(_) => true
    case GroupingExpr(inner) => WellNested(inner)
    case AssignmentExpr(_, assignedValue) => WellNested(assignedValue)
    case UnaryExpr(op, operand) => op in [Tilde, Minus, Not] && Precedence(operand) >= 7 && WellNested(operand)
    case LogicalExpr(left, op, right) =>
      1 <= OpLevel(op) <= 2 && Precedence(left) >= OpLevel(op) && Precedence(right) > OpLevel(op) &&
      WellNested(left) && WellNested(right)
    case BinaryExpr(left, op, right) =>
      3 <= OpLevel(op) <= 6 && Precedence(left) >= OpLevel(op) && Precedence(right) > OpLevel(op) &&
      WellNested(left) && WellNested(right)
    case CallExpr(_, arguments) => forall i :: 0 <= i < |arguments| ==> WellNested(arguments[i])
  }

  // ---------------------------------------------------------------------------------------
  // Expressions
  // ---------------------------------------------------------------------------------------

  /** `parse_expression` / `parse_assignment_expr`: right-associative, and an assignment only
      when the left side is a variable; otherwise the parsed right side is dropped. */
  function AssignmentAt(ts: seq<Token>, p: nat): (r: Result<(Expr, nat)>)
    requires p <= |ts|
    ensures r.Ok? ==> p < r.value.1 <= |ts|
    decreases |ts| - p, 9
  {
    var (e, q) :- LevelAt(ts, p, LOOSEST);
    var assign :- MatchAny(ts, q, [Equal]);
    if !assign then Ok((e, q))
    else
      var (value, q') :- AssignmentAt(ts, q + 1);
      if e.VariableExpr? then Ok((AssignmentExpr(e.name, value), q')) else Ok((e, q'))
  }

  /** The operand of a binary level: the next level, or the unary level below the tightest. */
  function OperandAt(ts: seq<Token>, p: nat, level: nat): (r: Result<(Expr, nat)>)
    requires p <= |ts| && LOOSEST <= level <= TIGHTEST
    ensures r.Ok? ==> p < r.value.1 <= |ts|
    decreases |ts| - p, 9 - level, 1
  {
    if level == TIGHTEST then UnaryAt(ts, p) else LevelAt(ts, p, level + 1)
  }

  /** One binary level (`parse_logical_or_expr` … `parse_multiplicative_expr`): an operand, then
      as many `operator operand` pairs as follow, folded to the left. */
  function LevelAt(ts: seq<Token>, p: nat, level: nat): (r: Result<(Expr, nat)>)
    requires p <= |ts| && LOOSEST <= level <= TIGHTEST
    ensures r.Ok? ==> p < r.value.1 <= |ts|
    decreases |ts| - p, 9 - level, 2
  {
    var (left, q) :- OperandAt(ts, p, level);
    RestAt(ts, q, level, left)
  }

  /** The `while (match(operators))` loop of a binary level with `left` built so far. */
  function RestAt(ts: seq<Token>, p: nat, level: nat, left: Expr): (r: Result<(Expr, nat)>)
    requires p <= |ts| && LOOSEST <= level <= TIGHTEST
    ensures r.Ok? ==> p <= r.value.1 <= |ts|
    decreases |ts| - p, 9 - level, 0
  {
    var more :- MatchAny(ts, p, OperatorsOf(level));
    if !more then Ok((left, p))
    else
      var op := ts[p].kind;
      var (right, q) :- OperandAt(ts, p + 1, level);
      RestAt(ts, q, level, Combine(level, left, op, right))
  }

  /** `parse_unary_expr`: prefix `~ - !` apply to a unary operand, recursively. */
  function UnaryAt(ts: seq<Token>, p: nat): (r: Result<(Expr, nat)>)
    requires p <= |ts|
    ensures r.Ok? ==> p < r.value.1 <= |ts|
    decreases |ts| - p, 2
  {
    var prefix :- MatchAny(ts, p, [Tilde, Minus, Not]);
    if prefix then
      var (operand, q) :- UnaryAt(ts, p + 1);
      Ok((UnaryExpr(ts[p].kind, operand), q))
    else PrimaryAt(ts, p)
  }

  /** `parse_primary_expr`: a literal, a parenthesised group, a variable or a call. */
  function PrimaryAt(ts: seq<Token>, p: nat): (r: Result<(Expr, nat)>)
    requires p <= |ts|
    ensures r.Ok? ==> p < r.value.1 <= |ts|
    decreases |ts| - p, 1
  {
    var literal :- MatchAny(ts, p, [IntLiteral, StringLiteral, DoubleLiteral]);
    if literal then
      if ts[p].literal.Some? then Ok((LiteralExpr(ts[p].literal.value), (p + 1) as nat)) else Err(NO_LITERAL)
    else if ts[p].kind == LeftParen then
      var (inner, q) :- AssignmentAt(ts, p + 1);
      var q' :- ConsumeAt(ts, q, RightParen, "Expected ')' after expression");
      Ok((GroupingExpr(inner), q'))
    else if ts[p].kind == Identifier then
      var name := ts[p].lexeme;
      var call :- MatchAny(ts, p + 1, [LeftParen]);
      if call then CallAt(ts, p + 2, name) else Ok((VariableExpr(name), (p + 1) as nat))
    else Err("Encounter Unknown expression while parsing")
  }

  /** `parse_call_expr`, after the opening parenthesis. */
  function CallAt(ts: seq<Token>, p: nat, name: string): (r: Result<(Expr, nat)>)
    requires p <= |ts|
    ensures r.Ok? ==> p < r.value.1 <= |ts|
    decreases |ts| - p, 11
  {
    if Check(ts, p, RightParen) then CloseCallAt(ts, p, name, [])
    else ArgumentsAt(ts, p, name, [])
  }

  /** The `do … while (match(Comma))` loop of the arguments with `arguments` parsed so far, then
      the closing parenthesis. */
  function ArgumentsAt(ts: seq<Token>, p: nat, name: string, arguments: seq<Expr>): (r: Result<(Expr, nat)>)
    requires p <= |ts|
    ensures r.Ok? ==> p < r.value.1 <= |ts|
    decreases |ts| - p, 10
  {
    var (argument, q) :- AssignmentAt(ts, p);
    var comma :- MatchAny(ts, q, [Comma]);
    if comma then ArgumentsAt(ts, q + 1, name, arguments + [argument])
    else CloseCallAt(ts, q, name, arguments + [argument])
  }

  /** The closing parenthesis of a call. */
  function CloseCallAt(ts: seq<Token>, p: nat, name: string, arguments: seq<Expr>): (r: Result<(Expr, nat)>)
    requires p <= |ts|
    ensures r.Ok? ==> p < r.value.1 <= |ts|
  {
    var q :- ConsumeAt(ts, p, RightParen, "Expected ')' after arguments");
    Ok((CallExpr(name, arguments), q))
  }

  // ---------------------------------------------------------------------------------------
  // Precedence and associativity of the trees built
  // ---------------------------------------------------------------------------------------

  /** Every expression the parser builds is well nested; the lemmas follow the routines' own
      recursion. */
  lemma {:induction false} AssignmentNested(ts: seq<Token>, p: nat)
    requires p <= |ts|
    ensures AssignmentAt(ts, p).Ok? ==> WellNested(AssignmentAt(ts, p).value.0)
    decreases |ts| - p, 9
  {
    LevelNested(ts, p, LOOSEST);
    var r := LevelAt(ts, p, LOOSEST);
    if r.Ok? && MatchAny(ts, r.value.1, [Equal]) == Ok(true) {
      AssignmentNested(ts, r.value.1 + 1);
    }
  }

  lemma {:induction false} OperandNested(ts: seq<Token>, p: nat, level: nat)
    requires p <= |ts| && LOOSEST <= level <= TIGHTEST
    ensures OperandAt(ts, p, level).Ok? ==>
              WellNested(OperandAt(ts, p, level).value.0) && Precedence(OperandAt(ts, p, level).value.0) > level
    decreases |ts| - p, 9 - level, 1
  {
    if level == TIGHTEST {
      UnaryNested(ts, p);
    } else {
      LevelNested(ts, p, level + 1);
    }
  }

  /** A binary level yields a tree whose root binds at least as tightly as the level. */
  lemma {:induction false} LevelNested(ts: seq<Token>, p: nat, level: nat)
    requires p <= |ts| && LOOSEST <= level <= TIGHTEST
    ensures LevelAt(ts, p, level).Ok? ==>
              WellNested(LevelAt(ts, p, level).value.0) && Precedence(LevelAt(ts, p, level).value.0) >= level
    decreases |ts| - p, 9 - level, 2
  {
    OperandNested(ts, p, level);
    var r := OperandAt(ts, p, level);
    if r.Ok? {
      RestNested(ts, r.value.1, level, r.value.0);
    }
  }

  /** Folding to the left keeps the tree well nested: each new root is an operator of the level
      over the tree so far and a strictly tighter operand. */
  lemma {:induction false} RestNested(ts: seq<Token>, p: nat, level: nat, left: Expr)
    requires p <= |ts| && LOOSEST <= level <= TIGHTEST
    requires WellNested(left) && Precedence(left) >= level
    ensures RestAt(ts, p, level, left).Ok? ==>
              WellNested(RestAt(ts, p, level, left).value.0) && Precedence(RestAt(ts, p, level, left).value.0) >= level
    decreases |ts| - p, 9 - level, 0
  {
    if MatchAny(ts, p, OperatorsOf(level)) == Ok(true) {
      var op := ts[p].kind;
      OperatorsOfLevel(level, op);
      OperandNested(ts, p + 1, level);
      var r := OperandAt(ts, p + 1, level);
      if r.Ok? {
        var e := Combine(level, left, op, r.value.0);
        assert WellNested(e) && Precedence(e) == level;
        RestNested(ts, r.value.1, level, e);
      }
    }
  }

  lemma {:induction false} UnaryNested(ts: seq<Token>, p: nat)
    requires p <= |ts|
    ensures UnaryAt(ts, p).Ok? ==> WellNested(UnaryAt(ts, p).value.0) && Precedence(UnaryAt(ts, p).value.0) >= 7
    decreases |ts| - p, 2
  {
    if MatchAny(ts, p, [Tilde, Minus, Not]) == Ok(true) {
      UnaryNested(ts, p + 1);
    } else {
      PrimaryNested(ts, p);
    }
  }

  lemma {:induction false} PrimaryNested(ts: seq<Token>, p: nat)
    requires p <= |ts|
    ensures PrimaryAt(ts, p).Ok? ==> WellNested(PrimaryAt(ts, p).value.0) && Precedence(PrimaryAt(ts, p).value.0) == 8
    decreases |ts| - p, 1
  {
    if MatchAny(ts, p, [IntLiteral, StringLiteral, DoubleLiteral]) == Ok(false) && p < |ts| {
      if ts[p].kind == LeftParen {
        AssignmentNested(ts, p + 1);
      } else if ts[p].kind == Identifier && MatchAny(ts, p + 1, [LeftParen]) == Ok(true) {
        CallNested(ts, p + 2, ts[p].lexeme);
      }
    }
  }

  lemma {:induction false} CallNested(ts: seq<Token>, p: nat, name: string)
    requires p <= |ts|
    ensures CallAt(ts, p, name).Ok? ==> WellNested(CallAt(ts, p, name).value.0) && Precedence(CallAt(ts, p, name).value.0) == 8
    decreases |ts| - p, 11
  {
    if !Check(ts, p, RightParen) {
      ArgumentsNested(ts, p, name, []);
    }
  }

  lemma {:induction false} ArgumentsNested(ts: seq<Token>, p: nat, name: string, arguments: seq<Expr>)
    requires p <= |ts|
    requires forall i :: 0 <= i < |arguments| ==> WellNested(arguments[i])
    ensures ArgumentsAt(ts, p, name, arguments).Ok? ==>
              WellNested(ArgumentsAt(ts, p, name, arguments).value.0) && Precedence(ArgumentsAt(ts, p, name, arguments).value.0) == 8
    decreases |ts| - p, 10
  {
    AssignmentNested(ts, p);
    var r := AssignmentAt(ts, p);
    if r.Ok? {
      var more := arguments + [r.value.0];
      assert forall i :: 0 <= i < |more| ==> WellNested(more[i]) by {
        forall i | 0 <= i < |more|
          ensures WellNested(more[i])
        {
          if i < |arguments| {
            assert more[i] == arguments[i];
          }
        }
      }
      if MatchAny(ts, r.value.1, [Comma]) == Ok(true) {
        ArgumentsNested(ts, r.value.1 + 1, name, more);
      }
    }
  }

  // ---------------------------------------------------------------------------------------
  // Statements and declarations
  // ---------------------------------------------------------------------------------------

  /** `parse_statement`: dispatch on `if`, `while`, `{`, `return`, else an expression statement. */
  function StatementAt(ts: seq<Token>, p: nat): (r: Result<(Stmt, nat)>)
    requires p <= |ts|
    ensures r.Ok? ==> p < r.value.1 <= |ts|
    decreases |ts| - p, 13
  {
    var isIf :- MatchAny(ts, p, [If]);
    if isIf then IfAt(ts, p + 1)
    else if ts[p].kind == While then WhileAt(ts, p + 1)
    else if ts[p].kind == LeftBrace then BlockAt(ts, p + 1)
    else if ts[p].kind == Return then ReturnAt(ts, p + 1)
    else ExpressionStatementAt(ts, p)
  }

  /** `peek_next`: nothing at the end; otherwise the token after the current one, which past the
      last token is undefined in the source. */
  function PeekNextAt(ts: seq<Token>, p: nat): Result<Option<Token>> {
    if p >= |ts| then Ok(None)
    else if p + 1 < |ts| then Ok(Some(ts[p + 1]))
    else Err(PAST_END)
  }

  /** `parse_declaration_statement`: after a type keyword the token after the next one decides
      between a variable (`=` or `;`) and a function (`(`). */
  function DeclarationAt(ts: seq<Token>, p: nat): (r: Result<(Stmt, nat)>)
    requires p <= |ts|
    ensures r.Ok? ==> p < r.value.1 <= |ts|
    decreases |ts| - p, 14
  {
    var typed :- MatchAny(ts, p, [Int, Char, Void, Double]);
    if !typed then StatementAt(ts, p)
    else
      var next :- PeekNextAt(ts, p + 1);
      if next.Some? && (next.value.kind == Equal || next.value.kind == Semicolon) then VariableDeclarationAt(ts, p + 1)
      else if next.Some? && next.value.kind == LeftParen then FunctionDeclarationAt(ts, p + 1)
      else Err("Expected variable declaration or function declaration")
  }

  /** `parse_variable_declaration_statement`, after the type. */
  function VariableDeclarationAt(ts: seq<Token>, p: nat): (r: Result<(Stmt, nat)>)
    requires p <= |ts|
    ensures r.Ok? ==> p < r.value.1 <= |ts|
    decreases |ts| - p, 12
  {
    var q :- ConsumeAt(ts, p, Identifier, "Expected identifier after type");
    var name := ts[p].lexeme;
    var hasInitializer :- MatchAny(ts, q, [Equal]);
    if hasInitializer then
      var (initializer, q') :- AssignmentAt(ts, q + 1);
      var q'' :- ConsumeAt(ts, q', Semicolon, "Expected ';' after variable declaration");
      Ok((VariableStmt(name, Some(initializer)), q''))
    else
      var q' :- ConsumeAt(ts, q, Semicolon, "Expected ';' after variable declaration");
      Ok((VariableStmt(name, None), q'))
  }

  /** `parse_function_declaration_statement`, after the return type `ts[p - 1]`. */
  function FunctionDeclarationAt(ts: seq<Token>, p: nat): (r: Result<(Stmt, nat)>)
    requires 0 < p <= |ts|
    ensures r.Ok? ==> p < r.value.1 <= |ts|
    decreases |ts| - p, 12
  {
    var returnType := ts[p - 1].kind;
    var q :- ConsumeAt(ts, p, Identifier, "Expected function name after type");
    var name := ts[p].lexeme;
    var q' :- ConsumeAt(ts, q, LeftParen, "Expected '(' after function name");
    var (params, q'') :- ParameterListAt(ts, q');
    FunctionBodyAt(ts, q'', returnType, name, params)
  }

  /** The parameters up to the closing parenthesis: none when it follows at once. */
  function ParameterListAt(ts: seq<Token>, p: nat): (r: Result<(seq<Param>, nat)>)
    requires p <= |ts|
    ensures r.Ok? ==> p <= r.value.1 <= |ts|
  {
    if Check(ts, p, RightParen) then Ok(([], p)) else ParamsAt(ts, p, [])
  }

  /** The `do … while (match(Comma) && !is_end())` loop of the parameters, each `int name`, with
      `params` read so far. */
  function ParamsAt(ts: seq<Token>, p: nat, params: seq<Param>): (r: Result<(seq<Param>, nat)>)
    requires p <= |ts|
    ensures r.Ok? ==> p < r.value.1 <= |ts|
    decreases |ts| - p
  {
    var q :- ConsumeAt(ts, p, Int, "Expected parameter type");
    var q' :- ConsumeAt(ts, q, Identifier, "Expected parameter name");
    var params' := params + [Param(ts[q].lexeme, ts[p].kind)];
    var comma :- MatchAny(ts, q', [Comma]);
    if !comma then Ok((params', q'))
    else if q' + 1 < |ts| then ParamsAt(ts, q' + 1, params')
    else Ok((params', q' + 1))
  }

  /** The closing parenthesis, the opening brace and the body of a function declaration. */
  function FunctionBodyAt(ts: seq<Token>, p: nat, returnType: TokenType, name: string, params: seq<Param>): (r: Result<(Stmt, nat)>)
    requires p <= |ts|
    ensures r.Ok? ==> p < r.value.1 <= |ts|
    decreases |ts| - p, 17
  {
    var q :- ConsumeAt(ts, p, RightParen, "Expected ')' after parameters");
    var q' :- ConsumeAt(ts, q, LeftBrace, "Expected '{' before function body");
    var (body, q'') :- BlockAt(ts, q');
    Ok((FunctionDeclStmt(returnType, name, params, body), q''))
  }

  /** The parenthesised condition of `parse_if_statement` and `parse_while_statement`, with the
      messages for a missing parenthesis on either side. */
  function ConditionAt(ts: seq<Token>, p: nat, openMessage: string, closeMessage: string): (r: Result<(Expr, nat)>)
    requires p <= |ts|
    ensures r.Ok? ==> p < r.value.1 <= |ts|
    decreases |ts| - p, 11
  {
    var q :- ConsumeAt(ts, p, LeftParen, openMessage);
    var (condition, q') :- AssignmentAt(ts, q);
    var q'' :- ConsumeAt(ts, q', RightParen, closeMessage);
    Ok((condition, q''))
  }

  /** `parse_if_statement`, after `if`. */
  function IfAt(ts: seq<Token>, p: nat): (r: Result<(Stmt, nat)>)
    requires p <= |ts|
    ensures r.Ok? ==> p < r.value.1 <= |ts|
    decreases |ts| - p, 12
  {
    var (condition, q) :- ConditionAt(ts, p, "Expected '(' after if", "Expected ')' after if condition");
    BranchesAt(ts, q, condition)
  }

  /** The then branch of an `if` and, after `else`, the optional else branch. */
  function BranchesAt(ts: seq<Token>, p: nat, condition: Expr): (r: Result<(Stmt, nat)>)
    requires p <= |ts|
    ensures r.Ok? ==> p < r.value.1 <= |ts|
    decreases |ts| - p, 14
  {
    var (thenBranch, q) :- StatementAt(ts, p);
    var hasElse :- MatchAny(ts, q, [Else]);
    if hasElse then
      var (elseBranch, q') :- StatementAt(ts, q + 1);
      Ok((IfStmt(condition, thenBranch, Some(elseBranch)), q'))
    else Ok((IfStmt(condition, thenBranch, None), q))
  }

  /** `parse_while_statement`, after `while`. */
  function WhileAt(ts: seq<Token>, p: nat): (r: Result<(Stmt, nat)>)
    requires p <= |ts|
    ensures r.Ok? ==> p < r.value.1 <= |ts|
    decreases |ts| - p, 12
  {
    var (condition, q) :- ConditionAt(ts, p, "Expected '(' after while", "Expected ')' after while condition");
    var (body, q') :- StatementAt(ts, q);
    Ok((WhileStmt(condition, body), q'))
  }

  /** `parse_block_statement`, after `{`. */
  function BlockAt(ts: seq<Token>, p: nat): (r: Result<(Stmt, nat)>)
    requires p <= |ts|
    ensures r.Ok? ==> p < r.value.1 <= |ts| && r.value.0.BlockStmt?
    decreases |ts| - p, 16
  {
    BlockItemsAt(ts, p, [])
  }

  /** The `while (!check(RightBrace) && !is_end())` loop of a block, then the closing brace. */
  function BlockItemsAt(ts: seq<Token>, p: nat, statements: seq<Stmt>): (r: Result<(Stmt, nat)>)
    requires p <= |ts|
    ensures r.Ok? ==> p < r.value.1 <= |ts| && r.value.0.BlockStmt?
    decreases |ts| - p, 15
  {
    if Check(ts, p, RightBrace) || p >= |ts| then
      var q :- ConsumeAt(ts, p, RightBrace, "Expected '}' after block");
      Ok((BlockStmt(statements), q))
    else
      var (s, q) :- DeclarationAt(ts, p);
      BlockItemsAt(ts, q, statements + [s])
  }

  /** `parse_expression_statement`. */
  function ExpressionStatementAt(ts: seq<Token>, p: nat): (r: Result<(Stmt, nat)>)
    requires p <= |ts|
    ensures r.Ok? ==> p < r.value.1 <= |ts|
    decreases |ts| - p, 12
  {
    var (e, q) :- AssignmentAt(ts, p);
    var q' :- ConsumeAt(ts, q, Semicolon, "Expected ';' after expression");
    Ok((ExpressionStmt(e), q'))
  }

  /** `parse_return_statement`, after `return`. */
  function ReturnAt(ts: seq<Token>, p: nat): (r: Result<(Stmt, nat)>)
    requires p <= |ts|
    ensures r.Ok? ==> p < r.value.1 <= |ts|
    decreases |ts| - p, 12
  {
    var (e, q) :- AssignmentAt(ts, p);
    var q' :- ConsumeAt(ts, q, Semicolon, "Expected ';' after return statement");
    Ok((ReturnStmt(e), q'))
  }

  /** `parse_ast` from cursor `p`: declarations until the tokens are exhausted. */
  function ProgramFrom(ts: seq<Token>, p: nat): Result<seq<Stmt>>
    requires p <= |ts|
    decreases |ts| - p
  {
    if p == |ts| then Ok([])
    else
      var (s, q) :- DeclarationAt(ts, p);
      var rest :- ProgramFrom(ts, q);
      Ok([s] + rest)
  }

  /** A parsing routine's outcome agrees with its specification: the same tree with the cursor
      after it, or the same error. */
  predicate Agrees<T(==)>(want: Result<(T, nat)>, r: Result<T>, position: nat) {
    if want.Ok? then r == Ok(want.value.0) && position == want.value.1 else r == Err(want.msg)
  }

  /** The statement list `parse_ast` ends with: those collected before, then the new ones. */
  function Appended(prefix: seq<Stmt>, r: Result<seq<Stmt>>): Result<seq<Stmt>> {
    if r.Ok? then Ok(prefix + r.value) else Err(r.msg)
  }

  /** One turn of the `parse_ast` loop: the declaration at `p` joins the collected statements. */
  lemma {:induction false} AppendedStep(prefix: seq<Stmt>, ts: seq<Token>, p: nat)
    requires p < |ts| && DeclarationAt(ts, p).Ok?
    ensures Appended(prefix, ProgramFrom(ts, p)) ==
            Appended(prefix + [DeclarationAt(ts, p).value.0], ProgramFrom(ts, DeclarationAt(ts, p).value.1))
  {
    var (s, q) := DeclarationAt(ts, p).value;
    var rest := ProgramFrom(ts, q);
    if rest.Ok? {
      assert prefix + ([s] + rest.value) == (prefix + [s]) + rest.value;
    }
  }

  class Parser {
    var tokens: seq<Token>
    var statements: seq<Stmt>
    var currentPosition: nat

    constructor ()
      ensures tokens == [] && statements == [] && currentPosition == 0
    {
      tokens := [];
      statements := [];
      currentPosition := 0;
    }

    /** `match`: the alternatives in order; the cursor moves past the token when one fits. */
    method Match(kinds: seq<TokenType>) returns (r: Result<bool>)
      requires currentPosition <= |tokens|
      modifies this`currentPosition
      ensures tokens == old(tokens)
      ensures r == MatchAny(tokens, old(currentPosition), kinds)
      ensures currentPosition == if r == Ok(true) then old(currentPosition) + 1 else old(currentPosition)
    {
      var i := 0;
      while i < |kinds|
        invariant 0 <= i <= |kinds| && currentPosition == old(currentPosition)
        invariant 0 < i ==> currentPosition < |tokens| && tokens[currentPosition].kind !in kinds[..i]
      {
        if currentPosition >= |tokens| {
          return Err(PAST_END);
        }
        if tokens[currentPosition].kind == kinds[i] {
          currentPosition := currentPosition + 1;
          return Ok(true);
        }
        assert kinds[..i + 1] == kinds[..i] + [kinds[i]];
        i := i + 1;
      }
      assert kinds[..i] == kinds;
      return Ok(false);
    }

    /** `consume`: the expected token, after which the cursor stands, or the given error. */
    method Consume(k: TokenType, message: string) returns (r: Result<Token>)
      requires currentPosition <= |tokens|
      modifies this`currentPosition
      ensures tokens == old(tokens)
      ensures Check(tokens, old(currentPosition), k) ==>
                r == Ok(tokens[old(currentPosition)]) && currentPosition == old(currentPosition) + 1
      ensures !Check(tokens, old(currentPosition), k) ==> r == Err(message) && currentPosition == old(currentPosition)
    {
      if Check(tokens, currentPosition, k) {
        currentPosition := currentPosition + 1;
        return Ok(tokens[currentPosition - 1]);
      }
      return Err(message);
    }

    /** `parse_expression` and `parse_assignment_expr`. */
    method ParseAssignmentExpr() returns (r: Result<Expr>)
      requires currentPosition <= |tokens|
      modifies this`currentPosition
      ensures tokens == old(tokens)
      ensures Agrees(AssignmentAt(tokens, old(currentPosition)), r, currentPosition)
      decreases |tokens| - currentPosition, 9
    {
      var expression := ParseBinaryLevel(LOOSEST);
      if expression.Err? {
        return Err(expression.msg);
      }
      var assign := Match([Equal]);
      if assign.Err? {
        return Err(assign.msg);
      }
      if assign.value {
        var value := ParseAssignmentExpr();
        if value.Err? {
          return Err(value.msg);
        }
        if expression.value.VariableExpr? {
          return Ok(AssignmentExpr(expression.value.name, value.value));
        }
      }
      return expression;
    }

    /** The operand of a binary level: the next level's routine, or `parse_unary_expr` below the
        tightest. */
    method ParseOperand(level: nat) returns (r: Result<Expr>)
      requires currentPosition <= |tokens| && LOOSEST <= level <= TIGHTEST
      modifies this`currentPosition
      ensures tokens == old(tokens)
      ensures Agrees(OperandAt(tokens, old(currentPosition), level), r, currentPosition)
      decreases |tokens| - currentPosition, 9 - level, 1
    {
      if level == TIGHTEST {
        r := ParseUnaryExpr();
      } else {
        r := ParseBinaryLevel(level + 1);
      }
    }

    /** `parse_logical_or_expr` through `parse_multiplicative_expr`: an operand, then a loop
        folding `operator operand` pairs to the left. */
    method ParseBinaryLevel(level: nat) returns (r: Result<Expr>)
      requires currentPosition <= |tokens| && LOOSEST <= level <= TIGHTEST
      modifies this`currentPosition
      ensures tokens == old(tokens)
      ensures Agrees(LevelAt(tokens, old(currentPosition), level), r, currentPosition)
      decreases |tokens| - currentPosition, 9 - level, 2
    {
      var left := ParseOperand(level);
      if left.Err? {
        return Err(left.msg);
      }
      var expression := left.value;
      while true
        invariant tokens == old(tokens)
        invariant old(currentPosition) < currentPosition <= |tokens|
        invariant LevelAt(tokens, old(currentPosition), level) == RestAt(tokens, currentPosition, level, expression)
        decreases |tokens| - currentPosition
      {
        var more := Match(OperatorsOf(level));
        if more.Err? {
          return Err(more.msg);
        }
        if !more.value {
          return Ok(expression);
        }
        var op := tokens[currentPosition - 1].kind;
        var right := ParseOperand(level);
        if right.Err? {
          return Err(right.msg);
        }
        expression := Combine(level, expression, op, right.value);
      }
    }

    /** `parse_unary_expr`. */
    method ParseUnaryExpr() returns (r: Result<Expr>)
      requires currentPosition <= |tokens|
      modifies this`currentPosition
      ensures tokens == old(tokens)
      ensures Agrees(UnaryAt(tokens, old(currentPosition)), r, currentPosition)
      decreases |tokens| - currentPosition, 2
    {
      var prefix := Match([Tilde, Minus, Not]);
      if prefix.Err? {
        return Err(prefix.msg);
      }
      if prefix.value {
        var op := tokens[currentPosition - 1].kind;
        var right := ParseUnaryExpr();
        if right.Err? {
          return Err(right.msg);
        }
        return Ok(UnaryExpr(op, right.value));
      }
      r := ParsePrimaryExpr();
    }

    /** `parse_primary_expr`. */
    method ParsePrimaryExpr() returns (r: Result<Expr>)
      requires currentPosition <= |tokens|
      modifies this`currentPosition
      ensures tokens == old(tokens)
      ensures Agrees(PrimaryAt(tokens, old(currentPosition)), r, currentPosition)
      decreases |tokens| - currentPosition, 1
    {
      var isLiteral := Match([IntLiteral, StringLiteral, DoubleLiteral]);
      if isLiteral.Err? {
        return Err(isLiteral.msg);
      }
      if isLiteral.value {
        var token := tokens[currentPosition - 1];
        if token.literal.None? {
          return Err(NO_LITERAL);
        }
        return Ok(LiteralExpr(token.literal.value));
      }
      var isGroup := Match([LeftParen]);
      if isGroup.value {
        var expr := ParseAssignmentExpr();
        if expr.Err? {
          return Err(expr.msg);
        }
        var close := Consume(RightParen, "Expected ')' after expression");
        if close.Err? {
          return Err(close.msg);
        }
        return Ok(GroupingExpr(expr.value));
      }
      var isIdentifier := Match([Identifier]);
      if isIdentifier.value {
        var name := tokens[currentPosition - 1].lexeme;
        var isCall := Match([LeftParen]);
        if isCall.Err? {
          return Err(isCall.msg);
        }
        if isCall.value {
          r := ParseCallExpr(name);
          return;
        }
        return Ok(VariableExpr(name));
      }
      return Err("Encounter Unknown expression while parsing");
    }

    /** `parse_call_expr`, after the opening parenthesis. */
    method ParseCallExpr(name: string) returns (r: Result<Expr>)
      requires currentPosition <= |tokens|
      modifies this`currentPosition
      ensures tokens == old(tokens)
      ensures Agrees(CallAt(tokens, old(currentPosition), name), r, currentPosition)
      decreases |tokens| - currentPosition, 11
    {
      var arguments: seq<Expr> := [];
      if !Check(tokens, currentPosition, RightParen) {
        var more := true;
        while more
          invariant tokens == old(tokens)
          invariant old(currentPosition) <= currentPosition <= |tokens|
          invariant more ==> CallAt(tokens, old(currentPosition), name) == ArgumentsAt(tokens, currentPosition, name, arguments)
          invariant !more ==> CallAt(tokens, old(currentPosition), name) == CloseCallAt(tokens, currentPosition, name, arguments)
          decreases |tokens| - currentPosition + (if more then 1 else 0)
        {
          var argument := ParseAssignmentExpr();
          if argument.Err? {
            return Err(argument.msg);
          }
          arguments := arguments + [argument.value];
          var comma := Match([Comma]);
          if comma.Err? {
            return Err(comma.msg);
          }
          more := comma.value;
        }
      }
      var close := Consume(RightParen, "Expected ')' after arguments");
      if close.Err? {
        return Err(close.msg);
      }
      return Ok(CallExpr(name, arguments));
    }

    /** `parse_statement`. */
    method ParseStatement() returns (r: Result<Stmt>)
      requires currentPosition <= |tokens|
      modifies this`currentPosition
      ensures tokens == old(tokens)
      ensures Agrees(StatementAt(tokens, old(currentPosition)), r, currentPosition)
      decreases |tokens| - currentPosition, 13
    {
      var isIf := Match([If]);
      if isIf.Err? {
        return Err(isIf.msg);
      }
      if isIf.value {
        r := ParseIfStatement();
        return;
      }
      var isWhile := Match([While]);
      if isWhile.value {
        r := ParseWhileStatement();
        return;
      }
      var isBlock := Match([LeftBrace]);
      if isBlock.value {
        r := ParseBlockStatement();
        return;
      }
      var isReturn := Match([Return]);
      if isReturn.value {
        r := ParseReturnStatement();
        return;
      }
      r := ParseExpressionStatement();
    }

    /** `parse_declaration_statement`. */
    method ParseDeclarationStatement() returns (r: Result<Stmt>)
      requires currentPosition <= |tokens|
      modifies this`currentPosition
      ensures tokens == old(tokens)
      ensures Agrees(DeclarationAt(tokens, old(currentPosition)), r, currentPosition)
      decreases |tokens| - currentPosition, 14
    {
      var typed := Match([Int, Char, Void, Double]);
      if typed.Err? {
        return Err(typed.msg);
      }
      if typed.value {
        var next := PeekNextAt(tokens, currentPosition);
        if next.Err? {
          return Err(next.msg);
        }
        if next.value.Some? {
          if next.value.value.kind == Equal || next.value.value.kind == Semicolon {
            r := ParseVariableDeclarationStatement();
            return;
          }
          if next.value.value.kind == LeftParen {
            r := ParseFunctionDeclarationStatement();
            return;
          }
        }
        return Err("Expected variable declaration or function declaration");
      }
      r := ParseStatement();
    }

    /** `parse_variable_declaration_statement`. */
    method ParseVariableDeclarationStatement() returns (r: Result<Stmt>)
      requires currentPosition <= |tokens|
      modifies this`currentPosition
      ensures tokens == old(tokens)
      ensures Agrees(VariableDeclarationAt(tokens, old(currentPosition)), r, currentPosition)
      decreases |tokens| - currentPosition, 12
    {
      var variable := Consume(Identifier, "Expected identifier after type");
      if variable.Err? {
        return Err(variable.msg);
      }
      var initializer: Option<Expr> := None;
      var hasInitializer := Match([Equal]);
      if hasInitializer.Err? {
        return Err(hasInitializer.msg);
      }
      if hasInitializer.value {
        var value := ParseAssignmentExpr();
        if value.Err? {
          return Err(value.msg);
        }
        initializer := Some(value.value);
      }
      var semicolon := Consume(Semicolon, "Expected ';' after variable declaration");
      if semicolon.Err? {
        return Err(semicolon.msg);
      }
      return Ok(VariableStmt(variable.value.lexeme, initializer));
    }

    /** `parse_function_declaration_statement`, with the return type the previous token. */
    method ParseFunctionDeclarationStatement() returns (r: Result<Stmt>)
      requires 0 < currentPosition <= |tokens|
      modifies this`currentPosition
      ensures tokens == old(tokens)
      ensures Agrees(FunctionDeclarationAt(tokens, old(currentPosition)), r, currentPosition)
      decreases |tokens| - currentPosition, 12
    {
      var returnType := tokens[currentPosition - 1].kind;
      var functionName := Consume(Identifier, "Expected function name after type");
      if functionName.Err? {
        return Err(functionName.msg);
      }
      var open := Consume(LeftParen, "Expected '(' after function name");
      if open.Err? {
        return Err(open.msg);
      }
      var params := ParseParameterList();
      if params.Err? {
        return Err(params.msg);
      }
      var close := Consume(RightParen, "Expected ')' after parameters");
      if close.Err? {
        return Err(close.msg);
      }
      var brace := Consume(LeftBrace, "Expected '{' before function body");
      if brace.Err? {
        return Err(brace.msg);
      }
      var body := ParseBlockStatement();
      if body.Err? {
        return Err(body.msg);
      }
      return Ok(FunctionDeclStmt(returnType, functionName.value.lexeme, params.value, body.value));
    }

    /** The parameter list of `parse_function_declaration_statement`, up to the closing
        parenthesis: empty when that follows at once, otherwise the `do … while` loop. */
    method ParseParameterList() returns (r: Result<seq<Param>>)
      requires currentPosition <= |tokens|
      modifies this`currentPosition
      ensures tokens == old(tokens)
      ensures Agrees(ParameterListAt(tokens, old(currentPosition)), r, currentPosition)
    {
      var params: seq<Param> := [];
      if !Check(tokens, currentPosition, RightParen) {
        var more := true;
        while more
          invariant tokens == old(tokens)
          invariant old(currentPosition) <= currentPosition <= |tokens|
          invariant more ==> ParameterListAt(tokens, old(currentPosition)) == ParamsAt(tokens, currentPosition, params)
          invariant !more ==> ParameterListAt(tokens, old(currentPosition)) == Ok((params, currentPosition))
          decreases |tokens| - currentPosition + (if more then 1 else 0)
        {
          var paramType := Consume(Int, "Expected parameter type");
          if paramType.Err? {
            return Err(paramType.msg);
          }
          var paramName := Consume(Identifier, "Expected parameter name");
          if paramName.Err? {
            return Err(paramName.msg);
          }
          params := params + [Param(paramName.value.lexeme, paramType.value.kind)];
          var comma := Match([Comma]);
          if comma.Err? {
            return Err(comma.msg);
          }
          more := comma.value && currentPosition < |tokens|;
        }
      }
      return Ok(params);
    }

    /** `parse_if_statement`, after `if`. */
    method ParseIfStatement() returns (r: Result<Stmt>)
      requires currentPosition <= |tokens|
      modifies this`currentPosition
      ensures tokens == old(tokens)
      ensures Agrees(IfAt(tokens, old(currentPosition)), r, currentPosition)
      decreases |tokens| - currentPosition, 12
    {
      ghost var p0 := currentPosition;
      var open := Consume(LeftParen, "Expected '(' after if");
      if open.Err? {
        return Err(open.msg);
      }
      var condition := ParseAssignmentExpr();
      if condition.Err? {
        return Err(condition.msg);
      }
      var close := Consume(RightParen, "Expected ')' after if condition");
      if close.Err? {
        return Err(close.msg);
      }
      assert ConditionAt(tokens, p0, "Expected '(' after if", "Expected ')' after if condition") ==
             Ok((condition.value, currentPosition));
      var thenBranch := ParseStatement();
      if thenBranch.Err? {
        return Err(thenBranch.msg);
      }
      var elseBranch: Option<Stmt> := None;
      var hasElse := Match([Else]);
      if hasElse.Err? {
        return Err(hasElse.msg);
      }
      if hasElse.value {
        var branch := ParseStatement();
        if branch.Err? {
          return Err(branch.msg);
        }
        elseBranch := Some(branch.value);
      }
      return Ok(IfStmt(condition.value, thenBranch.value, elseBranch));
    }

    /** `parse_block_statement`, after `{`. */
    method ParseBlockStatement() returns (r: Result<Stmt>)
      requires currentPosition <= |tokens|
      modifies this`currentPosition
      ensures tokens == old(tokens)
      ensures Agrees(BlockAt(tokens, old(currentPosition)), r, currentPosition)
      decreases |tokens| - currentPosition, 16
    {
      var blockStatements: seq<Stmt> := [];
      while !Check(tokens, currentPosition, RightBrace) && currentPosition < |tokens|
        invariant tokens == old(tokens)
        invariant old(currentPosition) <= currentPosition <= |tokens|
        invariant BlockAt(tokens, old(currentPosition)) == BlockItemsAt(tokens, currentPosition, blockStatements)
        decreases |tokens| - currentPosition
      {
        var declaration := ParseDeclarationStatement();
        if declaration.Err? {
          return Err(declaration.msg);
        }
        blockStatements := blockStatements + [declaration.value];
      }
      var close := Consume(RightBrace, "Expected '}' after block");
      if close.Err? {
        return Err(close.msg);
      }
      return Ok(BlockStmt(blockStatements));
    }

    /** `parse_while_statement`, after `while`. */
    method ParseWhileStatement() returns (r: Result<Stmt>)
      requires currentPosition <= |tokens|
      modifies this`currentPosition
      ensures tokens == old(tokens)
      ensures Agrees(WhileAt(tokens, old(currentPosition)), r, currentPosition)
      decreases |tokens| - currentPosition, 12
    {
      ghost var p0 := currentPosition;
      var open := Consume(LeftParen, "Expected '(' after while");
      if open.Err? {
        return Err(open.msg);
      }
      var condition := ParseAssignmentExpr();
      if condition.Err? {
        return Err(condition.msg);
      }
      var close := Consume(RightParen, "Expected ')' after while condition");
      if close.Err? {
        return Err(close.msg);
      }
      assert ConditionAt(tokens, p0, "Expected '(' after while", "Expected ')' after while condition") ==
             Ok((condition.value, currentPosition));
      var body := ParseStatement();
      if body.Err? {
        return Err(body.msg);
      }
      return Ok(WhileStmt(condition.value, body.value));
    }

    /** `parse_expression_statement`. */
    method ParseExpressionStatement() returns (r: Result<Stmt>)
      requires currentPosition <= |tokens|
      modifies this`currentPosition
      ensures tokens == old(tokens)
      ensures Agrees(ExpressionStatementAt(tokens, old(currentPosition)), r, currentPosition)
      decreases |tokens| - currentPosition, 12
    {
      var expression := ParseAssignmentExpr();
      if expression.Err? {
        return Err(expression.msg);
      }
      var semicolon := Consume(Semicolon, "Expected ';' after expression");
      if semicolon.Err? {
        return Err(semicolon.msg);
      }
      return Ok(ExpressionStmt(expression.value));
    }

    /** `parse_return_statement`, after `return`. */
    method ParseReturnStatement() returns (r: Result<Stmt>)
      requires currentPosition <= |tokens|
      modifies this`currentPosition
      ensures tokens == old(tokens)
      ensures Agrees(ReturnAt(tokens, old(currentPosition)), r, currentPosition)
      decreases |tokens| - currentPosition, 12
    {
      var expression := ParseAssignmentExpr();
      if expression.Err? {
        return Err(expression.msg);
      }
      var semicolon := Consume(Semicolon, "Expected ';' after return statement");
      if semicolon.Err? {
        return Err(semicolon.msg);
      }
      return Ok(ReturnStmt(expression.value));
    }

    /** `parse_ast`: the tokens are replaced, but neither the cursor nor the statements collected
        by an earlier call are reset; declarations are parsed until the tokens run out. */
    method ParseAst(input: seq<Token>) returns (r: Result<seq<Stmt>>)
      modifies this
      ensures tokens == input
      ensures old(currentPosition) >= |input| ==> r == Ok(old(statements))
      ensures old(currentPosition) < |input| ==> r == Appended(old(statements), ProgramFrom(input, old(currentPosition)))
      ensures r.Ok? ==> statements == r.value
    {
      tokens := input;
      while currentPosition < |tokens|
        invariant tokens == input
        invariant old(currentPosition) >= |input| ==> currentPosition == old(currentPosition) && statements == old(statements)
        invariant old(currentPosition) < |input| ==>
                    currentPosition <= |tokens| &&
                    Appended(old(statements), ProgramFrom(input, old(currentPosition))) == Appended(statements, ProgramFrom(input, currentPosition))
        decreases |tokens| - currentPosition
      {
        ghost var p := currentPosition;
        var declaration := ParseDeclarationStatement();
        if declaration.Err? {
          return Err(declaration.msg);
        }
        AppendedStep(statements, tokens, p);
        statements := statements + [declaration.value];
      }
      assert statements + [] == statements;
      return Ok(statements);
    }
  }
}
