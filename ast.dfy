/** The syntax tree the parser builds (src/parser/ast.h): expressions and statements as values,
    with the `shared_ptr` children of the source held as plain subtrees. */
module Ast {
  import opened Wrappers
  import opened MachineInt
  import opened Tokens

  datatype Expr =
    | LiteralExpr(value: int32)
    | BinaryExpr(left: Expr, op: TokenType, right: Expr)
    | GroupingExpr(inner: Expr)
    | UnaryExpr(op: TokenType, operand: Expr)
    | LogicalExpr(left: Expr, op: TokenType, right: Expr)
    | VariableExpr(name: string)
    | AssignmentExpr(name: string, assignedValue: Expr)
    | CallExpr(callee: string, arguments: seq<Expr>)

  /** A `function_param_stmt`: a parameter's name and type. */
  datatype Param = Param(name: string, kind: TokenType)

  datatype Stmt =
    | ReturnStmt(value: Expr)
    | ExpressionStmt(expr: Expr)
    | IfStmt(condition: Expr, thenBranch: Stmt, elseBranch: Option<Stmt>)
    | WhileStmt(condition: Expr, body: Stmt)
    | FunctionParamStmt(param: Param)
    | FunctionDeclStmt(returnType: TokenType, functionName: string, params: seq<Param>, body: Stmt)
    | BlockStmt(statements: seq<Stmt>)
    | VariableStmt(name: string, initializer: Option<Expr>)
}
