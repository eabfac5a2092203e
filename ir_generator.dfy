/** The AST-to-IR generator (src/ir/ir_generator.cpp): a walk over the syntax tree that appends
    three-address instructions to a current block, cuts a new block at loops and short-circuit
    operators, numbers temporaries per generator and labels with one counter shared by all
    generators, and names variables after the ids the scope resolver gave their declarations. */
module IrGeneration {
  import opened Wrappers
  import opened MachineInt
  import opened Decimal
  import Tokens
  import opened Ast
  import opened IR
  import opened Scopes

  /** A copy of an `ir_basic_block`, as `blocks.push_back` stores it. */
  datatype Block = Block(name: string, instructions: seq<Instruction>)

  /** `generate_temp`'s name for the temporary numbered `n`. */
  function TempName(n: nat): string { "t" + IntToDecimal(n) }

  /** `get_label`'s label for `base` when the shared counter stands at `n`. */
  function LabelName(base: string, n: nat): string { base + "_" + IntToDecimal(n) }

  /** The IR name of a variable whose declaration the resolver numbered `id`. */
  function VariableName(name: string, id: int): string { name + "_" + IntToDecimal(id) }

  // ---------------------------------------------------------------------------------------
  // The generator's state as a value
  // ---------------------------------------------------------------------------------------

  /** The blocks pushed so far, the current block, the temporary counter of this generator,
      the label counter shared by all generators, and the resolver's scopes and counter. */
  datatype GenState = GenState(blocks: seq<Block>, current: Block, temps: nat, labels: nat,
                               scopes: seq<Scope>, declarations: int)

  /** `current_block.add_instruction(i)`. */
  function Emit(st: GenState, i: Instruction): GenState {
    st.(current := st.current.(instructions := st.current.instructions + [i]))
  }

  /** `blocks.push_back(current_block); current_block = ir_basic_block{name}`. */
  function StartBlock(st: GenState, name: string): GenState {
    st.(blocks := st.blocks + [st.current], current := Block(name, []))
  }

  /** `if (!current_block.is_empty()) blocks.push_back(current_block)`. */
  function Flush(st: GenState): GenState {
    if st.current.instructions != [] then st.(blocks := st.blocks + [st.current]) else st
  }

  function NewTemp(st: GenState): (string, GenState) {
    (TempName(st.temps), st.(temps := st.temps + 1))
  }

  function NewLabel(st: GenState, base: string): (string, GenState) {
    (LabelName(base, st.labels), st.(labels := st.labels + 1))
  }

  /** `resolver.declare(name)`: no scope gives none; otherwise a fresh id in the innermost scope. */
  function DeclareIn(st: GenState, name: string): (Option<int>, GenState) {
    if st.scopes == [] then (None, st)
    else (Some(st.declarations + 1),
          st.(declarations := st.declarations + 1, scopes := Declared(st.scopes, name, st.declarations + 1)))
  }

  // ---------------------------------------------------------------------------------------
  // Expressions: what each `process_expr` overload appends and returns
  // ---------------------------------------------------------------------------------------

  /** `process_expr` on any expression, dispatched on its kind. Expressions never change the
      scopes. */
  function GenExpr(st: GenState, e: Expr): (r: Result<(Value, GenState)>)
    ensures r.Ok? ==> r.value.1.scopes == st.scopes && r.value.1.declarations == st.declarations
    decreases e, 2, 0
  {
    match e
    case LiteralExpr(v) => Ok((Constant(v), st))
    case VariableExpr(_) => GenVariable(st, e)
    case BinaryExpr(_, _, _) => GenBinary(st, e)
    case UnaryExpr(_, _) => GenUnary(st, e)
    case GroupingExpr(inner) => GenExpr(st, inner)
    case AssignmentExpr(_, _) => GenAssignment(st, e)
    case LogicalExpr(_, _, _) => GenLogical(st, e)
    case CallExpr(_, _) => GenCall(st, e)
  }

  /** A variable resolves to its versioned name; an unresolved name is an error. */
  function GenVariable(st: GenState, e: Expr): Result<(Value, GenState)>
    requires e.VariableExpr?
  {
    var id := Lookup(st.scopes, e.name);
    if id.None? then Err("Error resolving variable\n") else Ok((Named(VariableName(e.name, id.value)), st))
  }

  /** Both operands first, then a fresh temporary for the result. */
  function GenBinary(st: GenState, e: Expr): (r: Result<(Value, GenState)>)
    requires e.BinaryExpr?
    ensures r.Ok? ==> r.value.1.scopes == st.scopes && r.value.1.declarations == st.declarations
    decreases e, 1, 0
  {
    var (left, st1) :- GenExpr(st, e.left);
    var (right, st2) :- GenExpr(st1, e.right);
    var (t, st3) := NewTemp(st2);
    Ok((Named(t), Emit(st3, Binary(e.op, left, right, Named(t)))))
  }

  function GenUnary(st: GenState, e: Expr): (r: Result<(Value, GenState)>)
    requires e.UnaryExpr?
    ensures r.Ok? ==> r.value.1.scopes == st.scopes && r.value.1.declarations == st.declarations
    decreases e, 1, 0
  {
    var (operand, st1) :- GenExpr(st, e.operand);
    var (t, st2) := NewTemp(st1);
    Ok((Named(t), Emit(st2, Unary(e.op, operand, Named(t)))))
  }

  /** The value first, then the target is resolved and copied into; the target is the result. */
  function GenAssignment(st: GenState, e: Expr): (r: Result<(Value, GenState)>)
    requires e.AssignmentExpr?
    ensures r.Ok? ==> r.value.1.scopes == st.scopes && r.value.1.declarations == st.declarations
    decreases e, 1, 0
  {
    var (value, st1) :- GenExpr(st, e.assignedValue);
    var id := Lookup(st1.scopes, e.name);
    if id.None? then Err("Undefined variable assignment")
    else
      var destination := Named(VariableName(e.name, id.value));
      Ok((destination, Emit(st1, Copy(IrCopy(destination, value)))))
  }

  /** The end of a short-circuit operator once the right side is in `right`: copy it into the
      result and jump to the end; push that block and a block named by the short-circuit label
      that sets the result to `k`; continue in a block named by the end label. */
  function ShortCircuit(st: GenState, result: Value, right: Value, shortLabel: string, endLabel: string, k: int32): GenState {
    var st1 := Emit(Emit(st, Copy(IrCopy(result, right))), Jump(endLabel));
    st1.(blocks := st1.blocks + [st1.current, Block(shortLabel, [Copy(IrCopy(result, Constant(k)))])],
         current := Block(endLabel, []))
  }

  /** `&&` and `||`: both labels and the result temporary are taken after the labels and the left
      side; any other operator yields the temporary with nothing emitted. */
  function GenLogical(st: GenState, e: Expr): (r: Result<(Value, GenState)>)
    requires e.LogicalExpr?
    ensures r.Ok? ==> r.value.1.scopes == st.scopes && r.value.1.declarations == st.declarations
    decreases e, 1, 0
  {
    var (shortLabel, st1) := NewLabel(st, "short_circuit");
    var (endLabel, st2) := NewLabel(st1, "logical_end");
    var (left, st3) :- GenExpr(st2, e.left);
    var (t, st4) := NewTemp(st3);
    LogicalRight(st4, e, left, Named(t), shortLabel, endLabel)
  }

  /** The operator's branch of `&&` / `||` once the left side is in `left`: the conditional jump
      to the short-circuit label, the right side and the end of the short circuit. */
  function LogicalRight(st: GenState, e: Expr, left: Value, result: Value, shortLabel: string, endLabel: string)
    : (r: Result<(Value, GenState)>)
    requires e.LogicalExpr?
    ensures r.Ok? ==> r.value.1.scopes == st.scopes && r.value.1.declarations == st.declarations
    decreases e, 0, 0
  {
    if e.op == Tokens.LogicalAnd then
      var (right, st1) :- GenExpr(Emit(st, JumpIfZero(left, shortLabel)), e.right);
      Ok((result, ShortCircuit(st1, result, right, shortLabel, endLabel, 0)))
    else if e.op == Tokens.LogicalOr then
      var (right, st1) :- GenExpr(Emit(st, JumpIfNotZero(left, shortLabel)), e.right);
      Ok((result, ShortCircuit(st1, result, right, shortLabel, endLabel, 1)))
    else Ok((result, st))
  }

  /** A call: the arguments in order, then a fresh temporary receives the result. */
  function GenCall(st: GenState, e: Expr): (r: Result<(Value, GenState)>)
    requires e.CallExpr?
    ensures r.Ok? ==> r.value.1.scopes == st.scopes && r.value.1.declarations == st.declarations
    decreases e, 1, 0
  {
    var (arguments, st1) :- GenArguments(st, e, 0, []);
    var (t, st2) := NewTemp(st1);
    Ok((Named(t), Emit(st2, Call(e.callee, arguments, Named(t)))))
  }

  /** The argument loop of a call from argument `i` on, with the values of the earlier ones. */
  function GenArguments(st: GenState, e: Expr, i: nat, values: seq<Value>): (r: Result<(seq<Value>, GenState)>)
    requires e.CallExpr? && i <= |e.arguments|
    ensures r.Ok? ==> r.value.1.scopes == st.scopes && r.value.1.declarations == st.declarations
    decreases e, 0, |e.arguments| - i
  {
    if i == |e.arguments| then Ok((values, st))
    else
      var (value, st1) :- GenExpr(st, e.arguments[i]);
      GenArguments(st1, e, i + 1, values + [value])
  }

  // ---------------------------------------------------------------------------------------
  // Statements: what each `process_stmt` overload does to the state
  // ---------------------------------------------------------------------------------------

  /** `process_stmt` on any statement, dispatched on its kind. Statements keep the number of
      scopes. */
  function GenStmt(st: GenState, s: Stmt): (r: Result<GenState>)
    ensures r.Ok? ==> |r.value.scopes| == |st.scopes|
    decreases s, 2, 0
  {
    match s
    case ReturnStmt(value) =>
      var (v, st1) :- GenExpr(st, value);
      Ok(Emit(st1, Return(v)))
    case ExpressionStmt(expr) =>
      var (_, st1) :- GenExpr(st, expr);
      Ok(st1)
    case BlockStmt(_) => GenBlock(st, s)
    case IfStmt(_, _, _) => GenIf(st, s)
    case WhileStmt(_, _) => GenWhile(st, s)
    case FunctionParamStmt(_) => Err("Not implemented\n")
    case FunctionDeclStmt(_, _, _, _) => GenFunction(st, s)
    case VariableStmt(_, _) => GenVariableStmt(st, s)
  }

  /** A block opens a scope, refuses to be empty, runs its statements and closes the scope. */
  function GenBlock(st: GenState, s: Stmt): (r: Result<GenState>)
    requires s.BlockStmt?
    ensures r.Ok? ==> |r.value.scopes| == |st.scopes|
    decreases s, 1, 0
  {
    var st1 := st.(scopes := st.scopes + [map[]]);
    if s.statements == [] then Err("Empty block?")
    else
      var st2 :- GenStatements(st1, s, 0);
      Ok(st2.(scopes := st2.scopes[..|st2.scopes| - 1]))
  }

  /** The statements of a block from the `i`-th on. */
  function GenStatements(st: GenState, s: Stmt, i: nat): (r: Result<GenState>)
    requires s.BlockStmt? && i <= |s.statements|
    ensures r.Ok? ==> |r.value.scopes| == |st.scopes|
    decreases s, 0, |s.statements| - i
  {
    if i == |s.statements| then Ok(st)
    else
      var st1 :- GenStmt(st, s.statements[i]);
      GenStatements(st1, s, i + 1)
  }

  /** `if`: both labels are taken first; the condition, a jump to the else label when it is
      zero, the then branch; with an else branch a jump to the end label, the else label, the
      else branch and the end label, without one just the else label. */
  function GenIf(st: GenState, s: Stmt): (r: Result<GenState>)
    requires s.IfStmt?
    ensures r.Ok? ==> |r.value.scopes| == |st.scopes|
    decreases s, 1, 0
  {
    var (elseLabel, st1) := NewLabel(st, "else");
    var (endLabel, st2) := NewLabel(st1, "end");
    var (condition, st3) :- GenExpr(st2, s.condition);
    var st4 :- GenStmt(Emit(st3, JumpIfZero(condition, elseLabel)), s.thenBranch);
    if s.elseBranch.Some? then
      var st5 :- GenStmt(Emit(Emit(st4, Jump(endLabel)), Label(elseLabel)), s.elseBranch.value);
      Ok(Emit(st5, Label(endLabel)))
    else Ok(Emit(st4, Label(elseLabel)))
  }

  /** `while`: three labels; the current block ends with a jump to the condition block, which
      holds the condition and the two jumps; the body block ends with a jump back; a new block
      named by the end label follows. */
  function GenWhile(st: GenState, s: Stmt): (r: Result<GenState>)
    requires s.WhileStmt?
    ensures r.Ok? ==> |r.value.scopes| == |st.scopes|
    decreases s, 1, 0
  {
    var (conditionLabel, st1) := NewLabel(st, "while_cond");
    var (bodyLabel, st2) := NewLabel(st1, "while_body");
    var (endLabel, st3) := NewLabel(st2, "while_end");
    var st4 := StartBlock(Emit(st3, Jump(conditionLabel)), conditionLabel);
    var (condition, st5) :- GenExpr(st4, s.condition);
    var st6 := StartBlock(Emit(Emit(st5, JumpIfZero(condition, endLabel)), Jump(bodyLabel)), bodyLabel);
    var st7 :- GenStmt(st6, s.body);
    Ok(StartBlock(Emit(st7, Jump(conditionLabel)), endLabel))
  }

  /** The parameter loop of a function declaration: each name is declared, the ids dropped. */
  function DeclareParams(st: GenState, params: seq<Param>, i: nat): (r: GenState)
    requires i <= |params|
    ensures |r.scopes| == |st.scopes|
    decreases |params| - i
  {
    if i == |params| then st else DeclareParams(DeclareIn(st, params[i].name).1, params, i + 1)
  }

  /** A function declaration: a scope with the parameters, the pending block flushed if it
      holds anything, the body in a block named `<fn>_entry` that is pushed afterwards, the scope
      closed and an empty "entry" block started. */
  function GenFunction(st: GenState, s: Stmt): (r: Result<GenState>)
    requires s.FunctionDeclStmt?
    ensures r.Ok? ==> |r.value.scopes| == |st.scopes|
    decreases s, 1, 0
  {
    var st1 := DeclareParams(st.(scopes := st.scopes + [map[]]), s.params, 0);
    var st2 := Flush(st1).(current := Block(s.functionName + "_entry", []));
    var st3 :- GenStmt(st2, s.body);
    Ok(st3.(blocks := st3.blocks + [st3.current], scopes := st3.scopes[..|st3.scopes| - 1],
            current := Block("entry", [])))
  }

  /** A variable is declared first, so its initializer already sees the new binding; it is then
      copied into; a variable without initializer is an error. */
  function GenVariableStmt(st: GenState, s: Stmt): (r: Result<GenState>)
    requires s.VariableStmt?
    ensures r.Ok? ==> |r.value.scopes| == |st.scopes|
    decreases s, 1, 0
  {
    var (id, st1) := DeclareIn(st, s.name);
    if s.initializer.None? then Err("Not implemented?")
    else
      var (rhs, st2) :- GenExpr(st1, s.initializer.value);
      if id.None? then Err("bad optional access")
      else Ok(Emit(st2, Copy(IrCopy(Named(VariableName(s.name, id.value)), rhs))))
  }

  /** The statement loop of `generate` from the `i`-th statement on. */
  function GenProgram(st: GenState, ast: seq<Stmt>, i: nat): (r: Result<GenState>)
    requires i <= |ast|
    decreases |ast| - i
  {
    if i == |ast| then Ok(st)
    else
      var st1 :- GenStmt(st, ast[i]);
      GenProgram(st1, ast, i + 1)
  }

  /** `generate`: restart in an empty "entry" block, run the statements, push the last block if
      it holds anything, and return all blocks pushed by this generator so far. */
  function Generated(st: GenState, ast: seq<Stmt>): Result<(seq<Block>, GenState)> {
    var st1 :- GenProgram(st.(current := Block("entry", [])), ast, 0);
    var st2 := Flush(st1);
    Ok((st2.blocks, st2))
  }

  // ---------------------------------------------------------------------------------------
  // The generator object
  // ---------------------------------------------------------------------------------------

  /** What a `process_expr` call has to do: return the value and leave the state the
      specification gives, or fail with its message. */
  predicate ExprAgrees(want: Result<(Value, GenState)>, r: Result<Value>, st: GenState) {
    if want.Ok? then r == Ok(want.value.0) && st == want.value.1 else r == Err(want.msg)
  }

  /** What a `process_stmt` call has to do. */
  predicate StmtAgrees(want: Result<GenState>, r: Result<()>, st: GenState) {
    if want.Ok? then r == Ok(()) && st == want.value else r == Err(want.msg)
  }

  /** The function-static `count` of `get_label`: one counter for every generator. */
  class LabelCounter {
    var count: nat

    constructor ()
      ensures count == 0
    {
      count := 0;
    }
  }

  class IrGenerator {
    var blocks: seq<Block>
    const current: BasicBlock
    const resolver: Resolver
    const labelCounter: LabelCounter
    var tempVarCounter: nat

    ghost predicate Valid()
      reads this, resolver
    {
      resolver.Valid()
    }

    /** The generator's state as a value. */
    function State(): GenState
      reads this, current, resolver, labelCounter
    {
      GenState(blocks, Block(current.name, current.instructions), tempVarCounter, labelCounter.count,
               resolver.scopes, resolver.count)
    }

    /** A generator starts in an empty "entry" block with a fresh resolver and no temporaries;
        the label counter is the one all generators share. */
    constructor (labels: LabelCounter)
      ensures blocks == [] && tempVarCounter == 0 && labelCounter == labels
      ensures fresh(current) && current.name == "entry" && current.instructions == []
      ensures fresh(resolver) && resolver.scopes == [map[]] && resolver.count == 0
      ensures Valid()
    {
      blocks := [];
      current := new BasicBlock("entry");
      resolver := new Resolver();
      labelCounter := labels;
      tempVarCounter := 0;
    }

    /** `generate_temp`: `t` followed by the counter, which then moves on. */
    method GenerateTemp() returns (name: string)
      modifies this`tempVarCounter
      ensures name == TempName(old(tempVarCounter)) && tempVarCounter == old(tempVarCounter) + 1
    {
      name := TempName(tempVarCounter);
      tempVarCounter := tempVarCounter + 1;
    }

    /** `get_label`: the base, `_` and the shared counter, which then moves on. */
    method GetLabel(base: string) returns (labelName: string)
      modifies labelCounter
      ensures labelName == LabelName(base, old(labelCounter.count)) && labelCounter.count == old(labelCounter.count) + 1
    {
      labelName := LabelName(base, labelCounter.count);
      labelCounter.count := labelCounter.count + 1;
    }

    /** `blocks.push_back(current_block)`: a copy of the current block. */
    method PushCurrent()
      modifies this`blocks
      ensures blocks == old(blocks) + [Block(current.name, current.instructions)]
    {
      blocks := blocks + [Block(current.name, current.instructions)];
    }

    // -------------------------------------------------------------------------------------
    // Expressions
    // -------------------------------------------------------------------------------------

    /** `process_expr` on the variant: the literal and grouping overloads are written inline. */
    method ProcessExpr(e: Expr) returns (r: Result<Value>)
      requires Valid()
      modifies this, current, resolver, labelCounter
      ensures Valid()
      ensures ExprAgrees(GenExpr(old(State()), e), r, State())
      decreases e, 2, 0
    {
      match e
      case LiteralExpr(v) => r := Ok(Constant(v));
      case VariableExpr(_) => r := ProcessVariable(e);
      case BinaryExpr(_, _, _) => r := ProcessBinary(e);
      case UnaryExpr(_, _) => r := ProcessUnary(e);
      case GroupingExpr(inner) => r := ProcessExpr(inner);
      case AssignmentExpr(_, _) => r := ProcessAssignment(e);
      case LogicalExpr(_, _, _) => r := ProcessLogical(e);
      case CallExpr(_, _) => r := ProcessCall(e);
    }

    method ProcessVariable(e: Expr) returns (r: Result<Value>)
      requires e.VariableExpr?
      ensures ExprAgrees(GenVariable(State(), e), r, State())
    {
      var resolved := resolver.Resolve(e.name);
      if resolved.None? {
        return Err("Error resolving variable\n");
      }
      return Ok(Named(VariableName(e.name, resolved.value)));
    }

    method ProcessBinary(e: Expr) returns (r: Result<Value>)
      requires e.BinaryExpr? && Valid()
      modifies this, current, resolver, labelCounter
      ensures Valid()
      ensures ExprAgrees(GenBinary(old(State()), e), r, State())
      decreases e, 1, 0
    {
      var left := ProcessExpr(e.left);
      if left.Err? {
        return Err(left.msg);
      }
      var right := ProcessExpr(e.right);
      if right.Err? {
        return Err(right.msg);
      }
      var t := GenerateTemp();
      current.AddInstruction(Binary(e.op, left.value, right.value, Named(t)));
      return Ok(Named(t));
    }

    method ProcessUnary(e: Expr) returns (r: Result<Value>)
      requires e.UnaryExpr? && Valid()
      modifies this, current, resolver, labelCounter
      ensures Valid()
      ensures ExprAgrees(GenUnary(old(State()), e), r, State())
      decreases e, 1, 0
    {
      var operand := ProcessExpr(e.operand);
      if operand.Err? {
        return Err(operand.msg);
      }
      var t := GenerateTemp();
      current.AddInstruction(Unary(e.op, operand.value, Named(t)));
      return Ok(Named(t));
    }

    method ProcessAssignment(e: Expr) returns (r: Result<Value>)
      requires e.AssignmentExpr? && Valid()
      modifies this, current, resolver, labelCounter
      ensures Valid()
      ensures ExprAgrees(GenAssignment(old(State()), e), r, State())
      decreases e, 1, 0
    {
      var value := ProcessExpr(e.assignedValue);
      if value.Err? {
        return Err(value.msg);
      }
      var resolved := resolver.Resolve(e.name);
      if resolved.None? {
        return Err("Undefined variable assignment");
      }
      var destination := Named(VariableName(e.name, resolved.value));
      current.AddInstruction(Copy(IrCopy(destination, value.value)));
      return Ok(destination);
    }

    /** The common end of both short-circuit operators. */
    method FinishShortCircuit(result: Value, right: Value, shortLabel: string, endLabel: string, k: int32)
      modifies this`blocks, current
      ensures State() == ShortCircuit(old(State()), result, right, shortLabel, endLabel, k)
    {
      current.AddInstruction(Copy(IrCopy(result, right)));
      current.AddInstruction(Jump(endLabel));
      ghost var finished := Block(current.name, current.instructions);
      PushCurrent();
      assert blocks == old(blocks) + [finished];
      current.Assign(shortLabel);
      current.AddInstruction(Copy(IrCopy(result, Constant(k))));
      assert current.instructions == [Copy(IrCopy(result, Constant(k)))];
      PushCurrent();
      current.Assign(endLabel);
      assert blocks == old(blocks) + [finished, Block(shortLabel, [Copy(IrCopy(result, Constant(k)))])];
    }

    method ProcessLogical(e: Expr) returns (r: Result<Value>)
      requires e.LogicalExpr? && Valid()
      modifies this, current, resolver, labelCounter
      ensures Valid()
      ensures ExprAgrees(GenLogical(old(State()), e), r, State())
      decreases e, 1, 0
    {
      var shortLabel := GetLabel("short_circuit");
      var endLabel := GetLabel("logical_end");
      var left := ProcessExpr(e.left);
      if left.Err? {
        return Err(left.msg);
      }
      var t := GenerateTemp();
      r := ProcessLogicalRight(e, left.value, Named(t), shortLabel, endLabel);
    }

    /** The `if (expr.op == …)` branches of the logical overload. */
    method ProcessLogicalRight(e: Expr, left: Value, result: Value, shortLabel: string, endLabel: string)
      returns (r: Result<Value>)
      requires e.LogicalExpr? && Valid()
      modifies this, current, resolver, labelCounter
      ensures Valid()
      ensures ExprAgrees(LogicalRight(old(State()), e, left, result, shortLabel, endLabel), r, State())
      decreases e, 0, 0
    {
      if e.op == Tokens.LogicalAnd {
        current.AddInstruction(JumpIfZero(left, shortLabel));
        var right := ProcessExpr(e.right);
        if right.Err? {
          return Err(right.msg);
        }
        FinishShortCircuit(result, right.value, shortLabel, endLabel, 0);
      } else if e.op == Tokens.LogicalOr {
        current.AddInstruction(JumpIfNotZero(left, shortLabel));
        var right := ProcessExpr(e.right);
        if right.Err? {
          return Err(right.msg);
        }
        FinishShortCircuit(result, right.value, shortLabel, endLabel, 1);
      }
      return Ok(result);
    }

    method ProcessCall(e: Expr) returns (r: Result<Value>)
      requires e.CallExpr? && Valid()
      modifies this, current, resolver, labelCounter
      ensures Valid()
      ensures ExprAgrees(GenCall(old(State()), e), r, State())
      decreases e, 1, 0
    {
      ghost var st0 := State();
      var argValues: seq<Value> := [];
      var i := 0;
      while i < |e.arguments|
        invariant Valid() && i <= |e.arguments|
        invariant GenArguments(st0, e, 0, []) == GenArguments(State(), e, i, argValues)
        decreases |e.arguments| - i
      {
        var value := ProcessExpr(e.arguments[i]);
        if value.Err? {
          return Err(value.msg);
        }
        argValues := argValues + [value.value];
        i := i + 1;
      }
      var t := GenerateTemp();
      current.AddInstruction(Call(e.callee, argValues, Named(t)));
      return Ok(Named(t));
    }

    // -------------------------------------------------------------------------------------
    // Statements
    // -------------------------------------------------------------------------------------

    /** `process_stmt` on the variant. */
    method ProcessStmt(s: Stmt) returns (r: Result<()>)
      requires Valid()
      modifies this, current, resolver, labelCounter
      ensures Valid()
      ensures StmtAgrees(GenStmt(old(State()), s), r, State())
      decreases s, 2, 0
    {
      match s
      case ReturnStmt(_) => r := ProcessReturn(s);
      case ExpressionStmt(_) => r := ProcessExpressionStmt(s);
      case BlockStmt(_) => r := ProcessBlock(s);
      case IfStmt(_, _, _) => r := ProcessIf(s);
      case WhileStmt(_, _) => r := ProcessWhile(s);
      case FunctionParamStmt(_) => r := Err("Not implemented\n");
      case FunctionDeclStmt(_, _, _, _) => r := ProcessFunctionDecl(s);
      case VariableStmt(_, _) => r := ProcessVariableStmt(s);
    }

    method ProcessReturn(s: Stmt) returns (r: Result<()>)
      requires s.ReturnStmt? && Valid()
      modifies this, current, resolver, labelCounter
      ensures Valid()
      ensures StmtAgrees(GenStmt(old(State()), s), r, State())
      decreases s, 1, 0
    {
      var returnValue := ProcessExpr(s.value);
      if returnValue.Err? {
        return Err(returnValue.msg);
      }
      current.AddInstruction(Return(returnValue.value));
      return Ok(());
    }

    method ProcessExpressionStmt(s: Stmt) returns (r: Result<()>)
      requires s.ExpressionStmt? && Valid()
      modifies this, current, resolver, labelCounter
      ensures Valid()
      ensures StmtAgrees(GenStmt(old(State()), s), r, State())
      decreases s, 1, 0
    {
      var value := ProcessExpr(s.expr);
      if value.Err? {
        return Err(value.msg);
      }
      return Ok(());
    }

    method ProcessBlock(s: Stmt) returns (r: Result<()>)
      requires s.BlockStmt? && Valid()
      modifies this, current, resolver, labelCounter
      ensures Valid()
      ensures StmtAgrees(GenBlock(old(State()), s), r, State())
      decreases s, 1, 0
    {
      resolver.BeginScope();
      if |s.statements| == 0 {
        return Err("Empty block?");
      }
      ghost var st1 := State();
      var i := 0;
      while i < |s.statements|
        invariant Valid() && i <= |s.statements|
        invariant GenStatements(st1, s, 0) == GenStatements(State(), s, i)
        decreases |s.statements| - i
      {
        var res := ProcessStmt(s.statements[i]);
        if res.Err? {
          return Err(res.msg);
        }
        i := i + 1;
      }
      resolver.EndScope();
      return Ok(());
    }

    method ProcessIf(s: Stmt) returns (r: Result<()>)
      requires s.IfStmt? && Valid()
      modifies this, current, resolver, labelCounter
      ensures Valid()
      ensures StmtAgrees(GenIf(old(State()), s), r, State())
      decreases s, 1, 0
    {
      ghost var st0 := State();
      var elseLabel := GetLabel("else");
      var endLabel := GetLabel("end");
      assert State() == st0.(labels := st0.labels + 2);
      var condition := ProcessExpr(s.condition);
      if condition.Err? {
        return Err(condition.msg);
      }
      ghost var st3 := State();
      current.AddInstruction(JumpIfZero(condition.value, elseLabel));
      assert State() == Emit(st3, JumpIfZero(condition.value, elseLabel));
      var thenResult := ProcessStmt(s.thenBranch);
      if thenResult.Err? {
        return Err(thenResult.msg);
      }
      if s.elseBranch.Some? {
        current.AddInstruction(Jump(endLabel));
        current.AddInstruction(Label(elseLabel));
        var elseResult := ProcessStmt(s.elseBranch.value);
        if elseResult.Err? {
          return Err(elseResult.msg);
        }
        current.AddInstruction(Label(endLabel));
      } else {
        current.AddInstruction(Label(elseLabel));
      }
      return Ok(());
    }

    method ProcessWhile(s: Stmt) returns (r: Result<()>)
      requires s.WhileStmt? && Valid()
      modifies this, current, resolver, labelCounter
      ensures Valid()
      ensures StmtAgrees(GenWhile(old(State()), s), r, State())
      decreases s, 1, 0
    {
      ghost var st0 := State();
      var conditionLabel := GetLabel("while_cond");
      var bodyLabel := GetLabel("while_body");
      var endLabel := GetLabel("while_end");
      current.AddInstruction(Jump(conditionLabel));
      PushCurrent();
      current.Assign(conditionLabel);
      ghost var st4 := State();
      assert st4 == StartBlock(Emit(st0.(labels := st0.labels + 3), Jump(conditionLabel)), conditionLabel);
      var condition := ProcessExpr(s.condition);
      if condition.Err? {
        return Err(condition.msg);
      }
      ghost var st5 := State();
      current.AddInstruction(JumpIfZero(condition.value, endLabel));
      current.AddInstruction(Jump(bodyLabel));
      PushCurrent();
      current.Assign(bodyLabel);
      ghost var st6 := State();
      assert st6 == StartBlock(Emit(Emit(st5, JumpIfZero(condition.value, endLabel)), Jump(bodyLabel)), bodyLabel);
      var body := ProcessStmt(s.body);
      if body.Err? {
        return Err(body.msg);
      }
      ghost var st7 := State();
      current.AddInstruction(Jump(conditionLabel));
      PushCurrent();
      current.Assign(endLabel);
      assert State() == StartBlock(Emit(st7, Jump(conditionLabel)), endLabel);
      return Ok(());
    }

    method ProcessFunctionDecl(s: Stmt) returns (r: Result<()>)
      requires s.FunctionDeclStmt? && Valid()
      modifies this, current, resolver, labelCounter
      ensures Valid()
      ensures StmtAgrees(GenFunction(old(State()), s), r, State())
      decreases s, 1, 0
    {
      ghost var st0 := State();
      resolver.BeginScope();
      ghost var st1 := State();
      assert st1 == st0.(scopes := st0.scopes + [map[]]);
      var i := 0;
      while i < |s.params|
        invariant Valid() && i <= |s.params|
        invariant DeclareParams(st1, s.params, 0) == DeclareParams(State(), s.params, i)
        invariant blocks == old(blocks) && current.name == old(current.name) && current.instructions == old(current.instructions)
        invariant tempVarCounter == old(tempVarCounter) && labelCounter.count == old(labelCounter.count)
        decreases |s.params| - i
      {
        var _ := resolver.Declare(s.params[i].name);
        i := i + 1;
      }
      ghost var st2 := State();
      if !current.IsEmpty() {
        PushCurrent();
      }
      current.Assign(s.functionName + "_entry");
      assert State() == Flush(st2).(current := Block(s.functionName + "_entry", []));
      var body := ProcessStmt(s.body);
      if body.Err? {
        return Err(body.msg);
      }
      ghost var st3 := State();
      PushCurrent();
      resolver.EndScope();
      current.Assign("entry");
      assert State() == st3.(blocks := st3.blocks + [st3.current], scopes := st3.scopes[..|st3.scopes| - 1],
                             current := Block("entry", []));
      return Ok(());
    }

    method ProcessVariableStmt(s: Stmt) returns (r: Result<()>)
      requires s.VariableStmt? && Valid()
      modifies this, current, resolver, labelCounter
      ensures Valid()
      ensures StmtAgrees(GenVariableStmt(old(State()), s), r, State())
      decreases s, 1, 0
    {
      var scopeId := resolver.Declare(s.name);
      if s.initializer.None? {
        return Err("Not implemented?");
      }
      var rhs := ProcessExpr(s.initializer.value);
      if rhs.Err? {
        return Err(rhs.msg);
      }
      if scopeId.None? {
        return Err("bad optional access");
      }
      current.AddInstruction(Copy(IrCopy(Named(VariableName(s.name, scopeId.value)), rhs.value)));
      return Ok(());
    }

    /** `generate`: the blocks of all statements, with the last block if it holds anything. */
    method Generate(ast: seq<Stmt>) returns (r: Result<seq<Block>>)
      requires Valid()
      modifies this, current, resolver, labelCounter
      ensures Valid()
      ensures var want := Generated(old(State()), ast);
              if want.Ok? then r == Ok(want.value.0) && State() == want.value.1 else r == Err(want.msg)
    {
      current.Assign("entry");
      ghost var st1 := State();
      var i := 0;
      while i < |ast|
        invariant Valid() && i <= |ast|
        invariant GenProgram(st1, ast, 0) == GenProgram(State(), ast, i)
        decreases |ast| - i
      {
        var res := ProcessStmt(ast[i]);
        if res.Err? {
          return Err(res.msg);
        }
        i := i + 1;
      }
      if !current.IsEmpty() {
        PushCurrent();
      }
      return Ok(blocks);
    }
  }
}
