/** Properties of the AST-to-IR generator (src/ir/ir_generator.cpp), stated over the value model
    of its state: names never clash, the state only grows, scopes are restored, and the layouts
    of `if`, `while` and the short-circuit operators. */
module IrGenerationFacts {
  import opened Wrappers
  import opened Decimal
  import opened MachineInt
  import Tokens
  import opened Ast
  import opened IR
  import opened Scopes
  import opened IrGeneration

  // ---------------------------------------------------------------------------------------
  // Names
  // ---------------------------------------------------------------------------------------

  lemma NatDecimalDigits(n: nat)
    ensures |IntToDecimal(n)| > 0 && AllDigits(IntToDecimal(n))
  {
    NatToDecimalDigits(n);
  }

  /** Temporaries with different numbers have different names. */
  lemma TempNamesDistinct(m: nat, n: nat)
    ensures m != n ==> TempName(m) != TempName(n)
  {
    assert TempName(m)[1..] == IntToDecimal(m);
    assert TempName(n)[1..] == IntToDecimal(n);
    IntToDecimalRoundTrip(m);
    IntToDecimalRoundTrip(n);
  }

  /** Labels taken at different counter values differ whatever their bases: the text after the
      last `_` is the counter's digits. As the counter is shared and only moves forward, no two
      labels handed out by any generators clash. */
  lemma LabelNamesDistinct(base1: string, m: nat, base2: string, n: nat)
    ensures m != n ==> LabelName(base1, m) != LabelName(base2, n)
  {
    var s1, s2 := LabelName(base1, m), LabelName(base2, n);
    var d1, d2 := IntToDecimal(m), IntToDecimal(n);
    NatDecimalDigits(m);
    NatDecimalDigits(n);
    IntToDecimalRoundTrip(m);
    IntToDecimalRoundTrip(n);
    if m != n && |s1| == |s2| {
      if |d1| < |d2| {
        var p := |s1| - |d1| - 1;
        assert s1[p] == '_';
        assert s2[p] == d2[|d2| - |d1| - 1];
      } else if |d2| < |d1| {
        var p := |s2| - |d2| - 1;
        assert s2[p] == '_';
        assert s1[p] == d1[|d1| - |d2| - 1];
      } else {
        assert s1[|s1| - |d1|..] == d1;
        assert s2[|s2| - |d2|..] == d2;
      }
    }
  }

  /** A temporary never has the name of a variable: variable names carry a `_`, temporaries
      only digits after the `t`. */
  lemma TempIsNotVariable(n: nat, name: string, id: int)
    ensures TempName(n) != VariableName(name, id)
  {
    NatDecimalDigits(n);
    var t, v := TempName(n), VariableName(name, id);
    assert v[|name|] == '_';
    assert t[1..] == IntToDecimal(n);
    assert forall k :: 1 <= k < |t| ==> t[k] == IntToDecimal(n)[k - 1];
    if |name| < |t| {
      assert t[|name|] != '_';
    }
  }

  // ---------------------------------------------------------------------------------------
  // The emitted instruction stream only grows
  // ---------------------------------------------------------------------------------------

  function Last<T>(s: seq<T>): T
    requires s != []
  {
    s[|s| - 1]
  }

  /** The instructions of pushed blocks, in order. */
  function Emitted(blocks: seq<Block>): seq<Instruction>
    decreases |blocks|
  {
    if blocks == [] then [] else Emitted(blocks[..|blocks| - 1]) + blocks[|blocks| - 1].instructions
  }

  /** Everything emitted so far: the pushed blocks, then the current block. */
  function Stream(st: GenState): seq<Instruction> {
    Emitted(st.blocks) + st.current.instructions
  }

  lemma EmittedPush(blocks: seq<Block>, b: Block)
    ensures Emitted(blocks + [b]) == Emitted(blocks) + b.instructions
  {
    assert (blocks + [b])[..|blocks|] == blocks;
  }

  /** `later` is `earlier` after more generation: blocks were only pushed, instructions only
      appended, and the counters only moved forward. */
  ghost predicate Extends(earlier: GenState, later: GenState) {
    earlier.blocks <= later.blocks && Stream(earlier) <= Stream(later) &&
    earlier.temps <= later.temps && earlier.labels <= later.labels &&
    earlier.declarations <= later.declarations
  }

  lemma ExtendsTransitive(a: GenState, b: GenState, c: GenState)
    requires Extends(a, b) && Extends(b, c)
    ensures Extends(a, c)
  {
    assert forall k :: 0 <= k < |a.blocks| ==> a.blocks[k] == b.blocks[k] == c.blocks[k];
    assert forall k :: 0 <= k < |Stream(a)| ==> Stream(a)[k] == Stream(b)[k] == Stream(c)[k];
  }

  lemma EmitStream(st: GenState, i: Instruction)
    ensures Stream(Emit(st, i)) == Stream(st) + [i] && Extends(st, Emit(st, i)) && ContinuesBlock(st, Emit(st, i))
  {
  }

  lemma StartBlockStream(st: GenState, name: string)
    ensures Stream(StartBlock(st, name)) == Stream(st) && Extends(st, StartBlock(st, name))
  {
    EmittedPush(st.blocks, st.current);
  }

  /** `later` continues the block `earlier` was filling: either that block is still current, or
      it was pushed right after the blocks `earlier` had, with its instructions so far kept. */
  ghost predicate ContinuesBlock(earlier: GenState, later: GenState)
    requires earlier.blocks <= later.blocks
  {
    if |later.blocks| == |earlier.blocks| then
      later.current.name == earlier.current.name && earlier.current.instructions <= later.current.instructions
    else
      later.blocks[|earlier.blocks|].name == earlier.current.name &&
      earlier.current.instructions <= later.blocks[|earlier.blocks|].instructions
  }

  /** What evaluating an expression does to the state: it extends it without leaving the block
      it started in behind. */
  ghost predicate ExprStep(earlier: GenState, later: GenState) {
    Extends(earlier, later) && ContinuesBlock(earlier, later)
  }

  lemma ExprStepTransitive(a: GenState, b: GenState, c: GenState)
    requires ExprStep(a, b) && ExprStep(b, c)
    ensures ExprStep(a, c)
  {
    ExtendsTransitive(a, b, c);
    if |b.blocks| > |a.blocks| {
      assert c.blocks[|a.blocks|] == b.blocks[|a.blocks|];
    }
  }

  // The expression lemmas follow the mutual recursion of the functions they are about.

  lemma {:induction false} ExprExtends(st: GenState, e: Expr)
    requires GenExpr(st, e).Ok?
    ensures ExprStep(st, GenExpr(st, e).value.1)
    decreases e, 2, 0
  {
    match e
    case LiteralExpr(_) =>
    case VariableExpr(_) =>
    case BinaryExpr(_, _, _) => BinaryExtends(st, e);
    case UnaryExpr(_, _) => UnaryExtends(st, e);
    case GroupingExpr(inner) => ExprExtends(st, inner);
    case AssignmentExpr(_, _) => AssignmentExtends(st, e);
    case LogicalExpr(_, _, _) => LogicalExtends(st, e);
    case CallExpr(_, _) => CallExtends(st, e);
  }

  /** A binary expression yields the temporary taken last, after both operands. */
  lemma {:induction false} BinaryExtends(st: GenState, e: Expr)
    requires e.BinaryExpr? && GenBinary(st, e).Ok?
    ensures var (v, st') := GenBinary(st, e).value;
            ExprStep(st, st') && st.temps < st'.temps && v == Named(TempName(st'.temps - 1)) &&
            st'.current.instructions != [] && Last(st'.current.instructions).Binary? &&
            Last(st'.current.instructions).op == e.op && Last(st'.current.instructions).result == v
    decreases e, 1, 0
  {
    var (left, st1) := GenExpr(st, e.left).value;
    ExprExtends(st, e.left);
    var (right, st2) := GenExpr(st1, e.right).value;
    ExprExtends(st1, e.right);
    var (t, st3) := NewTemp(st2);
    EmitStream(st3, Binary(e.op, left, right, Named(t)));
    ExprStepTransitive(st, st1, st2);
    ExprStepTransitive(st, st2, GenBinary(st, e).value.1);
  }

  lemma {:induction false} UnaryExtends(st: GenState, e: Expr)
    requires e.UnaryExpr? && GenUnary(st, e).Ok?
    ensures var (v, st') := GenUnary(st, e).value;
            ExprStep(st, st') && st.temps < st'.temps && v == Named(TempName(st'.temps - 1)) &&
            st'.current.instructions != [] && Last(st'.current.instructions).Unary? &&
            Last(st'.current.instructions).op == e.op && Last(st'.current.instructions).result == v
    decreases e, 1, 0
  {
    var (operand, st1) := GenExpr(st, e.operand).value;
    ExprExtends(st, e.operand);
    var (t, st2) := NewTemp(st1);
    EmitStream(st2, Unary(e.op, operand, Named(t)));
    ExprStepTransitive(st, st1, GenUnary(st, e).value.1);
  }

  /** An assignment yields its target, the variable's versioned name, and ends with the copy
      into it. */
  lemma {:induction false} AssignmentExtends(st: GenState, e: Expr)
    requires e.AssignmentExpr? && GenAssignment(st, e).Ok?
    ensures var (v, st') := GenAssignment(st, e).value;
            ExprStep(st, st') && Lookup(st.scopes, e.name).Some? &&
            v == Named(VariableName(e.name, Lookup(st.scopes, e.name).value)) &&
            st'.current.instructions != [] && Last(st'.current.instructions).Copy? &&
            Last(st'.current.instructions).copy.destination == v
    decreases e, 1, 0
  {
    var (value, st1) := GenExpr(st, e.assignedValue).value;
    ExprExtends(st, e.assignedValue);
    var destination := Named(VariableName(e.name, Lookup(st1.scopes, e.name).value));
    EmitStream(st1, Copy(IrCopy(destination, value)));
    ExprStepTransitive(st, st1, GenAssignment(st, e).value.1);
  }

  lemma {:induction false} LogicalExtends(st: GenState, e: Expr)
    requires e.LogicalExpr? && GenLogical(st, e).Ok?
    ensures ExprStep(st, GenLogical(st, e).value.1)
    decreases e, 1, 0
  {
    var (shortLabel, st1) := NewLabel(st, "short_circuit");
    var (endLabel, st2) := NewLabel(st1, "logical_end");
    var (left, st3) := GenExpr(st2, e.left).value;
    ExprExtends(st2, e.left);
    var (t, st4) := NewTemp(st3);
    LogicalRightExtends(st4, e, left, Named(t), shortLabel, endLabel);
    ExprStepTransitive(st2, st3, st4);
    ExprStepTransitive(st, st2, st4);
    ExprStepTransitive(st, st4, GenLogical(st, e).value.1);
  }

  lemma ShortCircuitExtends(st: GenState, result: Value, right: Value, shortLabel: string, endLabel: string, k: int32)
    ensures var st' := ShortCircuit(st, result, right, shortLabel, endLabel, k);
            ExprStep(st, st') &&
            Stream(st') == Stream(st) + [Copy(IrCopy(result, right)), Jump(endLabel), Copy(IrCopy(result, Constant(k)))]
  {
    var st1 := Emit(Emit(st, Copy(IrCopy(result, right))), Jump(endLabel));
    var b := Block(shortLabel, [Copy(IrCopy(result, Constant(k)))]);
    EmittedPush(st1.blocks, st1.current);
    EmittedPush(st1.blocks + [st1.current], b);
    assert st1.blocks + [st1.current, b] == st1.blocks + [st1.current] + [b];
  }

  lemma {:induction false} LogicalRightExtends(st: GenState, e: Expr, left: Value, result: Value, shortLabel: string, endLabel: string)
    requires e.LogicalExpr? && LogicalRight(st, e, left, result, shortLabel, endLabel).Ok?
    ensures ExprStep(st, LogicalRight(st, e, left, result, shortLabel, endLabel).value.1)
    decreases e, 0, 0
  {
    if e.op == Tokens.LogicalAnd || e.op == Tokens.LogicalOr {
      var jump := if e.op == Tokens.LogicalAnd then JumpIfZero(left, shortLabel) else JumpIfNotZero(left, shortLabel);
      var k: int32 := if e.op == Tokens.LogicalAnd then 0 else 1;
      var st0 := Emit(st, jump);
      EmitStream(st, jump);
      var (right, st1) := GenExpr(st0, e.right).value;
      ExprExtends(st0, e.right);
      ShortCircuitExtends(st1, result, right, shortLabel, endLabel, k);
      ExprStepTransitive(st, st0, st1);
      ExprStepTransitive(st, st1, ShortCircuit(st1, result, right, shortLabel, endLabel, k));
    }
  }

  /** A call yields the temporary taken after all its arguments. */
  lemma {:induction false} CallExtends(st: GenState, e: Expr)
    requires e.CallExpr? && GenCall(st, e).Ok?
    ensures var (v, st') := GenCall(st, e).value;
            ExprStep(st, st') && st.temps < st'.temps && v == Named(TempName(st'.temps - 1)) &&
            st'.current.instructions != [] && Last(st'.current.instructions).Call? &&
            Last(st'.current.instructions).functionName == e.callee &&
            |Last(st'.current.instructions).arguments| == |e.arguments| &&
            Last(st'.current.instructions).destination == v
    decreases e, 1, 0
  {
    var (arguments, st1) := GenArguments(st, e, 0, []).value;
    ArgumentsExtends(st, e, 0, []);
    var (t, st2) := NewTemp(st1);
    EmitStream(st2, Call(e.callee, arguments, Named(t)));
    ExprStepTransitive(st, st1, GenCall(st, e).value.1);
  }

  /** The argument loop extends the state and adds one value per remaining argument. */
  lemma {:induction false} ArgumentsExtends(st: GenState, e: Expr, i: nat, values: seq<Value>)
    requires e.CallExpr? && i <= |e.arguments| && GenArguments(st, e, i, values).Ok?
    ensures ExprStep(st, GenArguments(st, e, i, values).value.1)
    ensures |GenArguments(st, e, i, values).value.0| == |values| + |e.arguments| - i
    decreases e, 0, |e.arguments| - i
  {
    if i < |e.arguments| {
      var (value, st1) := GenExpr(st, e.arguments[i]).value;
      ExprExtends(st, e.arguments[i]);
      ArgumentsExtends(st1, e, i + 1, values + [value]);
      ExprStepTransitive(st, st1, GenArguments(st, e, i, values).value.1);
    }
  }

  // ---------------------------------------------------------------------------------------
  // Statements change only the innermost scope; blocks and functions restore the stack
  // ---------------------------------------------------------------------------------------

  /** The scopes below the innermost one. */
  function Outer(scopes: seq<Scope>): seq<Scope> {
    if scopes == [] then [] else scopes[..|scopes| - 1]
  }

  /** `later` has as many scopes as `earlier` and the same ones below the innermost. */
  ghost predicate KeepsOuter(earlier: GenState, later: GenState) {
    |later.scopes| == |earlier.scopes| && Outer(later.scopes) == Outer(earlier.scopes)
  }

  ghost predicate StmtStep(earlier: GenState, later: GenState) {
    Extends(earlier, later) && KeepsOuter(earlier, later)
  }

  lemma StmtStepTransitive(a: GenState, b: GenState, c: GenState)
    requires StmtStep(a, b) && StmtStep(b, c)
    ensures StmtStep(a, c)
  {
    ExtendsTransitive(a, b, c);
  }

  /** An expression is a statement step: it leaves the scopes alone. */
  lemma ExprStmtStep(st: GenState, e: Expr)
    requires GenExpr(st, e).Ok?
    ensures StmtStep(st, GenExpr(st, e).value.1) && ContinuesBlock(st, GenExpr(st, e).value.1)
  {
    ExprExtends(st, e);
  }

  /** Flushing and starting a fresh block loses nothing and adds nothing. */
  lemma FlushStream(st: GenState, name: string)
    ensures var st' := Flush(st).(current := Block(name, []));
            Stream(st') == Stream(st) && Extends(st, st')
  {
    EmittedPush(st.blocks, st.current);
  }

  /** A declaration binds in the innermost scope only and moves the declaration counter. */
  lemma DeclareInStep(st: GenState, name: string)
    ensures var (id, st') := DeclareIn(st, name);
            StmtStep(st, st') && (id.Some? <==> st.scopes != []) &&
            st'.blocks == st.blocks && st'.current == st.current &&
            (id.Some? ==> id.value == st'.declarations == st.declarations + 1 &&
                          Lookup(st'.scopes, name) == id &&
                          forall other :: other != name ==> Lookup(st'.scopes, other) == Lookup(st.scopes, other))
  {
    if st.scopes != [] {
      DeclaredLookup(st.scopes, name, st.declarations + 1, name);
      forall other | other != name
        ensures Lookup(DeclareIn(st, name).1.scopes, other) == Lookup(st.scopes, other)
      {
        DeclaredLookup(st.scopes, name, st.declarations + 1, other);
      }
    }
  }

  /** The parameter loop only declares: nothing is emitted and one id is used per parameter
      (none when there is no scope). */
  lemma {:induction false} DeclareParamsStep(st: GenState, params: seq<Param>, i: nat)
    requires i <= |params|
    ensures var st' := DeclareParams(st, params, i);
            StmtStep(st, st') && st'.blocks == st.blocks && st'.current == st.current &&
            st'.temps == st.temps && st'.labels == st.labels &&
            st'.declarations == st.declarations + (if st.scopes == [] then 0 else |params| - i)
    decreases |params| - i
  {
    if i < |params| {
      var st1 := DeclareIn(st, params[i].name).1;
      DeclareInStep(st, params[i].name);
      DeclareParamsStep(st1, params, i + 1);
      StmtStepTransitive(st, st1, DeclareParams(st, params, i));
    }
  }

  lemma {:induction false} StmtExtends(st: GenState, s: Stmt)
    requires GenStmt(st, s).Ok?
    ensures StmtStep(st, GenStmt(st, s).value)
    decreases s, 2, 0
  {
    match s
    case ReturnStmt(value) =>
      var (v, st1) := GenExpr(st, value).value;
      ExprStmtStep(st, value);
      EmitStream(st1, Return(v));
      StmtStepTransitive(st, st1, Emit(st1, Return(v)));
    case ExpressionStmt(expr) => ExprStmtStep(st, expr);
    case BlockStmt(_) => BlockRestoresScopes(st, s);
    case IfStmt(_, _, _) => IfExtends(st, s);
    case WhileStmt(_, _) => WhileExtends(st, s);
    case FunctionParamStmt(_) =>
    case FunctionDeclStmt(_, _, _, _) => FunctionRestoresScopes(st, s);
    case VariableStmt(_, _) => VariableStmtExtends(st, s);
  }

  /** A block statement gives back exactly the scopes it started with: names declared inside
      stop resolving and shadowed bindings are visible again. */
  lemma {:induction false} BlockRestoresScopes(st: GenState, s: Stmt)
    requires s.BlockStmt? && GenBlock(st, s).Ok?
    ensures Extends(st, GenBlock(st, s).value) && GenBlock(st, s).value.scopes == st.scopes
    decreases s, 1, 0
  {
    var st1 := st.(scopes := st.scopes + [map[]]);
    StatementsExtends(st1, s, 0);
    var st2 := GenStatements(st1, s, 0).value;
    assert Outer(st1.scopes) == st.scopes;
    ExtendsTransitive(st, st1, st2);
  }

  lemma {:induction false} StatementsExtends(st: GenState, s: Stmt, i: nat)
    requires s.BlockStmt? && i <= |s.statements| && GenStatements(st, s, i).Ok?
    ensures StmtStep(st, GenStatements(st, s, i).value)
    decreases s, 0, |s.statements| - i
  {
    if i < |s.statements| {
      var st1 := GenStmt(st, s.statements[i]).value;
      StmtExtends(st, s.statements[i]);
      StatementsExtends(st1, s, i + 1);
      StmtStepTransitive(st, st1, GenStatements(st, s, i).value);
    }
  }

  lemma {:induction false} IfExtends(st: GenState, s: Stmt)
    requires s.IfStmt? && GenIf(st, s).Ok?
    ensures StmtStep(st, GenIf(st, s).value)
    decreases s, 1, 0
  {
    var (elseLabel, st1) := NewLabel(st, "else");
    var (endLabel, st2) := NewLabel(st1, "end");
    var (condition, st3) := GenExpr(st2, s.condition).value;
    ExprStmtStep(st2, s.condition);
    StmtStepTransitive(st, st2, st3);
    var st3a := Emit(st3, JumpIfZero(condition, elseLabel));
    EmitStream(st3, JumpIfZero(condition, elseLabel));
    StmtStepTransitive(st, st3, st3a);
    var st4 := GenStmt(st3a, s.thenBranch).value;
    StmtExtends(st3a, s.thenBranch);
    StmtStepTransitive(st, st3a, st4);
    if s.elseBranch.Some? {
      var st4a := Emit(Emit(st4, Jump(endLabel)), Label(elseLabel));
      EmitStream(st4, Jump(endLabel));
      EmitStream(Emit(st4, Jump(endLabel)), Label(elseLabel));
      StmtStepTransitive(st4, Emit(st4, Jump(endLabel)), st4a);
      StmtStepTransitive(st, st4, st4a);
      var st5 := GenStmt(st4a, s.elseBranch.value).value;
      StmtExtends(st4a, s.elseBranch.value);
      StmtStepTransitive(st, st4a, st5);
      EmitStream(st5, Label(endLabel));
      StmtStepTransitive(st, st5, Emit(st5, Label(endLabel)));
    } else {
      EmitStream(st4, Label(elseLabel));
      StmtStepTransitive(st, st4, Emit(st4, Label(elseLabel)));
    }
  }

  lemma {:induction false} WhileExtends(st: GenState, s: Stmt)
    requires s.WhileStmt? && GenWhile(st, s).Ok?
    ensures StmtStep(st, GenWhile(st, s).value)
    decreases s, 1, 0
  {
    var (conditionLabel, st1) := NewLabel(st, "while_cond");
    var (bodyLabel, st2) := NewLabel(st1, "while_body");
    var (endLabel, st3) := NewLabel(st2, "while_end");
    var st3a := Emit(st3, Jump(conditionLabel));
    EmitStream(st3, Jump(conditionLabel));
    var st4 := StartBlock(st3a, conditionLabel);
    StartBlockStream(st3a, conditionLabel);
    StmtStepTransitive(st, st3a, st4);
    var (condition, st5) := GenExpr(st4, s.condition).value;
    ExprStmtStep(st4, s.condition);
    StmtStepTransitive(st, st4, st5);
    var st5a := Emit(st5, JumpIfZero(condition, endLabel));
    var st5b := Emit(st5a, Jump(bodyLabel));
    EmitStream(st5, JumpIfZero(condition, endLabel));
    EmitStream(st5a, Jump(bodyLabel));
    StmtStepTransitive(st5, st5a, st5b);
    var st6 := StartBlock(st5b, bodyLabel);
    StartBlockStream(st5b, bodyLabel);
    StmtStepTransitive(st5, st5b, st6);
    StmtStepTransitive(st, st5, st6);
    var st7 := GenStmt(st6, s.body).value;
    StmtExtends(st6, s.body);
    StmtStepTransitive(st, st6, st7);
    var st7a := Emit(st7, Jump(conditionLabel));
    EmitStream(st7, Jump(conditionLabel));
    StartBlockStream(st7a, endLabel);
    StmtStepTransitive(st7, st7a, StartBlock(st7a, endLabel));
    StmtStepTransitive(st, st7, StartBlock(st7a, endLabel));
  }

  /** A function declaration gives back exactly the scopes it started with. */
  lemma {:induction false} FunctionRestoresScopes(st: GenState, s: Stmt)
    requires s.FunctionDeclStmt? && GenFunction(st, s).Ok?
    ensures Extends(st, GenFunction(st, s).value) && GenFunction(st, s).value.scopes == st.scopes
    decreases s, 1, 0
  {
    var st0 := st.(scopes := st.scopes + [map[]]);
    var st1 := DeclareParams(st0, s.params, 0);
    DeclareParamsStep(st0, s.params, 0);
    assert Outer(st0.scopes) == st.scopes;
    ExtendsTransitive(st, st0, st1);
    FlushStream(st1, s.functionName + "_entry");
    var st2 := Flush(st1).(current := Block(s.functionName + "_entry", []));
    ExtendsTransitive(st, st1, st2);
    var st3 := GenStmt(st2, s.body).value;
    StmtExtends(st2, s.body);
    ExtendsTransitive(st, st2, st3);
    var st4 := GenFunction(st, s).value;
    EmittedPush(st3.blocks, st3.current);
    assert Stream(st4) == Stream(st3);
    ExtendsTransitive(st, st3, st4);
  }

  lemma {:induction false} VariableStmtExtends(st: GenState, s: Stmt)
    requires s.VariableStmt? && GenVariableStmt(st, s).Ok?
    ensures StmtStep(st, GenVariableStmt(st, s).value)
    decreases s, 1, 0
  {
    var (id, st1) := DeclareIn(st, s.name);
    DeclareInStep(st, s.name);
    var (rhs, st2) := GenExpr(st1, s.initializer.value).value;
    ExprStmtStep(st1, s.initializer.value);
    StmtStepTransitive(st, st1, st2);
    var i := Copy(IrCopy(Named(VariableName(s.name, id.value)), rhs));
    EmitStream(st2, i);
    StmtStepTransitive(st, st2, Emit(st2, i));
  }
}
