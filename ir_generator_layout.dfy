/** The code shapes the AST-to-IR generator (src/ir/ir_generator.cpp) lays out for `if`,
    `while`, `&&` / `||` and variable declarations, and a worked example of `generate`. */
module IrGenerationLayout {
  import opened Wrappers
  import opened MachineInt
  import opened Decimal
  import Tokens
  import opened Ast
  import opened IR
  import opened Scopes
  import opened IrGeneration
  import opened IrGenerationFacts

  /** A block whose last two instructions are a jump-if-zero to `zeroTarget` and a jump to
      `target`. */
  predicate EndsWithBranch(b: Block, zeroTarget: string, target: string) {
    var ins := b.instructions;
    |ins| >= 2 && ins[|ins| - 2].JumpIfZero? && ins[|ins| - 2].target == zeroTarget &&
    ins[|ins| - 1] == Jump(target)
  }

  /** The instructions `later` has emitted beyond `earlier`. */
  function Appended(earlier: GenState, later: GenState): (code: seq<Instruction>)
    requires Extends(earlier, later)
    ensures Stream(later) == Stream(earlier) + code
  {
    Stream(later)[|Stream(earlier)|..]
  }

  /** The part of `if` both forms share: the condition, the jump to the else label and the then
      branch. */
  lemma IfHead(st: GenState, s: Stmt) returns (condition: Value, conditionCode: seq<Instruction>, thenCode: seq<Instruction>, st4: GenState)
    requires s.IfStmt?
    requires GenExpr(st.(labels := st.labels + 2), s.condition).Ok?
    requires GenStmt(Emit(GenExpr(st.(labels := st.labels + 2), s.condition).value.1,
                          JumpIfZero(GenExpr(st.(labels := st.labels + 2), s.condition).value.0, LabelName("else", st.labels))),
                     s.thenBranch).Ok?
    ensures var st3 := GenExpr(st.(labels := st.labels + 2), s.condition).value.1;
            condition == GenExpr(st.(labels := st.labels + 2), s.condition).value.0 &&
            st4 == GenStmt(Emit(st3, JumpIfZero(condition, LabelName("else", st.labels))), s.thenBranch).value
    ensures Extends(st, st4) && st4.labels >= st.labels + 2
    ensures Stream(st4) == Stream(st) + conditionCode + [JumpIfZero(condition, LabelName("else", st.labels))] + thenCode
  {
    var st2 := st.(labels := st.labels + 2);
    var st3;
    condition, st3 := GenExpr(st2, s.condition).value.0, GenExpr(st2, s.condition).value.1;
    ExprExtends(st2, s.condition);
    conditionCode := Appended(st2, st3);
    var st3a := Emit(st3, JumpIfZero(condition, LabelName("else", st.labels)));
    EmitStream(st3, JumpIfZero(condition, LabelName("else", st.labels)));
    st4 := GenStmt(st3a, s.thenBranch).value;
    StmtExtends(st3a, s.thenBranch);
    thenCode := Appended(st3a, st4);
    ExtendsTransitive(st2, st3, st3a);
    ExtendsTransitive(st2, st3a, st4);
  }

  /** `if` with an else branch: the labels are distinct; the instructions appended are the
      condition's code, a jump-if-zero on the condition to the else label, the then branch, a jump
      to the end label, the else label, the else branch and the end label, which closes the
      current block. */
  lemma IfElseLayout(st: GenState, s: Stmt)
    requires s.IfStmt? && s.elseBranch.Some? && GenIf(st, s).Ok?
    ensures var st' := GenIf(st, s).value;
            var elseLabel := LabelName("else", st.labels);
            var endLabel := LabelName("end", st.labels + 1);
            elseLabel != endLabel && st'.labels >= st.labels + 2 &&
            st'.current.instructions != [] && Last(st'.current.instructions) == Label(endLabel) &&
            exists condition: Value, conditionCode, thenCode, elseCode ::
              Stream(st') == Stream(st) + conditionCode + [JumpIfZero(condition, elseLabel)] + thenCode +
                             [Jump(endLabel), Label(elseLabel)] + elseCode + [Label(endLabel)]
  {
    var elseLabel := LabelName("else", st.labels);
    var endLabel := LabelName("end", st.labels + 1);
    LabelNamesDistinct("else", st.labels, "end", st.labels + 1);
    var condition, conditionCode, thenCode, st4 := IfHead(st, s);
    var st4a := Emit(Emit(st4, Jump(endLabel)), Label(elseLabel));
    var st5 := GenStmt(st4a, s.elseBranch.value).value;
    assert GenIf(st, s).value == Emit(st5, Label(endLabel));
    StmtExtends(st4a, s.elseBranch.value);
    var elseCode := Appended(st4a, st5);
    var head := Stream(st) + conditionCode + [JumpIfZero(condition, elseLabel)] + thenCode;
    EmitStream(st4, Jump(endLabel));
    EmitStream(Emit(st4, Jump(endLabel)), Label(elseLabel));
    assert Stream(st4a) == head + [Jump(endLabel), Label(elseLabel)];
    EmitStream(st5, Label(endLabel));
    assert Stream(Emit(st5, Label(endLabel))) == head + [Jump(endLabel), Label(elseLabel)] + elseCode + [Label(endLabel)];
  }

  /** `if` without an else branch: the instructions appended are the condition's code, a
      jump-if-zero on the condition to the else label and the then branch, and the else label
      closes the current block; the end label is taken but never placed. */
  lemma IfThenLayout(st: GenState, s: Stmt)
    requires s.IfStmt? && s.elseBranch.None? && GenIf(st, s).Ok?
    ensures var st' := GenIf(st, s).value;
            var elseLabel := LabelName("else", st.labels);
            st'.labels >= st.labels + 2 &&
            st'.current.instructions != [] && Last(st'.current.instructions) == Label(elseLabel) &&
            exists condition: Value, conditionCode, thenCode ::
              Stream(st') == Stream(st) + conditionCode + [JumpIfZero(condition, elseLabel)] + thenCode + [Label(elseLabel)]
  {
    var elseLabel := LabelName("else", st.labels);
    var condition, conditionCode, thenCode, st4 := IfHead(st, s);
    assert GenIf(st, s).value == Emit(st4, Label(elseLabel));
    assert Stream(Emit(st4, Label(elseLabel))) ==
           Stream(st) + conditionCode + [JumpIfZero(condition, elseLabel)] + thenCode + [Label(elseLabel)];
  }

  /** The blocks `while` has pushed once its body is about to be generated, and the state
      after the body. */
  lemma WhileParts(st: GenState, s: Stmt) returns (st6: GenState, st7: GenState, m: nat)
    requires s.WhileStmt? && GenWhile(st, s).Ok?
    ensures var conditionLabel := LabelName("while_cond", st.labels);
            var n := |st.blocks|;
            GenWhile(st, s).value ==
              StartBlock(Emit(st7, Jump(conditionLabel)), LabelName("while_end", st.labels + 2)) &&
            Extends(st6, st7) && n + 1 <= m && m + 1 == |st6.blocks| &&
            st6.blocks[n] == Block(st.current.name, st.current.instructions + [Jump(conditionLabel)]) &&
            st6.blocks[n + 1].name == conditionLabel &&
            EndsWithBranch(st6.blocks[m], LabelName("while_end", st.labels + 2), LabelName("while_body", st.labels + 1))
  {
    var n := |st.blocks|;
    var conditionLabel := LabelName("while_cond", st.labels);
    var bodyLabel := LabelName("while_body", st.labels + 1);
    var endLabel := LabelName("while_end", st.labels + 2);
    var st4 := StartBlock(Emit(st.(labels := st.labels + 3), Jump(conditionLabel)), conditionLabel);
    var (condition, st5) := GenExpr(st4, s.condition).value;
    ExprExtends(st4, s.condition);
    st6 := StartBlock(Emit(Emit(st5, JumpIfZero(condition, endLabel)), Jump(bodyLabel)), bodyLabel);
    m := |st5.blocks|;
    assert st6.blocks[n] == st4.blocks[n];
    st7 := GenStmt(st6, s.body).value;
    StmtExtends(st6, s.body);
  }

  /** `while`: three distinct labels. The block being filled is pushed ending in a jump to the
      condition label; the next block is named by it; some later block ends with the
      jump-if-zero to the end label and the jump to the body label; the last pushed block ends
      with the jump back to the condition; an empty block named by the end label is current. */
  lemma WhileLayout(st: GenState, s: Stmt)
    requires s.WhileStmt? && GenWhile(st, s).Ok?
    ensures var st' := GenWhile(st, s).value;
            var n := |st.blocks|;
            var conditionLabel := LabelName("while_cond", st.labels);
            var bodyLabel := LabelName("while_body", st.labels + 1);
            var endLabel := LabelName("while_end", st.labels + 2);
            conditionLabel != bodyLabel && bodyLabel != endLabel && conditionLabel != endLabel &&
            |st'.blocks| >= n + 3 &&
            st'.blocks[n] == Block(st.current.name, st.current.instructions + [Jump(conditionLabel)]) &&
            st'.blocks[n + 1].name == conditionLabel &&
            (exists m :: n + 1 <= m < |st'.blocks| - 1 && EndsWithBranch(st'.blocks[m], endLabel, bodyLabel)) &&
            Last(st'.blocks).instructions != [] && Last(Last(st'.blocks).instructions) == Jump(conditionLabel) &&
            st'.current == Block(endLabel, [])
  {
    var n := |st.blocks|;
    LabelNamesDistinct("while_cond", st.labels, "while_body", st.labels + 1);
    LabelNamesDistinct("while_body", st.labels + 1, "while_end", st.labels + 2);
    LabelNamesDistinct("while_cond", st.labels, "while_end", st.labels + 2);
    var st6, st7, m := WhileParts(st, s);
    var st' := GenWhile(st, s).value;
    assert st'.blocks == st7.blocks + [Block(st7.current.name, st7.current.instructions + [Jump(LabelName("while_cond", st.labels))])];
    assert st'.blocks[m] == st6.blocks[m] && st'.blocks[n] == st6.blocks[n] && st'.blocks[n + 1] == st6.blocks[n + 1];
  }

  /** The conditional jump on the left side, the state after the right side and the value of
      the right side, of which `&&` and `||` make their short circuit. */
  lemma LogicalParts(st: GenState, e: Expr) returns (n: nat, j: nat, right: Value, st5: GenState)
    requires e.LogicalExpr? && (e.op == Tokens.LogicalAnd || e.op == Tokens.LogicalOr) && GenLogical(st, e).Ok?
    ensures var shortLabel := LabelName("short_circuit", st.labels);
            var k: int32 := if e.op == Tokens.LogicalAnd then 0 else 1;
            GenLogical(st, e).value ==
              (Named(TempName(n)), ShortCircuit(st5, Named(TempName(n)), right, shortLabel, LabelName("logical_end", st.labels + 1), k)) &&
            st.temps <= n && Extends(st, st5) && |Stream(st)| <= j < |Stream(st5)| &&
            (if e.op == Tokens.LogicalAnd then Stream(st5)[j].JumpIfZero? else Stream(st5)[j].JumpIfNotZero?) &&
            Stream(st5)[j].target == shortLabel
  {
    var shortLabel := LabelName("short_circuit", st.labels);
    var st2 := st.(labels := st.labels + 2);
    var (left, st3) := GenExpr(st2, e.left).value;
    ExprExtends(st2, e.left);
    n := st3.temps;
    var st4 := st3.(temps := n + 1);
    var jump := if e.op == Tokens.LogicalAnd then JumpIfZero(left, shortLabel) else JumpIfNotZero(left, shortLabel);
    var st0 := Emit(st4, jump);
    EmitStream(st4, jump);
    right, st5 := GenExpr(st0, e.right).value.0, GenExpr(st0, e.right).value.1;
    ExprExtends(st0, e.right);
    ExtendsTransitive(st2, st3, st0);
    ExtendsTransitive(st2, st0, st5);
    j := |Stream(st4)|;
    assert Stream(st0)[j] == jump;
  }

  /** `&&` / `||`: the two labels are distinct; the result is a temporary at least as new as
      the state; a conditional jump on the left side to the short-circuit label (if zero for
      `&&`, if not zero for `||`) is appended; the block before last ends with a copy into the
      result and a jump to the end label; the last block, named by the short-circuit label,
      only sets the result to 0 for `&&` or 1 for `||`; an empty block named by the end label is
      current. */
  lemma LogicalLayout(st: GenState, e: Expr)
    requires e.LogicalExpr? && (e.op == Tokens.LogicalAnd || e.op == Tokens.LogicalOr) && GenLogical(st, e).Ok?
    ensures var (v, st') := GenLogical(st, e).value;
            var shortLabel := LabelName("short_circuit", st.labels);
            var endLabel := LabelName("logical_end", st.labels + 1);
            var k: int32 := if e.op == Tokens.LogicalAnd then 0 else 1;
            shortLabel != endLabel && Extends(st, st') &&
            (exists n: nat :: st.temps <= n && v == Named(TempName(n))) &&
            (exists j :: |Stream(st)| <= j < |Stream(st')| &&
                         (if e.op == Tokens.LogicalAnd then Stream(st')[j].JumpIfZero? else Stream(st')[j].JumpIfNotZero?) &&
                         Stream(st')[j].target == shortLabel) &&
            |st'.blocks| >= |st.blocks| + 2 &&
            Last(st'.blocks) == Block(shortLabel, [Copy(IrCopy(v, Constant(k)))]) &&
            EndsWithCopyAndJump(st'.blocks[|st'.blocks| - 2], v, endLabel) &&
            st'.current == Block(endLabel, [])
  {
    var shortLabel := LabelName("short_circuit", st.labels);
    var endLabel := LabelName("logical_end", st.labels + 1);
    LabelNamesDistinct("short_circuit", st.labels, "logical_end", st.labels + 1);
    var k: int32 := if e.op == Tokens.LogicalAnd then 0 else 1;
    var n, j, right, st5 := LogicalParts(st, e);
    var v := Named(TempName(n));
    var st' := ShortCircuit(st5, v, right, shortLabel, endLabel, k);
    ShortCircuitExtends(st5, v, right, shortLabel, endLabel, k);
    ExtendsTransitive(st, st5, st');
    assert Stream(st')[j] == Stream(st5)[j];
  }

  /** A block whose last two instructions are a copy into `result` and a jump to `target`. */
  predicate EndsWithCopyAndJump(b: Block, result: Value, target: string) {
    var ins := b.instructions;
    |ins| >= 2 && ins[|ins| - 2].Copy? && ins[|ins| - 2].copy.destination == result &&
    ins[|ins| - 1] == Jump(target)
  }

  /** A variable declaration with an initializer binds the name to the next id in the innermost
      scope, leaves every other name resolving as before and ends with the copy into the
      versioned name; without an initializer it fails, and with no scope open it fails once the
      initializer is generated. */
  lemma VariableStmtBinds(st: GenState, s: Stmt)
    requires s.VariableStmt?
    ensures s.initializer.None? ==> GenVariableStmt(st, s) == Err("Not implemented?")
    ensures s.initializer.Some? && st.scopes == [] && GenExpr(st, s.initializer.value).Ok? ==>
              GenVariableStmt(st, s) == Err("bad optional access")
    ensures GenVariableStmt(st, s).Ok? ==>
              var st' := GenVariableStmt(st, s).value;
              var id := st.declarations + 1;
              st.scopes != [] && st'.declarations == id &&
              Lookup(st'.scopes, s.name) == Some(id) &&
              (forall other :: other != s.name ==> Lookup(st'.scopes, other) == Lookup(st.scopes, other)) &&
              st'.current.instructions != [] && Last(st'.current.instructions).Copy? &&
              Last(st'.current.instructions).copy.destination == Named(VariableName(s.name, id))
  {
    DeclareInStep(st, s.name);
  }

  /** The name is declared before its initializer is generated, so `int x = x;` reads the
      fresh binding: it copies the new variable into itself. */
  lemma InitializerSeesNewBinding(st: GenState, x: string)
    requires st.scopes != []
    ensures var v := Named(VariableName(x, st.declarations + 1));
            GenVariableStmt(st, VariableStmt(x, Some(VariableExpr(x)))) ==
            Ok(Emit(DeclareIn(st, x).1, Copy(IrCopy(v, v))))
  {
    DeclareInStep(st, x);
  }

  /** The state of a fresh generator, with the label counter at `labels`. */
  function FreshState(labels: nat): GenState {
    GenState([], Block("entry", []), 0, labels, [map[]], 0)
  }

  /** `return 1 + 2;` gives one block "entry" holding `t0 = 1 + 2` and `return t0`. */
  lemma ReturnSumExample()
    ensures Generated(FreshState(0), [ReturnStmt(BinaryExpr(LiteralExpr(1), Tokens.Plus, LiteralExpr(2)))]) ==
            Ok(([Block("entry", [Binary(Tokens.Plus, Constant(1), Constant(2), Named("t0")),
                                 Return(Named("t0"))])],
                GenState([Block("entry", [Binary(Tokens.Plus, Constant(1), Constant(2), Named("t0")), Return(Named("t0"))])],
                         Block("entry", [Binary(Tokens.Plus, Constant(1), Constant(2), Named("t0")), Return(Named("t0"))]),
                         1, 0, [map[]], 0)))
  {
    var st := FreshState(0);
    var e := BinaryExpr(LiteralExpr(1), Tokens.Plus, LiteralExpr(2));
    assert DigitChar(0) == '0';
    assert TempName(0) == "t0";
    var sum := Binary(Tokens.Plus, Constant(1), Constant(2), Named("t0"));
    assert GenExpr(st, LiteralExpr(1)) == Ok((Constant(1), st));
    assert GenExpr(st, LiteralExpr(2)) == Ok((Constant(2), st));
    assert NewTemp(st) == ("t0", st.(temps := 1));
    assert Emit(st.(temps := 1), sum) == st.(temps := 1, current := Block("entry", [sum]));
    assert e.left == LiteralExpr(1) && e.right == LiteralExpr(2) && e.op == Tokens.Plus;
    assert GenBinary(st, e) == Ok((Named("t0"), st.(temps := 1, current := Block("entry", [sum]))));
    assert GenExpr(st, e) == Ok((Named("t0"), st.(temps := 1, current := Block("entry", [sum]))));
    var st1 := st.(temps := 1, current := Block("entry", [sum, Return(Named("t0"))]));
    assert Emit(st.(temps := 1, current := Block("entry", [sum])), Return(Named("t0"))) == st1;
    assert GenStmt(st, ReturnStmt(e)) == Ok(st1);
    assert GenProgram(st1, [ReturnStmt(e)], 1) == Ok(st1);
    assert GenProgram(st, [ReturnStmt(e)], 0) == Ok(st1);
    assert st.(current := Block("entry", [])) == st;
    assert Flush(st1) == st1.(blocks := [st1.current]);
  }
}
