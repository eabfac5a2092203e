/** Constant folding (src/optimizations/passes/constant_folding.cpp): unary and binary
    instructions on constants become copies of the computed literal. */
module ConstantFoldingPass {
  import opened Wrappers
  import opened Tokens
  import opened MachineInt
  import opened IR

  // ---------------------------------------------------------------------------------------------
  // Evaluation on C++ `int`

  /** The inputs on which `evaluate_unary` has defined behaviour: only `-INT_MIN` overflows. */
  predicate UnaryDefined(op: TokenType, v: int32) {
    op == Minus ==> v != INT_MIN
  }

  /** The inputs on which `evaluate_binary` has defined behaviour: no signed overflow and no
      division by zero (which also rules out `INT_MIN / -1`). */
  predicate BinaryDefined(op: TokenType, l: int32, r: int32) {
    if op == Plus then InRange(l + r)
    else if op == Minus then InRange(l - r)
    else if op == Star then InRange(l * r)
    else if op == Slash then r != 0 && InRange(TruncDiv(l, r))
    else true
  }

  function BoolToInt(b: bool): int32 { if b then 1 else 0 }

  /** `evaluate_unary`. `~v` on a two's complement `int` is `-v - 1`. */
  function EvaluateUnary(op: TokenType, v: int32): Option<int32>
    requires UnaryDefined(op, v)
  {
    if op == Minus then Some(-v)
    else if op == Tilde then Some(-1 - v)
    else if op == Not then Some(BoolToInt(v == 0))
    else None
  }

  /** `evaluate_binary`: the four arithmetic operators with C++ truncating division, the six
      comparisons as 1 or 0, nothing for any other operator. */
  function EvaluateBinary(op: TokenType, l: int32, r: int32): Option<int32>
    requires BinaryDefined(op, l, r)
  {
    if op == Plus then Some(l + r)
    else if op == Minus then Some(l - r)
    else if op == Star then Some(l * r)
    else if op == Slash then Some(TruncDiv(l, r))
    else if op == NotEqual then Some(BoolToInt(l != r))
    else if op == EqualEqual then Some(BoolToInt(l == r))
    else if op == Less then Some(BoolToInt(l < r))
    else if op == LessEqual then Some(BoolToInt(l <= r))
    else if op == Greater then Some(BoolToInt(l > r))
    else if op == GreaterEqual then Some(BoolToInt(l >= r))
    else None
  }

  predicate IsUnaryFoldable(op: TokenType) { op == Minus || op == Tilde || op == Not }

  predicate IsBinaryFoldable(op: TokenType) {
    op == Plus || op == Minus || op == Star || op == Slash || IsComparison(op)
  }

  predicate IsComparison(op: TokenType) {
    op == NotEqual || op == EqualEqual || op == Less || op == LessEqual || op == Greater || op == GreaterEqual
  }

  /** The unary operators evaluated are exactly `-`, `~` and `!`; `-` and `~` are involutions and
      `!` yields a truth value. */
  lemma EvaluateUnaryLaws(op: TokenType, v: int32)
    requires UnaryDefined(op, v)
    ensures EvaluateUnary(op, v).Some? <==> IsUnaryFoldable(op)
    ensures op == Minus ==> var w := EvaluateUnary(Minus, v).value; UnaryDefined(Minus, w) && EvaluateUnary(Minus, w) == Some(v)
    ensures op == Tilde ==> var w := EvaluateUnary(Tilde, v).value; EvaluateUnary(Tilde, w) == Some(v)
    ensures op == Not ==> var w := EvaluateUnary(Not, v).value; (w == 0 || w == 1) && (w == 1 <==> v == 0)
  {
  }

  /** The binary operators evaluated are exactly the four arithmetic ones and the six
      comparisons, and every comparison yields a truth value. */
  lemma EvaluateBinaryLaws(op: TokenType, l: int32, r: int32)
    requires BinaryDefined(op, l, r)
    ensures EvaluateBinary(op, l, r).Some? <==> IsBinaryFoldable(op)
    ensures IsComparison(op) ==> EvaluateBinary(op, l, r) == Some(0) || EvaluateBinary(op, l, r) == Some(1)
  {
  }

  /** The comparisons agree with each other: `==` negates `!=`, `<=` negates `>`, `>=` negates
      `<`, and `<` is `>` with the operands swapped. */
  lemma ComparisonLaws(l: int32, r: int32)
    ensures EvaluateBinary(EqualEqual, l, r).value == 1 - EvaluateBinary(NotEqual, l, r).value
    ensures EvaluateBinary(LessEqual, l, r).value == 1 - EvaluateBinary(Greater, l, r).value
    ensures EvaluateBinary(GreaterEqual, l, r).value == 1 - EvaluateBinary(Less, l, r).value
    ensures EvaluateBinary(Less, l, r) == EvaluateBinary(Greater, r, l)
  {
  }

  /** `+`, `-` and `*` are exact when defined, and `/` is the C++ quotient: it times the divisor,
      plus a remainder smaller than the divisor and with the dividend's sign, gives the dividend. */
  lemma EvaluateArithmetic(op: TokenType, l: int32, r: int32)
    requires BinaryDefined(op, l, r)
    ensures op == Plus ==> EvaluateBinary(op, l, r) == Some(l + r)
    ensures op == Minus ==> EvaluateBinary(op, l, r) == Some(l - r)
    ensures op == Star ==> EvaluateBinary(op, l, r) == Some(l * r)
    ensures op == Slash ==>
              var q := EvaluateBinary(op, l, r).value;
              var rem := l - q * r;
              Abs(rem) < Abs(r) && (l >= 0 ==> rem >= 0) && (l <= 0 ==> rem <= 0)
  {
    if op == Slash {
      TruncDivLaws(l, r);
    }
  }

  /** Division rounds toward zero, not down: 10 / 3 is 3 and -7 / 2 is -3. */
  lemma DivisionExamples()
    ensures EvaluateBinary(Slash, 10, 3) == Some(3)
    ensures EvaluateBinary(Slash, -7, 2) == Some(-3)
  {
    TruncDivExamples();
  }

  // ---------------------------------------------------------------------------------------------
  // Folding one instruction

  /** `get_constant_value`. */
  function GetConstantValue(v: Value): Option<int32> {
    if v.IsConstant() then Some(v.n) else None
  }

  /** The instructions whose folding has defined behaviour. */
  predicate FoldDefined(i: Instruction) {
    match i
    case Binary(op, left, right, _) => left.Constant? && right.Constant? ==> BinaryDefined(op, left.n, right.n)
    case Unary(op, value, _) => value.Constant? ==> UnaryDefined(op, value.n)
    case _ => true
  }

  /** `fold_instruction` over its overloads: the generic one folds nothing. */
  function FoldInstruction(i: Instruction): Option<Instruction>
    requires FoldDefined(i)
  {
    match i
    case Binary(op, left, right, result) =>
      var l := GetConstantValue(left);
      var r := GetConstantValue(right);
      if l.Some? && r.Some? then
        var v := EvaluateBinary(op, l.value, r.value);
        if v.Some? then Some(Copy(IrCopy(result, Constant(v.value)))) else None
      else None
    case Unary(op, value, result) =>
      var c := GetConstantValue(value);
      if c.Some? then
        var v := EvaluateUnary(op, c.value);
        if v.Some? then Some(Copy(IrCopy(result, Constant(v.value)))) else None
      else None
    case _ => None
  }

  /** An instruction folds exactly when it is a binary instruction on two constants with an
      evaluated operator, or a unary one on a constant with an evaluated operator; the fold is a
      copy of the computed literal into the instruction's result. */
  lemma FoldInstructionIff(i: Instruction)
    requires FoldDefined(i)
    ensures FoldInstruction(i).Some? <==>
              (i.Binary? && i.left.Constant? && i.right.Constant? && IsBinaryFoldable(i.op)) ||
              (i.Unary? && i.value.Constant? && IsUnaryFoldable(i.op))
    ensures i.Binary? && FoldInstruction(i).Some? ==>
              FoldInstruction(i) == Some(Copy(IrCopy(i.result, Constant(EvaluateBinary(i.op, i.left.n, i.right.n).value))))
    ensures i.Unary? && FoldInstruction(i).Some? ==>
              FoldInstruction(i) == Some(Copy(IrCopy(i.result, Constant(EvaluateUnary(i.op, i.value.n).value))))
  {
    match i
    case Binary(op, left, right, result) =>
      if left.Constant? && right.Constant? {
        EvaluateBinaryLaws(op, left.n, right.n);
      }
    case Unary(op, value, result) =>
      if value.Constant? {
        EvaluateUnaryLaws(op, value.n);
      }
    case _ =>
  }

  // ---------------------------------------------------------------------------------------------
  // Folding a list

  predicate AllFoldDefined(instrs: seq<Instruction>) {
    forall k :: 0 <= k < |instrs| ==> FoldDefined(instrs[k])
  }

  function FoldedOf(r: Option<Instruction>): seq<Instruction> {
    if r.Some? then [r.value] else []
  }

  /** What `process_instruction` appends for the first `k` instructions: their folds, in order. */
  function FoldedUpTo(instrs: seq<Instruction>, k: nat): seq<Instruction>
    requires k <= |instrs| && AllFoldDefined(instrs)
  {
    if k == 0 then [] else FoldedUpTo(instrs, k - 1) + FoldedOf(FoldInstruction(instrs[k - 1]))
  }

  predicate SomeFolds(instrs: seq<Instruction>, k: nat)
    requires k <= |instrs| && AllFoldDefined(instrs)
  {
    exists j :: 0 <= j < k && FoldInstruction(instrs[j]).Some?
  }

  /** The folds of a prefix are empty exactly when nothing in it folds. */
  lemma {:induction false} FoldedUpToEmpty(instrs: seq<Instruction>, k: nat)
    requires k <= |instrs| && AllFoldDefined(instrs)
    ensures FoldedUpTo(instrs, k) == [] <==> !SomeFolds(instrs, k)
  {
    if k > 0 {
      FoldedUpToEmpty(instrs, k - 1);
      if FoldInstruction(instrs[k - 1]).None? {
        assert FoldedUpTo(instrs, k) == FoldedUpTo(instrs, k - 1);
        assert SomeFolds(instrs, k) == SomeFolds(instrs, k - 1) by {
          if SomeFolds(instrs, k) {
            var j :| 0 <= j < k && FoldInstruction(instrs[j]).Some?;
            assert j < k - 1;
          }
        }
      }
    }
  }

  /** The folds of a prefix are no more than its instructions, and are copies of literals. */
  lemma {:induction false} FoldedUpToCopies(instrs: seq<Instruction>, k: nat)
    requires k <= |instrs| && AllFoldDefined(instrs)
    ensures |FoldedUpTo(instrs, k)| <= k
    ensures forall j :: 0 <= j < |FoldedUpTo(instrs, k)| ==>
              FoldedUpTo(instrs, k)[j].Copy? && FoldedUpTo(instrs, k)[j].copy.source.Constant?
  {
    if k > 0 {
      FoldedUpToCopies(instrs, k - 1);
      var prev: seq<Instruction> := FoldedUpTo(instrs, k - 1);
      var last: seq<Instruction> := FoldedOf(FoldInstruction(instrs[k - 1]));
      FoldInstructionIff(instrs[k - 1]);
      assert FoldedUpTo(instrs, k) == prev + last;
      forall j | 0 <= j < |prev + last|
        ensures (prev + last)[j].Copy? && (prev + last)[j].copy.source.Constant?
      {
        if j >= |prev| {
          assert (prev + last)[j] == last[0];
        }
      }
    }
  }

  /** Folding throws away everything that does not fold: a binary instruction on constants
      followed by the return of its result leaves only the copy. */
  lemma FoldingDropsTheRest()
    ensures var instrs := [Binary(Plus, Constant(1), Constant(2), Named("t0")), Instruction.Return(Named("t0"))];
            AllFoldDefined(instrs) &&
            FoldedUpTo(instrs, |instrs|) == [Copy(IrCopy(Named("t0"), Constant(3)))]
  {
    var instrs := [Binary(Plus, Constant(1), Constant(2), Named("t0")), Instruction.Return(Named("t0"))];
    assert FoldedUpTo(instrs, 1) == [Copy(IrCopy(Named("t0"), Constant(3)))];
  }

  /** The folding pass. `newInstructions` collects the folds; on a change it is moved into the
      caller's list and left empty. */
  class ConstantFolding {
    var newInstructions: seq<Instruction>

    constructor()
      ensures newInstructions == []
    {
      newInstructions := [];
    }

    /** `process_instruction`: appends the fold, if any, and says whether there was one. */
    method ProcessInstruction(inst: Instruction) returns (r: bool)
      requires FoldDefined(inst)
      modifies this
      ensures r <==> FoldInstruction(inst).Some?
      ensures newInstructions == old(newInstructions) + FoldedOf(FoldInstruction(inst))
    {
      var folded := FoldInstruction(inst);
      if folded.Some? {
        newInstructions := newInstructions + [folded.value];
        return true;
      }
      return false;
    }

    /** `apply`: the list comes back as the collected folds when anything folded, and unchanged
        otherwise. */
    method Apply(instructions: seq<Instruction>) returns (changed: bool, result: seq<Instruction>)
      requires AllFoldDefined(instructions)
      modifies this
      ensures changed <==> SomeFolds(instructions, |instructions|)
      ensures changed ==> result == old(newInstructions) + FoldedUpTo(instructions, |instructions|) && newInstructions == []
      ensures !changed ==> result == instructions && newInstructions == old(newInstructions)
    {
      changed := false;
      var k := 0;
      while k < |instructions|
        invariant 0 <= k <= |instructions|
        invariant newInstructions == old(newInstructions) + FoldedUpTo(instructions, k)
        invariant changed <==> SomeFolds(instructions, k)
      {
        var folded := ProcessInstruction(instructions[k]);
        changed := changed || folded;
        k := k + 1;
      }
      FoldedUpToEmpty(instructions, |instructions|);
      if changed {
        result := newInstructions;
        newInstructions := [];
      } else {
        result := instructions;
      }
    }
  }
}
