/** The IR-to-x86 lowering (src/codegen/code_generator.cpp): each IR instruction becomes a short
    x86 sequence; constants become immediates, temporaries pseudo registers and every other name
    a stack slot handed out on first use. */
module CodeGeneration {
  import opened Wrappers
  import opened MachineInt
  import Tokens
  import opened IR
  import opened X86

  // ---------------------------------------------------------------------------------------
  // The lowering tables
  // ---------------------------------------------------------------------------------------

  /** `cmp right,left; mov 0,result; set<cc> result`. */
  function CompareCode(l: Operand, r: Operand, res: Operand, cc: CC): seq<Instr> {
    [Cmp(r, l), Mov(Imm(0), res), SetCC(cc, res)]
  }

  /** The condition code of each comparison operator. */
  function ComparisonCC(op: Tokens.TokenType): Option<CC> {
    if op == Tokens.NotEqual then Some(NotEqual)
    else if op == Tokens.EqualEqual then Some(Equal)
    else if op == Tokens.Less then Some(Less)
    else if op == Tokens.LessEqual then Some(LessOrEqual)
    else if op == Tokens.Greater then Some(Greater)
    else if op == Tokens.GreaterEqual then Some(GreaterOrEqual)
    else None
  }

  /** The `switch` of the binary overload on already converted operands. The `Slash` case has no
      `break`, so its division sequence is followed by the `Greater` case's comparison. */
  function BinaryCode(op: Tokens.TokenType, l: Operand, r: Operand, res: Operand): Result<seq<Instr>> {
    if op == Tokens.Plus then Ok([Mov(l, res), Add(r, res)])
    else if op == Tokens.Minus then Ok([Mov(l, res), Sub(r, res)])
    else if op == Tokens.Star then Ok([Mov(l, res), Imul(r, res)])
    else if op == Tokens.Slash then Ok([Mov(l, RAX), Cdq, Idiv(r), Mov(RAX, res)] + CompareCode(l, r, res, Greater))
    else if ComparisonCC(op).Some? then Ok(CompareCode(l, r, res, ComparisonCC(op).value))
    else Err("Unsupported binary operator")
  }

  /** The unary overload on converted operands: a move into the result unless the IR value and
      result are the same value, then the operator. */
  function UnaryCode(op: Tokens.TokenType, sameValue: bool, v: Operand, res: Operand): Result<seq<Instr>> {
    var prefix := if sameValue then [] else [Mov(v, res)];
    if op == Tokens.Tilde then Ok(prefix + [NotOp(res)])
    else if op == Tokens.Minus then Ok(prefix + [Neg(res)])
    else if op == Tokens.Not then Ok(prefix + [Cmp(Imm(0), v), Mov(Imm(0), res), SetCC(Equal, res)])
    else Err("Unsupported unary operator")
  }

  /** Both conditional jumps: the condition into RAX, a comparison with zero, the jump. */
  function ConditionalJumpCode(c: Operand, cc: CC, target: string): seq<Instr> {
    [Mov(c, RAX), Cmp(Imm(0), RAX), JmpCC(cc, target)]
  }

  // ---------------------------------------------------------------------------------------
  // The generator's state as a value
  // ---------------------------------------------------------------------------------------

  /** The instructions emitted, the stack slot of each variable and the next free offset. */
  datatype CGState = CGState(instructions: seq<Instr>, locations: map<string, int>, offset: int)

  function Append(st: CGState, code: seq<Instr>): CGState {
    st.(instructions := st.instructions + code)
  }

  /** The "temp fix": a name starting with `t` is taken for a temporary. */
  predicate IsTempName(name: string) {
    |name| > 0 && name[0] == 't'
  }

  /** `get_temp_location`: the slot a name already has, or the next offset, which then moves
      down by 4. */
  function TempLocation(st: CGState, name: string): (int, CGState) {
    if name in st.locations then (st.locations[name], st)
    else (st.offset, st.(locations := st.locations[name := st.offset], offset := st.offset - 4))
  }

  /** `convert_value`. */
  function Convert(st: CGState, v: Value): (Operand, CGState) {
    if v.Constant? then (Imm(v.n), st)
    else if IsTempName(v.name) then (PseudoRegister(v.name), st)
    else
      var (k, st1) := TempLocation(st, v.name);
      (Mem(k), st1)
  }

  /** The `assemble` overloads: operands are converted in the order the source converts them
      (result, left, right for binary; value, result for unary; destination, source for copy),
      then the sequence is appended. `ir_call` is not supported. */
  function Assembled(st: CGState, i: Instruction): Result<CGState> {
    match i
    case Binary(op, left, right, result) =>
      var (res, st1) := Convert(st, result);
      var (l, st2) := Convert(st1, left);
      var (r, st3) := Convert(st2, right);
      var code :- BinaryCode(op, l, r, res);
      Ok(Append(st3, code))
    case Return(value) =>
      var (v, st1) := Convert(st, value);
      Ok(Append(st1, [Mov(v, RAX), Ret]))
    case Unary(op, value, result) =>
      var (v, st1) := Convert(st, value);
      var (res, st2) := Convert(st1, result);
      var code :- UnaryCode(op, value == result, v, res);
      Ok(Append(st2, code))
    case Copy(c) =>
      var (d, st1) := Convert(st, c.destination);
      var (s, st2) := Convert(st1, c.source);
      Ok(Append(st2, [Mov(s, d)]))
    case Label(name) => Ok(Append(st, [LabelDef(name)]))
    case Jump(target) => Ok(Append(st, [Jmp(target)]))
    case JumpIfZero(condition, target) =>
      var (c, st1) := Convert(st, condition);
      Ok(Append(st1, ConditionalJumpCode(c, Equal, target)))
    case JumpIfNotZero(condition, target) =>
      var (c, st1) := Convert(st, condition);
      Ok(Append(st1, ConditionalJumpCode(c, NotEqual, target)))
    case Call(_, _, _) => Err("eror")
  }

  /** The loop of `generate` from the `k`-th instruction on. */
  function AssembledFrom(st: CGState, irs: seq<Instruction>, k: nat): Result<CGState>
    requires k <= |irs|
    decreases |irs| - k
  {
    if k == |irs| then Ok(st)
    else
      var st1 :- Assembled(st, irs[k]);
      AssembledFrom(st1, irs, k + 1)
  }

  // ---------------------------------------------------------------------------------------
  // Stack slots
  // ---------------------------------------------------------------------------------------

  /** The slots handed out lie strictly above the next free offset and at most -4, are
      multiples of 4, and no two names share one. */
  ghost predicate SlotsValid(locations: map<string, int>, offset: int) {
    offset <= -4 && offset % 4 == 0 &&
    (forall n :: n in locations ==> offset < locations[n] <= -4 && locations[n] % 4 == 0) &&
    (forall a, b :: a in locations && b in locations && a != b ==> locations[a] != locations[b])
  }

  /** `later` keeps every slot of `earlier` and only appends instructions. */
  ghost predicate Grows(earlier: CGState, later: CGState) {
    earlier.instructions <= later.instructions && later.offset <= earlier.offset &&
    forall n :: n in earlier.locations ==> n in later.locations && later.locations[n] == earlier.locations[n]
  }

  /** A repeated name gets its own slot back and changes nothing; a new name gets the next
      offset, which differs from every slot handed out, and the offset moves down by 4. */
  lemma TempLocationSpec(st: CGState, name: string)
    requires SlotsValid(st.locations, st.offset)
    ensures var (k, st') := TempLocation(st, name);
            SlotsValid(st'.locations, st'.offset) && Grows(st, st') &&
            name in st'.locations && st'.locations[name] == k && st'.instructions == st.instructions &&
            (name in st.locations ==> st' == st) &&
            (name !in st.locations ==>
               k == st.offset && st'.offset == st.offset - 4 && st'.locations == st.locations[name := k] &&
               forall other :: other in st.locations ==> st.locations[other] != k)
  {
  }

  /** Where a name lives once converted: a pseudo register for a temporary, its slot otherwise. */
  function Location(locations: map<string, int>, name: string): Operand
    requires IsTempName(name) || name in locations
  {
    if IsTempName(name) then PseudoRegister(name) else Mem(locations[name])
  }

  /** Distinct names never share a location. */
  lemma LocationsDistinct(locations: map<string, int>, offset: int, a: string, b: string)
    requires SlotsValid(locations, offset)
    requires (IsTempName(a) || a in locations) && (IsTempName(b) || b in locations)
    ensures a != b ==> Location(locations, a) != Location(locations, b)
  {
  }

  /** Converting keeps the slots valid and only adds; a name becomes its location in the new
      state, a constant its immediate. */
  lemma ConvertSpec(st: CGState, v: Value)
    requires SlotsValid(st.locations, st.offset)
    ensures var (o, st') := Convert(st, v);
            SlotsValid(st'.locations, st'.offset) && Grows(st, st') && st'.instructions == st.instructions &&
            (v.Constant? ==> o == Imm(v.n) && st' == st) &&
            (v.Named? ==> (IsTempName(v.name) || v.name in st'.locations) && o == Location(st'.locations, v.name))
  {
    if v.Named? && !IsTempName(v.name) {
      TempLocationSpec(st, v.name);
    }
  }

  /** The state of a new generator. */
  function Initial(): CGState {
    CGState([], map[], -4)
  }

  /** One instruction keeps the slots valid, keeps every slot already handed out and appends
      its code. */
  lemma AssembledGrows(st: CGState, i: Instruction)
    requires SlotsValid(st.locations, st.offset)
    ensures var r := Assembled(st, i);
            r.Ok? ==> SlotsValid(r.value.locations, r.value.offset) && Grows(st, r.value)
  {
    match i
    case Binary(op, left, right, result) =>
      ConvertSpec(st, result);
      var (_, st1) := Convert(st, result);
      ConvertSpec(st1, left);
      var (_, st2) := Convert(st1, left);
      ConvertSpec(st2, right);
    case Return(value) => ConvertSpec(st, value);
    case Unary(op, value, result) =>
      ConvertSpec(st, value);
      var (_, st1) := Convert(st, value);
      ConvertSpec(st1, result);
    case Copy(c) =>
      ConvertSpec(st, c.destination);
      var (_, st1) := Convert(st, c.destination);
      ConvertSpec(st1, c.source);
    case JumpIfZero(condition, _) => ConvertSpec(st, condition);
    case JumpIfNotZero(condition, _) => ConvertSpec(st, condition);
    case _ =>
  }

  /** The whole loop does the same: a variable keeps the slot it got first. */
  lemma {:induction false} AssembledFromGrows(st: CGState, irs: seq<Instruction>, k: nat)
    requires k <= |irs| && SlotsValid(st.locations, st.offset)
    ensures var r := AssembledFrom(st, irs, k);
            r.Ok? ==> SlotsValid(r.value.locations, r.value.offset) && Grows(st, r.value)
    decreases |irs| - k
  {
    if k < |irs| {
      AssembledGrows(st, irs[k]);
      var st1 := Assembled(st, irs[k]);
      if st1.Ok? {
        AssembledFromGrows(st1.value, irs, k + 1);
      }
    }
  }

  /** `x = y + z` on a new generator: the result is converted first, so `x` gets the first slot,
      then `y` and `z`. */
  lemma ConversionOrderExample()
    ensures Assembled(Initial(), Binary(Tokens.Plus, Named("y"), Named("z"), Named("x"))) ==
            Ok(CGState([Mov(Mem(-8), Mem(-4)), Add(Mem(-12), Mem(-4))], map["x" := -4, "y" := -8, "z" := -12], -16))
  {
    assert !IsTempName("x") && !IsTempName("y") && !IsTempName("z") by {
      assert "x"[0] == 'x' && "y"[0] == 'y' && "z"[0] == 'z';
    }
    var st1 := CGState([], map["x" := -4], -8);
    var st2 := CGState([], map["x" := -4, "y" := -8], -12);
    var st3 := CGState([], map["x" := -4, "y" := -8, "z" := -12], -16);
    assert Convert(Initial(), Named("x")) == (Mem(-4), st1);
    assert Convert(st1, Named("y")) == (Mem(-8), st2);
    assert Convert(st2, Named("z")) == (Mem(-12), st3);
    var code := [Mov(Mem(-8), Mem(-4)), Add(Mem(-12), Mem(-4))];
    assert BinaryCode(Tokens.Plus, Mem(-8), Mem(-12), Mem(-4)) == Ok(code);
    assert Append(st3, code) == CGState(code, st3.locations, -16);
  }

  /** A variable whose name begins with `t` is placed in a pseudo register, not a stack slot. */
  lemma VariableNamedLikeTemporary(st: CGState)
    ensures Convert(st, Named("total_1")) == (PseudoRegister("total_1"), st)
  {
  }

  /** That which the class keeps: an agreement between a step's result and its specification. */
  predicate Agrees(want: Result<CGState>, r: Result<()>, st: CGState) {
    if want.Ok? then r == Ok(()) && st == want.value else r == Err(want.msg)
  }

  // ---------------------------------------------------------------------------------------
  // The generator object
  // ---------------------------------------------------------------------------------------

  class CodeGenerator {
    var instructions: seq<Instr>
    var tempVarLocations: map<string, int>
    var currentStackOffset: int

    ghost predicate Valid()
      reads this
    {
      SlotsValid(tempVarLocations, currentStackOffset)
    }

    function State(): CGState
      reads this
    {
      CGState(instructions, tempVarLocations, currentStackOffset)
    }

    /** No instructions, no slots, and the first slot at -4. */
    constructor ()
      ensures instructions == [] && tempVarLocations == map[] && currentStackOffset == -4
      ensures Valid()
    {
      instructions := [];
      tempVarLocations := map[];
      currentStackOffset := -4;
    }

    method AddInstruction(i: Instr)
      modifies this`instructions
      ensures instructions == old(instructions) + [i]
    {
      instructions := instructions + [i];
    }

    method GetTempLocation(name: string) returns (offset: int)
      requires Valid()
      modifies this`tempVarLocations, this`currentStackOffset
      ensures Valid()
      ensures (offset, State()) == TempLocation(old(State()), name)
    {
      TempLocationSpec(State(), name);
      if name in tempVarLocations {
        return tempVarLocations[name];
      }
      offset := currentStackOffset;
      tempVarLocations := tempVarLocations[name := offset];
      currentStackOffset := currentStackOffset - 4;
    }

    method ConvertValue(v: Value) returns (o: Operand)
      requires Valid()
      modifies this`tempVarLocations, this`currentStackOffset
      ensures Valid()
      ensures (o, State()) == Convert(old(State()), v)
    {
      if v.Constant? {
        return Imm(v.n);
      }
      if IsTempName(v.name) {
        return PseudoRegister(v.name);
      }
      var k := GetTempLocation(v.name);
      return Mem(k);
    }

    method AssembleBinary(i: Instruction) returns (r: Result<()>)
      requires i.Binary? && Valid()
      modifies this
      ensures Valid()
      ensures Agrees(Assembled(old(State()), i), r, State())
    {
      var result := ConvertValue(i.result);
      var left := ConvertValue(i.left);
      var right := ConvertValue(i.right);
      r := EmitBinary(i.op, left, right, result);
    }

    /** The `switch` of the binary overload. */
    method EmitBinary(op: Tokens.TokenType, left: Operand, right: Operand, result: Operand) returns (r: Result<()>)
      modifies this`instructions
      ensures var code := BinaryCode(op, left, right, result);
              if code.Ok? then r == Ok(()) && instructions == old(instructions) + code.value
              else r == Err(code.msg)
    {
      if op == Tokens.Plus {
        AddInstruction(Mov(left, result));
        AddInstruction(Add(right, result));
      } else if op == Tokens.Minus {
        AddInstruction(Mov(left, result));
        AddInstruction(Sub(right, result));
      } else if op == Tokens.Star {
        AddInstruction(Mov(left, result));
        AddInstruction(Imul(right, result));
      } else if op == Tokens.Slash || ComparisonCC(op).Some? {
        if op == Tokens.Slash {
          EmitDivision(left, right, result);
        }
        // `case Slash` falls through into `case Greater`.
        EmitCompare(left, right, result, if op == Tokens.Slash then Greater else ComparisonCC(op).value);
      } else {
        return Err("Unsupported binary operator");
      }
      return Ok(());
    }

    /** The `Slash` case before its fall-through. */
    method EmitDivision(left: Operand, right: Operand, result: Operand)
      modifies this`instructions
      ensures instructions == old(instructions) + [Mov(left, RAX), Cdq, Idiv(right), Mov(RAX, result)]
    {
      AddInstruction(Mov(left, RAX));
      AddInstruction(Cdq);
      AddInstruction(Idiv(right));
      AddInstruction(Mov(RAX, result));
    }

    /** The shared tail of the comparison cases. */
    method EmitCompare(left: Operand, right: Operand, result: Operand, cc: CC)
      modifies this`instructions
      ensures instructions == old(instructions) + CompareCode(left, right, result, cc)
    {
      AddInstruction(Cmp(right, left));
      AddInstruction(Mov(Imm(0), result));
      AddInstruction(SetCC(cc, result));
    }

    method AssembleReturn(i: Instruction) returns (r: Result<()>)
      requires i.Return? && Valid()
      modifies this
      ensures Valid()
      ensures Agrees(Assembled(old(State()), i), r, State())
    {
      var source := ConvertValue(i.value);
      AddInstruction(Mov(source, RAX));
      AddInstruction(Ret);
      return Ok(());
    }

    method AssembleUnary(i: Instruction) returns (r: Result<()>)
      requires i.Unary? && Valid()
      modifies this
      ensures Valid()
      ensures Agrees(Assembled(old(State()), i), r, State())
    {
      var value := ConvertValue(i.value);
      var result := ConvertValue(i.result);
      ghost var st2 := State();
      if i.value != i.result {
        AddInstruction(Mov(value, result));
      }
      if i.op == Tokens.Tilde {
        AddInstruction(NotOp(result));
      } else if i.op == Tokens.Minus {
        AddInstruction(Neg(result));
      } else if i.op == Tokens.Not {
        AddInstruction(Cmp(Imm(0), value));
        AddInstruction(Mov(Imm(0), result));
        AddInstruction(SetCC(Equal, result));
      } else {
        return Err("Unsupported unary operator");
      }
      assert State() == Append(st2, UnaryCode(i.op, i.value == i.result, value, result).value);
      return Ok(());
    }

    method AssembleCopy(i: Instruction) returns (r: Result<()>)
      requires i.Copy? && Valid()
      modifies this
      ensures Valid()
      ensures Agrees(Assembled(old(State()), i), r, State())
    {
      var destination := ConvertValue(i.copy.destination);
      var source := ConvertValue(i.copy.source);
      AddInstruction(Mov(source, destination));
      return Ok(());
    }

    method AssembleConditionalJump(i: Instruction) returns (r: Result<()>)
      requires (i.JumpIfZero? || i.JumpIfNotZero?) && Valid()
      modifies this
      ensures Valid()
      ensures Agrees(Assembled(old(State()), i), r, State())
    {
      var condition := ConvertValue(i.condition);
      AddInstruction(Mov(condition, RAX));
      AddInstruction(Cmp(Imm(0), RAX));
      AddInstruction(JmpCC(if i.JumpIfZero? then Equal else NotEqual, i.target));
      return Ok(());
    }

    /** `assemble` on the instruction's alternative. */
    method Assemble(i: Instruction) returns (r: Result<()>)
      requires Valid()
      modifies this
      ensures Valid()
      ensures Agrees(Assembled(old(State()), i), r, State())
    {
      match i
      case Binary(_, _, _, _) => r := AssembleBinary(i);
      case Return(_) => r := AssembleReturn(i);
      case Unary(_, _, _) => r := AssembleUnary(i);
      case Copy(_) => r := AssembleCopy(i);
      case Label(name) =>
        AddInstruction(LabelDef(name));
        r := Ok(());
      case Jump(target) =>
        AddInstruction(Jmp(target));
        r := Ok(());
      case JumpIfZero(_, _) => r := AssembleConditionalJump(i);
      case JumpIfNotZero(_, _) => r := AssembleConditionalJump(i);
      case Call(_, _, _) => r := Err("eror");
    }

    /** `generate` without its printing: every instruction in order, stopping at the first
        unsupported one. */
    method Generate(irs: seq<Instruction>) returns (r: Result<()>)
      requires Valid()
      modifies this
      ensures Valid()
      ensures Agrees(AssembledFrom(old(State()), irs, 0), r, State())
    {
      var k := 0;
      while k < |irs|
        invariant 0 <= k <= |irs| && Valid()
        invariant AssembledFrom(old(State()), irs, 0) == AssembledFrom(State(), irs, k)
      {
        var step := Assemble(irs[k]);
        if step.Err? {
          return step;
        }
        k := k + 1;
      }
      return Ok(());
    }
  }
}
