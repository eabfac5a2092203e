/** The three-address intermediate representation (src/ir/ir.h). */
module IR {
  import opened Tokens
  import opened MachineInt
  import opened Decimal
  import opened Wrappers

  /** An operand: an integer constant or a symbolic name (a temporary or a versioned variable). */
  datatype Value = Constant(n: int32) | Named(name: string) {

    /** True exactly for a value built from an integer. */
    predicate IsConstant() { Constant? }

    /** The decimal text of a constant, the name itself otherwise. */
    function ValueToString(): (s: string)
      ensures Constant? ==> DecimalToInt(s) == Some(n)
      ensures Named? ==> s == name
    {
      match this
      case Constant(k) => IntToDecimalRoundTrip(k); IntToDecimal(k)
      case Named(x) => x
    }
  }

  /** `ir_copy`: "destination := source". Also the fact type of copy propagation. */
  datatype IrCopy = IrCopy(destination: Value, source: Value)

  /** The nine instruction kinds. A jump names the label it targets (`ir_label::name`). */
  datatype Instruction =
    | Return(value: Value)
    | Binary(op: TokenType, left: Value, right: Value, result: Value)
    | Unary(op: TokenType, value: Value, result: Value)
    | Copy(copy: IrCopy)
    | Label(name: string)
    | Jump(target: string)
    | JumpIfZero(condition: Value, target: string)
    | JumpIfNotZero(condition: Value, target: string)
    | Call(functionName: string, arguments: seq<Value>, destination: Value)

  /** `ir_copy`'s `!=` is the negation of its `==`. */
  function CopyNotEqual(lhs: IrCopy, rhs: IrCopy): (r: bool)
    ensures r <==> lhs.destination != rhs.destination || lhs.source != rhs.source
  {
    !(lhs == rhs)
  }

  /** A named basic block whose instruction list grows in place. */
  class BasicBlock {
    var name: string
    var instructions: seq<Instruction>

    constructor (blockName: string)
      ensures name == blockName && instructions == []
    {
      name := blockName;
      instructions := [];
    }

    method AddInstruction(inst: Instruction)
      modifies this
      ensures instructions == old(instructions) + [inst]
      ensures name == old(name)
    {
      instructions := instructions + [inst];
    }

    /** `block = ir_basic_block{blockName}`: the block is overwritten by a fresh, empty one. */
    method Assign(blockName: string)
      modifies this
      ensures name == blockName && instructions == []
    {
      name := blockName;
      instructions := [];
    }

    function IsEmpty(): (r: bool)
      reads this
      ensures r <==> instructions == []
    {
      |instructions| == 0
    }
  }
}
