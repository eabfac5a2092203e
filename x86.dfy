/** The x86 instructions the lowering produces (src/codegen/x86_instructions.hpp), as values:
    operands, condition codes and the sixteen instruction kinds, in AT&T operand order (source
    first, destination second). */
module X86 {
  import opened MachineInt

  /** `Operand`: a register, an immediate, a label, a stack slot at an offset from the frame
      base `rbp`, or a pseudo register standing for a temporary. */
  datatype Operand =
    | Register(name: string)
    | Imm(value: int32)
    | LabelOperand(name: string)
    | Mem(offset: int)
    | PseudoRegister(name: string)

  const RAX: Operand := Register("rax")
  const RDX: Operand := Register("rdx")

  /** `CC`: the condition codes of `jmp_cc` and `set_cc`. */
  datatype CC =
    | Equal | NotEqual | Less | LessOrEqual | Greater | GreaterOrEqual
    | Below | BelowOrEqual | Above | AboveOrEqual
    | Overflow | NoOverflow | Sign | NotSign | ParityEven | ParityOdd

  /** `instruction`: one alternative per struct. */
  datatype Instr =
    | Mov(source: Operand, destination: Operand)
    | Ret
    | Neg(value: Operand)
    | NotOp(value: Operand)
    | Add(source: Operand, destination: Operand)
    | Sub(source: Operand, destination: Operand)
    | Imul(source: Operand, destination: Operand)
    | Cdq
    | Idiv(value: Operand)
    | Cmp(source: Operand, destination: Operand)
    | LabelDef(name: string)
    | Jmp(target: string)
    | JmpCC(cc: CC, target: string)
    | SetCC(cc: CC, value: Operand)
    | Push(value: Operand)
    | Pop(value: Operand)
}
