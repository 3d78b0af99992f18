/**
 * The operand-shape guards of the `add` overloads of Program.java, lifted
 * out of the methods as pure functions: the constant check of the
 * four-argument `add`, and the routing of a single register into the
 * `dest` or `source` field.
 */
module Operands {
  import opened Wrappers
  import opened Opcodes
  import opened Expressions

  /** `InstructionException`, one constructor per message the guards raise. */
  datatype InstrError =
    | DoesNotNeedConstant(opcode: string)
    | NeedsConstant(opcode: string)
    | DoesNotNeedRegister(opcode: string)
    | NeedsBothRegisters(opcode: string)

  /** The two register fields of an instruction. */
  datatype Registers = Registers(dest: int, source: int)

  /** The registers an opcode reads, in (dest, source) order. */
  function ReadRegisters(regs: RegsNeeded, o: Registers): seq<int>
  {
    match regs
    case NoRegs => []
    case SourceReg => [o.source]
    case DestReg => [o.dest]
    case BothRegs => [o.dest, o.source]
  }

  /** The register fields an opcode does not read hold 0. */
  predicate UnusedAreZero(regs: RegsNeeded, o: Registers)
  {
    (regs == NoRegs || regs == SourceReg ==> o.dest == 0) &&
    (regs == NoRegs || regs == DestReg ==> o.source == 0)
  }

  /**
   * The guard at the head of `add(opcode, dest, source, expr)`: a constant
   * is refused by an opcode that takes none, and demanded by one that
   * needs it.
   */
  function ImmedCheck(op: Opcode, expr: Option<Expr>): (r: Outcome<InstrError>)
    ensures r.Pass? <==> ImmedAgrees(op.immed, expr)
    ensures r.Fail? && expr.Some? ==> r.error == DoesNotNeedConstant(op.name)
    ensures r.Fail? && expr.None? ==> r.error == NeedsConstant(op.name)
  {
    if op.immed == No && expr.Some? then Fail(DoesNotNeedConstant(op.name))
    else if op.immed == Yes && expr.None? then Fail(NeedsConstant(op.name))
    else Pass
  }

  /**
   * The `switch` of `add(opcode, reg)` and `add(opcode, reg, expr)`: the one
   * register given lands in the field the opcode reads and the other field
   * is 0; an opcode that reads no register, or two, refuses it.
   */
  function RegisterRoute(op: Opcode, reg: int): (r: Result<Registers, InstrError>)
    ensures r.Ok? <==> op.regs == SourceReg || op.regs == DestReg
    ensures r.Ok? ==> ReadRegisters(op.regs, r.value) == [reg] && UnusedAreZero(op.regs, r.value)
    ensures op.regs == NoRegs ==> r == Err(DoesNotNeedRegister(op.name))
    ensures op.regs == BothRegs ==> r == Err(NeedsBothRegisters(op.name))
  {
    match op.regs
    case SourceReg => Ok(Registers(0, reg))
    case DestReg => Ok(Registers(reg, 0))
    case NoRegs => Err(DoesNotNeedRegister(op.name))
    case BothRegs => Err(NeedsBothRegisters(op.name))
  }
}
