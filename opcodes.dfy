/**
 * The opcode metadata the program builder consults: which registers an
 * opcode reads and whether it takes a trailing constant.
 * The opcode table itself (Opcode.java) is not part of this model; an
 * opcode is represented by its name and its two metadata fields.
 */
module Opcodes {
  import opened Wrappers

  /** `Opcode.RegsNeeded`: none, source, dest or both. */
  datatype RegsNeeded = NoRegs | SourceReg | DestReg | BothRegs

  /** `Opcode.ImmedNeeded`: No, Yes or Optional. */
  datatype ImmedNeeded = No | Yes | Optional

  datatype Opcode = Opcode(name: string, regs: RegsNeeded, immed: ImmedNeeded)

  /** Whether the presence of a constant agrees with what the opcode declares. */
  predicate ImmedAgrees<X>(immed: ImmedNeeded, expr: Option<X>)
  {
    match immed
    case No => expr.None?
    case Yes => expr.Some?
    case Optional => true
  }
}
