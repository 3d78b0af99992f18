/**
 * Instructions, the resolution context, and the machine-dependent part of
 * an instruction (its size and its machine code), which Instruction.java
 * computes and which is not part of this model: it is a parameter.
 */
module Instructions {
  import opened Wrappers
  import opened Opcodes
  import opened Expressions

  /** One program step; `labelName` is the label attached when it was added. */
  datatype Instruction = Instruction(
    opcode: Opcode,
    dest: int,
    source: int,
    expr: Option<Expr>,
    labelName: Option<string>)

  /** The resolution environment: the address being encoded and the symbol table. */
  datatype Context = Context(addr: int, symbols: map<string, int>)

  /** A size in words: every instruction occupies at least one word. */
  type Pos = n: int | n > 0 witness 1

  /**
   * `Instruction.size()` and `Instruction.createMachineCode(context, listener)`:
   * the number of words an instruction occupies, and the words it emits at
   * the address and with the symbols of `context` (or the expression error
   * that aborts the encoding).
   */
  datatype Encoding = Encoding(
    size: Instruction -> Pos,
    code: (Instruction, Context) -> Result<seq<int>, ExprError>)

  /** Two instructions that differ at most in the value of their constant. */
  predicate SameShape(i: Instruction, j: Instruction)
  {
    i.opcode == j.opcode && i.dest == j.dest && i.source == j.source &&
    i.labelName == j.labelName && i.expr.Some? == j.expr.Some?
  }

  /**
   * The design's invariant on sizes: an instruction's size depends only on
   * whether it carries a constant, never on the constant's value.
   */
  ghost predicate SizeByShape(enc: Encoding)
  {
    forall i, j :: SameShape(i, j) ==> enc.size(i) == enc.size(j)
  }
}
