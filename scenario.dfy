/**
 * Worked examples on the program builder: the three-instruction program of
 * `Program.main`, the pending-label edge case, and the repeatability of
 * both passes.
 */
module Scenario {
  import opened Wrappers
  import opened Opcodes
  import opened Expressions
  import opened Instructions
  import opened Operands
  import opened Layout
  import opened Programs

  // The metadata of the three opcodes the example uses (Opcode.java is not
  // part of this model): XOR reads two registers, INC one destination
  // register, and BRNZ no register but a branch target constant.
  const XOR := Opcode("XOR", BothRegs, No)
  const INC := Opcode("INC", DestReg, No)
  const BRNZ := Opcode("BRNZ", NoRegs, Yes)

  /** The instructions `Program.main` builds: `XOR r0,r0`, `L1: INC r0`, `BRNZ L1`. */
  function MainProgram(): seq<Instruction>
  {
    [Instruction(XOR, 0, 0, None, None),
     Instruction(INC, 0, 0, None, Some("L1")),
     Instruction(BRNZ, 0, 0, Some(Identifier("L1")), None)]
  }

  /**
   * With one-word instructions without a constant, `L1` links to address 1
   * and the branch stands at address 2.
   */
  lemma MainProgramLinks(enc: Encoding)
    requires forall i: Instruction :: i.expr.None? ==> enc.size(i) == 1
    ensures Linked(enc, MainProgram()) == Ok(map["L1" := 1])
    ensures AddressOf(enc, MainProgram(), 2) == 2
  {
    var s := MainProgram();
    assert s[..0] == [];
    assert s[..3] == s;
    AddressStep(enc, s, 0);
    AddressStep(enc, s, 1);
    LinkedStep(enc, s, 0);
    LinkedStep(enc, s, 1);
    LinkedStep(enc, s, 2);
  }

  /**
   * `Program.main`: builds `MainProgram()` through the `add` overloads.
   * Before linking the branch target is unresolved; after linking `L1` is
   * bound to address 1, the branch stands at address 2 and its target
   * evaluates to 1. Linking twice yields the same table.
   */
  method MainScenario(enc: Encoding) returns (symbols: map<string, int>, brnzAddr: int, before: Result<int, ExprError>, target: Result<int, ExprError>)
    requires forall i: Instruction :: i.expr.None? ==> enc.size(i) == 1
    ensures before == Err(UnresolvedSymbol("L1"))
    ensures symbols == map["L1" := 1]
    ensures brnzAddr == 2
    ensures target == Ok(1)
  {
    var p := new Program(enc);
    var r := p.AddRegs(XOR, 0, 0);
    p.Label("L1");
    r := p.AddReg(INC, 0);
    r := p.AddExpr(BRNZ, Some(Identifier("L1")));
    assert p.prog == MainProgram();
    before := Eval(Identifier("L1"), p.context.symbols);

    MainProgramLinks(enc);
    var l := p.Link();
    var first := p.context.symbols;
    l := p.Link();
    assert p.context.symbols == first;

    symbols := p.context.symbols;
    brnzAddr := AddressOf(enc, p.prog, 2);
    target := Eval(p.prog[2].expr.value, symbols);
  }

  /**
   * Two `label` calls before one `add`: the last name wins and the first is
   * lost; a label set after the last `add` is never bound.
   */
  method LabelOverwriteScenario(enc: Encoding) returns (symbols: map<string, int>)
    ensures symbols == map["B" := 0]
  {
    var p := new Program(enc);
    p.Label("A");
    p.Label("B");
    var r := p.AddReg(INC, 0);
    p.Label("END");
    var inc := Instruction(INC, 0, 0, None, Some("B"));
    assert p.prog == [inc];
    assert p.prog[..0] == [];
    var l := p.Link();
    symbols := p.context.symbols;
  }

  /** A refused `add` leaves the program and the pending label as they were. */
  method RefusedAddScenario(enc: Encoding) returns (size: nat, pending: Option<string>, err: Outcome<InstrError>)
    ensures size == 0 && pending == Some("L")
    ensures err == Fail(NeedsConstant("BRNZ"))
  {
    var p := new Program(enc);
    p.Label("L");
    err := p.AddExpr(BRNZ, None);
    var r := p.AddReg(XOR, 1);
    r := p.AddRegs(INC, 1, 2);
    r := p.AddRegExpr(INC, 0, Some(Constant(5)));
    size, pending := |p.prog|, p.labelPending;
  }

  /** Two encode passes over an unchanged program produce the same output and outcome. */
  method WriteHexRepeatable(p: Program) returns (same: bool)
    modifies p`context
    ensures same
    ensures p.context.symbols == old(p.context.symbols)
  {
    var out1, r1 := p.WriteHex();
    var out2, r2 := p.WriteHex();
    if r1.Fail? && r2.Fail? {
      var syms := p.context.symbols;
      var k1 :| 0 <= k1 < |p.prog| && EncodesUpTo(p.enc, syms, p.prog, k1) &&
        CodeAt(p.enc, syms, p.prog, k1) == Err(r1.error) &&
        out1 == [Header] + Lines(Emitted(p.enc, syms, p.prog, k1));
      var k2 :| 0 <= k2 < |p.prog| && EncodesUpTo(p.enc, syms, p.prog, k2) &&
        CodeAt(p.enc, syms, p.prog, k2) == Err(r2.error) &&
        out2 == [Header] + Lines(Emitted(p.enc, syms, p.prog, k2));
      FirstFailureUnique(p.enc, syms, p.prog, k1, k2);
    }
    same := out1 == out2 && r1 == r2;
  }
}
