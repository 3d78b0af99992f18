/**
 * The in-memory program builder and two-pass linker of Program.java: an
 * instruction list that grows by validated appends, a pending-label slot,
 * the link loop that builds the symbol table, and the encode loop of
 * `writeHex` that pushes every machine word to a sink in program order.
 */
module Programs {
  import opened Wrappers
  import opened Opcodes
  import opened Expressions
  import opened Instructions
  import opened Operands
  import opened Layout

  /** One line of the hex sink: the format header, or one machine word. */
  datatype HexLine = Header | Word(code: int)

  /** The sink lines for a run of words, one line per word. */
  function Lines(words: seq<int>): seq<HexLine>
  {
    seq(|words|, i requires 0 <= i < |words| => Word(words[i]))
  }

  lemma LinesAppend(a: seq<int>, b: seq<int>)
    ensures Lines(a + b) == Lines(a) + Lines(b)
  {
    assert |Lines(a + b)| == |Lines(a) + Lines(b)|;
    forall i | 0 <= i < |a| + |b|
      ensures Lines(a + b)[i] == (Lines(a) + Lines(b))[i]
    {
      if i < |a| {
        assert (a + b)[i] == a[i];
      } else {
        assert (a + b)[i] == b[i - |a|];
      }
    }
  }

  class Program {
    /** The sizes and machine code of instructions (Instruction.java). */
    const enc: Encoding
    var prog: seq<Instruction>
    var labelPending: Option<string>
    var context: Context

    /** Every instruction carries a constant exactly when its opcode allows. */
    ghost predicate Valid()
      reads this
    {
      forall k :: 0 <= k < |prog| ==> ImmedAgrees(prog[k].opcode.immed, prog[k].expr)
    }

    constructor (enc: Encoding)
      ensures this.enc == enc && Valid()
      ensures prog == [] && labelPending == None && context == Context(0, map[])
    {
      this.enc := enc;
      prog := [];
      labelPending := None;
      context := Context(0, map[]);
    }

    /**
     * `add(opcode, dest, source, expr)`: refuses a constant the opcode does
     * not take and a missing constant it needs, changing nothing; otherwise
     * appends the instruction, which takes over the pending label.
     */
    method Add(opcode: Opcode, dest: int, source: int, expr: Option<Expr>) returns (r: Outcome<InstrError>)
      requires Valid()
      modifies this`prog, this`labelPending
      ensures Valid()
      ensures r.Pass? <==> ImmedAgrees(opcode.immed, expr)
      ensures r == ImmedCheck(opcode, expr)
      ensures r.Fail? ==> prog == old(prog) && labelPending == old(labelPending)
      ensures r.Pass? ==>
        prog == old(prog) + [Instruction(opcode, dest, source, expr, old(labelPending))] &&
        labelPending == None
    {
      r := ImmedCheck(opcode, expr);
      if r.Fail? {
        return;
      }
      var i := Instruction(opcode, dest, source, expr, None);
      if labelPending.Some? {
        i := i.(labelName := labelPending);
        labelPending := None;
      }
      prog := prog + [i];
    }

    /**
     * `add(opcode, reg)`: the register goes to `source` or `dest` as the
     * opcode reads it, the other field is 0; an opcode that reads no
     * register or two refuses it, and so does one that needs a constant.
     */
    method AddReg(opcode: Opcode, reg: int) returns (r: Outcome<InstrError>)
      requires Valid()
      modifies this`prog, this`labelPending
      ensures Valid()
      ensures r.Pass? <==> (opcode.regs == SourceReg || opcode.regs == DestReg) && opcode.immed != Yes
      ensures opcode.regs == NoRegs ==> r == Fail(DoesNotNeedRegister(opcode.name))
      ensures opcode.regs == BothRegs ==> r == Fail(NeedsBothRegisters(opcode.name))
      ensures opcode.regs == SourceReg || opcode.regs == DestReg ==> r == ImmedCheck(opcode, None)
      ensures r.Fail? ==> prog == old(prog) && labelPending == old(labelPending)
      ensures r.Pass? ==>
        prog == old(prog) + [Instruction(opcode,
                                         if opcode.regs == DestReg then reg else 0,
                                         if opcode.regs == SourceReg then reg else 0,
                                         None, old(labelPending))] &&
        labelPending == None
    {
      match RegisterRoute(opcode, reg)
      case Err(e) =>
        r := Fail(e);
      case Ok(o) =>
        r := Add(opcode, o.dest, o.source, None);
    }

    /**
     * `add(opcode, dest, source)`: only an opcode that reads both registers
     * accepts two; the instruction carries no constant.
     */
    method AddRegs(opcode: Opcode, dest: int, source: int) returns (r: Outcome<InstrError>)
      requires Valid()
      modifies this`prog, this`labelPending
      ensures Valid()
      ensures r.Pass? <==> opcode.regs == BothRegs && opcode.immed != Yes
      ensures opcode.regs != BothRegs ==> r == Fail(NeedsBothRegisters(opcode.name))
      ensures opcode.regs == BothRegs ==> r == ImmedCheck(opcode, None)
      ensures r.Fail? ==> prog == old(prog) && labelPending == old(labelPending)
      ensures r.Pass? ==>
        prog == old(prog) + [Instruction(opcode, dest, source, None, old(labelPending))] &&
        labelPending == None
    {
      if opcode.regs != BothRegs {
        return Fail(NeedsBothRegisters(opcode.name));
      }
      r := Add(opcode, dest, source, None);
    }

    /**
     * `add(opcode, reg, expr)`: routes the register as `AddReg` does, then
     * applies the constant check to `expr`.
     */
    method AddRegExpr(opcode: Opcode, reg: int, expr: Option<Expr>) returns (r: Outcome<InstrError>)
      requires Valid()
      modifies this`prog, this`labelPending
      ensures Valid()
      ensures r.Pass? <==> (opcode.regs == SourceReg || opcode.regs == DestReg) && ImmedAgrees(opcode.immed, expr)
      ensures opcode.regs == NoRegs ==> r == Fail(DoesNotNeedRegister(opcode.name))
      ensures opcode.regs == BothRegs ==> r == Fail(NeedsBothRegisters(opcode.name))
      ensures opcode.regs == SourceReg || opcode.regs == DestReg ==> r == ImmedCheck(opcode, expr)
      ensures r.Fail? ==> prog == old(prog) && labelPending == old(labelPending)
      ensures r.Pass? ==>
        prog == old(prog) + [Instruction(opcode,
                                         if opcode.regs == DestReg then reg else 0,
                                         if opcode.regs == SourceReg then reg else 0,
                                         expr, old(labelPending))] &&
        labelPending == None
    {
      match RegisterRoute(opcode, reg)
      case Err(e) =>
        r := Fail(e);
      case Ok(o) =>
        r := Add(opcode, o.dest, o.source, expr);
    }

    /**
     * `add(opcode, expr)`: only an opcode that reads no register accepts a
     * bare constant; both register fields are 0.
     */
    method AddExpr(opcode: Opcode, expr: Option<Expr>) returns (r: Outcome<InstrError>)
      requires Valid()
      modifies this`prog, this`labelPending
      ensures Valid()
      ensures r.Pass? <==> opcode.regs == NoRegs && ImmedAgrees(opcode.immed, expr)
      ensures opcode.regs != NoRegs ==> r == Fail(DoesNotNeedRegister(opcode.name))
      ensures opcode.regs == NoRegs ==> r == ImmedCheck(opcode, expr)
      ensures r.Fail? ==> prog == old(prog) && labelPending == old(labelPending)
      ensures r.Pass? ==>
        prog == old(prog) + [Instruction(opcode, 0, 0, expr, old(labelPending))] &&
        labelPending == None
    {
      if opcode.regs != NoRegs {
        return Fail(DoesNotNeedRegister(opcode.name));
      }
      r := Add(opcode, 0, 0, expr);
    }

    /** `label(name)`: the next instruction added takes this label; an earlier pending one is lost. */
    method Label(name: string)
      modifies this`labelPending
      ensures labelPending == Some(name)
    {
      labelPending := Some(name);
    }

    /**
     * `link()`: clears the context, then binds every label to the address of
     * its instruction, the sum of the sizes before it. A label bound twice
     * aborts the pass, leaving the bindings made before it.
     */
    method Link() returns (r: Outcome<LinkError>)
      modifies this`context
      ensures r.Pass? <==> Linked(enc, prog).Ok?
      ensures r.Pass? ==> context == Context(0, Linked(enc, prog).value)
      ensures r.Fail? ==>
        Linked(enc, prog) == Err(r.error) && r.error.index < |prog| &&
        Linked(enc, prog[..r.error.index]).Ok? &&
        context == Context(0, Linked(enc, prog[..r.error.index]).value)
    {
      context := Context(0, map[]);
      var addr := 0;
      var k := 0;
      while k < |prog|
        invariant 0 <= k <= |prog|
        invariant addr == AddressOf(enc, prog, k)
        invariant Linked(enc, prog[..k]).Ok?
        invariant context == Context(0, Linked(enc, prog[..k]).value)
      {
        LinkedStep(enc, prog, k);
        AddressStep(enc, prog, k);
        var i := prog[k];
        if i.labelName.Some? {
          if i.labelName.value in context.symbols {
            r := Fail(DuplicateLabel(i.labelName.value, k));
            LinkedErrSticky(enc, prog, k + 1);
            return;
          }
          context := context.(symbols := context.symbols[i.labelName.value := addr]);
        }
        addr := addr + enc.size(i);
        k := k + 1;
      }
      assert prog[..k] == prog;
      r := Pass;
    }

    /**
     * The encode loop of `writeHex(out)`: writes the header, then hands each
     * instruction the context set to its own address and pushes the words
     * it emits, in program order. An expression error aborts the pass after
     * the words of the instructions before it.
     */
    method WriteHex() returns (out: seq<HexLine>, r: Outcome<ExprError>)
      modifies this`context
      ensures context.symbols == old(context.symbols)
      ensures r.Pass? <==> EncodesUpTo(enc, context.symbols, prog, |prog|)
      ensures r.Pass? ==>
        out == [Header] + Lines(Emitted(enc, context.symbols, prog, |prog|)) &&
        context.addr == if prog == [] then old(context.addr) else AddressOf(enc, prog, |prog| - 1)
      ensures r.Fail? ==>
        exists k :: (0 <= k < |prog| &&
          EncodesUpTo(enc, context.symbols, prog, k) &&
          CodeAt(enc, context.symbols, prog, k) == Err(r.error) &&
          out == [Header] + Lines(Emitted(enc, context.symbols, prog, k)) &&
          context.addr == AddressOf(enc, prog, k))
    {
      out := [Header];
      var addr := 0;
      var k := 0;
      while k < |prog|
        invariant 0 <= k <= |prog|
        invariant context.symbols == old(context.symbols)
        invariant addr == AddressOf(enc, prog, k)
        invariant EncodesUpTo(enc, context.symbols, prog, k)
        invariant out == [Header] + Lines(Emitted(enc, context.symbols, prog, k))
        invariant context.addr == if k == 0 then old(context.addr) else AddressOf(enc, prog, k - 1)
      {
        AddressStep(enc, prog, k);
        context := context.(addr := addr);
        var code := enc.code(prog[k], context);
        if code.Err? {
          assert CodeAt(enc, context.symbols, prog, k) == code;
          r := Fail(code.error);
          return;
        }
        var words := code.value;
        ghost var before := out;
        var w := 0;
        while w < |words|
          modifies {}
          invariant 0 <= w <= |words|
          invariant out == before + Lines(words[..w])
        {
          LinesAppend(words[..w], [words[w]]);
          assert words[..w + 1] == words[..w] + [words[w]];
          out := out + [Word(words[w])];
          w := w + 1;
        }
        assert words[..w] == words;
        LinesAppend(Emitted(enc, context.symbols, prog, k), words);
        addr := addr + enc.size(prog[k]);
        k := k + 1;
      }
      r := Pass;
    }
  }
}
