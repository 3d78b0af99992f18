# Assembler program builder and two-pass linker, in Dafny

This project models the in-memory program of a two-pass assembler for a small teaching CPU. It covers:

- the instruction list that callers grow through five `add` overloads, each of which validates the operand shape against the opcode's `RegsNeeded` / `ImmedNeeded` metadata;
- the pending-label slot that `label` fills and the next successful `add` consumes;
- the link pass, which clears the context and binds every label to its instruction's address (the sum of the sizes of the instructions before it);
- the encode loop of `writeHex`, which hands each instruction the context set to its own address and pushes the emitted words to a sink in program order.

Files:

- `wrappers.dfy`: `Option`, `Result` and `Outcome`. These stand in for Java `null` and for exceptions.
- `opcodes.dfy`: `RegsNeeded`, `ImmedNeeded`, the opcode record, and `ImmedAgrees`, which says whether a constant is present exactly when the opcode allows.
- `expressions.dfy`: a minimal expression (a literal or a label reference) and its evaluation against a symbol table.
- `instructions.dfy`: `Instruction` and `Context`, plus `Encoding`. `Encoding` is the machine-dependent part of an instruction: `size()` and `createMachineCode`. It is a parameter of the model.
- `operands.dfy`: the pure guards of the `add` overloads. These are the constant check and the routing of one register into `dest` or `source`.
- `layout.dfy`: what the two passes compute, as functions of the instruction list (`SizeSum`/`AddressOf`, `Linked`, `CodeAt`/`Emitted`), and the lemmas about them.
- `program.dfy`: the `Program` class. Its fields are `prog`, `labelPending` and `context`. The link and encode loops are proved against the functions in `layout.dfy`.
- `scenario.dfy`: the program built by `Program.main`, the pending-label edge case, refused appends, and repeatable encoding.

## Model

| member | source | states |
|---|---|---|
| `Operands.ImmedCheck` | src/main/java/de/neemann/assembler/asm/Program.java:27-30 | The constant guard passes exactly when a constant is present iff the opcode allows one: `No` refuses it, `Yes` demands it, `Optional` takes either. Each failure names the matching error. |
| `Operands.RegisterRoute` | src/main/java/de/neemann/assembler/asm/Program.java:42-51 | One register is accepted exactly by `source`/`dest` opcodes. The register the opcode reads is that register and the unused field is 0. `none` fails with "does not need a register" and `both` with "needs both registers". |
| `Programs.Program.constructor` | src/main/java/de/neemann/assembler/asm/Program.java:21-24 | A new program is empty, has no pending label and has an empty context. |
| `Programs.Program.Add` | src/main/java/de/neemann/assembler/asm/Program.java:26-39 | A refused add leaves `prog` and `labelPending` unchanged. An accepted one appends exactly one instruction, which carries the old pending label, and clears the slot. Every instruction's constant presence keeps agreeing with its opcode. |
| `Programs.Program.AddReg` | src/main/java/de/neemann/assembler/asm/Program.java:41-52 | Succeeds iff the opcode reads one register and does not need a constant. `dest` gives (reg, 0) and `source` gives (0, reg). `none`/`both` fail with their errors and leave the state unchanged. |
| `Programs.Program.AddRegs` | src/main/java/de/neemann/assembler/asm/Program.java:54-59 | Succeeds iff the opcode reads both registers and does not need a constant. The appended instruction has no constant. Otherwise nothing changes. |
| `Programs.Program.AddRegExpr` | src/main/java/de/neemann/assembler/asm/Program.java:62-73 | Routes the register as `AddReg` does, then applies the constant check to the given expression. It succeeds iff both pass, and a failure changes nothing. |
| `Programs.Program.AddExpr` | src/main/java/de/neemann/assembler/asm/Program.java:75-80 | Succeeds iff the opcode reads no register and the constant check passes. Both register fields are 0. |
| `Programs.Program.Label` | src/main/java/de/neemann/assembler/asm/Program.java:82-85 | The pending label becomes the given name, overwriting any earlier one. `prog` is not touched. |
| `Programs.Program.Link` | src/main/java/de/neemann/assembler/asm/Program.java:110-122 | Starts from a cleared context and builds the symbol table `Linked(prog)`. It fails exactly when `Linked` does. After a failure, the context holds the bindings made before the duplicate label. `prog` is never modified. |
| `Programs.Program.WriteHex` | src/main/java/de/neemann/assembler/asm/Program.java:94-107 | Emits the header, then the words of each instruction in order, each encoded at its prefix-sum address. It succeeds iff every instruction encodes. On the first failure, the output holds exactly the words of the earlier instructions. The symbol table is unchanged. |
| `Layout.SizeSum` | src/main/java/de/neemann/assembler/asm/Program.java:113-119 | The running address after a run of instructions is at least its length, because every instruction occupies at least one word. |
| `Layout.AddressStep` | src/main/java/de/neemann/assembler/asm/Program.java:118 | Passing an instruction advances the address by exactly its size. |
| `Layout.AddressesIncrease` | src/main/java/de/neemann/assembler/asm/Program.java:113-119 | A later instruction's address is at least an earlier one's address plus that earlier one's size, so no two instructions share an address. |
| `Layout.LinkedStep` | src/main/java/de/neemann/assembler/asm/Program.java:114-119 | One iteration of the link loop: a labelled instruction adds its label at the current address, and a label already bound is an error at that index. |
| `Layout.LinkedErrSticky` | src/main/java/de/neemann/assembler/asm/Program.java:116 | A duplicate found on a prefix aborts the whole pass with that same error. |
| `Layout.LinkedKeys` | src/main/java/de/neemann/assembler/asm/Program.java:114-117 | After a successful link, the symbol table's keys are exactly the labels attached to instructions. |
| `Layout.LinkedBinding` | src/main/java/de/neemann/assembler/asm/Program.java:113-119 | After a successful link, each instruction's label is bound to that instruction's address, which is the sum of the sizes before it. |
| `Layout.LinkedSymbols` | src/main/java/de/neemann/assembler/asm/Program.java:110-122 | Both facts together: keys are exactly the labels, and each is bound to its instruction's prefix-sum address. |
| `Layout.LinkedOkIffDistinct` | src/main/java/de/neemann/assembler/asm/Program.java:114-117 | Linking succeeds if and only if no label name is attached to two instructions. |
| `Layout.LinkedErrIsFirstDuplicate` | src/main/java/de/neemann/assembler/asm/Program.java:116 | A failed link names an instruction whose label an earlier instruction already carries. Before that instruction, labels are distinct and linking succeeds. |
| `Layout.LinkedByLayout` | src/main/java/de/neemann/assembler/asm/Program.java:113-119 | The link pass reads only labels and sizes. Programs that agree on both at each position link identically, whatever their constants or machine code. |
| `Layout.LinkedIgnoresConstants` | src/main/java/de/neemann/assembler/asm/Program.java:113-119 | If sizes depend only on whether a constant is present, changing constant values never changes the symbol table. |
| `Layout.EmittedLength` | src/main/java/de/neemann/assembler/asm/Program.java:97-106 | If each instruction emits as many words as its size, the image of the first k instructions is as long as the address of instruction k. |
| `Layout.EmittedLayout` | src/main/java/de/neemann/assembler/asm/Program.java:97-106 | Under the same condition, instruction j's words sit in the image exactly between its address and the next instruction's address. |
| `Layout.LabelAddressesItsCode` | src/main/java/de/neemann/assembler/asm/Program.java:94-122 | The passes agree: the address `link` binds to a label is where the encode pass places the labelled instruction's words. |
| `Scenario.MainProgramLinks` | src/main/java/de/neemann/assembler/asm/Program.java:138-142 | With one-word instructions without a constant, the example program links to exactly `{L1: 1}` and its third instruction stands at address 2. |
| `Scenario.MainScenario` | src/main/java/de/neemann/assembler/asm/Program.java:137-145 | For `XOR r0,r0; L1: INC r0; BRNZ L1` (one-word instructions without a constant): `L1` is unresolved before `link`. After `link` the table is exactly `{L1: 1}`, `BRNZ` is at address 2 and its target evaluates to 1. Linking twice gives the same table. |
| `Scenario.LabelOverwriteScenario` | src/main/java/de/neemann/assembler/asm/Program.java:82-85 | `label A; label B; add` binds only `B`, at address 0. A label set after the last `add` is never bound. |
| `Scenario.RefusedAddScenario` | src/main/java/de/neemann/assembler/asm/Program.java:26-30 | A series of refused adds (a missing constant, the wrong register counts, an unwanted constant) leaves the program empty and the pending label in place. |
| `Scenario.WriteHexRepeatable` | src/main/java/de/neemann/assembler/asm/Program.java:94-107 | Two encode passes over an unchanged program give the same output and the same outcome. The symbol table is unchanged. |

## Left out

- `writeHex(String filename)` (Program.java:87-92) opens a file. This is I/O and is not modelled.
- Text rendering is not modelled. The sink is a sequence of `HexLine` values: `Header` stands for the fixed format line, and `Word(w)` stands for one word printed in hexadecimal.
- `toString` and `print` depend on `Instruction.toString`, which is not part of this model.
- Instruction.java is not part of this model. `size()` and `createMachineCode` are the `Encoding` parameter given to the constructor. Two properties of them are stated as preconditions of the lemmas that need them, not proved: every size is at least one word (built into the type), each instruction emits exactly `size()` words (`CodeFitsSize`), and size depends only on whether a constant is present (`SizeByShape`).
- The encoding of one instruction is all-or-nothing. If `createMachineCode` fails after pushing some of its own words, the model does not include those words.
- Context.java is not part of this model. `clear()` is modelled as resetting the address to 0 and emptying the table. `addIdentifier` is modelled as refusing a name already bound. `setAddr` is modelled as replacing the address.
- The expression language is reduced to literals and label references. Arithmetic and bitwise operators, and their errors, are not modelled.
- Opcode.java is not part of this model. An opcode is its name and its two metadata fields. The metadata for `XOR`, `INC` and `BRNZ` in the worked example is assumed.
- Java `int` overflow is not modelled. The running address and register numbers are unbounded integers, so a program of more than 2^31 words, which would wrap, is not covered.
- `Programs.Program.Label`: `label(null)` in Java empties the pending slot. The model takes a name, so that case is not covered.
- `add` returns the program itself for chaining, and throws `InstructionException` on failure. The model returns an `Outcome` instead. A `null` opcode, which would throw `NullPointerException`, is not modelled.
- `traverse` and `optimizeAndLink` are called by the integration test (ProcessorTest.java:55-60) but do not appear in Program.java, so they are not modelled. The rest of that test builds simulator scripts and is not modelled.
- `add(opcode, expr)` reports "does not need a register" for every opcode that reads registers, including ones that read two. The model keeps the source's error as written.
