# vmfc in Dafny

A model of the core of vmfc, a small toolchain around a 16-bit stack virtual machine:

- the machine itself: its flat memory, one `step` per instruction, the CALL/RET frame convention, and the loader of the VMFC binary container;
- the container's header parser and, as its partner, the layout the assembler writes;
- the assembler back end, which encodes data sections, lays out code, resolves labels, data names and `+`/`-` arguments, and fills in the header;
- the two opcode tables;
- the assembler's validator and its comment-stripping transform;
- the compiler back end: the stack-slot allocator `Scope`, the line buffer `ASM`, and the translation of functions, assignments, reassignments and arithmetic into assembly text.

Every operation is a pure function. Errors the source throws are modelled as `Result` values, and so is a `DataView` access outside its buffer.

The modules follow the source files:

| module | file | models |
|---|---|---|
| `Results` | `results.dfy` | `Option` and `Result` |
| `Bytes` | `bytes.dfy` | 16-bit wrap-around, byte orders, bitwise operators |
| `Instructions` | `instructions.dfy` | the opcode constants (`src/instructions.js`) |
| `Descriptions` | `descriptions.dfy` | the alternative table (`src/instructions/`) |
| `Header` | `header.dfy` | the header parser (`src/util.js`) and the header layout |
| `StackMachine` | `machine.dfy` | `src/stack-machine.js` |
| `MachineProperties` | `machine_props.dfy` | the machine's properties |
| `Sequences` | `sequences.dfy` | first-occurrence search and concatenation |
| `Ast` | `ast.dfy` | the assembler's syntax tree |
| `Generator` | `generator.dfy` | `assembler/generator/index.js` |
| `GeneratorProperties` | `generator_props.dfy` | the generator's properties |
| `Validator` | `validator.dfy` | `assembler/validator/index.js` |
| `Transformer` | `transformer.dfy` | `assembler/transformer/index.js` |
| `Hex` | `hex.dfy` | `toString(16)` and `parseInt(…, 16)` |
| `Scopes` | `scope.dfy` | `compiler/generator/scope.js` |
| `Asm` | `asm.dfy` | `compiler/generator/asm.js` |
| `Translate` | `translate.dfy` | `compiler/generator/index.js` |
| `Listing` | `listing.dfy` | the meaning of the compiler's output lines on the machine |
| `CompiledCode` | `statements.dfy` | the compiler's slot discipline on the lines it emits |

Some behaviours are stated as they are, not corrected:

- The generator writes immediates little-endian, but the machine's `fetch16` reads them big-endian (`Bytes.LEReadAsBE`, `GeneratorProperties.ImmediatePatched`).
- The compiler emits `a - b` as `push a; push b; sub`, while SUB computes top minus next, so the code leaves `b - a` (`Listing.SubtractionReversed`, `Listing.FiveMinusThree`).
- The header parser stops at the first six-byte window that spells "ENDS", so the header round trip needs descriptors that do not (`Header.EndsCollision`).
- The generator takes the code base from the last declared section, found by name; the loader takes it from the last descriptor. The two differ when that name is used twice (`GeneratorProperties.DuplicateNameShiftsBase`).
- The validator does not look inside arithmetic arguments (`Validator.AcceptedYetUnresolvable`).
- The effect of a compiled line on the frame (`Listing.Exec1`) takes its operand as written. The machine agrees when the big-endian word after the opcode is that operand (`ListingOnMachine.LineSimulated`). The generator stores the operand little-endian, so in an assembled image `cps 0x2` reads `fp - 0x200`.

## Model

| member | source | states |
|---|---|---|
| Bytes.ToU16 | src/stack-machine.js:157-159 | a 16-bit store keeps a value already in 0..0xFFFF unchanged (ToUint16 is reduction modulo 2^16) |
| Bytes.BE16RoundTrip | src/stack-machine.js:153-159 | a word written big-endian (`setUint16` without flag) reads back big-endian as the same word |
| Bytes.LE16RoundTrip | src/util.js:17-19 | a word written little-endian reads back little-endian (`getUint16(o, true)`) as the same word |
| Bytes.LEReadAsBE | src/stack-machine.js:119-123 | two bytes written little-endian and fetched big-endian by `fetch16` give the byte-swapped word, equal to the original exactly when its two bytes agree |
| Bytes.DecodeBE32Injective | src/util.js:1-4 | the big-endian 32-bit read of the magic-number check determines all four bytes |
| Bytes.ToU16Undo | src/stack-machine.js:358-365 | adding and then subtracting the same amount, each time reduced to 16 bits, gives the word back |
| StackMachine.ReadU16 | src/stack-machine.js:153-155 | a word load succeeds exactly when both bytes lie inside the 0xFFFF-byte memory |
| StackMachine.WriteU16 | src/stack-machine.js:157-159 | a word store succeeds exactly in range and is then read back as ToUint16 of the value |
| StackMachine.ReadAfterWrite | src/stack-machine.js:153-159 | a store is seen by a load at the same address and by no load it does not overlap |
| StackMachine.ReadU8 | src/stack-machine.js:125-129 | a byte load succeeds exactly inside memory |
| StackMachine.WriteU8 | src/stack-machine.js:104-107 | a byte store succeeds exactly inside memory and changes only that byte, to ToUint8 of the value |
| StackMachine.Fetch8 | src/stack-machine.js:125-129 | `fetch8` returns the byte at `ip` and advances `ip` by one, failing outside memory |
| StackMachine.Fetch16 | src/stack-machine.js:119-123 | `fetch16` returns the big-endian word at `ip` and advances `ip` by two, failing when the word does not fit |
| StackMachine.Push | src/stack-machine.js:168-172 | `push` moves `sp` down 2, grows `fs` by 2, stores ToUint16 of the value at the new `sp` and leaves `ip`, `fp` alone |
| StackMachine.Pop | src/stack-machine.js:161-166 | `pop` returns the word at `sp`, moves `sp` up 2, shrinks `fs` by 2 and leaves memory untouched |
| StackMachine.PopAfterPush | src/stack-machine.js:161-172 | popping right after pushing `v` gives `v` mod 2^16 and restores `sp`, `fs`, `fp`, `ip` |
| StackMachine.PushPopKeepFrameLinked | src/stack-machine.js:161-172 | push and pop keep the invariant `fp == sp + fs` |
| StackMachine.PopArgs | src/stack-machine.js:264-268 | CALL's argument loop pops `nArgs` words and, through `unshift`, returns them in the order the caller pushed them |
| StackMachine.PushAll | src/stack-machine.js:275 | re-pushing the arguments puts value k at `sp - 2(k+1)` and changes no byte outside the pushed words |
| StackMachine.EnterFrame | src/stack-machine.js:270-275 | CALL's frame set-up: `fp` points at the return address, the caller's `fs` is just above it, the frame holds exactly the arguments and argument k is at `fp - 2(k+1)` |
| StackMachine.FromRead | src/stack-machine.js:84-88 | a header read error becomes a machine fault and a successful read passes its value through |
| StackMachine.Load | src/stack-machine.js:81-117 | a successful `load` has parsed the header and starts with `ip == entryPoint ==` the end of the last section (0 without sections), `sp == fp == 0xFFFB` and an empty frame; the memory it leaves is stated by `MachineProperties.LoadMemory` |
| StackMachine.Call | src/stack-machine.js:261-278 | the CALL case as an operation with no contract of its own: pop the target, then `nArgs`, then that many arguments, push the caller's `fs` and the return address, point `fp` there with `fs = 0`, re-push the arguments and jump, every out-of-range access a fault; its effect is stated by `MachineProperties.CallSteps`, `MachineProperties.CallFrame` and `MachineProperties.CallThenRet` |
| StackMachine.Ret | src/stack-machine.js:287-299 | the RET case as an operation with no contract of its own: read the result at `sp`, the return address at `fp` and the saved size at `fp + 2`, set `sp = fp + 4`, `fp = sp + size`, `fs = size`, jump back and push the result; its effect is stated by `MachineProperties.CallAndRetLinkFrames` and `MachineProperties.CallThenRet` |
| StackMachine.Transition | src/stack-machine.js:176-453 | the cases of `step`'s `switch` other than HALT, one per declared opcode, SSP and DBG doing nothing; which helper each opcode runs is stated by `MachineProperties.AddIsPlus` and the lemmas beside it, and by `ListingOnMachine.OpcodeCases` |
| StackMachine.Step | src/stack-machine.js:174-461 | `step` as an operation with no contract of its own: fetch the opcode byte, advance `ip` only for a byte without a case, stop with the word at `sp` on HALT, otherwise run the case; stated by `MachineProperties.StepWithoutEffect` and `MachineProperties.StepHaltsOnlyOnHalt` |
| StackMachine.Run | src/stack-machine.js:131-133 | `run` with a fuel bound, as an operation with no contract of its own: step until a step halts or faults; stated by `MachineProperties.RunStable` |
| MachineProperties.WriteLeavesOtherBytes | src/stack-machine.js:157-159 | a word store changes only the two bytes it writes |
| MachineProperties.StepWithoutEffect | src/stack-machine.js:174-185 | an opcode byte without a case (including SSP), NOP and DBG only advance `ip` past the opcode |
| MachineProperties.StepHaltsOnlyOnHalt | src/stack-machine.js:454-459 | `step` reports a stop exactly for the HALT byte, whose result is the word at `sp` and which changes nothing but `ip` |
| MachineProperties.BinaryEffect | src/stack-machine.js:300-350 | every two-operand instruction pops the top `a` and then `b` and leaves the result of `a OP b`, reduced to 16 bits, in place of the two |
| MachineProperties.ArithmeticOperations | src/stack-machine.js:300-317 | ADD, SUB and MUL push `a + b`, `a - b` and `a * b` (reduced to 16 bits) with `a` the top word, so SUB is top minus next |
| MachineProperties.ShiftOperations | src/stack-machine.js:318-329 | LSF and RSF take the amount from the top and the value from below it and shift by the amount modulo 32 |
| MachineProperties.BitwiseOperations | src/stack-machine.js:331-350 | AND, OR and XOR replace the two top words by their bitwise combination |
| MachineProperties.BitwiseLaws | src/stack-machine.js:331-350 | the three bitwise operators are symmetric in their operands and XOR of a word with itself is 0 |
| MachineProperties.BitwiseWidth | src/stack-machine.js:331-350 | combining two k-bit numbers gives a k-bit number, so AND, OR, XOR of words need no truncation |
| MachineProperties.ShiftsLeaveTheWord | src/stack-machine.js:318-329 | a shift by 16 to 31 (mod 32) moves every bit of a word out of it in either direction |
| MachineProperties.NotComplements | src/stack-machine.js:352-356 | NOT replaces the top word `a` by `0xFFFF - a` |
| MachineProperties.IncDecInPlace | src/stack-machine.js:358-365 | INC and DEC rewrite the word at `sp` by +1 / -1 with wrap-around and change nothing else |
| MachineProperties.WriteSameWord | src/stack-machine.js:157-159 | a memory that agrees with another on a word and on every other byte is that memory |
| MachineProperties.AddInPlaceUndone | src/stack-machine.js:358-365 | adding `delta` in place and then `-delta` restores the state exactly |
| MachineProperties.IncThenDec | src/stack-machine.js:358-365 | INC followed by DEC gives back exactly the starting state |
| MachineProperties.JumpIfNotZero | src/stack-machine.js:386-393 | JNZ pops the target and the tested word and jumps exactly when that word is not zero |
| MachineProperties.CompareJumps | src/stack-machine.js:394-453 | each comparison jump pops target, comparison value and tested value, and jumps exactly when `tested OP comparison` |
| MachineProperties.CompareJumpEffect | src/stack-machine.js:394-453 | the shared behaviour of the comparison jumps for any relation |
| MachineProperties.OperandWidths | src/stack-machine.js:186-229 | PUSH, CPS and SMV consume a 2-byte operand; PMF consumes none |
| MachineProperties.StackAdjustUnlinksFrame | src/stack-machine.js:366-373 | ISP and DSP move `sp` without `fs` and so break `fp == sp + fs` |
| MachineProperties.CallAndRetLinkFrames | src/stack-machine.js:261-299 | after any completed CALL or RET, `fp == sp + fs` |
| MachineProperties.CallFrame | src/stack-machine.js:261-278 | CALL jumps to the popped target, points `fp` at the return address, saves the caller's remaining frame size above it and places argument k at `fp - 2(k+1)` |
| MachineProperties.CallSteps | src/stack-machine.js:261-278 | CALL pops the target and the count from the caller's stack, then pops the arguments and enters the callee's frame |
| MachineProperties.ArgumentsInFrame | src/stack-machine.js:264-275 | the words CALL pops as arguments are the words the callee finds in its argument slots |
| MachineProperties.CallThenRet | src/stack-machine.js:261-299 | CALL then RET returns after the CALL with the caller's `fp` restored and one result word in place of target, count and arguments |
| MachineProperties.RunStable | src/stack-machine.js:131-133 | once `run` has halted or faulted, more steps change nothing |
| MachineProperties.AfterStable | src/stack-machine.js:131-133 | the same for the continuation after one step |
| MachineProperties.LoadChecksMagic | src/stack-machine.js:84-86 | a buffer too short for the magic number, or whose first four bytes are not "VMFC", is refused |
| MachineProperties.CopyCodeVerbatim | src/stack-machine.js:104-107 | the code bytes land verbatim at consecutive addresses from the code base and nothing else changes |
| MachineProperties.CopySectionWords | src/stack-machine.js:90-97 | each little-endian section word of the file reads back from memory as the same word, and bytes outside the section are untouched |
| MachineProperties.CopySectionsFrame | src/stack-machine.js:90-97 | copying the sections changes no byte that no non-empty section reaches (a section reaches `offset .. offset + length`, one byte past the end for an odd length) |
| MachineProperties.CopySectionsWords | src/stack-machine.js:90-97 | sections are copied in header order: each even word of a section reads back as the file's little-endian word unless a later non-empty section reaches one of its bytes |
| MachineProperties.LoadStages | src/stack-machine.js:81-107 | a successful load has read the header, copied the sections onto zeroed memory and then copied the code from the code base on |
| MachineProperties.LoadMemory | src/stack-machine.js:81-112 | after a successful load, every code byte i below `codeLength` is at `base + i`; every even word of a section that no later section and no code byte overlaps reads back as the file's little-endian word; every byte no section and no code reaches is 0 |
| Header.MarkerSpelling | src/util.js:1-14 | the constants 0x564d4643 and 0x454e4453 are "VMFC" and "ENDS" read as big-endian 32-bit numbers |
| Header.GetUint16 | src/util.js:17-19 | a 16-bit read of the file succeeds exactly when both bytes are inside it |
| Header.GetUint32 | src/util.js:3 | a 32-bit read of the file succeeds exactly when all four bytes are inside it |
| Header.ValidateMagicNumber | src/util.js:1-4 | the magic check answers true exactly when the first four bytes are "VMFC", and fails on a file shorter than four bytes |
| Header.EndsAtIff | src/util.js:11 | comparing the 32-bit read with the marker is the same as comparing the four bytes with "ENDS" |
| Header.ReadDescriptorsEnd | src/util.js:9-23 | a successful descriptor loop stops 6N bytes after its start, N descriptors read, just past an "ENDS" window |
| Header.ReadDescriptorsEntry | src/util.js:9-23 | descriptor k is the little-endian triple at `4 + 6k` and no earlier window spells "ENDS" |
| Header.EncodeDescriptor | assembler/generator/index.js:105-112 | a section descriptor takes six bytes in the file |
| Header.EncodeDescriptors | assembler/generator/index.js:105-112 | N descriptors take 6N bytes |
| Header.EncodeHeader | assembler/generator/index.js:102-116 | the generated header is 12 + 6N bytes long |
| Header.ReadEncodedDescriptors | src/util.js:9-23 | reading an encoded descriptor table gives back exactly its descriptors when none begins with the bytes of "ENDS" |
| Header.DescriptorDecodes | src/util.js:16-20 | the six bytes of an encoded descriptor decode back to it and spell "ENDS" exactly when the descriptor does |
| Header.ReadDescriptorsStep | src/util.js:9-23 | one turn of the loop reads one triple and continues six bytes later |
| Header.HeaderRoundTrip | src/util.js:1-33 | parsing a generated header, followed by anything, passes the magic check and returns exactly its descriptors, code pointer and code length, provided no descriptor begins with "ENDS" |
| Header.EndsCollision | src/util.js:11-14 | a descriptor with ptr 0x4E45 and offset 0x5344 ends the table early, so the proviso is needed |
| Header.ReadDescriptors | src/util.js:9-23 | the descriptor loop as an operation with no contract of its own: read six-byte little-endian triples from offset 4 until the four-byte window spells "ENDS", failing on a read past the file; stated by `Header.ReadDescriptorsEnd`, `Header.ReadDescriptorsEntry` and `Header.ReadDescriptorsStep` |
| Header.GetHeaderInformation | src/util.js:6-33 | `getHeaderInformation` as an operation with no contract of its own: the descriptor table, then the little-endian code pointer and length after the marker; stated by `Header.HeaderRoundTrip` and `Header.EndsCollision` |
| Instructions.DecodeInvertsOpcode | src/instructions.js:1-39 | every opcode byte decodes to its constant and a byte decodes only to the constant that owns it |
| Instructions.DecodeFindsOpcode | src/stack-machine.js:177 | the `switch` finds each constant from its byte |
| Instructions.DecodeOnlyOwnByte | src/stack-machine.js:177 | a byte that matches a case is that case's constant |
| Instructions.OpcodesDistinct | src/instructions.js:1-39 | no two constants share a byte |
| Instructions.DeclaredNumbering | src/instructions.js:1-39 | PUSH … NOT are 0x01 … 0x22 in declaration order, HALT, DBG, NOP are 0xFF, 0xFE, 0xFD |
| Instructions.DeclaredComplete | src/instructions.js:41-80 | every constant is exported |
| Instructions.NoJzNoCpos | src/instructions.js:1-39 | the table in use has no JZ and no CPOS constant |
| Descriptions.TableDense | src/instructions/descriptions.js:1-250 | the 39 entries get the opcodes 1 … 39 in list order, with the listed flags and mnemonics |
| Descriptions.NamesDistinct | src/instructions/descriptions.js:3-250 | no mnemonic is listed twice |
| Descriptions.MnemonicsDistinct | src/instructions/descriptions.js:3-250 | the 39 mnemonic strings are pairwise different |
| Descriptions.ArgumentFlags | src/instructions/descriptions.js:3-250 | exactly PUSH, PMF, CPS and SMV are flagged as taking an argument |
| Descriptions.FlagsMatchMnemonics | src/instructions/descriptions.js:3-250 | the same, stated on the flag and mnemonic lists |
| Descriptions.NumberingDiffers | src/instructions/descriptions.js:155-160 | HALT is 25 in this table but 0xFF in the table the interpreter dispatches on |
| Descriptions.OpcodeMapKeys | src/instructions/index.js:4-7 | the reduced object's keys are exactly the listed mnemonics |
| Descriptions.OpcodeMapLastWins | src/instructions/index.js:4-7 | an entry's opcode survives in the object unless a later entry has the same mnemonic |
| Descriptions.OpcodeMapOfDistinct | src/instructions/index.js:4-7 | with distinct mnemonics every mnemonic maps to its own opcode; with distinct opcodes too the object is injective |
| Descriptions.TableOpcodeMap | src/instructions/index.js:4-7 | reducing this table maps mnemonic i to i+1, has the 39 mnemonics as keys and is injective |
| Ast.Entries | assembler/generator/index.js:31-33 | the entries of a section are exactly its entry lines, comments left out, and there are no more of them than lines |
| Ast.EntriesAppend | assembler/generator/index.js:31-32 | entries keep the order of their lines: the entries of two runs of lines are those of the first followed by those of the second |
| Sequences.FirstIndex | assembler/generator/index.js:137 | the first-occurrence search: the found index holds the element and no earlier one does; nothing is found exactly when the element is absent |
| Sequences.FlattenLength | assembler/generator/index.js:118-121 | a concatenation of structs is as long as its parts together |
| Sequences.FlattenChunk | assembler/generator/index.js:118-121 | part k of a concatenation sits right after the parts before it |
| Generator.WordsLE | assembler/generator/index.js:36-38 | a `words` entry takes two bytes per value |
| Generator.PackAscii | assembler/generator/index.js:39-50 | an `ascii` entry of n code units packs into (n+1)/2 words |
| Generator.EntrySize | assembler/generator/index.js:31-56 | `bytes` take one byte per value, `words` two, `ascii` two per pair of units (an odd one rounded up), `buffer` its size |
| Generator.WordsReadBack | assembler/generator/index.js:36-38 | value j of a `words` entry reads back little-endian from bytes 2j and 2j+1, truncated to 16 bits |
| Generator.AsciiWords | assembler/generator/index.js:40-48 | ascii word i is `c[2i] * 256 + c[2i+1]`, with 0 for the missing partner of an odd last unit |
| Generator.AsciiRoundTrip | assembler/generator/index.js:40-48 | for byte-sized code units, splitting the packed words back into bytes gives the text, plus one 0 after odd-length text |
| Generator.EntryLocated | assembler/generator/index.js:31-56 | an entry's bytes sit at its offset, right after the bytes of the entries before it |
| Generator.CodeSizeAppend | assembler/generator/index.js:58-82 | the code size of two runs of elements is the sum of their sizes |
| Generator.SectionNamed | assembler/generator/index.js:131 | looking a section up by name finds a section of that name |
| Generator.LabelAddress | assembler/generator/index.js:128-134 | a label resolves exactly when it is `__GLOBAL_VM_ENTRY` or a label of the code |
| Generator.EncodeElement | assembler/generator/index.js:66-72 | a patched element is exactly as long as its slot in the layout |
| Generator.CodeBase | assembler/generator/index.js:129-132 | the generator's code base as an operation with no contract of its own: 0 without sections, else the last section's address plus the size of the first section with its name; stated by `GeneratorProperties.CodeBaseAgrees` and `GeneratorProperties.DuplicateNameShiftsBase` |
| Generator.DataAddress | assembler/generator/index.js:135-142 | `resolveDataAddress` as an operation with no contract of its own; stated by `GeneratorProperties.DataAddressOf`, `GeneratorProperties.DataAddressFails` and `GeneratorProperties.DataAddressSkips` |
| Generator.Resolve | assembler/generator/index.js:143-158 | `resolveArgument` as an operation with no contract of its own: literals as they are, references looked up, arithmetic adding for '+' and subtracting otherwise; stated by `GeneratorProperties.ResolveIsSignedSum` and `GeneratorProperties.ResolveReportsLeftmost` |
| Generator.EncodeCode | assembler/generator/index.js:160-164 | the patched code struct as an operation with no contract of its own; stated by `GeneratorProperties.CodeResolves`, `GeneratorProperties.FirstFailureReported`, `GeneratorProperties.EncodedLength` and `GeneratorProperties.ImmediatePatched` |
| Generator.Descriptor | assembler/generator/index.js:105-112 | one section descriptor as an operation with no contract of its own: pointer patched only for the first section of its name, offset and length the section's address and size, all truncated to 16 bits; stated by `GeneratorProperties.DescriptorPlace`, `GeneratorProperties.FirstPointer` and `GeneratorProperties.NextPointer` |
| Generator.BuildHeader | assembler/generator/index.js:102-116 | the header struct as an operation with no contract of its own; stated by `GeneratorProperties.GeneratedHeaderParses`, `GeneratorProperties.CodePointer` and `GeneratorProperties.CodePlaced` |
| Generator.Generate | assembler/generator/index.js:84-174 | `generator(ast)` as an operation with no contract of its own: header, sections, then patched code, or the first resolution error; stated by `GeneratorProperties.ImageParts`, `GeneratorProperties.GeneratedHeaderParses` and `GeneratorProperties.EntryPointAgrees` |
| GeneratorProperties.CodeResolves | assembler/generator/index.js:160-164 | encoding the code succeeds exactly when every element's argument resolves |
| GeneratorProperties.FirstFailureReported | assembler/generator/index.js:160-164 | the error is that of the first element, in code order, that fails |
| GeneratorProperties.EncodedLength | assembler/generator/index.js:58-82 | the patched code is exactly as long as the layout computed before patching |
| GeneratorProperties.CodeLayout | assembler/generator/index.js:58-82 | element k occupies the bytes after the elements before it |
| GeneratorProperties.ImmediatePatched | assembler/generator/index.js:160-164 | an instruction with an argument is its opcode followed by the resolved value, truncated to 16 bits and stored little-endian; read big-endian the bytes give the swapped value |
| GeneratorProperties.LabelMarksNext | assembler/generator/index.js:63-66 | a label first of its name resolves to the code base plus the offset of the element after it |
| GeneratorProperties.DataAddressFails | assembler/generator/index.js:135-142 | a data lookup fails, with "Cannot find", exactly when no section declares the name |
| GeneratorProperties.DataAddressOf | assembler/generator/index.js:135-142 | a data name resolves into the first section declaring it, at the offset of its first entry of that name |
| GeneratorProperties.DataAddressSkips | assembler/generator/index.js:135-140 | a section that does not declare the name is passed over |
| GeneratorProperties.FirstEntryNamed | assembler/generator/index.js:137-138 | that offset belongs to the first entry with the name, whose bytes sit there |
| GeneratorProperties.FirstUnresolvedAppend | assembler/generator/index.js:143-158 | the leftmost failing reference of a concatenation is found in its left part first |
| GeneratorProperties.ResolveReportsLeftmost | assembler/generator/index.js:143-158 | an argument resolves exactly when each of its references does; otherwise the error is the leftmost failing reference's |
| GeneratorProperties.SignedSumAppend | assembler/generator/index.js:148-156 | the signed sum of two term lists is the sum of their signed sums |
| GeneratorProperties.SignedSumNegated | assembler/generator/index.js:153-155 | negating every term negates the sum |
| GeneratorProperties.ResolveIsSignedSum | assembler/generator/index.js:143-158 | an arithmetic argument resolves to the signed sum of its leaves, right operands of non-'+' counting negatively |
| GeneratorProperties.GeneratedHeaderParses | assembler/generator/index.js:102-116 | the generated header passes the magic check and parses back to exactly the descriptors, code pointer and code length written, provided no descriptor begins with "ENDS" |
| GeneratorProperties.SectionsBackToBack | assembler/generator/index.js:118-121 | sections are laid out back to back |
| GeneratorProperties.SectionSlice | assembler/generator/index.js:118-121 | in the sections struct, section k's bytes come right after those of the sections before it |
| GeneratorProperties.FirstDescriptor | assembler/generator/index.js:166-170 | the first descriptor of each name records where its section starts and how long it is |
| GeneratorProperties.ImageParts | assembler/generator/index.js:123-126 | a generated image is its 12 + 6N-byte header, then the sections, then the code |
| GeneratorProperties.SectionPlaced | assembler/generator/index.js:166-170 | in an image below 64 KiB, the first descriptor of each name points at exactly its section's bytes |
| GeneratorProperties.SectionInImage | assembler/generator/index.js:123-126 | the same, for any header of the right size followed by sections and code |
| GeneratorProperties.PointerChain | assembler/generator/index.js:166-171 | with distinct names, the first section starts after the header, each next where the previous ends, and the code where the last ends |
| GeneratorProperties.FirstPointer | assembler/generator/index.js:166-170 | when its name is its own, the first section starts right after the header |
| GeneratorProperties.NextPointer | assembler/generator/index.js:166-170 | when both names are their own, each section starts where the one before it ends |
| GeneratorProperties.CodePointer | assembler/generator/index.js:171 | when the last name is its own, the code pointer is where the last section ends |
| GeneratorProperties.FirstOfDistinct | assembler/generator/index.js:166-170 | with distinct names every section is the first with its name |
| GeneratorProperties.CodePlaced | assembler/generator/index.js:115-116 | in an image below 64 KiB, the header's code pointer and length delimit exactly the patched code |
| GeneratorProperties.CodeBaseAgrees | assembler/generator/index.js:128-134 | labels resolve against the code base the loader computes: 0 when there are no sections, otherwise provided the last section's name is used by no earlier section and its address and size fit in 16 bits |
| GeneratorProperties.LastDescriptor | assembler/generator/index.js:106-109 | when they fit in 16 bits, the last descriptor's offset plus length is the last section's address plus size |
| GeneratorProperties.DescriptorPlace | assembler/generator/index.js:106-109 | when they fit in 16 bits, a descriptor's offset and length are its section's address and size |
| GeneratorProperties.DuplicateNameShiftsBase | assembler/generator/index.js:129-132 | with two sections of one name last, the generator's code base (0x14) differs from the loader's (0x12) |
| GeneratorProperties.EntryPointAgrees | assembler/generator/index.js:59-60 | loading a generated image starts execution at the address `__GLOBAL_VM_ENTRY` resolves to, for any number of sections including none, provided: the last section's name is used by no earlier section, its address and size fit in 16 bits, no descriptor spells "ENDS", and the load succeeds |
| Validator.CollectNamesSpec | assembler/validator/index.js:8-21 | the data and rodata loops succeed exactly when the names seen so far plus the new ones are distinct, and then return all of them in order |
| Validator.CollectLabelsSpec | assembler/validator/index.js:23-31 | the label loop succeeds exactly when the labels are distinct, and returns them in order |
| Validator.CheckReferencesSpec | assembler/validator/index.js:33-45 | the reference loop succeeds exactly when every element's plain reference names a declared entry or label |
| Validator.ValidateAcceptsValid | assembler/validator/index.js:1-48 | the validator returns true exactly on listings with distinct data names, distinct labels and declared plain references, and fails on all others |
| Validator.DuplicateDataFirst | assembler/validator/index.js:9-14 | a repeated data name is reported before anything else is examined |
| Validator.DataErrorIsDuplicateData | assembler/validator/index.js:10-12 | the data loop's only error is the duplicate-data error, whose message names no entry |
| Validator.ForwardReferenceAccepted | assembler/validator/index.js:23-45 | a jump to a label defined further down is accepted, since all labels are collected first |
| Validator.LabelNamesAreLabels | assembler/validator/index.js:24-30 | a name is among the collected labels exactly when the code holds that label |
| Validator.AcceptedLabelResolves | assembler/validator/index.js:40-42 | a label reference the validator accepts is one the generator resolves |
| Validator.AcceptedYetUnresolvable | assembler/validator/index.js:35 | arithmetic arguments are not checked: a listing with an unknown label inside arithmetic is accepted and then fails in the generator |
| Validator.Validate | assembler/validator/index.js:1-48 | `validator(ast)` as an operation with no contract of its own: data names, rodata names, labels, then references, the first problem failing; stated by `Validator.ValidateAcceptsValid` and `Validator.DuplicateDataFirst` |
| Transformer.StripKeepsEntries | assembler/transformer/index.js:3-7 | what the filter leaves is exactly the section's entries, in their order |
| Transformer.StrippedItems | assembler/transformer/index.js:3-7 | no comment survives and the entries are those of the input |
| Transformer.TransformShape | assembler/transformer/index.js:1-12 | every section keeps its name and address and loses its comments; the number of sections and the code are unchanged |
| Transformer.TransformIdempotent | assembler/transformer/index.js:1-12 | transforming twice is transforming once |
| Transformer.StripNothing | assembler/transformer/index.js:3-7 | filtering filtered items changes nothing |
| Transformer.TransformSameLayout | assembler/transformer/index.js:1-12 | the transformed sections differ from the input's only in comments |
| Transformer.SameLayoutSameBytes | assembler/transformer/index.js:1-12 | sections differing only in comments have the same names, bytes, prefixes and code base |
| Transformer.SameLayoutSameBase | assembler/generator/index.js:128-132 | sections differing only in comments give labels the same code base |
| Transformer.SameLayoutSameDescriptors | assembler/generator/index.js:106-109 | sections differing only in comments get the same descriptors |
| Transformer.SameLayoutSameData | assembler/transformer/index.js:1-12 | such sections resolve every data name alike |
| Transformer.SameLayoutSameResolve | assembler/transformer/index.js:1-12 | such programs resolve every argument alike |
| Transformer.SameLayoutSameCode | assembler/transformer/index.js:1-12 | such programs encode the code alike |
| Transformer.TransformKeepsBinary | assembler/transformer/index.js:1-12 | the transform does not change the generated binary |
| Transformer.Transform | assembler/transformer/index.js:1-12 | the transformer as an operation with no contract of its own: every section's comments filtered out; stated by `Transformer.TransformShape`, `Transformer.TransformIdempotent` and `Transformer.TransformKeepsBinary` |
| Hex.ToHex | compiler/generator/scope.js:8 | `toString(16)` writes at least one digit |
| Hex.DigitRoundTrip | compiler/generator/scope.js:8 | each hex digit reads back as its value |
| Hex.HexRoundTrip | compiler/generator/scope.js:8 | the hex text of a number parses back to that number |
| Hex.HexCanonical | compiler/generator/scope.js:8 | the text uses only the lower-case digits 0-9a-f and has no leading zero (other than "0" itself) |
| Hex.HexInjective | compiler/generator/scope.js:8 | different numbers get different hex texts |
| Scopes.HexText | compiler/generator/scope.js:8 | an offset's text is `0x` followed by at least one digit |
| Scopes.AddVariable | compiler/generator/scope.js:10-23 | `addVariable` advances the counter by 2 and binds the name, with the given kind, to the new offset |
| Scopes.AddArguments | compiler/generator/scope.js:2-8 | the constructor hands out one offset per argument |
| Scopes.GetHexAddress | compiler/generator/scope.js:25-27 | a lookup succeeds exactly for a bound name |
| Scopes.AddVariableFresh | compiler/generator/scope.js:10-23 | a new binding gets an offset above every offset in use, the other bindings are unchanged, and the scope stays well formed (even, positive, distinct offsets written in hex) |
| Scopes.AddVariableKeepsSlots | compiler/generator/scope.js:10-23 | adding a variable keeps the scope well formed |
| Scopes.AddVariableKeys | compiler/generator/scope.js:10-23 | after adding a variable the bound names are the old ones plus the new one |
| Scopes.ReAddMoves | compiler/generator/scope.js:10-18 | re-adding a bound name moves it to a new, larger offset without adding a binding |
| Scopes.HexAddressReadsBack | compiler/generator/scope.js:25-27 | the text a lookup returns is `0x` and digits that read back as the name's offset |
| Scopes.ArgumentsWellFormed | compiler/generator/scope.js:2-8 | a scope built from arguments is well formed and binds only arguments |
| Scopes.ArgumentNames | compiler/generator/scope.js:2-8 | it binds exactly the argument names |
| Scopes.ArgumentOffsets | compiler/generator/scope.js:2-8 | argument k, unless its name recurs later, sits at offset 2(k+1) |
| Scopes.ArgumentSlotMatch | compiler/generator/scope.js:2-8 | the offset of argument k addresses the word CALL placed argument k in, `fp - 2(k+1)` |
| Scopes.LocalAfterArguments | compiler/generator/scope.js:10-23 | a local added after the arguments takes the offset just past them |
| Scopes.ForkAgrees | compiler/generator/scope.js:29-34 | a fork answers every lookup as the original does and continues its numbering |
| Asm.Spaces | compiler/generator/asm.js:7-9 | the indentation is two spaces per level |
| Asm.Add | compiler/generator/asm.js:7-9 | `add` keeps the earlier lines and appends one: 2·level spaces followed by the line |
| Asm.BlankLine | compiler/generator/asm.js:11-13 | `blankLine` appends an empty line whatever the level |
| Asm.Unindent | compiler/generator/asm.js:24-28 | `unindent` lowers the level by one but never below zero, and keeps the lines |
| Asm.Label | compiler/generator/asm.js:15-18 | `label` appends one line and raises the level by one |
| Asm.Split | compiler/generator/asm.js:30-32 | splitting text at newlines gives at least one piece |
| Asm.SplitJoin | compiler/generator/asm.js:30-32 | lines free of newlines come back unchanged from the joined text |
| Asm.JoinSplit | compiler/generator/asm.js:30-32 | any text is the join of its newline-free pieces |
| Asm.GetCodeAfterAdd | compiler/generator/asm.js:7-9 | adding a line adds a newline (unless it is the first) and the indented line to the end of the text |
| Asm.LinesRecoverable | compiler/generator/asm.js:30-32 | a buffer of newline-free lines can be read back line by line from its text |
| Asm.AppendOnly | compiler/generator/asm.js:7-28 | whatever calls follow, earlier lines stay, and each `add`, `blankLine` or `label` adds exactly one line |
| Asm.IndentUndone | compiler/generator/asm.js:15-28 | `unindent` undoes `indent`, and after a label returns to the label's level |
| Translate.Lookup | compiler/generator/index.js:62 | looking a name up succeeds exactly when it has a slot and otherwise fails naming it |
| Translate.ExprAppends | compiler/generator/index.js:22-92 | translation only appends: translating after `asm` is translating after nothing with `asm` in front |
| Translate.FunctionAppends | compiler/generator/index.js:35-46 | the same for a function |
| Translate.AssignmentAppends | compiler/generator/index.js:48-57 | the same for an assignment |
| Translate.ReassignmentAppends | compiler/generator/index.js:59-68 | the same for a reassignment |
| Translate.ArithmeticAppends | compiler/generator/index.js:70-91 | the same for a binary operation |
| Translate.OperandAppends | compiler/generator/index.js:71-87 | the same for one operand |
| Translate.BodyAppends | compiler/generator/index.js:40-42 | the same for a function body |
| Translate.FunctionShape | compiler/generator/index.js:35-46 | a function's text is its label, its statements' text in a scope of its arguments, and `ret` with a blank line; the caller's scope is left as it was; a failing statement fails the function |
| Translate.FunctionOwnScope | compiler/generator/index.js:35-36 | the surrounding scope does not affect a function's text |
| Translate.BodyConcatenates | compiler/generator/index.js:40-42 | the statements are translated one after the other, each in the scope the previous ones left, the first failure stopping the body |
| Translate.AssignmentShape | compiler/generator/index.js:48-57 | a literal assignment pushes the literal and binds the name to the next offset; an arithmetic one emits the expression's code and binds the name after it; any other value emits nothing |
| Translate.ReassignmentShape | compiler/generator/index.js:59-68 | a reassignment emits the value's code and `smv` with the name's offset, failing on a name without one; any other value emits nothing |
| Translate.OperandOrder | compiler/generator/index.js:70-91 | operand `a`'s code comes first, then `b`'s, then the mnemonic; the first failure is the one reported |
| Translate.UnrecognisedRejected | compiler/generator/index.js:23-33 | literals, stack variables, brackets and identifiers are not expressions the translator accepts, and a bracketed operand fails too |
| Translate.TranslateExpr | compiler/generator/index.js:23-33 | `translations.expr` as an operation with no contract of its own: dispatch on the kind of expression, anything else unrecognised; stated by `Translate.ExprAppends` and `Translate.UnrecognisedRejected` |
| Translate.TranslateFunction | compiler/generator/index.js:35-46 | `translations.function` as an operation with no contract of its own; stated by `Translate.FunctionShape`, `Translate.FunctionOwnScope` and `Translate.FunctionAppends` |
| Translate.TranslateAssignment | compiler/generator/index.js:48-57 | `translations.assignment` as an operation with no contract of its own; stated by `Translate.AssignmentShape` and `Translate.AssignmentAppends` |
| Translate.TranslateReassignment | compiler/generator/index.js:59-68 | `translations.reassignment` as an operation with no contract of its own; stated by `Translate.ReassignmentShape` and `Translate.ReassignmentAppends` |
| Translate.BinaryOperation | compiler/generator/index.js:70-91 | `translations.binaryOperation` as an operation with no contract of its own; stated by `Translate.OperandOrder` and `Translate.ArithmeticAppends` |
| Translate.Operand | compiler/generator/index.js:71-87 | one operand of `binaryOperation` as an operation with no contract of its own: a literal pushed, a stack variable copied with `cps`, anything else translated; stated by `Translate.OperandOrder` and `Translate.OperandAppends` |
| Listing.RenderAllAppend | compiler/generator/index.js:70-91 | the text of two runs of lines is the text of each, in order |
| Listing.Exec1 | src/stack-machine.js:186-229 | `push` and `cps` grow the frame by one word, `smv` and the operations shrink it by one |
| ListingOnMachine.OpcodeCases | src/stack-machine.js:174-317 | the opcode of each compiled line is dispatched to the machine's PUSH, CPS, SMV, ADD, SUB or MUL case, the arithmetic ones with the operator the listing gives them |
| ListingOnMachine.PushShows | src/stack-machine.js:168-172 | a push onto a state that shows a frame shows that frame with the value, reduced to 16 bits, as its new top word, and the words below are not disturbed |
| ListingOnMachine.DropShows | src/stack-machine.js:161-166 | moving `sp` up n words without writing shows the frame without its top n words |
| ListingOnMachine.PushLineSimulated | src/stack-machine.js:186-189 | PUSH with operand v leaves the frame `Listing.Exec1` gives `push v`, keeps `fp` and moves `ip` past the operand |
| ListingOnMachine.CopyLineSimulated | src/stack-machine.js:218-222 | CPS with an offset that names a frame word pushes a copy of that word, as `Listing.Exec1` gives `cps` |
| ListingOnMachine.StoreLineSimulated | src/stack-machine.js:224-229 | SMV pops the top word into the slot its offset names and leaves every other word of the frame as it was, as `Listing.Exec1` gives `smv` |
| ListingOnMachine.OpLineSimulated | src/stack-machine.js:300-317 | ADD, SUB and MUL replace the top two words by the operation on them, the top word first, as `Listing.Exec1` gives the operation lines |
| ListingOnMachine.LineSimulated | src/stack-machine.js:174-317 | for every line whose frame effect is defined, a successful machine step on a state that shows the frame, with the line's operand after the opcode, shows the frame `Listing.Exec1` computes; `fp` is kept and `ip` moves past the operand |
| Listing.ExecAppend | src/stack-machine.js:131-133 | running two runs of lines is running the first, then the second on its result |
| Listing.OperandText | compiler/generator/index.js:70-91 | an operand's text is exactly the text of its lines; it fails exactly when a variable has no slot; the scope is unchanged |
| Listing.EvalAbove | src/stack-machine.js:218-222 | words pushed above the slots do not change an operand's value |
| Listing.OperandPushesValue | src/stack-machine.js:218-222 | an operand's lines push exactly one word, its value, and touch nothing below |
| Listing.SubtractionReversed | src/stack-machine.js:306-310 | the compiled `a - b` (push a, push b, sub) leaves `b - a`, since SUB takes the top word as its left operand |
| Listing.EvalSubtraction | src/stack-machine.js:306-310 | the value of a subtraction is its right operand minus its left one, modulo 2^16 |
| Listing.FiveMinusThree | compiler/generator/index.js:70-91 | `5 - 3` compiles to push 5, push 3, sub and leaves 0xfffe rather than 2 |
| CompiledCode.StatementText | compiler/generator/index.js:48-68 | the translator writes exactly the statement's lines and leaves the scope with the new binding, and fails exactly when a name has no slot |
| CompiledCode.LiteralStatementText | compiler/generator/index.js:49-51 | the same for a literal value |
| CompiledCode.LiteralAssignmentText | compiler/generator/index.js:49-51 | a literal assignment writes one push of the literal and binds the name |
| CompiledCode.LiteralReassignmentText | compiler/generator/index.js:60-62 | a literal reassignment writes a push of the literal and a store to the variable's slot, or fails when the name is unbound |
| CompiledCode.ArithmeticStatementText | compiler/generator/index.js:52-55 | the same for an arithmetic value |
| CompiledCode.ArithmeticAssignmentText | compiler/generator/index.js:52-55 | an arithmetic assignment writes the operation's lines and binds the name, and fails exactly when an operand names an unbound variable |
| CompiledCode.ArithmeticReassignmentText | compiler/generator/index.js:63-66 | the same for an arithmetic reassignment |
| CompiledCode.AgreesInFrame | compiler/generator/scope.js:10-23 | when the frame agrees with the values, every variable's slot lies in the frame |
| CompiledCode.EvalIsValue | compiler/generator/index.js:70-91 | read from an agreeing frame, an operand has its value |
| CompiledCode.AssignmentKeepsSlots | compiler/generator/index.js:48-57 | an assignment pushes its value and the slot it binds is the word just pushed, so every variable's slot still holds its value |
| CompiledCode.ReassignmentKeepsSlots | compiler/generator/index.js:59-68 | a reassignment pushes its value and pops it into the variable's slot, changing no other slot |
| CompiledCode.StatementKeepsSlots | compiler/generator/index.js:48-68 | every simple statement keeps the frame in step with the variables' values |
| CompiledCode.BodyText | compiler/generator/index.js:40-42 | the translator writes exactly the body's lines, statement after statement |
| CompiledCode.BodyKeepsSlots | compiler/generator/index.js:40-42 | running a body's lines keeps every slot in step with the values the statements give |
| CompiledCode.ArgumentSlot | compiler/generator/scope.js:2-8 | with distinct argument names, argument k has slot k and is valued as frame word k |
| CompiledCode.ArgumentsAgree | compiler/generator/scope.js:2-8 | on entry, the frame of arguments agrees with the function's fresh scope |
| CompiledCode.FunctionKeepsSlots | compiler/generator/index.js:35-46 | a function of simple statements compiles to its label, its lines and `ret`, and running those lines from the argument frame leaves each variable's value in its slot |

## Left out

- Debug output: `debugStack`, `debugArrayBufferView`, `console.log` and `debugger`. DBG is a step that only advances `ip`. The `Magic Number` log line of the magic check is dropped too.
- The assembler and compiler parsers, built on parser-combinator libraries outside the repository. The syntax trees they produce are taken as the inputs `Ast.Program`, `Validator.Listing` and `Translate.Expr`. Hex text in the assembler tree is taken already parsed, as `parseInt(text, 16)` would give it.
- The command-line front ends, the pipelines and `src/testing.js`: wiring and I/O only.
- `compiler/constants.js`: its string tags become the constructors of `Translate.Expr`.
- The construct-js library is not part of this model. Its fields are taken as fixed-width encoders (U16 little-endian), and `getOffset` as the size of the fields before the first field with that name. A label that no field has is taken to fail.
- The random suffix of instruction field names: it affects no offset.
- Generator.Generate: the sort of the sections by address uses a boolean comparator. It is taken to keep the declared order.
- The validator and the generator read differently shaped trees (`rodata`/`data` against `sections`). Each is modelled on its own input, and no end-to-end assembler proof is given.
- StackMachine.Run: the source loops until HALT without bound; the model takes at most `fuel` steps and reports running out.
- StackMachine.Load: models `load` on a freshly constructed machine only, not a second `load` on a used one.
- MachineProperties.LoadMemory: a section word is described only where no later section and no code byte reaches it. Where copies overlap, the later write wins byte by byte, and that mixture is not spelled out.
- ListingOnMachine.LineSimulated: states the effect of a machine step that succeeds. It does not state that the step succeeds when the stack has room.
- Generator.PackAscii: code units are UTF-16 units as `charCodeAt` gives them. Text beyond one byte per unit is packed as the source packs it, and the round trip is stated only for byte-sized units.
- Scopes.GetHexAddress: in the source, looking up an unbound name throws a TypeError from reading a property of `undefined`. The model returns `None`, and the translator turns it into the error `UnknownVariable`.
- Scopes.Scope: names are map keys, so names that clash with `Object.prototype` properties behave like any other name.
- Scopes.Fork: in the model scopes are values, so a fork and its original cannot affect each other. The lemma states only that the fork answers and numbers like the original.
- Translate.TranslateReassignment: for a literal value the source appends the `push` line before the failing lookup throws. Since the throw abandons the whole text, the model returns only the error.
- Asm: `ASM` is not used by the translator in the source, which builds its text by string concatenation. Both are modelled separately.
- CompiledCode.FunctionKeepsSlots: the slot proof covers bodies of assignments and reassignments whose values are literals, stack variables and arithmetic on them. Nested functions and other statement forms are not covered. Where argument names repeat, only the last occurrence is bound, and the proof requires distinct names.
