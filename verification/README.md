# LC-3 virtual machine engine, modelled in Dafny

This project models the engine of a small LC-3 virtual machine, `src/lc3.c`. The LC-3 is the 16-bit teaching computer of Patt and Patel's *Introduction to Computing Systems*. The model has these parts:

- **Machine state.** 65536 words of memory, registers R0–R7, the program counter and the condition register COND, the `running` flag, and the console output.
- **Helpers.** `sign_extend`, `swap16` and `update_flags`.
- **Memory access.** `mem_read`, where a read of the keyboard status register KBSR (0xFE00) has a side effect, and `mem_write`.
- **Image loading.** `read_image_file`: a big-endian origin word followed by payload words that are byte-swapped in place.
- **Execution.**
  - The thirteen opcode handlers.
  - The trap dispatcher, with PUTS and HALT.
  - `lc3_init`.
  - `lc3_run_instruction`, which fetches, decodes and executes one instruction.

The project has three modules:

- `words.dfy`, module `Words`: 16-bit words as `bv16`, so C's `uint16_t` wrap-around is exact. It holds sign extension, `swap16` and the named word operations `WordAdd`, `WordAnd` and `WordNot`.
- `spec.dfy`, module `Lc3Spec`: the machine as a value `State`. Each C routine is a function from state to state whose contract says what the routine changes and what it leaves alone. The lemmas state what one step does: halting, branching, linking, the one-hot condition flag, and the loader's cell-by-cell effect.
- `machine.dfy`, module `Lc3`: `class Machine`, the imperative engine.
  - Registers and memory are `array<bv16>` that the methods update in place.
  - `running` and `output` are fields.
  - Each C routine is a method with the same branches. Its `ensures` ties the new arrays and fields to the `Lc3Spec` function applied to the old state, through the ghost `Snapshot()`.
  - The two loops of the source are loops here, with invariants: the output loop of `trap_puts` and the byte-swap loop of `read_image_file`.
  - `RunInstruction` is proved to perform exactly `Lc3Spec.Step`.

Two behaviours of the code may surprise a reader, and the model keeps both as written:

- **KBSR reads.** `mem_read` stores 0 into KBSR and then returns that cell, so every read of KBSR gives 0. A reader might expect a one-shot read that returns the stored status and clears it afterwards; the code never returns the stored value. `KbsrReadsZeroTwice` states the behaviour as written.
- **Origin 0.** `max_read = MEMORY_MAX - origin` is stored in a `uint16_t`, so for origin 0 it wraps to 0 and the image loads nothing. A reader might expect the whole 65536-word space to be available from origin 0. `LoadImageOriginZero` states the behaviour as written.

The header `lc3.h` is not part of this model. The register indices, flags (POS=1, ZRO=2, NEG=4), opcodes, trap vectors 0x20–0x25 and KBSR are the standard LC-3 encoding.

## Model

| member | source | states |
|---|---|---|
| Words.SignExtend | src/lc3.c:11-17 | a word whose bit `bitCount-1` is clear comes back unchanged |
| Words.SignExtendLowBits | src/lc3.c:11-17 | sign extension never changes the low `bitCount` bits |
| Words.SignExtendHighBits | src/lc3.c:11-17 | when bit `bitCount-1` is set, every bit from `bitCount` to 15 is set |
| Words.SignExtendNegative | src/lc3.c:11-17 | a `bitCount`-bit field with its sign bit set extends to `x - 2^bitCount` modulo 2^16, its two's-complement value |
| Words.SignExtendImm5 | src/lc3.c:11-17 | for all 32 five-bit fields, the extension equals the signed value modulo 65536 |
| Words.Swap16 | src/lc3.c:19-22 | the high byte of the result is the low byte of the input and vice versa |
| Words.Swap16Involution | src/lc3.c:19-22 | swapping twice gives back the word |
| Words.Swap16OfHostWord | src/lc3.c:44-45 | the word read from file bytes b0 b1 on a little-endian host swaps to the big-endian value b0:b1 |
| Lc3Spec.UpdateFlags | src/lc3.c:24-38 | COND is ZRO iff the register is 0, NEG iff its bit 15 is set, POS iff neither; no other part of the state changes |
| Lc3Spec.Observed | src/lc3.c:74-81 | the word `mem_read` returns: 0 at KBSR, the addressed cell anywhere else; `Lc3.Machine.MemRead`, which clears then reads in place, is proved to return it |
| Lc3Spec.MemRead | src/lc3.c:74-81 | reading KBSR clears that cell and returns 0; any other address returns its cell and changes nothing; memory is `KbsrClearedIf(mem, address == KBSR)`; no register changes |
| Lc3Spec.MemWrite | src/lc3.c:69-72 | exactly the addressed cell changes, to the written value |
| Lc3Spec.Add | src/lc3.c:83-100 | only DR and COND change: DR = SR1 + (sign-extended imm5 or SR2) mod 2^16, COND = its flag; memory unchanged |
| Lc3Spec.And | src/lc3.c:102-118 | only DR and COND change: DR = SR1 & (sign-extended imm5 or SR2), COND = its flag |
| Lc3Spec.Not | src/lc3.c:120-126 | only DR and COND change: DR = ~SR, COND = its flag |
| Lc3Spec.Br | src/lc3.c:128-135 | only PC may change; it gains the sign-extended 9-bit offset iff the n/z/p mask meets COND, otherwise the state is unchanged |
| Lc3Spec.Jmp | src/lc3.c:137-140 | only PC changes, to the base register |
| Lc3Spec.Jsr | src/lc3.c:142-155 | R7 = the (already advanced) PC; PC = PC + sext11 when the long flag is set, otherwise the base register read after the R7 write; all else unchanged |
| Lc3Spec.Ld | src/lc3.c:157-162 | only DR and COND change, DR = the word `mem_read` gives at A = PC + offset9; memory is unchanged unless A is KBSR, in which case exactly that cell is cleared |
| Lc3Spec.Ldi | src/lc3.c:164-172 | only DR and COND change, DR = the word at the address read at A = PC + offset9 (both reads through `mem_read`); KBSR is cleared exactly when A is KBSR or mem[A] is KBSR, and no other cell changes |
| Lc3Spec.Ldr | src/lc3.c:174-180 | only DR and COND change, DR = the word at A = base + offset6; memory is unchanged unless A is KBSR, in which case exactly that cell is cleared |
| Lc3Spec.Lea | src/lc3.c:182-187 | only DR and COND change, DR = PC + offset9; memory is not read |
| Lc3Spec.St | src/lc3.c:189-193 | exactly the cell PC + offset9 (mod 2^16) changes, to SR; no register changes |
| Lc3Spec.Sti | src/lc3.c:195-200 | SR is stored at the address read at PC + offset9; when that pointer cell is KBSR it is cleared and the store goes to address 0 |
| Lc3Spec.Str | src/lc3.c:202-207 | exactly the cell base + offset6 (mod 2^16) changes, to SR; no register changes |
| Lc3Spec.CString | src/lc3.c:209-215 | the text PUTS prints from `a` on lies within memory; `CStringCells` characterises it character by character |
| Lc3Spec.CStringCells | src/lc3.c:209-215 | the printed string has one character (the low byte) per non-zero word from R0 on, and it stops exactly at the first zero word |
| Lc3Spec.CStringStep | src/lc3.c:211-214 | a non-zero word before the terminator prints its character followed by the rest of the string |
| Lc3Spec.PrintsOneMore | src/lc3.c:211-214 | one turn of the PUTS loop keeps "printed so far + still to print" constant |
| Lc3Spec.Puts | src/lc3.c:209-217 | the output grows by the string at R0; registers, memory and the running flag are unchanged |
| Lc3Spec.Halt | src/lc3.c:219-223 | the running flag is cleared and nothing else changes |
| Lc3Spec.Trap | src/lc3.c:225-247 | HALT stops the machine, PUTS appends the string at R0, every other vector changes nothing; no trap changes registers or memory |
| Lc3Spec.Fetch | src/lc3.c:262 | the word at the old PC is read through `mem_read`, and PC is advanced by exactly one modulo 2^16; memory changes only if the old PC is KBSR, and then only by that cell being cleared |
| Lc3Spec.Execute | src/lc3.c:264-311 | the `switch`: no opcode but TRAP changes the running flag or the output; no instruction sets the running flag again; the output is only ever appended to |
| Lc3Spec.Step | src/lc3.c:260-313 | a machine that is not running is left exactly as it is; a stopped machine never restarts; the output only grows; `Lc3.Machine.RunInstruction` is proved to perform exactly this step |
| Lc3Spec.PowerOn | src/lc3.c:3-5 | the zero-initialised globals: every register and memory cell is 0, `running` is set, no output |
| Lc3Spec.Init | src/lc3.c:249-258 | COND = ZRO and PC = 0x3000; R0–R7, memory, running and output unchanged |
| Lc3Spec.InitHasOneFlag | src/lc3.c:249-258 | after start-up, COND holds exactly one flag and PC is 0x3000 |
| Lc3Spec.MaxRead | src/lc3.c:48 | `max_read` is `65536 - origin` for a non-zero origin and 0 for origin 0 (the `uint16_t` wrap), so it never reaches past the end of memory |
| Lc3Spec.LoadCount | src/lc3.c:48-50 | `fread` delivers the whole payload when it fits above a non-zero origin, and exactly the words up to the end of memory when it does not |
| Lc3Spec.Place | src/lc3.c:50-57 | each payload word lands, byte-swapped, in its own cell from the origin on, and every other cell keeps its value |
| Lc3Spec.LoadImage | src/lc3.c:40-58 | after loading, `memory[o+i] = swap16(w[i])` for the first `LoadCount` payload words, and every other cell is unchanged |
| Lc3Spec.LoadImageOriginZero | src/lc3.c:48-50 | an image with origin 0 leaves memory unchanged |
| Lc3Spec.LoadImageExample | src/lc3.c:40-58 | the bytes 30 00 12 34 56 78 place 0x1234 at 0x3000 and 0x5678 at 0x3001 |
| Lc3Spec.StepReserved | src/lc3.c:307-310 | RES and RTI change nothing but advancing PC |
| Lc3Spec.StepAdvancesPc | src/lc3.c:260-313 | every opcode other than BR, JMP and JSR leaves PC one past the fetched word |
| Lc3Spec.ExecuteBranch | src/lc3.c:274-276 | the dispatch hands BR to `op_br` |
| Lc3Spec.StepBranch | src/lc3.c:260-313 | a BR step is the fetch followed by `Br` on the fetched word, with the offset added to the advanced PC |
| Lc3Spec.StepBranchNotTaken | src/lc3.c:128-135 | a BR whose mask misses COND only advances PC |
| Lc3Spec.StepLinks | src/lc3.c:142-155 | after JSR/JSRR, R7 holds the address after the call; JSRR R7 continues there |
| Lc3Spec.ExecuteKeepsOneFlag | src/lc3.c:264-311 | every handler leaves exactly one condition flag set in COND if one was set before |
| Lc3Spec.StepKeepsOneFlag | src/lc3.c:260-313 | a step keeps exactly one condition flag set |
| Lc3Spec.StepHalt | src/lc3.c:243-245 | a HALT trap stops the machine without output, and every later step changes nothing |
| Lc3Spec.LdiLoadsIndirect | src/lc3.c:164-172 | with mem[A] = B and mem[B] = C (neither being KBSR), LDI loads C |
| Lc3Spec.KbsrReadsZeroTwice | src/lc3.c:74-81 | two reads of KBSR in a row both return 0, and the second leaves the state as the first did |
| Lc3Spec.PutsExample | src/lc3.c:209-215 | the words 'H', 'i', 0 print exactly "Hi" |
| Lc3.Machine.constructor | src/lc3.c:3-5 | the new machine's state is `PowerOn()` |
| Lc3.Machine.Printc | src/lc3.c:7-9 | the character is appended to the output |
| Lc3.Machine.UpdateFlags | src/lc3.c:24-38 | the register file becomes that of `Lc3Spec.UpdateFlags` |
| Lc3.Machine.MemWrite | src/lc3.c:69-72 | memory becomes that of `Lc3Spec.MemWrite` |
| Lc3.Machine.MemRead | src/lc3.c:74-81 | the returned word and the new memory are those of `Lc3Spec.MemRead` |
| Lc3.Machine.OpAdd | src/lc3.c:83-100 | the register file becomes `Add(old state).reg`; nothing else may change |
| Lc3.Machine.OpAnd | src/lc3.c:102-118 | the register file becomes `And(old state).reg` |
| Lc3.Machine.OpNot | src/lc3.c:120-126 | the register file becomes `Not(old state).reg` |
| Lc3.Machine.OpBr | src/lc3.c:128-135 | the register file becomes `Br(old state).reg` |
| Lc3.Machine.OpJmp | src/lc3.c:137-140 | the register file becomes `Jmp(old state).reg` |
| Lc3.Machine.OpJsr | src/lc3.c:142-155 | the register file becomes `Jsr(old state).reg` |
| Lc3.Machine.OpLd | src/lc3.c:157-162 | registers and memory become those of `Ld(old state)` |
| Lc3.Machine.OpLdi | src/lc3.c:164-172 | registers and memory become those of `Ldi(old state)` |
| Lc3.Machine.OpLdr | src/lc3.c:174-180 | registers and memory become those of `Ldr(old state)` |
| Lc3.Machine.OpLea | src/lc3.c:182-187 | the register file becomes `Lea(old state).reg` |
| Lc3.Machine.OpSt | src/lc3.c:189-193 | memory becomes `St(old state).mem` |
| Lc3.Machine.OpSti | src/lc3.c:195-200 | memory becomes `Sti(old state).mem` |
| Lc3.Machine.OpStr | src/lc3.c:202-207 | memory becomes `Str(old state).mem` |
| Lc3.Machine.TrapPuts | src/lc3.c:209-217 | the loop appends exactly the string at R0 to the output; the running flag, registers and memory are unchanged |
| Lc3.Machine.TrapHalt | src/lc3.c:219-223 | `running` becomes false, the output is unchanged |
| Lc3.Machine.OpTrap | src/lc3.c:225-247 | `running` and the output become those of `Trap(old state)` |
| Lc3.Machine.Init | src/lc3.c:249-258 | the register file becomes `Lc3Spec.Init(old state).reg` |
| Lc3.Machine.RunInstruction | src/lc3.c:260-313 | the whole machine state after the call is `Step(old state)` |
| Lc3.Machine.ReadImageFile | src/lc3.c:40-58 | after the copy and the in-place swap loop, memory is `LoadImage(old memory, image)` |

## Left out

- `src/main.c`, the host program (console, input polling and the frame loop of the handheld's system library). It is foreign library calls, not engine logic.
- `lc3_read_image` (`src/lc3.c:60-67`): `fopen`/`fclose` and the failure path when the file does not open. `ReadImageFile` receives the file's contents as the sequence of words `fread` would deliver on a little-endian host.
- Images shorter than one word. C then leaves `origin` uninitialised, so `ReadImageFile` and `LoadImage` require at least the origin word.
- A trailing odd byte of an image file. `fread` reads straight into `memory`, and C leaves the value of a partially read element indeterminate. In practice the cell after the payload receives the odd byte, and the swap loop leaves it unswapped. The model takes whole words only and leaves that cell as it was.
- `printf` and `fflush`: output is a `seq<char>` that `Printc` appends to; flushing has no observable effect here.
- Lc3.Machine.TrapPuts: requires a zero word at or after R0. Without one, the C loop walks past the end of `memory`, which is undefined behaviour. `Lc3Spec.Puts`, `Lc3Spec.Trap` and `Lc3Spec.Step` carry the same precondition, via `PutsDefined` and `StepDefined`.
- The keyboard and the GETC, OUT, IN and PUTSP traps. The source has them commented out, so they are modelled as no-ops, and nothing outside the engine writes KBSR.
- Words.SignExtend: only widths 1 to 15, the ones the handlers use. A width of 16 would shift `0xFFFF` by 16 in C `int`.
- Lc3.Machine.OpAdd and the other handler methods state only the register file and/or memory they modify. Their `modifies` clauses keep everything else unchanged, so the statement is complete for the machine, but it is given per component rather than as a whole `State`.
