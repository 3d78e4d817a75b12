/** The LC-3 engine as the C code runs it: the register file and the
    memory are arrays updated in place, `running` and the console output
    are fields. Every routine is proved to leave behind exactly the state
    its function in Lc3Spec describes. */
module Lc3 {
  import opened Words
  import opened Lc3Spec

  class Machine {
    /** `uint16_t reg[R_COUNT]`. */
    const reg: array<bv16>
    /** `uint16_t memory[MEMORY_MAX]`. */
    const memory: array<bv16>
    /** `int running`. */
    var running: bool
    /** Everything `printc` has written to stdout. */
    var output: seq<char>

    // `reg` and `memory` are `const`: once the constructor has established
    // `Valid()`, no method can break it, so none needs to ensure it again.
    ghost predicate Valid()
      reads this
    {
      reg.Length == R_COUNT && memory.Length == MEMORY_MAX && reg != memory
    }

    /** The machine as a value. */
    ghost function Snapshot(): (s: State)
      reads this, reg, memory
      ensures Valid() ==> s.Valid()
    {
      State(reg[..], memory[..], running, output)
    }

    /** The globals at program start: zeroed static storage, `running = 1`,
        nothing printed yet. */
    constructor ()
      ensures Valid() && Snapshot() == PowerOn()
    {
      reg := new bv16[R_COUNT](_ => 0);
      memory := new bv16[MEMORY_MAX](_ => 0);
      running := true;
      output := [];
      new;
      assert reg[..] == PowerOn().reg;
      assert memory[..] == PowerOn().mem;
    }

    /** `printc(c)`: the character goes to the console. */
    method Printc(ch: char)
      modifies this`output
      ensures output == old(output) + [ch]
    {
      output := output + [ch];
    }

    /** `update_flags(r)`. */
    method UpdateFlags(r: nat)
      requires Valid() && r < R_COUNT
      modifies reg
      ensures reg[..] == Lc3Spec.UpdateFlags(old(Snapshot()), r).reg
    {
      if reg[r] == 0 {
        reg[R_COND] := FL_ZRO;
      } else if reg[r] >> 15 != 0 {
        reg[R_COND] := FL_NEG;
      } else {
        reg[R_COND] := FL_POS;
      }
    }

    /** `mem_write(address, val)`. */
    method MemWrite(address: bv16, val: bv16)
      requires Valid()
      modifies memory
      ensures memory[..] == Lc3Spec.MemWrite(old(Snapshot()), address, val).mem
    {
      var i := address as int;
      memory[i] := val;
    }

    /** `mem_read(address)`: reading KBSR first clears it. */
    method MemRead(address: bv16) returns (val: bv16)
      requires Valid()
      modifies memory
      ensures memory[..] == Lc3Spec.MemRead(old(Snapshot()), address).st.mem
      ensures val == Lc3Spec.MemRead(old(Snapshot()), address).val
    {
      if address == MR_KBSR {
        memory[KBSR] := 0;
      }
      var i := address as int;
      val := memory[i];
    }

    /** `op_add`. */
    method OpAdd(instr: bv16)
      requires Valid()
      modifies reg
      ensures reg[..] == Add(old(Snapshot()), instr).reg
    {
      var r0 := Reg9(instr);
      var r1 := Reg6(instr);
      var immFlag := ImmFlag(instr);
      if immFlag != 0 {
        var imm5 := Imm5(instr);
        reg[r0] := WordAdd(reg[r1], imm5);
      } else {
        var r2 := Reg0(instr);
        reg[r0] := WordAdd(reg[r1], reg[r2]);
      }
      UpdateFlags(r0);
    }

    /** `op_and`. */
    method OpAnd(instr: bv16)
      requires Valid()
      modifies reg
      ensures reg[..] == And(old(Snapshot()), instr).reg
    {
      var r0 := Reg9(instr);
      var r1 := Reg6(instr);
      var immFlag := ImmFlag(instr);
      if immFlag != 0 {
        var imm5 := Imm5(instr);
        reg[r0] := WordAnd(reg[r1], imm5);
      } else {
        var r2 := Reg0(instr);
        reg[r0] := WordAnd(reg[r1], reg[r2]);
      }
      UpdateFlags(r0);
    }

    /** `op_not`. */
    method OpNot(instr: bv16)
      requires Valid()
      modifies reg
      ensures reg[..] == Not(old(Snapshot()), instr).reg
    {
      var r0 := Reg9(instr);
      var r1 := Reg6(instr);
      reg[r0] := WordNot(reg[r1]);
      UpdateFlags(r0);
    }

    /** `op_br`. */
    method OpBr(instr: bv16)
      requires Valid()
      modifies reg
      ensures reg[..] == Br(old(Snapshot()), instr).reg
    {
      var pcOffset := PcOffset9(instr);
      var condFlag := CondFlag(instr);
      if WordAnd(condFlag, reg[R_COND]) != 0 {
        reg[R_PC] := WordAdd(reg[R_PC], pcOffset);
      }
    }

    /** `op_jmp`. */
    method OpJmp(instr: bv16)
      requires Valid()
      modifies reg
      ensures reg[..] == Jmp(old(Snapshot()), instr).reg
    {
      var r1 := Reg6(instr);
      reg[R_PC] := reg[r1];
    }

    /** `op_jsr`: R7 is written before BaseR is read. */
    method OpJsr(instr: bv16)
      requires Valid()
      modifies reg
      ensures reg[..] == Jsr(old(Snapshot()), instr).reg
    {
      var longFlag := LongFlag(instr);
      reg[R_R7] := reg[R_PC];
      if longFlag != 0 {
        var longPcOffset := PcOffset11(instr);
        reg[R_PC] := WordAdd(reg[R_PC], longPcOffset);
      } else {
        var r1 := Reg6(instr);
        reg[R_PC] := reg[r1];
      }
    }

    /** `op_ld`. */
    method OpLd(instr: bv16)
      requires Valid()
      modifies reg, memory
      ensures reg[..] == Ld(old(Snapshot()), instr).reg
      ensures memory[..] == Ld(old(Snapshot()), instr).mem
    {
      var r0 := Reg9(instr);
      var pcOffset := PcOffset9(instr);
      var v := MemRead(WordAdd(reg[R_PC], pcOffset));
      reg[r0] := v;
      UpdateFlags(r0);
    }

    /** `op_ldi`. */
    method OpLdi(instr: bv16)
      requires Valid()
      modifies reg, memory
      ensures reg[..] == Ldi(old(Snapshot()), instr).reg
      ensures memory[..] == Ldi(old(Snapshot()), instr).mem
    {
      var r0 := Reg9(instr);
      var pcOffset := PcOffset9(instr);
      var pointer := MemRead(WordAdd(reg[R_PC], pcOffset));
      var v := MemRead(pointer);
      reg[r0] := v;
      UpdateFlags(r0);
    }

    /** `op_ldr`. */
    method OpLdr(instr: bv16)
      requires Valid()
      modifies reg, memory
      ensures reg[..] == Ldr(old(Snapshot()), instr).reg
      ensures memory[..] == Ldr(old(Snapshot()), instr).mem
    {
      var r0 := Reg9(instr);
      var r1 := Reg6(instr);
      var offset := Offset6(instr);
      var v := MemRead(WordAdd(reg[r1], offset));
      reg[r0] := v;
      UpdateFlags(r0);
    }

    /** `op_lea`. */
    method OpLea(instr: bv16)
      requires Valid()
      modifies reg
      ensures reg[..] == Lea(old(Snapshot()), instr).reg
    {
      var r0 := Reg9(instr);
      var pcOffset := PcOffset9(instr);
      reg[r0] := WordAdd(reg[R_PC], pcOffset);
      UpdateFlags(r0);
    }

    /** `op_st`. */
    method OpSt(instr: bv16)
      requires Valid()
      modifies memory
      ensures memory[..] == St(old(Snapshot()), instr).mem
    {
      var r0 := Reg9(instr);
      var pcOffset := PcOffset9(instr);
      MemWrite(WordAdd(reg[R_PC], pcOffset), reg[r0]);
    }

    /** `op_sti`. */
    method OpSti(instr: bv16)
      requires Valid()
      modifies memory
      ensures memory[..] == Sti(old(Snapshot()), instr).mem
    {
      var r0 := Reg9(instr);
      var pcOffset := PcOffset9(instr);
      var pointer := MemRead(WordAdd(reg[R_PC], pcOffset));
      MemWrite(pointer, reg[r0]);
    }

    /** `op_str`. */
    method OpStr(instr: bv16)
      requires Valid()
      modifies memory
      ensures memory[..] == Str(old(Snapshot()), instr).mem
    {
      var r0 := Reg9(instr);
      var r1 := Reg6(instr);
      var offset := Offset6(instr);
      MemWrite(WordAdd(reg[r1], offset), reg[r0]);
    }

    /** `trap_puts`: prints the word string at R0, one character per word,
        up to the terminating zero word. */
    method TrapPuts()
      requires Valid() && ZeroAhead(memory[..], reg[R_R0] as int)
      modifies this
      ensures output == old(output) + CString(memory[..], reg[R_R0] as int)
      ensures running == old(running)
    {
      var c := reg[R_R0] as int;
      ghost var m := memory[..];
      ghost var printed := output + CString(m, c);
      while memory[c] != 0
        invariant c < MEMORY_MAX && ZeroAhead(m, c)
        invariant output + CString(m, c) == printed
        invariant running == old(running)
        decreases MEMORY_MAX - c
      {
        PrintsOneMore(output, m, c, printed);
        Printc(Char(memory[c]));
        c := c + 1;
      }
    }

    /** `trap_halt`. */
    method TrapHalt()
      requires Valid()
      modifies this
      ensures running == Halt(old(Snapshot())).running && output == old(output)
    {
      running := false;
    }

    /** `op_trap`: only PUTS and HALT have a handler; GETC, OUT, IN,
        PUTSP and any other vector do nothing. */
    method OpTrap(instr: bv16)
      requires Valid()
      requires TrapVector(instr) == TRAP_PUTS ==> ZeroAhead(memory[..], reg[R_R0] as int)
      modifies this
      ensures running == Trap(old(Snapshot()), instr).running
      ensures output == Trap(old(Snapshot()), instr).out
    {
      var vector := TrapVector(instr);
      if vector == TRAP_PUTS {
        TrapPuts();
      } else if vector == TRAP_HALT {
        TrapHalt();
      }
    }

    /** `lc3_init`. */
    method Init()
      requires Valid()
      modifies reg
      ensures reg[..] == Lc3Spec.Init(old(Snapshot())).reg
    {
      reg[R_COND] := FL_ZRO;
      reg[R_PC] := PC_START;
    }

    /** `lc3_run_instruction`: fetch through `mem_read` with PC
        post-incremented, then dispatch on the opcode. */
    method RunInstruction()
      requires Valid() && StepDefined(Snapshot())
      modifies this, reg, memory
      ensures Snapshot() == Step(old(Snapshot()))
    {
      if running {
        var pc := reg[R_PC];
        reg[R_PC] := WordAdd(pc, 1);
        var instr := MemRead(pc);
        assert Snapshot() == Fetch(old(Snapshot())).st;
        var op := Opcode(instr);
        if op == OP_ADD {
          OpAdd(instr);
        } else if op == OP_AND {
          OpAnd(instr);
        } else if op == OP_NOT {
          OpNot(instr);
        } else if op == OP_BR {
          OpBr(instr);
        } else if op == OP_JMP {
          OpJmp(instr);
        } else if op == OP_JSR {
          OpJsr(instr);
        } else if op == OP_LD {
          OpLd(instr);
        } else if op == OP_LDI {
          OpLdi(instr);
        } else if op == OP_LDR {
          OpLdr(instr);
        } else if op == OP_LEA {
          OpLea(instr);
        } else if op == OP_ST {
          OpSt(instr);
        } else if op == OP_STI {
          OpSti(instr);
        } else if op == OP_STR {
          OpStr(instr);
        } else if op == OP_TRAP {
          OpTrap(instr);
        }
      }
    }

    /** `read_image_file` on a file whose words, as the host reads them,
        are `image`: the first is the origin, and up to `max_read` more are
        read to memory from the origin on and then swapped in place. */
    method ReadImageFile(image: seq<bv16>)
      requires Valid() && |image| >= 1
      modifies memory
      ensures memory[..] == LoadImage(old(memory[..]), image)
    {
      var origin := Swap16(image[0]);
      var maxRead := MaxRead(origin);
      var p := origin as int;
      var read := if |image| - 1 < maxRead then |image| - 1 else maxRead;
      // fread: the payload words land unswapped
      forall i | 0 <= i < read {
        memory[p + i] := image[1 + i];
      }
      ghost var start := p;
      ghost var count := read;
      assert count == LoadCount(image);
      while read > 0
        invariant start == Swap16(image[0]) as int && count == LoadCount(image)
        invariant 0 <= read <= count
        invariant p == start + (count - read)
        invariant forall i :: 0 <= i < MEMORY_MAX ==>
          memory[i] == (if start <= i < p then Swap16(image[1 + i - start])
                        else if p <= i < start + count then image[1 + i - start]
                        else old(memory[i]))
        decreases read
      {
        read := read - 1;
        memory[p] := Swap16(memory[p]);
        p := p + 1;
      }
      LoadedImage(old(memory[..]), image, memory[..]);
    }
  }
}
