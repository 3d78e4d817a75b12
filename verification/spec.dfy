/** The LC-3 machine as values: a state record and one function per C
    routine of the engine, each saying what the routine leaves behind.
    The imperative machine in module Lc3 is proved against these. */
module Lc3Spec {
  import opened Words

  // Register file indices: R0-R7, then the program counter and the flags.
  const R_R0: nat := 0
  const R_R7: nat := 7
  const R_PC: nat := 8
  const R_COND: nat := 9
  const R_COUNT: nat := 10

  // Condition flags: exactly one of them is held in COND.
  const FL_POS: bv16 := 1
  const FL_ZRO: bv16 := 2
  const FL_NEG: bv16 := 4

  // Opcodes, the top four bits of an instruction.
  const OP_BR: bv16 := 0
  const OP_ADD: bv16 := 1
  const OP_LD: bv16 := 2
  const OP_ST: bv16 := 3
  const OP_JSR: bv16 := 4
  const OP_AND: bv16 := 5
  const OP_LDR: bv16 := 6
  const OP_STR: bv16 := 7
  const OP_RTI: bv16 := 8
  const OP_NOT: bv16 := 9
  const OP_LDI: bv16 := 10
  const OP_STI: bv16 := 11
  const OP_JMP: bv16 := 12
  const OP_RES: bv16 := 13
  const OP_LEA: bv16 := 14
  const OP_TRAP: bv16 := 15

  // Trap vectors, the low byte of a TRAP instruction.
  const TRAP_GETC: bv16 := 0x20
  const TRAP_OUT: bv16 := 0x21
  const TRAP_PUTS: bv16 := 0x22
  const TRAP_IN: bv16 := 0x23
  const TRAP_PUTSP: bv16 := 0x24
  const TRAP_HALT: bv16 := 0x25

  /** The keyboard status register, a memory-mapped address: `MR_KBSR` is
      the word an instruction computes, `KBSR` the same address as an index
      into memory (`KbsrCell` shows that they pick out the same cell). */
  const MR_KBSR: bv16 := 0xFE00
  const KBSR: nat := 0xFE00

  /** Where `lc3_init` starts execution. */
  const PC_START: bv16 := 0x3000

  /** The whole machine: registers, memory, the running flag and
      everything written to the console so far. */
  datatype State = State(reg: seq<bv16>, mem: seq<bv16>, running: bool, out: seq<char>)
  {
    predicate Valid() {
      |reg| == R_COUNT && |mem| == MEMORY_MAX
    }
  }

  /** Only the word KBSR indexes the KBSR cell. */
  lemma KbsrCell(a: bv16)
    ensures a as int == KBSR <==> a == MR_KBSR
  {
    assert (a as int) as bv16 == a;
  }

  // ---------------------------------------------------------------------
  // Instruction fields

  function Opcode(instr: bv16): bv16 {
    instr >> 12
  }

  /** The register field in bits 11-9 (DR, or SR for stores). */
  function Reg9(instr: bv16): (r: nat)
    ensures r < 8
  {
    ((instr >> 9) & 7) as int
  }

  /** The register field in bits 8-6 (SR1 or BaseR). */
  function Reg6(instr: bv16): (r: nat)
    ensures r < 8
  {
    ((instr >> 6) & 7) as int
  }

  /** The register field in bits 2-0 (SR2). */
  function Reg0(instr: bv16): (r: nat)
    ensures r < 8
  {
    (instr & 7) as int
  }

  /** Bit 5 of ADD and AND: set for the immediate form. */
  function ImmFlag(instr: bv16): bv16 {
    (instr >> 5) & 1
  }

  /** Bits 11-9 of BR: the n, z and p tests. */
  function CondFlag(instr: bv16): bv16 {
    (instr >> 9) & 7
  }

  /** Bit 11 of JSR: set for JSR, clear for JSRR. */
  function LongFlag(instr: bv16): bv16 {
    (instr >> 11) & 1
  }

  /** The low byte of TRAP: the trap vector. */
  function TrapVector(instr: bv16): bv16 {
    instr & 0xFF
  }

  function Imm5(instr: bv16): bv16 {
    SignExtend(instr & 0x1F, 5)
  }

  function Offset6(instr: bv16): bv16 {
    SignExtend(instr & 0x3F, 6)
  }

  function PcOffset9(instr: bv16): bv16 {
    SignExtend(instr & 0x1FF, 9)
  }

  function PcOffset11(instr: bv16): bv16 {
    SignExtend(instr & 0x7FF, 11)
  }

  // ---------------------------------------------------------------------
  // Condition flags

  /** The flag that describes a word read as a two's-complement number. */
  function FlagOf(v: bv16): bv16 {
    if v == 0 then FL_ZRO else if v >= 0x8000 then FL_NEG else FL_POS
  }

  predicate IsFlag(c: bv16) {
    c == FL_POS || c == FL_ZRO || c == FL_NEG
  }

  /** `update_flags(r)`: COND becomes exactly one flag, chosen by register
      `r`; nothing else changes. */
  function UpdateFlags(s: State, r: nat): (t: State)
    requires s.Valid() && r < R_COUNT
    ensures t.Valid()
    ensures t.reg[R_COND] == FL_ZRO <==> s.reg[r] == 0
    ensures t.reg[R_COND] == FL_NEG <==> s.reg[r] & 0x8000 != 0
    ensures t.reg[R_COND] == FL_POS <==> s.reg[r] != 0 && s.reg[r] & 0x8000 == 0
    ensures t.reg[R_COND] == FlagOf(s.reg[r])
    ensures t == s.(reg := s.reg[R_COND := t.reg[R_COND]])
  {
    var v := s.reg[r];
    s.(reg := s.reg[R_COND := if v == 0 then FL_ZRO else if v >> 15 != 0 then FL_NEG else FL_POS])
  }

  // ---------------------------------------------------------------------
  // Memory access

  /** The word `mem_read(a)` returns: at KBSR the cell is cleared before it
      is read, so KBSR always reads as 0. */
  function Observed(mem: seq<bv16>, a: bv16): (r: bv16)
    requires |mem| == MEMORY_MAX
    ensures a == MR_KBSR ==> r == 0
    ensures a != MR_KBSR ==> r == mem[a as int]
  {
    if a == MR_KBSR then 0 else mem[a as int]
  }

  /** What a read leaves behind: the state after it, and the word read. */
  datatype Read = Read(st: State, val: bv16)

  /** `mem_read(address)`. */
  function MemRead(s: State, address: bv16): (r: Read)
    requires s.Valid()
    ensures r.st.Valid()
    ensures r.val == Observed(s.mem, address)
    ensures r.st.reg == s.reg && r.st.running == s.running && r.st.out == s.out
    ensures address != MR_KBSR ==> r.st == s
    ensures address == MR_KBSR ==> r.st.mem[KBSR] == 0
    ensures forall i :: 0 <= i < MEMORY_MAX && i != KBSR ==> r.st.mem[i] == s.mem[i]
    ensures r.st.mem == KbsrClearedIf(s.mem, address == MR_KBSR)
  {
    var t := if address == MR_KBSR then s.(mem := s.mem[KBSR := 0]) else s;
    Read(t, t.mem[address as int])
  }

  /** `mem_write(address, val)`: exactly one cell changes. */
  function MemWrite(s: State, address: bv16, val: bv16): (t: State)
    requires s.Valid()
    ensures t.Valid()
    ensures t.mem[address as int] == val
    ensures forall i :: 0 <= i < MEMORY_MAX && i != address as int ==> t.mem[i] == s.mem[i]
    ensures t.reg == s.reg && t.running == s.running && t.out == s.out
  {
    s.(mem := s.mem[address as int := val])
  }

  // ---------------------------------------------------------------------
  // What the handlers may change

  /** Register `dr` now holds `v`, COND holds the flag of `v`, and no other
      register, the running flag or the output changed. */
  ghost predicate SetsRegister(s: State, t: State, dr: nat, v: bv16)
    requires s.Valid() && t.Valid() && dr < 8
  {
    t.reg[dr] == v && t.reg[R_COND] == FlagOf(v) &&
    (forall i :: 0 <= i < R_COUNT && i != dr && i != R_COND ==> t.reg[i] == s.reg[i]) &&
    t.running == s.running && t.out == s.out
  }

  /** Memory after `mem_read` calls of which at least one addressed KBSR
      (`hit`), or none did: only such a read clears the KBSR cell. */
  function KbsrClearedIf(m: seq<bv16>, hit: bool): seq<bv16>
    requires |m| == MEMORY_MAX
  {
    if hit then m[KBSR := 0] else m
  }

  /** Only the program counter may differ. */
  ghost predicate OnlyPc(s: State, t: State)
    requires s.Valid() && t.Valid()
  {
    (forall i :: 0 <= i < R_COUNT && i != R_PC ==> t.reg[i] == s.reg[i]) &&
    t.mem == s.mem && t.running == s.running && t.out == s.out
  }

  /** Only cell `a` of memory differs, and it holds `v`. */
  ghost predicate StoresWord(s: State, t: State, a: bv16, v: bv16)
    requires s.Valid() && t.Valid()
  {
    t.mem[a as int] == v &&
    (forall i :: 0 <= i < MEMORY_MAX && i != a as int ==> t.mem[i] == s.mem[i]) &&
    t.reg == s.reg && t.running == s.running && t.out == s.out
  }

  /** The pattern every register-defining handler ends with:
      `reg[dr] = v; update_flags(dr);`. */
  function SetRegister(s: State, dr: nat, v: bv16): (t: State)
    requires s.Valid() && dr < 8
    ensures t.Valid() && t.mem == s.mem
    ensures SetsRegister(s, t, dr, v)
  {
    UpdateFlags(s.(reg := s.reg[dr := v]), dr)
  }

  // ---------------------------------------------------------------------
  // Operate instructions

  /** The second operand of ADD and AND: the sign-extended 5-bit immediate
      when bit 5 is set, register SR2 otherwise. */
  function Operand2(s: State, instr: bv16): bv16
    requires s.Valid()
  {
    if ImmFlag(instr) != 0 then Imm5(instr) else s.reg[Reg0(instr)]
  }

  /** `op_add`: DR = SR1 + (imm5 or SR2), modulo 2^16. */
  function Add(s: State, instr: bv16): (t: State)
    requires s.Valid()
    ensures t.Valid() && t.mem == s.mem
    ensures SetsRegister(s, t, Reg9(instr), WordAdd(s.reg[Reg6(instr)], Operand2(s, instr)))
  {
    SetRegister(s, Reg9(instr), WordAdd(s.reg[Reg6(instr)], Operand2(s, instr)))
  }

  /** `op_and`: DR = SR1 & (imm5 or SR2). */
  function And(s: State, instr: bv16): (t: State)
    requires s.Valid()
    ensures t.Valid() && t.mem == s.mem
    ensures SetsRegister(s, t, Reg9(instr), WordAnd(s.reg[Reg6(instr)], Operand2(s, instr)))
  {
    SetRegister(s, Reg9(instr), WordAnd(s.reg[Reg6(instr)], Operand2(s, instr)))
  }

  /** `op_not`: DR = bitwise complement of SR. */
  function Not(s: State, instr: bv16): (t: State)
    requires s.Valid()
    ensures t.Valid() && t.mem == s.mem
    ensures SetsRegister(s, t, Reg9(instr), WordNot(s.reg[Reg6(instr)]))
  {
    SetRegister(s, Reg9(instr), WordNot(s.reg[Reg6(instr)]))
  }

  // ---------------------------------------------------------------------
  // Control instructions

  /** `op_br`: when the instruction's n/z/p mask meets COND, the PC moves by
      the 9-bit offset; otherwise nothing changes. */
  function Br(s: State, instr: bv16): (t: State)
    requires s.Valid()
    ensures t.Valid() && OnlyPc(s, t)
    ensures WordAnd(CondFlag(instr), s.reg[R_COND]) != 0 ==> t.reg[R_PC] == WordAdd(s.reg[R_PC], PcOffset9(instr))
    ensures WordAnd(CondFlag(instr), s.reg[R_COND]) == 0 ==> t == s
  {
    if WordAnd(CondFlag(instr), s.reg[R_COND]) != 0 then
      s.(reg := s.reg[R_PC := WordAdd(s.reg[R_PC], PcOffset9(instr))])
    else
      s
  }

  /** `op_jmp`: PC = BaseR. */
  function Jmp(s: State, instr: bv16): (t: State)
    requires s.Valid()
    ensures t.Valid() && OnlyPc(s, t)
    ensures t.reg[R_PC] == s.reg[Reg6(instr)]
  {
    s.(reg := s.reg[R_PC := s.reg[Reg6(instr)]])
  }

  /** `op_jsr`: R7 = PC, then PC += 11-bit offset (JSR) or PC = BaseR
      (JSRR). BaseR is read after R7 is written, so JSRR R7 jumps to the
      return address itself. */
  function Jsr(s: State, instr: bv16): (t: State)
    requires s.Valid()
    ensures t.Valid() && t.mem == s.mem && t.running == s.running && t.out == s.out
    ensures t.reg[R_R7] == s.reg[R_PC]
    ensures forall i :: 0 <= i < R_COUNT && i != R_R7 && i != R_PC ==> t.reg[i] == s.reg[i]
    ensures LongFlag(instr) != 0 ==> t.reg[R_PC] == WordAdd(s.reg[R_PC], PcOffset11(instr))
    ensures LongFlag(instr) == 0 && Reg6(instr) != R_R7 ==> t.reg[R_PC] == s.reg[Reg6(instr)]
    ensures LongFlag(instr) == 0 && Reg6(instr) == R_R7 ==> t.reg[R_PC] == s.reg[R_PC]
  {
    if LongFlag(instr) != 0 then
      s.(reg := s.reg[R_R7 := s.reg[R_PC]][R_PC := WordAdd(s.reg[R_PC], PcOffset11(instr))])
    else
      s.(reg := s.reg[R_R7 := s.reg[R_PC]][R_PC := s.reg[R_R7 := s.reg[R_PC]][Reg6(instr)]])
  }

  // ---------------------------------------------------------------------
  // Data movement instructions

  /** `op_ld`: DR = mem[PC + offset9], read through `mem_read`. */
  function Ld(s: State, instr: bv16): (t: State)
    requires s.Valid()
    ensures t.Valid() && t.mem == KbsrClearedIf(s.mem, WordAdd(s.reg[R_PC], PcOffset9(instr)) == MR_KBSR)
    ensures SetsRegister(s, t, Reg9(instr), Observed(s.mem, WordAdd(s.reg[R_PC], PcOffset9(instr))))
  {
    var rd := MemRead(s, WordAdd(s.reg[R_PC], PcOffset9(instr)));
    UpdateFlags(rd.st.(reg := rd.st.reg[Reg9(instr) := rd.val]), Reg9(instr))
  }

  /** `op_ldi`: DR = mem[mem[PC + offset9]], both reads through `mem_read`. */
  function Ldi(s: State, instr: bv16): (t: State)
    requires s.Valid()
    ensures t.Valid()
    ensures var a := WordAdd(s.reg[R_PC], PcOffset9(instr));
      t.mem == KbsrClearedIf(s.mem, a == MR_KBSR || s.mem[a as int] == MR_KBSR)
    ensures SetsRegister(s, t, Reg9(instr), Observed(s.mem, Observed(s.mem, WordAdd(s.reg[R_PC], PcOffset9(instr)))))
  {
    var pointer := MemRead(s, WordAdd(s.reg[R_PC], PcOffset9(instr)));
    var rd := MemRead(pointer.st, pointer.val);
    KbsrCell(pointer.val);
    UpdateFlags(rd.st.(reg := rd.st.reg[Reg9(instr) := rd.val]), Reg9(instr))
  }

  /** `op_ldr`: DR = mem[BaseR + offset6]. */
  function Ldr(s: State, instr: bv16): (t: State)
    requires s.Valid()
    ensures t.Valid() && t.mem == KbsrClearedIf(s.mem, WordAdd(s.reg[Reg6(instr)], Offset6(instr)) == MR_KBSR)
    ensures SetsRegister(s, t, Reg9(instr), Observed(s.mem, WordAdd(s.reg[Reg6(instr)], Offset6(instr))))
  {
    var rd := MemRead(s, WordAdd(s.reg[Reg6(instr)], Offset6(instr)));
    UpdateFlags(rd.st.(reg := rd.st.reg[Reg9(instr) := rd.val]), Reg9(instr))
  }

  /** `op_lea`: DR = PC + offset9, an address and not a load. */
  function Lea(s: State, instr: bv16): (t: State)
    requires s.Valid()
    ensures t.Valid() && t.mem == s.mem
    ensures SetsRegister(s, t, Reg9(instr), WordAdd(s.reg[R_PC], PcOffset9(instr)))
  {
    SetRegister(s, Reg9(instr), WordAdd(s.reg[R_PC], PcOffset9(instr)))
  }

  /** `op_st`: mem[PC + offset9] = SR. */
  function St(s: State, instr: bv16): (t: State)
    requires s.Valid()
    ensures t.Valid()
    ensures StoresWord(s, t, WordAdd(s.reg[R_PC], PcOffset9(instr)), s.reg[Reg9(instr)])
  {
    MemWrite(s, WordAdd(s.reg[R_PC], PcOffset9(instr)), s.reg[Reg9(instr)])
  }

  /** `op_sti`: mem[mem[PC + offset9]] = SR. The pointer is fetched through
      `mem_read`, so when it sits at KBSR that cell is cleared and the store
      goes to address 0. */
  function Sti(s: State, instr: bv16): (t: State)
    requires s.Valid()
    ensures t.Valid()
    ensures WordAdd(s.reg[R_PC], PcOffset9(instr)) != MR_KBSR ==>
      StoresWord(s, t, s.mem[(WordAdd(s.reg[R_PC], PcOffset9(instr))) as int], s.reg[Reg9(instr)])
    ensures WordAdd(s.reg[R_PC], PcOffset9(instr)) == MR_KBSR ==>
      t.mem[KBSR] == 0 && t.mem[0] == s.reg[Reg9(instr)] &&
      (forall i :: 0 < i < MEMORY_MAX && i != KBSR ==> t.mem[i] == s.mem[i]) &&
      t.reg == s.reg && t.running == s.running && t.out == s.out
  {
    var pointer := MemRead(s, WordAdd(s.reg[R_PC], PcOffset9(instr)));
    MemWrite(pointer.st, pointer.val, s.reg[Reg9(instr)])
  }

  /** `op_str`: mem[BaseR + offset6] = SR. */
  function Str(s: State, instr: bv16): (t: State)
    requires s.Valid()
    ensures t.Valid()
    ensures StoresWord(s, t, WordAdd(s.reg[Reg6(instr)], Offset6(instr)), s.reg[Reg9(instr)])
  {
    MemWrite(s, WordAdd(s.reg[Reg6(instr)], Offset6(instr)), s.reg[Reg9(instr)])
  }

  // ---------------------------------------------------------------------
  // Traps

  /** A zero word sits at or after address `a`: a string starting at `a`
      is terminated inside memory. */
  ghost predicate ZeroAhead(mem: seq<bv16>, a: nat) {
    exists k :: a <= k < |mem| && mem[k] == 0
  }

  /** `(char)` of a word: its low byte. */
  function Char(w: bv16): char {
    (w & 0xFF) as char
  }

  /** The characters PUTS prints for the words from `a` on: one per word,
      up to but excluding the first zero word. */
  function CString(mem: seq<bv16>, a: nat): (r: seq<char>)
    requires a <= |mem|
    ensures a + |r| <= |mem|
    decreases |mem| - a
  {
    if a == |mem| || mem[a] == 0 then [] else [Char(mem[a])] + CString(mem, a + 1)
  }

  /** What PUTS prints: the character of every word before the first zero
      word, and, when a zero word lies ahead, it stops exactly there. */
  lemma {:induction false} CStringCells(mem: seq<bv16>, a: nat)
    requires a <= |mem|
    ensures var r := CString(mem, a);
      forall i :: a <= i < a + |r| ==> mem[i] != 0 && r[i - a] == Char(mem[i])
    ensures var r := CString(mem, a);
      ZeroAhead(mem, a) ==> a + |r| < |mem| && mem[a + |r|] == 0
    decreases |mem| - a
  {
    if a < |mem| && mem[a] != 0 {
      CStringCells(mem, a + 1);
      assert ZeroAhead(mem, a) ==> ZeroAhead(mem, a + 1);
    }
  }

  /** A non-zero word before the terminator prints its character and the
      string goes on at the next word; the terminator is still ahead. */
  lemma CStringStep(mem: seq<bv16>, a: nat)
    requires ZeroAhead(mem, a) && a < |mem| && mem[a] != 0
    ensures CString(mem, a) == [Char(mem[a])] + CString(mem, a + 1)
    ensures ZeroAhead(mem, a + 1) && a + 1 < |mem|
  {
    var k :| a <= k < |mem| && mem[k] == 0;
    assert a + 1 <= k;
  }

  /** One turn of the PUTS loop: printing the character at `c` and moving
      on keeps "printed so far, then the rest of the string" unchanged. */
  lemma PrintsOneMore(out: seq<char>, mem: seq<bv16>, c: nat, printed: seq<char>)
    requires ZeroAhead(mem, c) && c < |mem| && mem[c] != 0
    requires out + CString(mem, c) == printed
    ensures (out + [Char(mem[c])]) + CString(mem, c + 1) == printed
    ensures ZeroAhead(mem, c + 1) && c + 1 < |mem|
  {
    CStringStep(mem, c);
    assert (out + [Char(mem[c])]) + CString(mem, c + 1) == out + ([Char(mem[c])] + CString(mem, c + 1));
  }

  /** `trap_puts`: the string at R0 is appended to the output. */
  function Puts(s: State): (t: State)
    requires s.Valid() && ZeroAhead(s.mem, s.reg[R_R0] as int)
    ensures t.Valid() && t.reg == s.reg && t.mem == s.mem && t.running == s.running
    ensures t.out == s.out + CString(s.mem, s.reg[R_R0] as int)
  {
    s.(out := s.out + CString(s.mem, s.reg[R_R0] as int))
  }

  /** `trap_halt`: only the running flag changes, to false. */
  function Halt(s: State): (t: State)
    requires s.Valid()
    ensures t.Valid() && !t.running
    ensures t.reg == s.reg && t.mem == s.mem && t.out == s.out
  {
    s.(running := false)
  }

  /** A PUTS trap can only be run on a terminated string. */
  ghost predicate PutsDefined(s: State, instr: bv16)
    requires s.Valid()
  {
    Opcode(instr) == OP_TRAP && TrapVector(instr) == TRAP_PUTS ==> ZeroAhead(s.mem, s.reg[R_R0] as int)
  }

  /** `op_trap`: dispatch on the trap vector; GETC, OUT, IN, PUTSP and
      unknown vectors do nothing. */
  function Trap(s: State, instr: bv16): (t: State)
    requires s.Valid()
    requires TrapVector(instr) == TRAP_PUTS ==> ZeroAhead(s.mem, s.reg[R_R0] as int)
    ensures t.Valid() && t.reg == s.reg && t.mem == s.mem
    ensures TrapVector(instr) == TRAP_HALT ==> !t.running && t.out == s.out
    ensures TrapVector(instr) == TRAP_PUTS ==>
      t.running == s.running && t.out == s.out + CString(s.mem, s.reg[R_R0] as int)
    ensures TrapVector(instr) != TRAP_HALT && TrapVector(instr) != TRAP_PUTS ==> t == s
  {
    var vector := TrapVector(instr);
    if vector == TRAP_PUTS then Puts(s)
    else if vector == TRAP_HALT then Halt(s)
    else s
  }

  // ---------------------------------------------------------------------
  // One instruction

  /** The `switch` of `lc3_run_instruction`: RES, RTI and nothing else
      fall through to no effect. */
  function Execute(s: State, instr: bv16): (t: State)
    requires s.Valid() && PutsDefined(s, instr)
    ensures t.Valid()
    // only TRAP touches the running flag and the console
    ensures Opcode(instr) != OP_TRAP ==> t.running == s.running && t.out == s.out
    // nothing sets the running flag again, and output is only appended
    ensures t.running ==> s.running
    ensures s.out <= t.out
  {
    var op := Opcode(instr);
    if op == OP_ADD then Add(s, instr)
    else if op == OP_AND then And(s, instr)
    else if op == OP_NOT then Not(s, instr)
    else if op == OP_BR then Br(s, instr)
    else if op == OP_JMP then Jmp(s, instr)
    else if op == OP_JSR then Jsr(s, instr)
    else if op == OP_LD then Ld(s, instr)
    else if op == OP_LDI then Ldi(s, instr)
    else if op == OP_LDR then Ldr(s, instr)
    else if op == OP_LEA then Lea(s, instr)
    else if op == OP_ST then St(s, instr)
    else if op == OP_STI then Sti(s, instr)
    else if op == OP_STR then Str(s, instr)
    else if op == OP_TRAP then Trap(s, instr)
    else s
  }

  /** The fetch `mem_read(reg[R_PC]++)`: PC is advanced by one, and the
      word at the old PC is read through `mem_read`. */
  function Fetch(s: State): (r: Read)
    requires s.Valid()
    ensures r.st.Valid()
    ensures r.val == Observed(s.mem, s.reg[R_PC])
    ensures r.st.reg == s.reg[R_PC := WordAdd(s.reg[R_PC], 1)]
    ensures r.st.running == s.running && r.st.out == s.out
    ensures r.st.mem == KbsrClearedIf(s.mem, s.reg[R_PC] == MR_KBSR)
  {
    MemRead(s.(reg := s.reg[R_PC := WordAdd(s.reg[R_PC], 1)]), s.reg[R_PC])
  }

  /** The step is defined unless it would run PUTS on an unterminated
      string. */
  ghost predicate StepDefined(s: State)
    requires s.Valid()
  {
    s.running ==> PutsDefined(Fetch(s).st, Fetch(s).val)
  }

  /** `lc3_run_instruction`. */
  function Step(s: State): (t: State)
    requires s.Valid() && StepDefined(s)
    ensures t.Valid()
    // a stopped machine stays as it is
    ensures !s.running ==> t == s
    ensures t.running ==> s.running
    ensures s.out <= t.out
  {
    if !s.running then
      s
    else
      var f := Fetch(s);
      Execute(f.st, f.val)
  }

  // ---------------------------------------------------------------------
  // Start-up

  /** The C globals before `lc3_init`: static storage is zero and
      `running` starts at 1. */
  function PowerOn(): (s: State)
    ensures s.Valid() && s.running && s.out == []
    ensures forall i :: 0 <= i < R_COUNT ==> s.reg[i] == 0
    ensures forall i :: 0 <= i < MEMORY_MAX ==> s.mem[i] == 0
  {
    State(seq(R_COUNT, _ => 0), seq(MEMORY_MAX, _ => 0), true, [])
  }

  /** `lc3_init`: COND = ZRO and PC = 0x3000; nothing else changes. */
  function Init(s: State): (t: State)
    requires s.Valid()
    ensures t.Valid() && t.reg[R_COND] == FL_ZRO && t.reg[R_PC] == PC_START
    ensures forall i :: 0 <= i < R_PC ==> t.reg[i] == s.reg[i]
    ensures t.mem == s.mem && t.running == s.running && t.out == s.out
  {
    s.(reg := s.reg[R_COND := FL_ZRO][R_PC := PC_START])
  }

  // ---------------------------------------------------------------------
  // Image loading

  /** Writes `words`, each byte-swapped to host order, into consecutive
      cells from `addr` on. */
  function Place(mem: seq<bv16>, addr: nat, words: seq<bv16>): (m: seq<bv16>)
    requires addr + |words| <= |mem|
    ensures |m| == |mem|
    // each swapped word lands in its cell, and every other cell is kept
    ensures forall i :: 0 <= i < |mem| ==>
      m[i] == (if addr <= i < addr + |words| then Swap16(words[i - addr]) else mem[i])
    decreases |words|
  {
    if words == [] then
      mem
    else
      var rest := Place(mem[addr := Swap16(words[0])], addr + 1, words[1..]);
      assert forall k :: 0 <= k < |words| - 1 ==> words[1..][k] == words[k + 1];
      rest
  }

  /** `max_read = MEMORY_MAX - origin`, truncated to a `uint16_t`: the
      room left above the origin, except that origin 0 leaves none. */
  function MaxRead(origin: bv16): (n: nat)
    ensures origin as int + n <= MEMORY_MAX
    ensures n == 0 <==> origin as int == 0
    ensures origin as int != 0 ==> n == MEMORY_MAX - origin as int
  {
    (MEMORY_MAX - origin as int) % 0x1_0000
  }

  /** How many payload words `fread` delivers: all of them, or `max_read`
      when the payload is longer. */
  function LoadCount(image: seq<bv16>): (n: nat)
    requires |image| >= 1
    ensures n <= |image| - 1 && Swap16(image[0]) as int + n <= MEMORY_MAX
    // a payload that fits above a non-zero origin is read whole ...
    ensures var o := Swap16(image[0]) as int;
      o != 0 && |image| - 1 <= MEMORY_MAX - o ==> n == |image| - 1
    // ... a longer one is cut off at the end of memory
    ensures var o := Swap16(image[0]) as int;
      o != 0 && |image| - 1 > MEMORY_MAX - o ==> n == MEMORY_MAX - o
  {
    var maxRead := MaxRead(Swap16(image[0]));
    if |image| - 1 < maxRead then |image| - 1 else maxRead
  }

  /** `read_image_file` on an image whose words, as read on the host, are
      `image`: the first is the origin `o`, the rest the payload. After
      loading, cell `o + i` holds `swap16(w[i])` for each of the first
      `LoadCount` payload words, and every other cell is unchanged. */
  function LoadImage(mem: seq<bv16>, image: seq<bv16>): (m: seq<bv16>)
    requires |mem| == MEMORY_MAX && |image| >= 1
    ensures |m| == MEMORY_MAX
    ensures var o := Swap16(image[0]) as int;
      forall i :: 0 <= i < MEMORY_MAX ==>
        m[i] == (if o <= i < o + LoadCount(image) then Swap16(image[1 + i - o]) else mem[i])
  {
    Place(mem, Swap16(image[0]) as int, image[1..1 + LoadCount(image)])
  }

  /** The state the loader's copy-and-swap loop ends in, cell by cell, is
      `LoadImage`. */
  lemma LoadedImage(mem: seq<bv16>, image: seq<bv16>, m: seq<bv16>)
    requires |mem| == MEMORY_MAX && |image| >= 1 && |m| == MEMORY_MAX
    requires var o := Swap16(image[0]) as int;
      forall i :: 0 <= i < MEMORY_MAX ==>
        m[i] == (if o <= i < o + LoadCount(image) then Swap16(image[1 + i - o]) else mem[i])
    ensures m == LoadImage(mem, image)
  {
  }

  /** The `uint16_t` truncation of `max_read`: an image with origin 0
      loads nothing. */
  lemma LoadImageOriginZero(mem: seq<bv16>, image: seq<bv16>)
    requires |mem| == MEMORY_MAX && |image| >= 1 && Swap16(image[0]) == 0
    ensures LoadImage(mem, image) == mem
  {
    assert image[1..1 + LoadCount(image)] == [];
  }

  /** Big-endian bytes 30 00 | 12 34 | 56 78 load 0x1234 and 0x5678 at
      0x3000 and 0x3001. */
  lemma LoadImageExample(mem: seq<bv16>)
    requires |mem| == MEMORY_MAX
    ensures var image := [HostWord(0x30, 0x00), HostWord(0x12, 0x34), HostWord(0x56, 0x78)];
      LoadImage(mem, image)[0x3000] == 0x1234 && LoadImage(mem, image)[0x3001] == 0x5678
  {
    var image := [HostWord(0x30, 0x00), HostWord(0x12, 0x34), HostWord(0x56, 0x78)];
    assert Swap16(image[0]) == 0x3000;
    assert LoadCount(image) == 2;
  }

  // ---------------------------------------------------------------------
  // Properties of a step

  /** RES, RTI: the fetch advances PC and nothing else changes (a word
      fetched at KBSR reads as 0, a BR, so KBSR is not involved). */
  lemma StepReserved(s: State)
    requires s.Valid() && s.running
    requires Opcode(Observed(s.mem, s.reg[R_PC])) == OP_RES || Opcode(Observed(s.mem, s.reg[R_PC])) == OP_RTI
    ensures StepDefined(s)
    ensures Step(s) == s.(reg := s.reg[R_PC := WordAdd(s.reg[R_PC], 1)])
  {
    assert s.reg[R_PC] != MR_KBSR;
  }

  /** Every instruction but BR, JMP and JSR leaves PC one past the
      instruction it fetched. */
  lemma StepAdvancesPc(s: State)
    requires s.Valid() && s.running && StepDefined(s)
    requires var op := Opcode(Observed(s.mem, s.reg[R_PC]));
      op != OP_BR && op != OP_JMP && op != OP_JSR
    ensures Step(s).reg[R_PC] == WordAdd(s.reg[R_PC], 1)
  {
  }

  /** BR: the step is the fetch followed by `Br` on the fetched word, so
      `Br`'s contract gives the new PC relative to the advanced one. */
  lemma StepBranch(s: State)
    requires s.Valid() && s.running
    requires Opcode(Observed(s.mem, s.reg[R_PC])) == OP_BR
    ensures StepDefined(s)
    ensures Step(s) == Br(Fetch(s).st, Fetch(s).val)
  {
    var f := Fetch(s);
    ExecuteBranch(f.st, f.val);
  }

  /** A BR whose n/z/p mask misses COND just moves on to the next word. */
  lemma StepBranchNotTaken(s: State)
    requires s.Valid() && s.running
    requires Opcode(Observed(s.mem, s.reg[R_PC])) == OP_BR
    requires WordAnd(CondFlag(Observed(s.mem, s.reg[R_PC])), s.reg[R_COND]) == 0
    ensures StepDefined(s)
    ensures Step(s) == Fetch(s).st && Step(s).reg[R_PC] == WordAdd(s.reg[R_PC], 1)
  {
    StepBranch(s);
  }

  /** The dispatch hands a BR instruction to `Br`. */
  lemma ExecuteBranch(s: State, instr: bv16)
    requires s.Valid() && Opcode(instr) == OP_BR
    ensures PutsDefined(s, instr) && Execute(s, instr) == Br(s, instr)
  {
  }

  /** JSR and JSRR: R7 holds the address of the instruction after the
      call; JSRR R7 therefore just continues there. */
  lemma StepLinks(s: State)
    requires s.Valid() && s.running
    requires Opcode(Observed(s.mem, s.reg[R_PC])) == OP_JSR
    ensures StepDefined(s)
    ensures Step(s).reg[R_R7] == WordAdd(s.reg[R_PC], 1)
    ensures var instr := Observed(s.mem, s.reg[R_PC]);
      LongFlag(instr) == 0 && Reg6(instr) == R_R7 ==> Step(s).reg[R_PC] == WordAdd(s.reg[R_PC], 1)
  {
  }

  /** COND holds exactly one flag after every step, provided it did
      before: `lc3_init` sets ZRO and every write to COND is a flag. */
  lemma StepKeepsOneFlag(s: State)
    requires s.Valid() && StepDefined(s) && IsFlag(s.reg[R_COND])
    ensures IsFlag(Step(s).reg[R_COND])
  {
    if s.running {
      var f := Fetch(s);
      ExecuteKeepsOneFlag(f.st, f.val);
    }
  }

  /** Each handler either leaves COND alone or sets it to `FlagOf` of the
      register it wrote. */
  lemma ExecuteKeepsOneFlag(s: State, instr: bv16)
    requires s.Valid() && PutsDefined(s, instr) && IsFlag(s.reg[R_COND])
    ensures IsFlag(Execute(s, instr).reg[R_COND])
  {
    var op := Opcode(instr);
    if op == OP_ADD || op == OP_AND || op == OP_NOT || op == OP_LEA {
      assert Execute(s, instr).reg[R_COND] == FlagOf(Execute(s, instr).reg[Reg9(instr)]);
    } else if op == OP_LD || op == OP_LDI || op == OP_LDR {
      assert Execute(s, instr).reg[R_COND] == FlagOf(Execute(s, instr).reg[Reg9(instr)]);
    } else if op == OP_JSR {
      assert Execute(s, instr).reg[R_COND] == s.reg[R_COND];
    } else {
      assert Execute(s, instr).reg[R_COND] == s.reg[R_COND];
    }
  }

  /** A HALT trap stops the machine, and the steps after it change
      nothing. */
  lemma StepHalt(s: State)
    requires s.Valid() && s.running
    requires var instr := Observed(s.mem, s.reg[R_PC]);
      Opcode(instr) == OP_TRAP && TrapVector(instr) == TRAP_HALT
    ensures StepDefined(s)
    ensures !Step(s).running && Step(s).out == s.out
    ensures StepDefined(Step(s)) && Step(Step(s)) == Step(s)
  {
  }

  /** LDI with mem[A] = B and mem[B] = C, where A is PC + offset, loads C
      (neither A nor B being KBSR). */
  lemma LdiLoadsIndirect(s: State, instr: bv16, b: bv16, c: bv16)
    requires s.Valid()
    requires WordAdd(s.reg[R_PC], PcOffset9(instr)) != MR_KBSR && b != MR_KBSR
    requires s.mem[(WordAdd(s.reg[R_PC], PcOffset9(instr))) as int] == b && s.mem[b as int] == c
    ensures Ldi(s, instr).reg[Reg9(instr)] == c
  {
  }

  /** `mem_read` clears KBSR before reading it, so two reads of KBSR in a
      row both return 0. */
  lemma KbsrReadsZeroTwice(s: State)
    requires s.Valid()
    ensures MemRead(s, MR_KBSR).val == 0
    ensures MemRead(MemRead(s, MR_KBSR).st, MR_KBSR).val == 0
    ensures MemRead(MemRead(s, MR_KBSR).st, MR_KBSR).st == MemRead(s, MR_KBSR).st
  {
  }

  /** PUTS on the words 'H', 'i', 0 prints exactly "Hi". */
  lemma PutsExample(mem: seq<bv16>, a: nat)
    requires a + 3 <= |mem|
    requires mem[a] == 0x48 && mem[a + 1] == 0x69 && mem[a + 2] == 0
    ensures CString(mem, a) == "Hi"
  {
    assert CString(mem, a + 2) == [];
  }

  /** After `lc3_init` on the zeroed globals, COND holds one flag, ZRO. */
  lemma InitHasOneFlag()
    ensures IsFlag(Init(PowerOn()).reg[R_COND])
    ensures Init(PowerOn()).reg[R_PC] == PC_START && Init(PowerOn()).running
  {
  }
}
