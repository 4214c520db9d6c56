/** Guest instructions as the translator's parser delivers them, and their meaning on the
    guest state (RISC-V Unprivileged ISA, chapters 2 and 5). */
module Riscv {
  import opened Words
  import opened X86
  import opened RegisterCache

  datatype Mnem =
    | INVALID_MNEM
    | LUI | AUIPC | JAL | JALR
    | LW | LD | SW | SD
    | ADDI | SLTIU | XORI | ANDI | SLLI | SRLI | ADDIW
    | SUB | SUBW | SLT | SLTU
    | FENCE | FENCE_I | ECALL | EBREAK
    | CSRR(op: nat)           // CSRRW, CSRRS, CSRRC and their immediate forms
    | MANUAL_CSRR
    | PC_NEXT_INST | SILENT_NOP | PATTERN_EMIT
    | OTHER(code: nat)        // every other mnemonic

  /** The operation type; for PATTERN_EMIT the field holds the pattern's index. */
  datatype OpType =
    | REG_REG | IMMEDIATE | UPPER_IMMEDIATE | STORE | BRANCH | JUMP | SYSTEM | FLOAT
    | INVALID_INSTRUCTION | PSEUDO | PatternIndex(index: nat)

  datatype Instr = Instr(addr: Word, mnem: Mnem, optype: OpType, rs1: nat, rs2: nat, rd: nat, imm: Word)

  type GuestRegs = s: seq<Word> | |s| == 33
    witness [0, 0, 0, 0, 0, 0, 0, 0, 0, 0, 0, 0, 0, 0, 0, 0, 0, 0, 0, 0, 0, 0, 0, 0, 0, 0, 0, 0, 0, 0, 0, 0, 0]

  datatype State = State(x: GuestRegs, mem: Memory)

  /** A register field as a guest register. */
  function AsGuest(r: nat): Guest { if r < 33 then r else X0 }

  function Reg(s: State, r: nat): Word { if r == 0 || r >= 33 then 0 else s.x[r] }

  function SetReg(s: State, r: nat, w: Word): State {
    if r == 0 || r >= 33 then s else s.(x := s.x[r := w])
  }

  /** What the remaining instructions do is left to the parameter `other`. */
  type Other = (Instr, State) -> State

  function Step(other: Other, i: Instr, s: State): State {
    match i.mnem
    case LUI => SetReg(s, i.rd, i.imm)
    case AUIPC => SetReg(s, i.rd, Add(i.addr, i.imm))
    case LW => SetReg(s, i.rd, Sx32(Read32(s.mem, Add(Reg(s, i.rs1), i.imm))))
    case LD => SetReg(s, i.rd, Read64(s.mem, Add(Reg(s, i.rs1), i.imm)))
    case SW => s.(mem := Write32(s.mem, Add(Reg(s, i.rs1), i.imm), Reg(s, i.rs2)))
    case SD => s.(mem := Write64(s.mem, Add(Reg(s, i.rs1), i.imm), Reg(s, i.rs2)))
    case ADDI => SetReg(s, i.rd, Add(Reg(s, i.rs1), i.imm))
    case SLTIU => SetReg(s, i.rd, Bool(Reg(s, i.rs1) < i.imm))
    case XORI => SetReg(s, i.rd, Xor(Reg(s, i.rs1), i.imm))
    case ANDI => SetReg(s, i.rd, And(Reg(s, i.rs1), i.imm))
    case SLLI => SetReg(s, i.rd, Shl(Reg(s, i.rs1), i.imm))
    case SRLI => SetReg(s, i.rd, Shr(Reg(s, i.rs1), i.imm))
    case ADDIW => SetReg(s, i.rd, Sx32(Add(Reg(s, i.rs1), i.imm)))
    case SUB => SetReg(s, i.rd, Sub(Reg(s, i.rs1), Reg(s, i.rs2)))
    case SUBW => SetReg(s, i.rd, Sx32(Sub(Reg(s, i.rs1), Reg(s, i.rs2))))
    case SLT => SetReg(s, i.rd, Bool(Signed(Reg(s, i.rs1)) < Signed(Reg(s, i.rs2))))
    case SLTU => SetReg(s, i.rd, Bool(Reg(s, i.rs1) < Reg(s, i.rs2)))
    case _ => other(i, s)
  }

  /** The instructions whose meaning is given by Step itself. */
  predicate Known(m: Mnem) {
    m in {LUI, AUIPC, LW, LD, SW, SD, ADDI, SLTIU, XORI, ANDI, SLLI, SRLI, ADDIW, SUB, SUBW, SLT, SLTU}
  }

  const EVEN: Word := TWO_64 - 2

  /** The meaning of jumps (RISC-V Unprivileged ISA, section 2.5); for the last slot of a full
      block, the address where the path goes on. */
  function JumpMeaning(i: Instr, g: State): State {
    match i.mnem
    case JAL => SetReg(SetReg(g, i.rd, Add(i.addr, 4)), PC, Add(i.addr, i.imm))
    case JALR => SetReg(SetReg(g, i.rd, Add(i.addr, 4)), PC, And(Add(Reg(g, i.rs1), i.imm), EVEN))
    case PC_NEXT_INST => SetReg(g, PC, i.imm)
    case _ => g
  }

  predicate IsExit(m: Mnem) { m in {JAL, JALR, PC_NEXT_INST} }

  function Steps(other: Other, w: seq<Instr>, s: State): State
    decreases |w|
  {
    if w == [] then s else Steps(other, w[1..], Step(other, w[0], s))
  }

  lemma {:induction false} StepsAppend(other: Other, a: seq<Instr>, b: seq<Instr>, s: State)
    ensures Steps(other, a + b, s) == Steps(other, b, Steps(other, a, s))
    decreases |a|
  {
    if a == [] {
      assert a + b == b;
    } else {
      assert (a + b)[1..] == a[1..] + b;
      StepsAppend(other, a[1..], b, Step(other, a[0], s));
    }
  }

  lemma Steps1(other: Other, w: seq<Instr>, s: State)
    requires |w| == 1
    ensures Steps(other, w, s) == Step(other, w[0], s)
  {
    hide Step;
    assert Steps(other, w[1..], Step(other, w[0], s)) == Step(other, w[0], s);
  }

  lemma Steps2(other: Other, w: seq<Instr>, s: State)
    requires |w| == 2
    ensures Steps(other, w, s) == Step(other, w[1], Step(other, w[0], s))
  {
    hide Step;
    Steps1(other, w[1..], Step(other, w[0], s));
  }

  lemma Steps3(other: Other, w: seq<Instr>, s: State)
    requires |w| == 3
    ensures Steps(other, w, s) == Step(other, w[2], Step(other, w[1], Step(other, w[0], s)))
  {
    hide Step;
    Steps2(other, w[1..], Step(other, w[0], s));
  }

  lemma Steps4(other: Other, w: seq<Instr>, s: State)
    requires |w| == 4
    ensures Steps(other, w, s)
         == Step(other, w[3], Step(other, w[2], Step(other, w[1], Step(other, w[0], s))))
  {
    hide Step;
    Steps3(other, w[1..], Step(other, w[0], s));
  }

  lemma Steps5(other: Other, w: seq<Instr>, s: State)
    requires |w| == 5
    ensures Steps(other, w, s)
         == Step(other, w[4], Step(other, w[3], Step(other, w[2], Step(other, w[1], Step(other, w[0], s)))))
  {
    hide Step;
    Steps4(other, w[1..], Step(other, w[0], s));
  }

  /** A sign-extended 12-bit immediate. */
  predicate Imm12(w: Word) { w < 0x800 || TWO_64 - 0x800 <= w }

  lemma Imm12Exactly(w: Word)
    ensures Imm12(w) <==> -0x800 <= Signed(w) < 0x800
  {
  }

  /** What the parser guarantees of an instruction: register fields that name registers,
      immediates of twelve bits where the format has them, and shift amounts of six bits. */
  predicate Decoded(i: Instr) {
    match i.mnem
    case LUI => i.rd < 32
    case AUIPC => i.rd < 32
    case LW => i.rs1 < 32 && i.rd < 32 && Imm12(i.imm)
    case LD => i.rs1 < 32 && i.rd < 32 && Imm12(i.imm)
    case SW => i.rs1 < 32 && i.rs2 < 32 && Imm12(i.imm)
    case SD => i.rs1 < 32 && i.rs2 < 32 && Imm12(i.imm)
    case ADDI => i.rs1 < 32 && i.rd < 32 && Imm12(i.imm)
    case SLTIU => i.rs1 < 32 && i.rd < 32 && Imm12(i.imm)
    case XORI => i.rs1 < 32 && i.rd < 32 && Imm12(i.imm)
    case ANDI => i.rs1 < 32 && i.rd < 32 && Imm12(i.imm)
    case SLLI => i.rs1 < 32 && i.rd < 32 && i.imm < 64
    case SRLI => i.rs1 < 32 && i.rd < 32 && i.imm < 64
    case ADDIW => i.rs1 < 32 && i.rd < 32 && Imm12(i.imm)
    case SUB => i.rs1 < 32 && i.rs2 < 32 && i.rd < 32
    case SUBW => i.rs1 < 32 && i.rs2 < 32 && i.rd < 32
    case SLT => i.rs1 < 32 && i.rs2 < 32 && i.rd < 32
    case SLTU => i.rs1 < 32 && i.rs2 < 32 && i.rd < 32
    case JAL => i.rd < 32
    case JALR => i.rs1 < 32 && i.rd < 32 && Imm12(i.imm)
    case SILENT_NOP => false
    case PATTERN_EMIT => false
    case _ => true
  }
}
