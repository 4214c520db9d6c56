/** The guest program run one instruction at a time, as the ISA has it, and what a parsed block
    is in such a run. */
module GuestRun {
  import opened Words
  import opened X86
  import opened RegisterCache
  import opened Riscv
  import opened GuestPath

  /** One instruction at the address in pc (RISC-V Unprivileged ISA, chapter 2). */
  function IsaStep(other: Other, p: Program, g: State): State {
    var i := p.decode(Reg(g, PC));
    if i.mnem in {JAL, JALR} then JumpMeaning(i, g)
    else if Ends(i) then Step(other, i, g)
    else if i.optype == SYSTEM && (i.mnem == FENCE || i.mnem == FENCE_I) then SetReg(g, PC, Add(Reg(g, PC), 4))
    else SetReg(Step(other, i, g), PC, Add(Reg(g, PC), 4))
  }

  function IsaRun(other: Other, p: Program, g: State, n: nat): State {
    if n == 0 then g else IsaStep(other, p, IsaRun(other, p, g, n - 1))
  }

  lemma {:induction false} IsaRunAppend(other: Other, p: Program, g: State, m: nat, n: nat)
    ensures IsaRun(other, p, g, m + n) == IsaRun(other, p, IsaRun(other, p, g, m), n)
  {
    hide IsaStep;
    if n == 0 {
    } else {
      IsaRunAppend(other, p, g, m, n - 1);
    }
  }

  /** What is demanded of the meaning of the instructions that Step does not know: jumps are
      those of the ISA; others that end a block set pc without reading it, and the rest
      neither reads nor sets it; and the forms in which the parser leaves an EBREAK, and a CSR
      access to 1 to 3, mean the same as these. */
  ghost predicate Meaning(other: Other) {
    forall i: Instr, g: State, w: Word :: !Known(i.mnem) ==> MeansRight(other, i, g, w)
  }

  predicate MeansRight(other: Other, i: Instr, g: State, w: Word) {
    if IsExit(i.mnem) then other(i, g) == JumpMeaning(i, g)
    else
      && other(i, SetReg(g, PC, w)) == (if Ends(i) then other(i, g) else SetReg(other(i, g), PC, w))
      && (i.optype == SYSTEM && i.mnem == EBREAK ==>
            other(i.(imm := 0, mnem := INVALID_MNEM, optype := INVALID_INSTRUCTION), g) == other(i, g))
      && (i.optype == SYSTEM && i.mnem.CSRR? && i.imm in {1, 2, 3} ==>
            other(i.(rs2 := i.mnem.op, mnem := MANUAL_CSRR), g) == other(i, g))
  }

  /** The known instructions have nothing to do with pc. */
  lemma KnownBlind(other: Other, i: Instr, g: State, w: Word)
    requires Known(i.mnem) && Decoded(i)
    ensures Step(other, i, SetReg(g, PC, w)) == SetReg(Step(other, i, g), PC, w)
  {
    hide Add, Sx32, Read32, Read64, Write32, Write64, Xor, And, Shl, Shr, Sub, Signed, Bool;
    var u := SetReg(g, PC, w);
    assert u.mem == g.mem;
    assert Reg(u, i.rs1) == Reg(g, i.rs1) || i.mnem in {LUI, AUIPC};
    assert Reg(u, i.rs2) == Reg(g, i.rs2) || i.mnem !in {SW, SD, SUB, SUBW, SLT, SLTU};
    if i.mnem in {SW, SD} {
      SetPcMem(g, Step(other, i, g).mem, w);
    } else {
      forall v: Word ensures SetReg(SetReg(g, PC, w), i.rd, v) == SetReg(SetReg(g, i.rd, v), PC, w) {
        SetRegSwap(g, i.rd, v, w);
      }
    }
    hide Reg, SetReg;
  }

  lemma SetPcMem(g: State, mem: Memory, w: Word)
    ensures SetReg(g, PC, w).(mem := mem) == SetReg(g.(mem := mem), PC, w)
  {
  }

  lemma SetRegSwap(g: State, r: nat, v: Word, w: Word)
    requires r < 32
    ensures SetReg(SetReg(g, PC, w), r, v) == SetReg(SetReg(g, r, v), PC, w)
  {
    if r != 0 { assert g.x[PC := w][r := v] == g.x[r := v][PC := w]; }
  }

  lemma SetPcTwice(g: State, v: Word, w: Word)
    ensures SetReg(SetReg(g, PC, v), PC, w) == SetReg(g, PC, w) && Reg(SetReg(g, PC, v), PC) == v
    ensures SetReg(g, PC, Reg(g, PC)) == g
  {
    assert g.x[PC := g.x[PC]] == g.x && g.x[PC := v][PC := w] == g.x[PC := w];
  }

  /** A jump does not read pc. */
  lemma JumpBlind(i: Instr, g: State, w: Word)
    requires i.mnem in {JAL, JALR} && Decoded(i)
    ensures JumpMeaning(i, SetReg(g, PC, w)) == JumpMeaning(i, g)
  {
    hide Add, And;
    SetRegSwap(g, i.rd, Add(i.addr, 4), w);
    assert i.mnem == JALR ==> Reg(SetReg(g, PC, w), i.rs1) == Reg(g, i.rs1);
    var h := SetReg(g, i.rd, Add(i.addr, 4));
    hide Reg;
    forall v: Word ensures SetReg(SetReg(h, PC, w), PC, v) == SetReg(h, PC, v) { SetPcTwice(h, w, v); }
    hide SetReg;
  }

  /** If the AUIPC is indeed in front, doing the two goes there. */
  lemma PairedGoesTo(cfg: Config, other: Other, prev: Instr, last: Instr, g: State)
    requires Paired(cfg, prev, last) && Decoded(prev) && Decoded(last)
    requires last.mnem == JALR && Add(prev.addr, 4) == last.addr
    ensures Reg(JumpMeaning(last, Step(other, prev, g)), PC) == And(PairTarget(prev, last), EVEN)
  {
    hide And;
    assert prev.addr == Sub(last.addr, 4);
    assert Reg(Step(other, prev, g), last.rs1) == Add(prev.addr, prev.imm);
  }

  /** Running over fences. */
  lemma {:induction false} SkipRun(other: Other, p: Program, g: State) returns (n: nat)
    requires WellFormed(p)
    ensures IsaRun(other, p, g, n) == SetReg(g, PC, Skip(p, Reg(g, PC)))
    ensures !IsFence(p.decode(Skip(p, Reg(g, PC))))
    decreases p.fences(Reg(g, PC))
  {
    hide Step, SetReg, Reg, JumpMeaning;
    var pc := Reg(g, PC);
    WellFormedAt(p, pc);
    SkipFence(p, pc);
    hide WellFormed, Skip;
    if IsFence(p.decode(pc)) {
      var next := Add(pc, 4);
      SetPcTwice(g, next, Skip(p, next));
      n := SkipRun(other, p, SetReg(g, PC, next));
      IsaRunAppend(other, p, g, 1, n);
      IsaRunNext(other, p, g, 0);
      n := n + 1;
    } else {
      SetPcTwice(g, pc, pc);
      n := 0;
    }
  }

  /** An instruction inside a block: the ISA does it and goes on along the path. */
  lemma MiddleStep(cfg: Config, other: Other, p: Program, s: State, pc: Word)
    requires WellFormed(p) && Meaning(other)
    requires !IsFence(p.decode(pc)) && !Stops(cfg, p.decode(pc))
    ensures var i := p.decode(pc);
            IsaStep(other, p, SetReg(s, PC, pc)) == SetReg(Step(other, BlockForm(cfg, i), s), PC, NextPc(i))
  {
    var i := p.decode(pc);
    WellFormedAt(p, pc);
    hide WellFormed, Meaning, Step, BlockForm, NextPc, IsaStep, SetReg;
    if i.mnem == JAL {
      FollowedStep(cfg, other, p, s, pc);
    } else {
      OtherStep(cfg, other, p, s, pc);
    }
  }

  /** A jump that is followed. */
  lemma FollowedStep(cfg: Config, other: Other, p: Program, s: State, pc: Word)
    requires var i := p.decode(pc); i.mnem == JAL && i.optype.JUMP? && Decoded(i) && i.addr == pc && !Stops(cfg, i)
    ensures var i := p.decode(pc);
            IsaStep(other, p, SetReg(s, PC, pc)) == SetReg(Step(other, BlockForm(cfg, i), s), PC, NextPc(i))
  {
    var i := p.decode(pc);
    hide SetReg, Reg, JumpMeaning, Step, Add, BlockForm, NextPc, Decoded;
    SetPcTwice(s, pc, pc);
    FollowedJump(cfg, i, other, s);
    JumpBlind(i, s, pc);
    FollowedMeaning(i, s);
  }

  /** Any other instruction that does not end the block. */
  lemma OtherStep(cfg: Config, other: Other, p: Program, s: State, pc: Word)
    requires Meaning(other)
    requires var i := p.decode(pc);
             && i.addr == pc && Decoded(i) && !IsExit(i.mnem) && !Ends(i) && !IsFence(i)
             && (Known(i.mnem) ==> !i.optype.SYSTEM?)
    ensures var i := p.decode(pc);
            IsaStep(other, p, SetReg(s, PC, pc)) == SetReg(Step(other, BlockForm(cfg, i), s), PC, NextPc(i))
  {
    var i := p.decode(pc);
    hide SetReg, Reg, JumpMeaning, Step, Add, BlockForm, NextPc, Decoded, Meaning, Known;
    SetPcTwice(s, pc, pc);
    SetPcTwice(Step(other, i, s), pc, Add(pc, 4));
    FormMeans(cfg, other, i, s, pc);
    NextOther(i);
  }

  lemma FollowedMeaning(i: Instr, s: State)
    requires i.mnem == JAL && i.rd == 0
    ensures JumpMeaning(i, s) == SetReg(s, PC, NextPc(i))
  {
    hide Add;
  }

  lemma NextOther(i: Instr)
    requires i.mnem != JAL
    ensures NextPc(i) == Add(i.addr, 4)
  {
  }

  lemma FormMeans(cfg: Config, other: Other, i: Instr, s: State, pc: Word)
    requires Meaning(other) && Decoded(i) && !Ends(i) && !IsExit(i.mnem)
    requires Known(i.mnem) ==> !i.optype.SYSTEM?
    ensures Step(other, BlockForm(cfg, i), s) == Step(other, i, s)
    ensures Step(other, i, SetReg(s, PC, pc)) == SetReg(Step(other, i, s), PC, pc)
  {
    hide SetReg, JumpMeaning;
    if Known(i.mnem) {
      KnownBlind(other, i, s, pc);
      hide Step;
    } else {
      assert MeansRight(other, i, s, pc);
    }
  }

  /** The instruction that ends a block. */
  lemma LastStep(cfg: Config, other: Other, p: Program, s: State, pc: Word, b: Instr)
    requires WellFormed(p) && Meaning(other)
    requires var i := p.decode(pc);
             && !IsFence(i) && Stops(cfg, i)
             && if i.mnem == JALR then b == i.(rs2 := b.rs2) else b == BlockForm(cfg, i)
    ensures IsaStep(other, p, SetReg(s, PC, pc)) == Step(other, b, s)
  {
    var i := p.decode(pc);
    WellFormedAt(p, pc);
    hide WellFormed, Meaning;
    SetPcTwice(s, pc, pc);
    if i.mnem in {JAL, JALR} {
      JumpBlind(i, s, pc);
      assert MeansRight(other, b, s, pc);
      assert JumpMeaning(b, s) == JumpMeaning(i, s);
    } else {
      hide SetReg, Reg;
      assert MeansRight(other, i, s, pc);
    }
  }

  /** The first k instructions of a block, run by the ISA. */
  lemma {:induction false} PathRun(cfg: Config, other: Other, p: Program, entry: Word, block: seq<Instr>, g: State,
                                   k: nat) returns (n: nat)
    requires WellFormed(p) && Meaning(other) && Reg(g, PC) == entry && k <= |block|
    requires forall j :: 0 <= j < k ==> SlotOf(cfg, p, entry, block, j) && !Stops(cfg, p.decode(PathPc(p, entry, j)))
    ensures IsaRun(other, p, g, n) == SetReg(Steps(other, block[..k], g), PC, After(p, entry, k)) && n >= k
  {
    hide WellFormed, Meaning, Stops, Step, Reg, SetReg, Steps, SlotOf, NextPc, PathPc, IsaRun, BlockForm, IsaStep,
         After;
    if k == 0 {
      StartsAt(other, p, entry, g);
      assert block[..0] == [];
      n := 0;
    } else {
      var s := Steps(other, block[..k - 1], g);
      n := PathRun(cfg, other, p, entry, block, g, k - 1);
      var m := PathSkip(other, p, entry, s, k - 1);
      IsaRunAppend(other, p, g, n, m);
      var pc := PathPc(p, entry, k - 1);
      MiddleSlot(cfg, p, entry, block, k - 1);
      MiddleStep(cfg, other, p, s, pc);
      StepsPush(other, block, k - 1, g);
      IsaRunNext(other, p, g, n + m);
      AfterNext(p, entry, k - 1);
      n := n + m + 1;
    }
  }

  lemma StartsAt(other: Other, p: Program, entry: Word, g: State)
    requires WellFormed(p) && Reg(g, PC) == entry
    ensures IsaRun(other, p, g, 0) == g == SetReg(Steps(other, [], g), PC, After(p, entry, 0))
  {
    hide WellFormed, Reg, SetReg;
    SetPcTwice(g, 0, 0);
  }

  lemma AfterNext(p: Program, entry: Word, k: nat)
    requires WellFormed(p)
    ensures After(p, entry, k + 1) == NextPc(p.decode(PathPc(p, entry, k)))
  {
    hide WellFormed, PathPc, NextPc;
  }

  lemma IsaRunNext(other: Other, p: Program, g: State, n: nat)
    ensures IsaRun(other, p, g, n + 1) == IsaStep(other, p, IsaRun(other, p, g, n))
  {
    hide IsaStep;
  }

  /** From behind k instructions of the path to the next one. */
  lemma PathSkip(other: Other, p: Program, entry: Word, s: State, k: nat) returns (m: nat)
    requires WellFormed(p)
    ensures IsaRun(other, p, SetReg(s, PC, After(p, entry, k)), m) == SetReg(s, PC, PathPc(p, entry, k))
    ensures !IsFence(p.decode(PathPc(p, entry, k)))
  {
    hide WellFormed, Reg, SetReg, NextPc, Skip, IsaRun;
    var a := After(p, entry, k);
    SetPcTwice(s, a, Skip(p, a));
    m := SkipRun(other, p, SetReg(s, PC, a));
  }

  lemma MiddleSlot(cfg: Config, p: Program, entry: Word, block: seq<Instr>, k: nat)
    requires WellFormed(p) && k < |block|
    requires SlotOf(cfg, p, entry, block, k) && !Stops(cfg, p.decode(PathPc(p, entry, k)))
    ensures block[k] == BlockForm(cfg, p.decode(PathPc(p, entry, k)))
  {
    WellFormedAt(p, PathPc(p, entry, k));
    hide WellFormed, PathPc, BlockForm;
  }

  lemma StepsPush(other: Other, block: seq<Instr>, k: nat, g: State)
    requires k < |block|
    ensures Steps(other, block[..k + 1], g) == Step(other, block[k], Steps(other, block[..k], g))
  {
    hide Step;
    assert block[..k + 1] == block[..k] + [block[k]];
    StepsAppend(other, block[..k], [block[k]], g);
    Steps1(other, [block[k]], Steps(other, block[..k], g));
  }

  /** A parsed block does what the ISA does from its address on: some positive number of
      instructions, fences and followed jumps included. */
  lemma BlockIsRun(cfg: Config, other: Other, p: Program, entry: Word, block: seq<Instr>, g: State) returns (n: nat)
    requires WellFormed(p) && Meaning(other) && IsBlock(cfg, p, entry, block) && Reg(g, PC) == entry
    ensures n > 0 && IsaRun(other, p, g, n) == Steps(other, block, g)
  {
    hide WellFormed, Meaning, Stops, Step, Reg, SetReg, Steps, SlotOf, NextPc, PathPc, IsaStep;
    var last := |block| - 1;
    var s := Steps(other, block[..last], g);
    n := PathRun(cfg, other, p, entry, block, g, last);
    assert block[..last + 1] == block;
    StepsPush(other, block, last, g);
    if block[last].mnem == PC_NEXT_INST {
      NextSlot(cfg, other, block[last], s);
    } else {
      var m := PathSkip(other, p, entry, s, last);
      IsaRunAppend(other, p, g, n, m);
      LastSlotForm(cfg, p, entry, block, last);
      LastStep(cfg, other, p, s, PathPc(p, entry, last), block[last]);
      n := n + m + 1;
    }
  }

  lemma NextSlot(cfg: Config, other: Other, b: Instr, s: State)
    requires Meaning(other) && b.mnem == PC_NEXT_INST
    ensures Step(other, b, s) == SetReg(s, PC, b.imm)
  {
    assert MeansRight(other, b, s, 0);
    hide Meaning;
  }

  lemma LastSlotForm(cfg: Config, p: Program, entry: Word, block: seq<Instr>, k: nat)
    requires WellFormed(p) && k < |block| && SlotOf(cfg, p, entry, block, k)
    ensures var i := p.decode(PathPc(p, entry, k));
            if i.mnem == JALR then block[k] == i.(rs2 := block[k].rs2) else block[k] == BlockForm(cfg, i)
  {
    hide WellFormed, PathPc, BlockForm, Paired;
  }
}
