/** The translators of single instructions that fused windows are made of: register-cache
    requests and a few host instructions each. */
module Translators {
  import opened Words
  import opened X86
  import opened RegisterCache
  import opened Riscv
  import opened Simulation
  import opened RegisterInfos
  import opened Arithmetic

  // ----- what follows the requests for registers -----

  function MoveThen(s: Host, d: Host, i: Code): seq<Code> { if s != d then [Mov64(d, s), i] else [i] }

  function AddiTail(s: Host, d: Host, k: Word): seq<Code> {
    if d != s then [Lea64(d, s, k)] else if k != 0 then [AluRI(Add64, d, k)] else []
  }

  function AddiwTail(s: Host, d: Host, k: Word): seq<Code> {
    (if d != s then [Lea32(d, s, k)] else if k != 0 then [AluRI(Add32, d, k)] else []) + [Movsx64From32(d, d)]
  }

  function SlliTail(s: Host, d: Host, k: Word): seq<Code> {
    if d != s && k % 64 in {1, 2, 3} then [LeaScaled64(d, s, k % 64)] else MoveThen(s, d, ShlImm64(d, k % 64))
  }

  function SrliTail(s: Host, d: Host, k: Word): seq<Code> { MoveThen(s, d, ShrImm64(d, k % 64)) }

  function XoriTail(s: Host, d: Host, k: Word): seq<Code> { MoveThen(s, d, AluRI(Xor64, d, k)) }

  function AndiTail(s: Host, d: Host, k: Word): seq<Code> {
    if k < TWO_32 then (if d != s then [Mov32(d, s)] else []) + [AluRI(And32, d, k)]
    else MoveThen(s, d, AluRI(And64, d, k))
  }

  function SltiuTail(s: Host, d: Host, k: Word): seq<Code> { [CmpImm64(s, k), SetC(d), Movzx32From8(d, d)] }

  function SltTail(s1: Host, s2: Host, d: Host): seq<Code> { [Cmp64(s1, s2), SetL(d), Movzx32From8(d, d)] }

  function SltuTail(s1: Host, s2: Host, d: Host): seq<Code> { [Cmp64(s1, s2), SetC(d), Movzx32From8(d, d)] }

  function SubTail(s1: Host, s2: Host, d: Host): seq<Code> {
    if d == s2 then (if d == s1 then [Xor32(d, d)] else [Neg64(s2), AluRR(Add64, s2, s1)])
    else Arithm(Sub64, s1, s2, d)
  }

  function SubwTail(s1: Host, s2: Host, d: Host): seq<Code> {
    (if d == s2 then (if d == s1 then [Xor32(d, d)] else [Neg32(s2), AluRR(Add32, s2, s1)])
     else Arithm(Sub32, s1, s2, d))
    + [Movsx64From32(d, d)]
  }

  function OneSourceTail(i: Instr, s: Host, d: Host): seq<Code> {
    match i.mnem
    case ADDI => AddiTail(s, d, i.imm)
    case ADDIW => AddiwTail(s, d, i.imm)
    case SLLI => SlliTail(s, d, i.imm)
    case SRLI => SrliTail(s, d, i.imm)
    case XORI => XoriTail(s, d, i.imm)
    case ANDI => AndiTail(s, d, i.imm)
    case SLTIU => SltiuTail(s, d, i.imm)
    case LW => [LoadSx32At(d, s, i.imm)]
    case _ => [Load64At(d, s, i.imm)]
  }

  function TwoSourcesTail(i: Instr, s1: Host, s2: Host, d: Host): seq<Code> {
    match i.mnem
    case SUB => SubTail(s1, s2, d)
    case SUBW => SubwTail(s1, s2, d)
    case SLT => SltTail(s1, s2, d)
    case _ => SltuTail(s1, s2, d)
  }

  // ----- the translators -----

  /** One source and the destination. */
  function OneSource(sm: StaticMap, c: Cache, i: Instr): Emission {
    var rs, rd := AsGuest(i.rs1), AsGuest(i.rd);
    var s, d := SrcHost(sm, c, rs), DstHost(sm, c, rs, rd);
    FromSource(sm, c, rs, rd, OneSourceTail(i, s, d))
  }

  /** Two sources and the destination. */
  function TwoSources(sm: StaticMap, c: Cache, i: Instr): Emission {
    var rs1, rs2, rd := AsGuest(i.rs1), AsGuest(i.rs2), AsGuest(i.rd);
    var s1, s2, d := SrcHost(sm, c, rs1), Second(sm, c, rs1, rs2), Third(sm, c, rs1, rs2, rd);
    var e := SrcSrcDst(sm, c, rs1, rs2, rd);
    Emission(e.code + TwoSourcesTail(i, s1, s2, d), e.cache)
  }

  /** Stores have no destination. */
  function TwoSourcesStore(sm: StaticMap, c: Cache, i: Instr): Emission {
    var rs1, rs2 := AsGuest(i.rs1), AsGuest(i.rs2);
    var s1, s2 := SrcHost(sm, c, rs1), Second(sm, c, rs1, rs2);
    var e := SrcSrc(sm, c, rs1, rs2);
    Emission(e.code + [if i.mnem == SW then Store32At(s1, i.imm, s2) else Store64At(s1, i.imm, s2)], e.cache)
  }

  function Translated(sm: StaticMap, c: Cache, i: Instr): Emission
    requires Known(i.mnem)
  {
    var rd := AsGuest(i.rd);
    match i.mnem
    case LUI => IntoDst(sm, c, rd, [MovImm(SrcHost(sm, c, rd), i.imm)])
    case AUIPC => if rd == X0 then Emission([], c)
                  else IntoDst(sm, c, rd, [MovImm(SrcHost(sm, c, rd), Add(i.addr, i.imm))])
    case SW => TwoSourcesStore(sm, c, i)
    case SD => TwoSourcesStore(sm, c, i)
    case SUB => TwoSources(sm, c, i)
    case SUBW => TwoSources(sm, c, i)
    case SLT => TwoSources(sm, c, i)
    case SLTU => TwoSources(sm, c, i)
    case _ => OneSource(sm, c, i)
  }

  // ----- what the tails compute -----

  lemma ComputesAddi(s: Host, d: Host, k: Word)
    ensures Computes(AddiTail(s, d, k), s, d, (x: Word) => Add(x, k))
  {
    hide Run, Exec, AluEval;
    forall m: Machine
      ensures var m' := Run(AddiTail(s, d, k), m);
              OnlyWrites(m, m', d) && m'.regs[d] == Add(m.regs[s], k)
    {
      if d != s {
        RunOne(Lea64(d, s, k), m);
        ExecMoves(d, s, k, m);
      } else if k != 0 {
        RunOne(AluRI(Add64, d, k), m);
        ExecAluRI(Add64, d, k, m);
        AluAdd(m.regs[d], k);
      } else {
        RunNone(m);
      }
    }
  }

  lemma AluAdd(a: Word, b: Word)
    ensures AluEval(Add64, a, b) == Add(a, b) && AluEval(Add32, a, b) == Low32(Add(a, b))
    ensures AluEval(Sub64, a, b) == Sub(a, b) && AluEval(Sub32, a, b) == Low32(Sub(a, b))
    ensures AluEval(Xor64, a, b) == Xor(a, b) && AluEval(And64, a, b) == And(a, b)
    ensures AluEval(And32, a, b) == Low32(And(a, b))
  {
  }

  lemma ComputesAddiw(s: Host, d: Host, k: Word)
    ensures Computes(AddiwTail(s, d, k), s, d, (x: Word) => Sx32(Add(x, k)))
  {
    hide Run, Exec, AluEval, Sx32, Low32;
    forall m: Machine
      ensures var m' := Run(AddiwTail(s, d, k), m);
              OnlyWrites(m, m', d) && m'.regs[d] == Sx32(Add(m.regs[s], k))
    {
      var x := Movsx64From32(d, d);
      LowIdempotent(Add(m.regs[s], k));
      if d != s {
        assert AddiwTail(s, d, k) == [Lea32(d, s, k), x];
        RunTwo(Lea32(d, s, k), x, m);
        ExecMoves(d, s, k, m);
        ExecHalves(d, d, Exec(Lea32(d, s, k), m));
      } else if k != 0 {
        assert AddiwTail(s, d, k) == [AluRI(Add32, d, k), x];
        RunTwo(AluRI(Add32, d, k), x, m);
        ExecAluRI(Add32, d, k, m);
        AluAdd(m.regs[d], k);
        ExecHalves(d, d, Exec(AluRI(Add32, d, k), m));
      } else {
        assert AddiwTail(s, d, k) == [x];
        RunOne(x, m);
        ExecHalves(d, d, m);
      }
    }
  }

  /** A move, if needed, and an instruction in place. */
  lemma ComputesInPlace(s: Host, d: Host, i: Code, f: Word -> Word)
    requires forall m: Machine :: OnlyWrites(m, Exec(i, m), d) && Exec(i, m).regs[d] == f(m.regs[d])
    ensures Computes(MoveThen(s, d, i), s, d, f)
  {
    hide Run, Exec;
    forall m: Machine
      ensures var m' := Run(MoveThen(s, d, i), m);
              OnlyWrites(m, m', d) && m'.regs[d] == f(m.regs[s])
    {
      if s != d {
        RunTwo(Mov64(d, s), i, m);
        ExecMoves(d, s, 0, m);
      } else {
        RunOne(i, m);
      }
    }
  }

  lemma ComputesSlli(s: Host, d: Host, k: Word)
    ensures Computes(SlliTail(s, d, k), s, d, (x: Word) => Shl(x, k))
  {
    hide Run, Exec, Shl;
    ShiftCount(k);
    if d != s && k % 64 in {1, 2, 3} {
      forall m: Machine
        ensures var m' := Run(SlliTail(s, d, k), m);
                OnlyWrites(m, m', d) && m'.regs[d] == Shl(m.regs[s], k)
      {
        RunOne(LeaScaled64(d, s, k % 64), m);
        ExecMoves(d, s, k % 64, m);
      }
    } else {
      forall m: Machine
        ensures var m' := Exec(ShlImm64(d, k % 64), m);
                OnlyWrites(m, m', d) && m'.regs[d] == Shl(m.regs[d], k)
      {
        ExecShifts(d, k % 64, m);
      }
      ComputesInPlace(s, d, ShlImm64(d, k % 64), (x: Word) => Shl(x, k));
    }
  }

  lemma ShiftCount(k: Word)
    ensures forall x: Word :: Shl(x, k % 64) == Shl(x, k) && Shr(x, k % 64) == Shr(x, k)
  {
    assert k % 64 % 64 == k % 64;
  }

  lemma ComputesSrli(s: Host, d: Host, k: Word)
    ensures Computes(SrliTail(s, d, k), s, d, (x: Word) => Shr(x, k))
  {
    hide Run, Exec, Shr;
    ShiftCount(k);
    forall m: Machine
      ensures var m' := Exec(ShrImm64(d, k % 64), m);
              OnlyWrites(m, m', d) && m'.regs[d] == Shr(m.regs[d], k)
    {
      ExecShifts(d, k % 64, m);
    }
    ComputesInPlace(s, d, ShrImm64(d, k % 64), (x: Word) => Shr(x, k));
  }

  lemma ComputesXori(s: Host, d: Host, k: Word)
    ensures Computes(XoriTail(s, d, k), s, d, (x: Word) => Xor(x, k))
  {
    hide Run, Exec, AluEval, Xor;
    forall m: Machine
      ensures var m' := Exec(AluRI(Xor64, d, k), m);
              OnlyWrites(m, m', d) && m'.regs[d] == Xor(m.regs[d], k)
    {
      ExecAluRI(Xor64, d, k, m);
      AluAdd(m.regs[d], k);
    }
    ComputesInPlace(s, d, AluRI(Xor64, d, k), (x: Word) => Xor(x, k));
  }

  lemma ComputesAndi(s: Host, d: Host, k: Word)
    ensures Computes(AndiTail(s, d, k), s, d, (x: Word) => And(x, k))
  {
    hide Run, Exec, AluEval, And, Low32;
    if k < TWO_32 {
      forall m: Machine
        ensures var m' := Run(AndiTail(s, d, k), m);
                OnlyWrites(m, m', d) && m'.regs[d] == And(m.regs[s], k)
      {
        var a := AluRI(And32, d, k);
        AndBelow32(m.regs[s], k);
        if d != s {
          assert AndiTail(s, d, k) == [Mov32(d, s), a];
          RunTwo(Mov32(d, s), a, m);
          ExecHalves(d, s, m);
          ExecAluRI(And32, d, k, Exec(Mov32(d, s), m));
          AluAdd(Low32(m.regs[s]), k);
        } else {
          assert AndiTail(s, d, k) == [a];
          RunOne(a, m);
          ExecAluRI(And32, d, k, m);
          AluAdd(m.regs[s], k);
        }
      }
    } else {
      forall m: Machine
        ensures var m' := Exec(AluRI(And64, d, k), m);
                OnlyWrites(m, m', d) && m'.regs[d] == And(m.regs[d], k)
      {
        ExecAluRI(And64, d, k, m);
        AluAdd(m.regs[d], k);
      }
      ComputesInPlace(s, d, AluRI(And64, d, k), (x: Word) => And(x, k));
    }
  }

  lemma ComputesSltiu(s: Host, d: Host, k: Word)
    ensures Computes(SltiuTail(s, d, k), s, d, (x: Word) => Bool(x < k))
  {
    hide Run, Exec, Low8, SetLowByte, Bool, Signed;
    forall m: Machine
      ensures var m' := Run(SltiuTail(s, d, k), m);
              OnlyWrites(m, m', d) && m'.regs[d] == Bool(m.regs[s] < k)
    {
      var m1 := Exec(CmpImm64(s, k), m);
      RunThree(CmpImm64(s, k), SetC(d), Movzx32From8(d, d), m);
      ExecCmp(s, s, k, m);
      ExecSetOrder(d, m1);
      ExecMovzx(d, d, Exec(SetC(d), m1));
      ByteOfFlag(m.regs[d], m.regs[s] < k);
    }
  }

  lemma ComputesSlt(s1: Host, s2: Host, d: Host)
    ensures ComputesTwo(SltTail(s1, s2, d), s1, s2, d, (a: Word, b: Word) => Bool(Signed(a) < Signed(b)))
  {
    hide Run, Exec, Low8, SetLowByte, Bool, Signed;
    forall m: Machine
      ensures var m' := Run(SltTail(s1, s2, d), m);
              OnlyWrites(m, m', d) && m'.regs[d] == Bool(Signed(m.regs[s1]) < Signed(m.regs[s2]))
    {
      var m1 := Exec(Cmp64(s1, s2), m);
      RunThree(Cmp64(s1, s2), SetL(d), Movzx32From8(d, d), m);
      ExecCmp(s1, s2, 0, m);
      ExecSetOrder(d, m1);
      ExecMovzx(d, d, Exec(SetL(d), m1));
      ByteOfFlag(m.regs[d], Signed(m.regs[s1]) < Signed(m.regs[s2]));
    }
  }

  lemma ComputesSltu(s1: Host, s2: Host, d: Host)
    ensures ComputesTwo(SltuTail(s1, s2, d), s1, s2, d, (a: Word, b: Word) => Bool(a < b))
  {
    hide Run, Exec, Low8, SetLowByte, Bool, Signed;
    forall m: Machine
      ensures var m' := Run(SltuTail(s1, s2, d), m);
              OnlyWrites(m, m', d) && m'.regs[d] == Bool(m.regs[s1] < m.regs[s2])
    {
      var m1 := Exec(Cmp64(s1, s2), m);
      RunThree(Cmp64(s1, s2), SetC(d), Movzx32From8(d, d), m);
      ExecCmp(s1, s2, 0, m);
      ExecSetOrder(d, m1);
      ExecMovzx(d, d, Exec(SetC(d), m1));
      ByteOfFlag(m.regs[d], m.regs[s1] < m.regs[s2]);
    }
  }

  lemma ExecNeg64(d: Host, m: Machine)
    ensures Exec(Neg64(d), m) == Put(m, d, Sub(0, m.regs[d])).(tested := 0, order := UNORDERED)
  {
    hide Sub;
  }

  lemma ExecAluRR(op: Alu, d: Host, s: Host, m: Machine)
    ensures Exec(AluRR(op, d, s), m) == Put(m, d, AluEval(op, m.regs[d], m.regs[s])).(tested := 0, order := UNORDERED)
  {
    hide AluEval;
  }

  lemma SubSame(a: Word)
    ensures Sub(a, a) == 0 && Sx32(Sub(a, a)) == 0 && Sx32(0) == 0
  {
  }

  lemma ComputesSub(s1: Host, s2: Host, d: Host)
    ensures ComputesTwo(SubTail(s1, s2, d), s1, s2, d, (a: Word, b: Word) => Sub(a, b))
  {
    hide Run, Exec, AluEval, Sub, Add;
    forall m: Machine
      ensures var m' := Run(SubTail(s1, s2, d), m);
              OnlyWrites(m, m', d) && m'.regs[d] == Sub(m.regs[s1], m.regs[s2])
    {
      if d != s2 {
        ArithmRuns(Sub64, s1, s2, d, m);
        AluAdd(m.regs[s1], m.regs[s2]);
      } else if d == s1 {
        RunZero(d, m);
        SubSame(m.regs[d]);
      } else {
        var m1 := Exec(Neg64(s2), m);
        RunTwo(Neg64(s2), AluRR(Add64, s2, s1), m);
        ExecNeg64(s2, m);
        ExecAluRR(Add64, s2, s1, m1);
        AluAdd(m1.regs[s2], m1.regs[s1]);
        SubByNegation(m.regs[s1], m.regs[s2]);
      }
    }
  }

  lemma ComputesSubw(s1: Host, s2: Host, d: Host)
    ensures ComputesTwo(SubwTail(s1, s2, d), s1, s2, d, (a: Word, b: Word) => Sx32(Sub(a, b)))
  {
    hide Run, Exec, AluEval, Sub, Add, Sx32, Low32;
    forall m: Machine
      ensures var m' := Run(SubwTail(s1, s2, d), m);
              OnlyWrites(m, m', d) && m'.regs[d] == Sx32(Sub(m.regs[s1], m.regs[s2]))
    {
      var front, x := SubwTail(s1, s2, d)[..|SubwTail(s1, s2, d)| - 1], Movsx64From32(d, d);
      assert SubwTail(s1, s2, d) == front + [x];
      var m1 := Run(front, m);
      RunAppend(front, [x], m);
      RunOne(x, m1);
      ExecHalves(d, d, m1);
      if d != s2 {
        assert front == Arithm(Sub32, s1, s2, d);
        ArithmRuns(Sub32, s1, s2, d, m);
        AluAdd(m.regs[s1], m.regs[s2]);
        LowIdempotent(Sub(m.regs[s1], m.regs[s2]));
      } else if d == s1 {
        RunZero(d, m);
        SubSame(m.regs[d]);
      } else {
        RunTwo(Neg32(s2), AluRR(Add32, s2, s1), m);
        ExecHalves(s2, s2, m);
        ExecAluRR(Add32, s2, s1, Exec(Neg32(s2), m));
        AluAdd(Low32(Sub(0, m.regs[s2])), m.regs[s1]);
        SubLow(m.regs[s1], m.regs[s2]);
      }
    }
  }

  // ----- each translator does what its instruction does -----

  /** Tail code that computes the destination from guest memory and one operand. */
  ghost predicate ComputesFrom(tail: seq<Code>, hs: Host, hd: Host, f: (Memory, Word) -> Word) {
    forall m: Machine :: OnlyWrites(m, Run(tail, m), hd) && Run(tail, m).regs[hd] == f(m.mem, m.regs[hs])
  }

  lemma FromSourceSound(other: Other, sm: StaticMap, c: Cache, rs: Guest, rd: Guest, tail: seq<Code>,
                        f: (Memory, Word) -> Word, i: Instr)
    requires IsStaticMap(sm) && Injective(sm) && Inv(sm, c)
    requires ComputesFrom(tail, SrcHost(sm, c, rs), DstHost(sm, c, rs, rd), f)
    requires forall s: State :: Step(other, i, s) == SetReg(s, rd, f(s.mem, Reg(s, rs)))
    ensures var e := FromSource(sm, c, rs, rd, tail);
            Sound(other, sm, c, e.code, e.cache, [i])
  {
    NotSpare(sm, GetSrc(sm, c, rs).cache, rd);
    assert !Spare(sm, DstHost(sm, c, rs, rd));
    hide Run, Step, Steps, SrcDst, DstHost, SrcHost, Val, Inv, Home, LeavesHost, Spare, View, Reg, SetReg;
    var e := SrcDst(sm, c, rs, rd);
    var m0: Machine :| true;
    SrcDstKeeps(sm, c, rs, rd, m0);
    forall m: Machine
      ensures var m' := Run(e.code + tail, m);
              View(sm, e.cache, m') == Steps(other, [i], View(sm, c, m)) && LeavesHost(sm, m, m')
    {
      var m1 := Run(e.code, m);
      SrcDstKeeps(sm, c, rs, rd, m);
      ViewReg(sm, c, m, rs);
      ViewMem(sm, c, m);
      Steps1(other, [i], View(sm, c, m));
      RunAppend(e.code, tail, m);
      WriteHome(sm, c, m, e.cache, m1, rd, DstHost(sm, c, rs, rd), Run(tail, m1));
    }
  }

  /** What an instruction with one source computes. */
  function ValueOf(i: Instr): (Memory, Word) -> Word {
    match i.mnem
    case ADDI => (mem: Memory, x: Word) => Add(x, i.imm)
    case ADDIW => (mem: Memory, x: Word) => Sx32(Add(x, i.imm))
    case SLLI => (mem: Memory, x: Word) => Shl(x, i.imm)
    case SRLI => (mem: Memory, x: Word) => Shr(x, i.imm)
    case XORI => (mem: Memory, x: Word) => Xor(x, i.imm)
    case ANDI => (mem: Memory, x: Word) => And(x, i.imm)
    case SLTIU => (mem: Memory, x: Word) => Bool(x < i.imm)
    case LW => (mem: Memory, x: Word) => Sx32(Read32(mem, Add(x, i.imm)))
    case _ => (mem: Memory, x: Word) => Read64(mem, Add(x, i.imm))
  }

  predicate HasOneSource(m: Mnem) { m in {ADDI, ADDIW, SLLI, SRLI, XORI, ANDI, SLTIU, LW, LD} }

  lemma Lifted(tail: seq<Code>, s: Host, d: Host, f: Word -> Word, g: (Memory, Word) -> Word)
    requires Computes(tail, s, d, f) && forall mem: Memory, x: Word :: g(mem, x) == f(x)
    ensures ComputesFrom(tail, s, d, g)
  {
    hide Run;
  }

  lemma SumsCompute(i: Instr, s: Host, d: Host)
    requires i.mnem in {ADDI, ADDIW, SLTIU}
    ensures ComputesFrom(OneSourceTail(i, s, d), s, d, ValueOf(i))
  {
    hide Run, Computes, ComputesFrom, AddiTail, AddiwTail, SltiuTail, Add, Sx32, Bool;
    match i.mnem
    case ADDI =>
      ComputesAddi(s, d, i.imm);
      Lifted(AddiTail(s, d, i.imm), s, d, (x: Word) => Add(x, i.imm), ValueOf(i));
    case ADDIW =>
      ComputesAddiw(s, d, i.imm);
      Lifted(AddiwTail(s, d, i.imm), s, d, (x: Word) => Sx32(Add(x, i.imm)), ValueOf(i));
    case SLTIU =>
      ComputesSltiu(s, d, i.imm);
      Lifted(SltiuTail(s, d, i.imm), s, d, (x: Word) => Bool(x < i.imm), ValueOf(i));
  }

  lemma BitsCompute(i: Instr, s: Host, d: Host)
    requires i.mnem in {SLLI, SRLI, XORI, ANDI}
    ensures ComputesFrom(OneSourceTail(i, s, d), s, d, ValueOf(i))
  {
    hide Run, Computes, ComputesFrom, SlliTail, SrliTail, XoriTail, AndiTail, Shl, Shr, Xor, And;
    match i.mnem
    case SLLI =>
      ComputesSlli(s, d, i.imm);
      Lifted(SlliTail(s, d, i.imm), s, d, (x: Word) => Shl(x, i.imm), ValueOf(i));
    case SRLI =>
      ComputesSrli(s, d, i.imm);
      Lifted(SrliTail(s, d, i.imm), s, d, (x: Word) => Shr(x, i.imm), ValueOf(i));
    case XORI =>
      ComputesXori(s, d, i.imm);
      Lifted(XoriTail(s, d, i.imm), s, d, (x: Word) => Xor(x, i.imm), ValueOf(i));
    case ANDI =>
      ComputesAndi(s, d, i.imm);
      Lifted(AndiTail(s, d, i.imm), s, d, (x: Word) => And(x, i.imm), ValueOf(i));
  }

  lemma LoadWordComputes(i: Instr, s: Host, d: Host)
    requires i.mnem == LW
    ensures ComputesFrom([LoadSx32At(d, s, i.imm)], s, d, ValueOf(i))
  {
    hide Run, Exec, Sx32, Read32, Add;
    forall m: Machine
      ensures var m' := Run([LoadSx32At(d, s, i.imm)], m);
              OnlyWrites(m, m', d) && m'.regs[d] == ValueOf(i)(m.mem, m.regs[s])
    {
      RunOne(LoadSx32At(d, s, i.imm), m);
      ExecLoadAt(d, s, i.imm, m);
    }
  }

  lemma LoadDoubleComputes(i: Instr, s: Host, d: Host)
    requires i.mnem == LD
    ensures ComputesFrom([Load64At(d, s, i.imm)], s, d, ValueOf(i))
  {
    hide Run, Exec, Read64, Add;
    forall m: Machine
      ensures var m' := Run([Load64At(d, s, i.imm)], m);
              OnlyWrites(m, m', d) && m'.regs[d] == ValueOf(i)(m.mem, m.regs[s])
    {
      RunOne(Load64At(d, s, i.imm), m);
      ExecLoadAt(d, s, i.imm, m);
    }
  }

  lemma OneSourceTailComputes(i: Instr, s: Host, d: Host)
    requires HasOneSource(i.mnem)
    ensures ComputesFrom(OneSourceTail(i, s, d), s, d, ValueOf(i))
  {
    hide ValueOf, ComputesFrom, AddiTail, AddiwTail, SlliTail, SrliTail, XoriTail, AndiTail, SltiuTail;
    if i.mnem in {ADDI, ADDIW, SLTIU} { SumsCompute(i, s, d); }
    else if i.mnem == LW { LoadWordComputes(i, s, d); }
    else if i.mnem == LD { LoadDoubleComputes(i, s, d); }
    else { BitsCompute(i, s, d); }
  }

  lemma OneSourceStep(other: Other, i: Instr, s: State)
    requires HasOneSource(i.mnem) && Decoded(i)
    ensures i.rs1 < 32 && i.rd < 32 && Step(other, i, s) == SetReg(s, i.rd, ValueOf(i)(s.mem, Reg(s, i.rs1)))
  {
    hide Add, Sx32, Shl, Shr, Xor, And, Bool, Read32, Read64, SetReg, Reg;
  }

  lemma OneSourceSound(other: Other, sm: StaticMap, c: Cache, i: Instr)
    requires IsStaticMap(sm) && Injective(sm) && Inv(sm, c) && Decoded(i) && HasOneSource(i.mnem)
    ensures var e := OneSource(sm, c, i);
            Sound(other, sm, c, e.code, e.cache, [i])
  {
    var s0: State :| true;
    OneSourceStep(other, i, s0);
    hide Step, ValueOf, OneSourceTail, Decoded, IsStaticMap, Injective, Inv, ComputesFrom, Sound, SrcHost, DstHost,
         FromSource;
    var s, d := SrcHost(sm, c, i.rs1), DstHost(sm, c, i.rs1, i.rd);
    OneSourceTailComputes(i, s, d);
    forall g: State ensures Step(other, i, g) == SetReg(g, i.rd, ValueOf(i)(g.mem, Reg(g, i.rs1))) {
      OneSourceStep(other, i, g);
    }
    FromSourceSound(other, sm, c, i.rs1, i.rd, OneSourceTail(i, s, d), ValueOf(i), i);
  }

  predicate HasTwoSources(m: Mnem) { m in {SUB, SUBW, SLT, SLTU} }

  function ResultOf(i: Instr): (Word, Word) -> Word {
    match i.mnem
    case SUB => (a: Word, b: Word) => Sub(a, b)
    case SUBW => (a: Word, b: Word) => Sx32(Sub(a, b))
    case SLT => (a: Word, b: Word) => Bool(Signed(a) < Signed(b))
    case _ => (a: Word, b: Word) => Bool(a < b)
  }

  lemma TwoSourcesTailComputes(i: Instr, s1: Host, s2: Host, d: Host)
    requires HasTwoSources(i.mnem)
    ensures ComputesTwo(TwoSourcesTail(i, s1, s2, d), s1, s2, d, ResultOf(i))
  {
    hide Run, SubTail, SubwTail, SltTail, SltuTail, Sub, Sx32, Bool, Signed;
    match i.mnem
    case SUB => ComputesSub(s1, s2, d);
    case SUBW => ComputesSubw(s1, s2, d);
    case SLT => ComputesSlt(s1, s2, d);
    case SLTU => ComputesSltu(s1, s2, d);
  }

  lemma TwoSourcesStep(other: Other, i: Instr, s: State)
    requires HasTwoSources(i.mnem) && Decoded(i)
    ensures i.rs1 < 32 && i.rs2 < 32 && i.rd < 32
    ensures Steps(other, [i], s) == SetReg(s, i.rd, ResultOf(i)(Reg(s, i.rs1), Reg(s, i.rs2)))
  {
    Steps1(other, [i], s);
    hide Sub, Sx32, Bool, Signed, SetReg, Reg;
  }

  lemma TwoSourcesSound(other: Other, sm: StaticMap, c: Cache, i: Instr)
    requires IsStaticMap(sm) && Injective(sm) && Inv(sm, c) && Decoded(i) && HasTwoSources(i.mnem)
    ensures var e := TwoSources(sm, c, i);
            Sound(other, sm, c, e.code, e.cache, [i])
  {
    var s0: State :| true;
    TwoSourcesStep(other, i, s0);
    hide Steps, Step, ResultOf, TwoSourcesTail, Decoded, IsStaticMap, Injective, Inv, ComputesTwo, Sound, SrcHost,
         Second, Third, SrcSrcDst;
    var s1, s2, d := SrcHost(sm, c, i.rs1), Second(sm, c, i.rs1, i.rs2), Third(sm, c, i.rs1, i.rs2, i.rd);
    TwoSourcesTailComputes(i, s1, s2, d);
    forall g: State ensures Steps(other, [i], g) == SetReg(g, i.rd, ResultOf(i)(Reg(g, i.rs1), Reg(g, i.rs2))) {
      TwoSourcesStep(other, i, g);
    }
    SrcSrcDstSound(other, sm, c, i.rs1, i.rs2, i.rd, TwoSourcesTail(i, s1, s2, d), ResultOf(i), [i]);
  }

  lemma StoreSound(other: Other, sm: StaticMap, c: Cache, i: Instr)
    requires IsStaticMap(sm) && Inv(sm, c) && Decoded(i) && i.mnem in {SW, SD}
    ensures var e := TwoSourcesStore(sm, c, i);
            Sound(other, sm, c, e.code, e.cache, [i])
  {
    hide Steps, Exec, IsStaticMap, Inv, Sound, SrcHost, Second, SrcSrc, Write32, Write64, Add;
    var s1, s2 := SrcHost(sm, c, i.rs1), Second(sm, c, i.rs1, i.rs2);
    forall m: Machine
      ensures Exec(Store32At(s1, i.imm, s2), m) == m.(mem := Write32(m.mem, Add(m.regs[s1], i.imm), m.regs[s2]))
      ensures Exec(Store64At(s1, i.imm, s2), m) == m.(mem := Write64(m.mem, Add(m.regs[s1], i.imm), m.regs[s2]))
    {
      ExecStoreAt(s2, s1, i.imm, m);
    }
    forall g: State ensures Steps(other, [i], g) == Step(other, i, g) { Steps1(other, [i], g); }
    if i.mnem == SW {
      SrcSrcSound(other, sm, c, i.rs1, i.rs2, Store32At(s1, i.imm, s2),
                  (mem: Memory, a: Word, b: Word) => Write32(mem, Add(a, i.imm), b), [i]);
    } else {
      SrcSrcSound(other, sm, c, i.rs1, i.rs2, Store64At(s1, i.imm, s2),
                  (mem: Memory, a: Word, b: Word) => Write64(mem, Add(a, i.imm), b), [i]);
    }
  }

  lemma ConstantSound(other: Other, sm: StaticMap, c: Cache, i: Instr, k: Word)
    requires IsStaticMap(sm) && Injective(sm) && Inv(sm, c) && i.rd < 32
    requires forall s: State :: Step(other, i, s) == SetReg(s, i.rd, k)
    ensures var e := IntoDst(sm, c, i.rd, [MovImm(SrcHost(sm, c, i.rd), k)]);
            Sound(other, sm, c, e.code, e.cache, [i])
  {
    hide Steps, Step, IsStaticMap, Injective, Inv, Sound, SrcHost, GetDst, Run, Exec;
    var d := SrcHost(sm, c, i.rd);
    forall m: Machine ensures OnlyWrites(m, Run([MovImm(d, k)], m), d) && Run([MovImm(d, k)], m).regs[d] == k {
      RunOne(MovImm(d, k), m);
      ExecMovImm(d, k, m);
    }
    forall g: State ensures Steps(other, [i], g) == SetReg(g, i.rd, k) { Steps1(other, [i], g); }
    DstSound(other, sm, c, i.rd, [MovImm(d, k)], (mem: Memory) => k, [i]);
  }

  lemma NoCodeSound(other: Other, sm: StaticMap, c: Cache, i: Instr)
    requires Inv(sm, c) && forall s: State :: Step(other, i, s) == s
    ensures Sound(other, sm, c, [], c, [i])
  {
    hide Step, Steps, View, Inv;
    forall m: Machine
      ensures View(sm, c, Run([], m)) == Steps(other, [i], View(sm, c, m)) && LeavesHost(sm, m, Run([], m))
    {
      RunNone(m);
      Steps1(other, [i], View(sm, c, m));
    }
  }

  /** Every translator modelled here is right, for every register map, cache state, choice of
      registers and immediate. */
  lemma TranslatedSound(other: Other, sm: StaticMap, c: Cache, i: Instr)
    requires IsStaticMap(sm) && Injective(sm) && Inv(sm, c) && Decoded(i) && Known(i.mnem)
    ensures var e := Translated(sm, c, i);
            Sound(other, sm, c, e.code, e.cache, [i])
  {
    hide IsStaticMap, Injective, Inv, Sound, SrcHost, OneSource, TwoSources, TwoSourcesStore, IntoDst, Add, SetReg;
    match i.mnem
    case LUI => ConstantSound(other, sm, c, i, i.imm);
    case AUIPC =>
      if i.rd == X0 {
        forall s: State ensures Step(other, i, s) == s { WriteX0(s, Add(i.addr, i.imm)); }
        NoCodeSound(other, sm, c, i);
      } else {
        ConstantSound(other, sm, c, i, Add(i.addr, i.imm));
      }
    case SW => StoreSound(other, sm, c, i);
    case SD => StoreSound(other, sm, c, i);
    case SUB => TwoSourcesSound(other, sm, c, i);
    case SUBW => TwoSourcesSound(other, sm, c, i);
    case SLT => TwoSourcesSound(other, sm, c, i);
    case SLTU => TwoSourcesSound(other, sm, c, i);
    case _ => OneSourceSound(other, sm, c, i);
  }

  lemma WriteX0(s: State, w: Word)
    ensures SetReg(s, X0, w) == s
  {
  }

  // ----- the translators in place -----

  method TranslateLui(r: RegisterInfo, i: Instr)
    requires r.Valid() && Decoded(i) && i.mnem == LUI
    modifies r`code, r`clock, r.content, r.recency
    ensures var e := Translated(r.sm, old(r.State()), i);
            r.Valid() && r.State() == e.cache && r.code == old(r.code) + e.code
  {
    hide GetDst, SrcHost;
    var d := r.GetRd(i.rd);
    r.Emit(MovImm(d, i.imm));
  }

  method TranslateAuipc(r: RegisterInfo, i: Instr)
    requires r.Valid() && Decoded(i) && i.mnem == AUIPC
    modifies r`code, r`clock, r.content, r.recency
    ensures var e := Translated(r.sm, old(r.State()), i);
            r.Valid() && r.State() == e.cache && r.code == old(r.code) + e.code
  {
    hide GetDst, SrcHost;
    if i.rd != X0 {
      var d := r.GetRd(i.rd);
      r.Emit(MovImm(d, Add(i.addr, i.imm)));
    }
  }

  method TranslateAddi(r: RegisterInfo, i: Instr)
    requires r.Valid() && Decoded(i) && i.mnem == ADDI
    modifies r`code, r`clock, r.content, r.recency
    ensures var e := Translated(r.sm, old(r.State()), i);
            r.Valid() && r.State() == e.cache && r.code == old(r.code) + e.code
  {
    hide SrcDst, SrcHost, DstHost;
    var s, d := GetRsRd(r, i.rs1, i.rd);
    if d != s {
      r.Emit(Lea64(d, s, i.imm));
    } else if i.imm != 0 {
      r.Emit(AluRI(Add64, d, i.imm));
    }
  }

  method TranslateAddiw(r: RegisterInfo, i: Instr)
    requires r.Valid() && Decoded(i) && i.mnem == ADDIW
    modifies r`code, r`clock, r.content, r.recency
    ensures var e := Translated(r.sm, old(r.State()), i);
            r.Valid() && r.State() == e.cache && r.code == old(r.code) + e.code
  {
    hide SrcDst, SrcHost, DstHost;
    var s, d := GetRsRd(r, i.rs1, i.rd);
    if d != s {
      r.Emit(Lea32(d, s, i.imm));
    } else if i.imm != 0 {
      r.Emit(AluRI(Add32, d, i.imm));
    }
    r.Emit(Movsx64From32(d, d));
  }

  method TranslateSlli(r: RegisterInfo, i: Instr)
    requires r.Valid() && Decoded(i) && i.mnem == SLLI
    modifies r`code, r`clock, r.content, r.recency
    ensures var e := Translated(r.sm, old(r.State()), i);
            r.Valid() && r.State() == e.cache && r.code == old(r.code) + e.code
  {
    hide SrcDst, SrcHost, DstHost;
    var s, d := GetRsRd(r, i.rs1, i.rd);
    var k := i.imm % 64;
    if d != s && k in {1, 2, 3} {
      r.Emit(LeaScaled64(d, s, k));
    } else {
      if d != s {
        r.Emit(Mov64(d, s));
      }
      r.Emit(ShlImm64(d, k));
    }
  }

  method TranslateSrli(r: RegisterInfo, i: Instr)
    requires r.Valid() && Decoded(i) && i.mnem == SRLI
    modifies r`code, r`clock, r.content, r.recency
    ensures var e := Translated(r.sm, old(r.State()), i);
            r.Valid() && r.State() == e.cache && r.code == old(r.code) + e.code
  {
    hide SrcDst, SrcHost, DstHost;
    var s, d := GetRsRd(r, i.rs1, i.rd);
    if d != s {
      r.Emit(Mov64(d, s));
    }
    r.Emit(ShrImm64(d, i.imm % 64));
  }

  method TranslateXori(r: RegisterInfo, i: Instr)
    requires r.Valid() && Decoded(i) && i.mnem == XORI
    modifies r`code, r`clock, r.content, r.recency
    ensures var e := Translated(r.sm, old(r.State()), i);
            r.Valid() && r.State() == e.cache && r.code == old(r.code) + e.code
  {
    hide SrcDst, SrcHost, DstHost;
    var s, d := GetRsRd(r, i.rs1, i.rd);
    if d != s {
      r.Emit(Mov64(d, s));
    }
    r.Emit(AluRI(Xor64, d, i.imm));
  }

  method TranslateAndi(r: RegisterInfo, i: Instr)
    requires r.Valid() && Decoded(i) && i.mnem == ANDI
    modifies r`code, r`clock, r.content, r.recency
    ensures var e := Translated(r.sm, old(r.State()), i);
            r.Valid() && r.State() == e.cache && r.code == old(r.code) + e.code
  {
    hide SrcDst, SrcHost, DstHost;
    var s, d := GetRsRd(r, i.rs1, i.rd);
    if i.imm < TWO_32 {
      if d != s {
        r.Emit(Mov32(d, s));
      }
      r.Emit(AluRI(And32, d, i.imm));
    } else {
      if d != s {
        r.Emit(Mov64(d, s));
      }
      r.Emit(AluRI(And64, d, i.imm));
    }
  }

  method TranslateSltiu(r: RegisterInfo, i: Instr)
    requires r.Valid() && Decoded(i) && i.mnem == SLTIU
    modifies r`code, r`clock, r.content, r.recency
    ensures var e := Translated(r.sm, old(r.State()), i);
            r.Valid() && r.State() == e.cache && r.code == old(r.code) + e.code
  {
    hide SrcDst, SrcHost, DstHost;
    var s, d := GetRsRd(r, i.rs1, i.rd);
    r.Emit(CmpImm64(s, i.imm));
    r.Emit(SetC(d));
    r.Emit(Movzx32From8(d, d));
  }

  method TranslateLw(r: RegisterInfo, i: Instr)
    requires r.Valid() && Decoded(i) && i.mnem == LW
    modifies r`code, r`clock, r.content, r.recency
    ensures var e := Translated(r.sm, old(r.State()), i);
            r.Valid() && r.State() == e.cache && r.code == old(r.code) + e.code
  {
    hide SrcDst, SrcHost, DstHost;
    var s, d := GetRsRd(r, i.rs1, i.rd);
    r.Emit(LoadSx32At(d, s, i.imm));
  }

  method TranslateLd(r: RegisterInfo, i: Instr)
    requires r.Valid() && Decoded(i) && i.mnem == LD
    modifies r`code, r`clock, r.content, r.recency
    ensures var e := Translated(r.sm, old(r.State()), i);
            r.Valid() && r.State() == e.cache && r.code == old(r.code) + e.code
  {
    hide SrcDst, SrcHost, DstHost;
    var s, d := GetRsRd(r, i.rs1, i.rd);
    r.Emit(Load64At(d, s, i.imm));
  }

  method TranslateSw(r: RegisterInfo, i: Instr)
    requires r.Valid() && Decoded(i) && i.mnem == SW
    modifies r`code, r`clock, r.content, r.recency
    ensures var e := Translated(r.sm, old(r.State()), i);
            r.Valid() && r.State() == e.cache && r.code == old(r.code) + e.code
  {
    hide SrcSrc, SrcHost, Second;
    var s1, s2 := GetRsRs(r, i.rs1, i.rs2);
    r.Emit(Store32At(s1, i.imm, s2));
  }

  method TranslateSd(r: RegisterInfo, i: Instr)
    requires r.Valid() && Decoded(i) && i.mnem == SD
    modifies r`code, r`clock, r.content, r.recency
    ensures var e := Translated(r.sm, old(r.State()), i);
            r.Valid() && r.State() == e.cache && r.code == old(r.code) + e.code
  {
    hide SrcSrc, SrcHost, Second;
    var s1, s2 := GetRsRs(r, i.rs1, i.rs2);
    r.Emit(Store64At(s1, i.imm, s2));
  }

  method TranslateSub(r: RegisterInfo, i: Instr)
    requires r.Valid() && Decoded(i) && i.mnem == SUB
    modifies r`code, r`clock, r.content, r.recency
    ensures var e := Translated(r.sm, old(r.State()), i);
            r.Valid() && r.State() == e.cache && r.code == old(r.code) + e.code
  {
    hide SrcSrcDst, SrcHost, Second, Third;
    var s1, s2, d := GetRsRsRd(r, i.rs1, i.rs2, i.rd);
    if d == s2 {
      if d == s1 {
        r.Emit(Xor32(d, d));
      } else {
        r.Emit(Neg64(s2));
        r.Emit(AluRR(Add64, s2, s1));
      }
    } else {
      DoArithmCommutative(r, s1, s2, d, Sub64);
    }
  }

  method TranslateSubw(r: RegisterInfo, i: Instr)
    requires r.Valid() && Decoded(i) && i.mnem == SUBW
    modifies r`code, r`clock, r.content, r.recency
    ensures var e := Translated(r.sm, old(r.State()), i);
            r.Valid() && r.State() == e.cache && r.code == old(r.code) + e.code
  {
    hide SrcSrcDst, SrcHost, Second, Third;
    var s1, s2, d := GetRsRsRd(r, i.rs1, i.rs2, i.rd);
    if d == s2 {
      if d == s1 {
        r.Emit(Xor32(d, d));
      } else {
        r.Emit(Neg32(s2));
        r.Emit(AluRR(Add32, s2, s1));
      }
    } else {
      DoArithmCommutative(r, s1, s2, d, Sub32);
    }
    r.Emit(Movsx64From32(d, d));
  }

  method TranslateSlt(r: RegisterInfo, i: Instr)
    requires r.Valid() && Decoded(i) && i.mnem == SLT
    modifies r`code, r`clock, r.content, r.recency
    ensures var e := Translated(r.sm, old(r.State()), i);
            r.Valid() && r.State() == e.cache && r.code == old(r.code) + e.code
  {
    hide SrcSrcDst, SrcHost, Second, Third;
    var s1, s2, d := GetRsRsRd(r, i.rs1, i.rs2, i.rd);
    r.Emit(Cmp64(s1, s2));
    r.Emit(SetL(d));
    r.Emit(Movzx32From8(d, d));
  }

  method TranslateSltu(r: RegisterInfo, i: Instr)
    requires r.Valid() && Decoded(i) && i.mnem == SLTU
    modifies r`code, r`clock, r.content, r.recency
    ensures var e := Translated(r.sm, old(r.State()), i);
            r.Valid() && r.State() == e.cache && r.code == old(r.code) + e.code
  {
    hide SrcSrcDst, SrcHost, Second, Third;
    var s1, s2, d := GetRsRsRd(r, i.rs1, i.rs2, i.rd);
    r.Emit(Cmp64(s1, s2));
    r.Emit(SetC(d));
    r.Emit(Movzx32From8(d, d));
  }

  /** dispatch_instr, for these instructions. */
  method TranslateKnown(r: RegisterInfo, i: Instr)
    requires r.Valid() && Decoded(i) && Known(i.mnem)
    modifies r`code, r`clock, r.content, r.recency
    ensures var e := Translated(r.sm, old(r.State()), i);
            r.Valid() && r.State() == e.cache && r.code == old(r.code) + e.code
  {
    hide Translated;
    match i.mnem
    case LUI => TranslateLui(r, i);
    case AUIPC => TranslateAuipc(r, i);
    case ADDI => TranslateAddi(r, i);
    case ADDIW => TranslateAddiw(r, i);
    case SLLI => TranslateSlli(r, i);
    case SRLI => TranslateSrli(r, i);
    case XORI => TranslateXori(r, i);
    case ANDI => TranslateAndi(r, i);
    case SLTIU => TranslateSltiu(r, i);
    case LW => TranslateLw(r, i);
    case LD => TranslateLd(r, i);
    case SW => TranslateSw(r, i);
    case SD => TranslateSd(r, i);
    case SUB => TranslateSub(r, i);
    case SUBW => TranslateSubw(r, i);
    case SLT => TranslateSlt(r, i);
    case SLTU => TranslateSltu(r, i);
  }
}
