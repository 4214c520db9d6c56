/** The pattern emitters.  Each one appends code to the buffer and updates the register
    cache; its contract says that running the appended code does what the matched guest
    instructions do, for every machine state and every choice of registers. */
module Emitters {
  import opened Words
  import opened X86
  import opened RegisterCache
  import opened Riscv
  import opened Simulation
  import opened RegisterInfos
  import opened Arithmetic
  import opened Patterns

  /** What the emitters rely on. */
  ghost predicate Ready(r: RegisterInfo)
    reads r, r.content, r.recency
  {
    r.Valid() && IsStaticMap(r.sm) && Injective(r.sm) && Inv(r.sm, r.State())
  }

  /** From (c0, code0) to (c1, code1) sound code for window `w` was appended. */
  ghost predicate Appended(other: Other, sm: StaticMap, c0: Cache, code0: seq<Code>, c1: Cache, code1: seq<Code>,
                           w: seq<Instr>) {
    code0 <= code1 && Sound(other, sm, c0, code1[|code0|..], c1, w)
  }

  /** The last step of every emitter. */
  lemma Finish(other: Other, r: RegisterInfo, c0: Cache, code0: seq<Code>, a: seq<Code>, w: seq<Instr>)
    requires r.Valid() && IsStaticMap(r.sm) && Injective(r.sm)
    requires Sound(other, r.sm, c0, a, r.State(), w) && r.code == code0 + a
    ensures Ready(r) && Appended(other, r.sm, c0, code0, r.State(), r.code, w)
  {
    hide IsStaticMap, Injective, Run, View, Inv;
    assert r.code[|code0|..] == a;
  }

  // ----- tails: what follows the requests for registers -----

  function Zext32Tail(s: Host, d: Host): seq<Code> {
    [Mov32(d, s)]
  }

  lemma ComputesZext32(s: Host, d: Host)
    ensures Computes(Zext32Tail(s, d), s, d, (x: Word) => Low32(x))
  {
    hide Low32;
    forall m: Machine
      ensures var m' := Run(Zext32Tail(s, d), m);
              OnlyWrites(m, m', d) && m'.regs[d] == Low32(m.regs[s])
    {
      RunOne(Mov32(d, s), m);
    }
  }

  function Add32Tail(s: Host, d: Host, imm: Word): seq<Code> {
    if s != d then [Mov32(d, s), AluRI(Add32, d, imm)] else [AluRI(Add32, d, imm)]
  }

  lemma ComputesAdd32(s: Host, d: Host, imm: Word)
    ensures Computes(Add32Tail(s, d, imm), s, d, (x: Word) => Low32(Add(x, imm)))
  {
    hide Low32, Add;
    forall m: Machine
      ensures var m' := Run(Add32Tail(s, d, imm), m);
              OnlyWrites(m, m', d) && m'.regs[d] == Low32(Add(m.regs[s], imm))
    {
      if s != d {
        RunTwo(Mov32(d, s), AluRI(Add32, d, imm), m);
        Low32OfSum(m.regs[s], imm);
      } else {
        RunOne(AluRI(Add32, d, imm), m);
      }
    }
  }

  function MoveTail(s: Host, d: Host): seq<Code> {
    if s != d then [Mov64(d, s)] else []
  }

  lemma ComputesMove(s: Host, d: Host)
    ensures Computes(MoveTail(s, d), s, d, (x: Word) => x)
  {
    hide Low32;
    forall m: Machine
      ensures var m' := Run(MoveTail(s, d), m);
              OnlyWrites(m, m', d) && m'.regs[d] == m.regs[s]
    {
      if s != d { RunMov64(d, s, m); } else { RunNone(m); }
    }
  }

  function ComplementTail(s: Host, d: Host): seq<Code> {
    if s != d then [Mov64(d, s), Not64(d)] else [Not64(d)]
  }

  lemma ComputesComplement(s: Host, d: Host)
    ensures Computes(ComplementTail(s, d), s, d, (x: Word) => Not(x))
  {
    hide Not;
    forall m: Machine
      ensures var m' := Run(ComplementTail(s, d), m);
              OnlyWrites(m, m', d) && m'.regs[d] == Not(m.regs[s])
    {
      if s != d { RunTwo(Mov64(d, s), Not64(d), m); } else { RunOne(Not64(d), m); }
    }
  }

  function NegateTail(s: Host, d: Host): seq<Code> {
    if s != d then [Mov64(d, s), Neg64(d)] else [Neg64(d)]
  }

  lemma ComputesNegate(s: Host, d: Host)
    ensures Computes(NegateTail(s, d), s, d, (x: Word) => Sub(0, x))
  {
    hide Sub;
    forall m: Machine
      ensures var m' := Run(NegateTail(s, d), m);
              OnlyWrites(m, m', d) && m'.regs[d] == Sub(0, m.regs[s])
    {
      if s != d { RunTwo(Mov64(d, s), Neg64(d), m); } else { RunOne(Neg64(d), m); }
    }
  }

  function Negate32Tail(s: Host, d: Host): seq<Code> {
    if s != d then [Mov32(d, s), Neg32(d), Movsx64From32(d, d)] else [Neg32(d), Movsx64From32(d, d)]
  }

  lemma ComputesNegate32(s: Host, d: Host)
    ensures Computes(Negate32Tail(s, d), s, d, (x: Word) => Sx32(Sub(0, x)))
  {
    hide Low32, Sub, Sx32, Run, Exec;
    forall m: Machine
      ensures var m' := Run(Negate32Tail(s, d), m);
              OnlyWrites(m, m', d) && m'.regs[d] == Sx32(Sub(0, m.regs[s]))
    {
      if s != d {
        var m1 := Exec(Mov32(d, s), m);
        RunThree(Mov32(d, s), Neg32(d), Movsx64From32(d, d), m);
        ExecHalves(d, s, m);
        ExecHalves(d, d, m1);
        ExecHalves(d, d, Exec(Neg32(d), m1));
        NegatedLow(m.regs[s]);
      } else {
        RunTwo(Neg32(d), Movsx64From32(d, d), m);
        ExecHalves(d, d, m);
        ExecHalves(d, d, Exec(Neg32(d), m));
        LowIdempotent(Sub(0, m.regs[s]));
      }
    }
  }

  function IsZeroTail(s: Host, d: Host): seq<Code> {
    [Test64(s, s), SetZ(d), Movzx32From8(d, d)]
  }

  lemma ComputesIsZero(s: Host, d: Host)
    ensures Computes(IsZeroTail(s, d), s, d, (x: Word) => Bool(x == 0))
  {
    hide Exec, Run, Low8, SetLowByte, Bool, Signed;
    forall m: Machine
      ensures var m' := Run(IsZeroTail(s, d), m);
              OnlyWrites(m, m', d) && m'.regs[d] == Bool(m.regs[s] == 0)
    {
      var m1 := Exec(Test64(s, s), m);
      RunThree(Test64(s, s), SetZ(d), Movzx32From8(d, d), m);
      ExecTest(s, m);
      ExecSetcc(d, m1);
      ExecMovzx(d, d, Exec(SetZ(d), m1));
      ByteOfFlag(m.regs[d], m.regs[s] == 0);
    }
  }

  function IsNonzeroTail(s: Host, d: Host): seq<Code> {
    [Test64(s, s), SetNZ(d), Movzx32From8(d, d)]
  }

  lemma ComputesIsNonzero(s: Host, d: Host)
    ensures Computes(IsNonzeroTail(s, d), s, d, (x: Word) => Bool(x != 0))
  {
    hide Exec, Run, Low8, SetLowByte, Bool, Signed;
    forall m: Machine
      ensures var m' := Run(IsNonzeroTail(s, d), m);
              OnlyWrites(m, m', d) && m'.regs[d] == Bool(m.regs[s] != 0)
    {
      var m1 := Exec(Test64(s, s), m);
      RunThree(Test64(s, s), SetNZ(d), Movzx32From8(d, d), m);
      ExecTest(s, m);
      ExecSetcc(d, m1);
      ExecMovzx(d, d, Exec(SetNZ(d), m1));
      ByteOfFlag(m.regs[d], m.regs[s] != 0);
    }
  }

  function IsPositiveTail(s: Host, d: Host): seq<Code> {
    [Test64(s, s), SetG(d), Movzx32From8(d, d)]
  }

  lemma ComputesIsPositive(s: Host, d: Host)
    ensures Computes(IsPositiveTail(s, d), s, d, (x: Word) => Bool(Signed(x) > 0))
  {
    hide Exec, Run, Low8, SetLowByte, Bool, Signed;
    forall m: Machine
      ensures var m' := Run(IsPositiveTail(s, d), m);
              OnlyWrites(m, m', d) && m'.regs[d] == Bool(Signed(m.regs[s]) > 0)
    {
      var m1 := Exec(Test64(s, s), m);
      RunThree(Test64(s, s), SetG(d), Movzx32From8(d, d), m);
      ExecTest(s, m);
      ExecSetcc(d, m1);
      ExecMovzx(d, d, Exec(SetG(d), m1));
      ByteOfFlag(m.regs[d], Signed(m.regs[s]) > 0);
    }
  }

  /** The count of the second shift is the one of SRLI, less than 64. */
  function ZextShiftTail(s: Host, d: Host, k: Word): seq<Code> {
    [Mov32(d, s), if k < 32 then ShlImm64(d, 32 - k) else ShrImm32(d, Sub(k, 32))]
  }

  lemma ComputesZextShift(s: Host, d: Host, k: Word)
    ensures Computes(ZextShiftTail(s, d, k), s, d, (x: Word) => ShiftedZext(x, k))
  {
    hide Low32, Shl, Shr;
    forall m: Machine
      ensures var m' := Run(ZextShiftTail(s, d, k), m);
              OnlyWrites(m, m', d) && m'.regs[d] == ShiftedZext(m.regs[s], k)
    {
      if k < 32 {
        RunTwo(Mov32(d, s), ShlImm64(d, 32 - k), m);
      } else {
        RunTwo(Mov32(d, s), ShrImm32(d, Sub(k, 32)), m);
        LowOfLow(m.regs[s]);
      }
    }
  }

  function Zext8Tail(s: Host, d: Host): seq<Code> {
    [Movzx32From8(d, s)]
  }

  lemma ComputesZext8(s: Host, d: Host)
    ensures Computes(Zext8Tail(s, d), s, d, (x: Word) => Low8(x))
  {
    hide Low8;
    forall m: Machine
      ensures var m' := Run(Zext8Tail(s, d), m);
              OnlyWrites(m, m', d) && m'.regs[d] == Low8(m.regs[s])
    {
      RunOne(Movzx32From8(d, s), m);
    }
  }

  function AddZext8Tail(s: Host, d: Host, imm: Word): seq<Code> {
    [if s != d then Lea32(d, s, imm) else AluRI(Add32, d, imm), Movzx32From8(d, d)]
  }

  lemma ComputesAddZext8(s: Host, d: Host, imm: Word)
    ensures Computes(AddZext8Tail(s, d, imm), s, d, (x: Word) => Low8(Low32(Add(x, imm))))
  {
    hide Low8, Low32, Add;
    forall m: Machine
      ensures var m' := Run(AddZext8Tail(s, d, imm), m);
              OnlyWrites(m, m', d) && m'.regs[d] == Low8(Low32(Add(m.regs[s], imm)))
    {
      if s != d {
        RunTwo(Lea32(d, s, imm), Movzx32From8(d, d), m);
      } else {
        RunTwo(AluRI(Add32, d, imm), Movzx32From8(d, d), m);
      }
    }
  }

  function ShiftedZext(x: Word, k: Word): Word {
    if k < 32 then Shl(Low32(x), 32 - k) else Shr(Low32(x), Sub(k, 32) % 32)
  }

  lemma ShiftedZextMeans(x: Word, k: Word)
    requires k < 64
    ensures ShiftedZext(x, k) == Shr(Shl(x, 32), k)
  {
    hide Shl, Shr, Low32;
    if k < 32 { ShiftUpDownLess(x, k); } else { ShiftUpDownMore(x, k); }
  }

  lemma SetsImm(d: Host, k: Word)
    ensures Sets([MovImm(d, k)], d, (mem: Memory) => k)
  {
    hide Run, Exec;
    forall m: Machine ensures OnlyWrites(m, Run([MovImm(d, k)], m), d) && Run([MovImm(d, k)], m).regs[d] == k {
      RunOne(MovImm(d, k), m);
      ExecMovImm(d, k, m);
    }
  }

  lemma SetsZero(d: Host)
    ensures Sets([Xor32(d, d)], d, (mem: Memory) => 0)
  {
    hide Run;
    forall m: Machine ensures OnlyWrites(m, Run([Xor32(d, d)], m), d) && Run([Xor32(d, d)], m).regs[d] == 0 {
      RunZero(d, m);
    }
  }

  /** The value of LW (wide == false) or LD (wide == true) at an address. */
  function Loaded(mem: Memory, addr: Word, wide: bool): Word {
    if wide then Read64(mem, addr) else Sx32(Read32(mem, addr))
  }

  function NearLoad(d: Host, addr: Word, wide: bool): Code { if wide then Load64Abs(d, addr) else LoadSx32Abs(d, addr) }

  function BasedLoad(d: Host, base: Host, wide: bool): Code { if wide then Load64(d, base) else LoadSx32(d, base) }

  lemma SetsLoaded(d: Host, addr: Word, wide: bool)
    ensures Sets([NearLoad(d, addr, wide)], d, (mem: Memory) => Loaded(mem, addr, wide))
  {
    hide Read32, Read64, Sx32, Run, Exec;
    forall m: Machine
      ensures var m' := Run([NearLoad(d, addr, wide)], m);
              OnlyWrites(m, m', d) && m'.regs[d] == Loaded(m.mem, addr, wide)
    {
      RunOne(NearLoad(d, addr, wide), m);
      ExecLoadAbs(d, addr, m);
    }
  }

  lemma BasedLoads(d: Host, base: Host, addr: Word, wide: bool)
    ensures LoadsFrom(BasedLoad(d, base, wide), base, addr, d, (mem: Memory) => Loaded(mem, addr, wide))
  {
    hide Read32, Read64, Sx32;
  }

  // ----- what each emitter emits -----

  /** The patterns that compute their destination from one source register. */
  predicate FromOneSource(i: PatternId) { i in {P6, P7, P12, P13, P14, P15, P16, P18, P21, P22, P23} }

  /** The negations and comparisons with x0 read rs2, the others rs1. */
  function SourceOf(i: PatternId, w: seq<Instr>): Guest
    requires w != []
  {
    AsGuest(if i in {P13, P14, P16, P18} then w[0].rs2 else w[0].rs1)
  }

  function SourceTail(i: PatternId, w: seq<Instr>, s: Host, d: Host): seq<Code>
    requires |w| == Length(i) && FromOneSource(i)
  {
    if i == P6 then Zext32Tail(s, d)
    else if i == P7 then Add32Tail(s, d, w[0].imm)
    else if i == P12 then ComplementTail(s, d)
    else if i == P13 then NegateTail(s, d)
    else if i == P14 then Negate32Tail(s, d)
    else if i == P15 then IsZeroTail(s, d)
    else if i == P16 then IsNonzeroTail(s, d)
    else if i == P18 then IsPositiveTail(s, d)
    else if i == P21 then ZextShiftTail(s, d, w[1].imm)
    else if i == P22 then Zext8Tail(s, d)
    else AddZext8Tail(s, d, w[0].imm)
  }

  /** rd := k */
  function Constant(sm: StaticMap, c: Cache, rd: Guest, k: Word): Emission {
    IntoDst(sm, c, rd, [MovImm(SrcHost(sm, c, rd), k)])
  }

  /** rd := rs, or 0 for x0 */
  function Copy(sm: StaticMap, c: Cache, rs: Guest, rd: Guest): Emission {
    if rs == X0 then IntoDst(sm, c, rd, [Xor32(SrcHost(sm, c, rd), SrcHost(sm, c, rd))])
    else FromSource(sm, c, rs, rd, MoveTail(SrcHost(sm, c, rs), DstHost(sm, c, rs, rd)))
  }

  /** rd := the word at `addr`.  An address that is no signed 32-bit number goes through AX,
      or through CX when rd itself is in AX. */
  function LoadWord(sm: StaticMap, c: Cache, rd: Guest, addr: Word, wide: bool): Emission {
    var d := SrcHost(sm, c, rd);
    var i: Index := if d != AX then 0 else 2;
    if FitsInt32(addr) then IntoDst(sm, c, rd, [NearLoad(d, addr, wide)])
    else FarLoad(sm, c, rd, i, addr, BasedLoad(d, HostOf(i), wide))
  }

  function Zext32(sm: StaticMap, c: Cache, rs: Guest, rd: Guest): Emission {
    FromSource(sm, c, rs, rd, Zext32Tail(SrcHost(sm, c, rs), DstHost(sm, c, rs, rd)))
  }

  /** The address that patterns 2 to 5 build from their first instructions. */
  function Address2(w: seq<Instr>): Word
    requires |w| >= 2
  {
    Add(Add(w[0].addr, w[0].imm), w[1].imm)
  }

  function Address3(w: seq<Instr>): Word
    requires |w| >= 3
  {
    Add(Address2(w), w[2].imm)
  }

  function AddMemory(a: Word, k: Word): seq<Code> {
    if FitsInt32(a) then [AddMem32Abs(a, k)] else [MovImm(AX, a), AddMem32(AX, k)]
  }

  /** The code of pattern 8 after the cache was flushed. */
  function SextCode(sm: StaticMap, rs: Guest, rd: Guest): seq<Code> {
    var d := if sm[rd].Mapped? then sm[rd].host else AX;
    [if sm[rs].Mapped? then Movsx64From32(d, sm[rs].host) else FetchSx32(d, rs)]
    + (if sm[rd].Mapped? then [] else [Store(rd, AX)])
  }

  function Flushed(c: Cache, tail: seq<Code>): Emission {
    Emission(InvalidateAll(c).code + tail, InvalidateAll(c).cache)
  }

  /** What patterns[i].emitter appends for window `w`, and the cache it leaves. */
  function Emitted(i: PatternId, sm: StaticMap, c: Cache, w: seq<Instr>): Emission
    requires |w| == Length(i)
  {
    var rs, rd := AsGuest(w[0].rs1), AsGuest(w[0].rd);
    if FromOneSource(i) then
      var s := SourceOf(i, w);
      FromSource(sm, c, s, rd, SourceTail(i, w, SrcHost(sm, c, s), DstHost(sm, c, s, rd)))
    else if i == P3 then if rd == X0 then Emission([], c) else Constant(sm, c, rd, Address2(w))
    else if i == P4 then LoadWord(sm, c, rd, Address2(w), false)
    else if i == P5 then LoadWord(sm, c, rd, Address2(w), true)
    else if i == P19 then Constant(sm, c, rd, Add(w[0].imm, w[1].imm))
    else if i == P20 then Constant(sm, c, rd, w[0].imm)
    else if i == P11 then Copy(sm, c, rs, rd)
    else if i == P10 then Emission([Nop], c)
    else if i == P8 then Flushed(c, SextCode(sm, rs, rd))
    else if i == P2 then Flushed(c, AddMemory(Address3(w), w[3].imm))
    else if i == P9 then
      var e1 := Constant(sm, c, rd, w[0].imm);
      var e2 := Zext32(sm, e1.cache, AsGuest(w[2].rs1), AsGuest(w[2].rd));
      Emission(e1.code + e2.code, e2.cache)
    else
      FromSource(sm, c, rs, rd, MoveTail(SrcHost(sm, c, rs), DstHost(sm, c, rs, rd)) + [Malformed])
  }

  /** Emitters read registers, immediates and addresses of their window, nothing else. */
  lemma EmittedFields(i: PatternId, sm: StaticMap, c: Cache, v: seq<Instr>, w: seq<Instr>)
    requires |v| == |w| == Length(i)
    requires forall k :: 0 <= k < |v| ==>
               && v[k].addr == w[k].addr && v[k].rs1 == w[k].rs1 && v[k].rs2 == w[k].rs2
               && v[k].rd == w[k].rd && v[k].imm == w[k].imm
    ensures Emitted(i, sm, c, v) == Emitted(i, sm, c, w)
  {
    hide FromSource, Constant, LoadWord, Copy, Flushed, Zext32, AddMemory, Add, SrcHost, DstHost;
  }

  // ----- emitters from one source -----

  lemma Pattern6Sound(other: Other, sm: StaticMap, c: Cache, w: seq<Instr>)
    requires IsStaticMap(sm) && Injective(sm) && Inv(sm, c) && Matches(P6, w) && AllDecoded(w)
    ensures |w| == Length(P6)
    ensures var e := Emitted(P6, sm, c, w);
            Sound(other, sm, c, e.code, e.cache, w)
  {
    hide Matches, IsStaticMap, Injective, Inv, SrcDst, SrcHost, DstHost, Sound, AllDecoded, Computes, Steps,
         Zext32Tail, SetReg, Reg;
    Operands(P6, w);
    var s, d := SrcHost(sm, c, w[0].rs1), DstHost(sm, c, w[0].rs1, w[0].rd);
    var f := (x: Word) => Low32(x);
    forall g: State ensures Steps(other, w, g) == SetReg(g, w[0].rd, f(Reg(g, w[0].rs1))) {
      Meaning6(other, w, g);
    }
    ComputesZext32(s, d);
    SrcDstSound(other, sm, c, w[0].rs1, w[0].rd, Zext32Tail(s, d), f, w);
  }

  method EmitPattern6(r: RegisterInfo, w: seq<Instr>, ghost other: Other)
    requires Ready(r) && Matches(P6, w) && AllDecoded(w)
    modifies r`code, r`clock, r.content, r.recency
    ensures |w| == Length(P6)
    ensures var e := Emitted(P6, r.sm, old(r.State()), w);
            r.Valid() && r.State() == e.cache && r.code == old(r.code) + e.code
    ensures Ready(r) && Appended(other, r.sm, old(r.State()), old(r.code), r.State(), r.code, w)
  {
    hide Matches, IsStaticMap, Injective, Inv, SrcDst, SrcHost, DstHost, Sound, AllDecoded, Steps;
    ghost var c, code := r.State(), r.code;
    Operands(P6, w);
    var s, d := GetRsRd(r, w[0].rs1, w[0].rd);
    r.Emit(Mov32(d, s));
    Pattern6Sound(other, r.sm, c, w);
    Finish(other, r, c, code, Emitted(P6, r.sm, c, w).code, w);
  }

  lemma Pattern7Sound(other: Other, sm: StaticMap, c: Cache, w: seq<Instr>)
    requires IsStaticMap(sm) && Injective(sm) && Inv(sm, c) && Matches(P7, w) && AllDecoded(w)
    ensures |w| == Length(P7)
    ensures var e := Emitted(P7, sm, c, w);
            Sound(other, sm, c, e.code, e.cache, w)
  {
    hide Matches, IsStaticMap, Injective, Inv, SrcDst, SrcHost, DstHost, Sound, AllDecoded, Computes, Steps,
         Add32Tail, SetReg, Reg;
    Operands(P7, w);
    var s, d := SrcHost(sm, c, w[0].rs1), DstHost(sm, c, w[0].rs1, w[0].rd);
    var f := (x: Word) => Low32(Add(x, w[0].imm));
    forall g: State ensures Steps(other, w, g) == SetReg(g, w[0].rd, f(Reg(g, w[0].rs1))) {
      Meaning7(other, w, g);
    }
    ComputesAdd32(s, d, w[0].imm);
    SrcDstSound(other, sm, c, w[0].rs1, w[0].rd, Add32Tail(s, d, w[0].imm), f, w);
  }

  method EmitPattern7(r: RegisterInfo, w: seq<Instr>, ghost other: Other)
    requires Ready(r) && Matches(P7, w) && AllDecoded(w)
    modifies r`code, r`clock, r.content, r.recency
    ensures |w| == Length(P7)
    ensures var e := Emitted(P7, r.sm, old(r.State()), w);
            r.Valid() && r.State() == e.cache && r.code == old(r.code) + e.code
    ensures Ready(r) && Appended(other, r.sm, old(r.State()), old(r.code), r.State(), r.code, w)
  {
    hide Matches, IsStaticMap, Injective, Inv, SrcDst, SrcHost, DstHost, Sound, AllDecoded, Steps;
    ghost var c, code := r.State(), r.code;
    Operands(P7, w);
    var s, d := GetRsRd(r, w[0].rs1, w[0].rd);
    if s != d {
      r.Emit(Mov32(d, s));
    }
    r.Emit(AluRI(Add32, d, w[0].imm));
    Pattern7Sound(other, r.sm, c, w);
    Finish(other, r, c, code, Emitted(P7, r.sm, c, w).code, w);
  }

  lemma Pattern12Sound(other: Other, sm: StaticMap, c: Cache, w: seq<Instr>)
    requires IsStaticMap(sm) && Injective(sm) && Inv(sm, c) && Matches(P12, w) && AllDecoded(w)
    ensures |w| == Length(P12)
    ensures var e := Emitted(P12, sm, c, w);
            Sound(other, sm, c, e.code, e.cache, w)
  {
    hide Matches, IsStaticMap, Injective, Inv, SrcDst, SrcHost, DstHost, Sound, AllDecoded, Computes, Steps,
         ComplementTail, SetReg, Reg;
    Operands(P12, w);
    var s, d := SrcHost(sm, c, w[0].rs1), DstHost(sm, c, w[0].rs1, w[0].rd);
    var f := (x: Word) => Not(x);
    forall g: State ensures Steps(other, w, g) == SetReg(g, w[0].rd, f(Reg(g, w[0].rs1))) {
      Meaning12(other, w, g);
    }
    ComputesComplement(s, d);
    SrcDstSound(other, sm, c, w[0].rs1, w[0].rd, ComplementTail(s, d), f, w);
  }

  method EmitPattern12(r: RegisterInfo, w: seq<Instr>, ghost other: Other)
    requires Ready(r) && Matches(P12, w) && AllDecoded(w)
    modifies r`code, r`clock, r.content, r.recency
    ensures |w| == Length(P12)
    ensures var e := Emitted(P12, r.sm, old(r.State()), w);
            r.Valid() && r.State() == e.cache && r.code == old(r.code) + e.code
    ensures Ready(r) && Appended(other, r.sm, old(r.State()), old(r.code), r.State(), r.code, w)
  {
    hide Matches, IsStaticMap, Injective, Inv, SrcDst, SrcHost, DstHost, Sound, AllDecoded, Steps;
    ghost var c, code := r.State(), r.code;
    Operands(P12, w);
    var s, d := GetRsRd(r, w[0].rs1, w[0].rd);
    if s != d {
      r.Emit(Mov64(d, s));
    }
    r.Emit(Not64(d));
    Pattern12Sound(other, r.sm, c, w);
    Finish(other, r, c, code, Emitted(P12, r.sm, c, w).code, w);
  }

  lemma Pattern13Sound(other: Other, sm: StaticMap, c: Cache, w: seq<Instr>)
    requires IsStaticMap(sm) && Injective(sm) && Inv(sm, c) && Matches(P13, w) && AllDecoded(w)
    ensures |w| == Length(P13)
    ensures var e := Emitted(P13, sm, c, w);
            Sound(other, sm, c, e.code, e.cache, w)
  {
    hide Matches, IsStaticMap, Injective, Inv, SrcDst, SrcHost, DstHost, Sound, AllDecoded, Computes, Steps,
         NegateTail, SetReg, Reg;
    Operands(P13, w);
    var s, d := SrcHost(sm, c, w[0].rs2), DstHost(sm, c, w[0].rs2, w[0].rd);
    var f := (x: Word) => Sub(0, x);
    forall g: State ensures Steps(other, w, g) == SetReg(g, w[0].rd, f(Reg(g, w[0].rs2))) {
      Meaning13(other, w, g);
    }
    ComputesNegate(s, d);
    SrcDstSound(other, sm, c, w[0].rs2, w[0].rd, NegateTail(s, d), f, w);
  }

  method EmitPattern13(r: RegisterInfo, w: seq<Instr>, ghost other: Other)
    requires Ready(r) && Matches(P13, w) && AllDecoded(w)
    modifies r`code, r`clock, r.content, r.recency
    ensures |w| == Length(P13)
    ensures var e := Emitted(P13, r.sm, old(r.State()), w);
            r.Valid() && r.State() == e.cache && r.code == old(r.code) + e.code
    ensures Ready(r) && Appended(other, r.sm, old(r.State()), old(r.code), r.State(), r.code, w)
  {
    hide Matches, IsStaticMap, Injective, Inv, SrcDst, SrcHost, DstHost, Sound, AllDecoded, Steps;
    ghost var c, code := r.State(), r.code;
    Operands(P13, w);
    var s, d := GetRsRd(r, w[0].rs2, w[0].rd);
    if s != d {
      r.Emit(Mov64(d, s));
    }
    r.Emit(Neg64(d));
    Pattern13Sound(other, r.sm, c, w);
    Finish(other, r, c, code, Emitted(P13, r.sm, c, w).code, w);
  }

  lemma Pattern14Sound(other: Other, sm: StaticMap, c: Cache, w: seq<Instr>)
    requires IsStaticMap(sm) && Injective(sm) && Inv(sm, c) && Matches(P14, w) && AllDecoded(w)
    ensures |w| == Length(P14)
    ensures var e := Emitted(P14, sm, c, w);
            Sound(other, sm, c, e.code, e.cache, w)
  {
    hide Matches, IsStaticMap, Injective, Inv, SrcDst, SrcHost, DstHost, Sound, AllDecoded, Computes, Steps,
         Negate32Tail, SetReg, Reg;
    Operands(P14, w);
    var s, d := SrcHost(sm, c, w[0].rs2), DstHost(sm, c, w[0].rs2, w[0].rd);
    var f := (x: Word) => Sx32(Sub(0, x));
    forall g: State ensures Steps(other, w, g) == SetReg(g, w[0].rd, f(Reg(g, w[0].rs2))) {
      Meaning14(other, w, g);
    }
    ComputesNegate32(s, d);
    SrcDstSound(other, sm, c, w[0].rs2, w[0].rd, Negate32Tail(s, d), f, w);
  }

  method EmitPattern14(r: RegisterInfo, w: seq<Instr>, ghost other: Other)
    requires Ready(r) && Matches(P14, w) && AllDecoded(w)
    modifies r`code, r`clock, r.content, r.recency
    ensures |w| == Length(P14)
    ensures var e := Emitted(P14, r.sm, old(r.State()), w);
            r.Valid() && r.State() == e.cache && r.code == old(r.code) + e.code
    ensures Ready(r) && Appended(other, r.sm, old(r.State()), old(r.code), r.State(), r.code, w)
  {
    hide Matches, IsStaticMap, Injective, Inv, SrcDst, SrcHost, DstHost, Sound, AllDecoded, Steps;
    ghost var c, code := r.State(), r.code;
    Operands(P14, w);
    var s, d := GetRsRd(r, w[0].rs2, w[0].rd);
    if s != d {
      r.Emit(Mov32(d, s));
    }
    r.Emit(Neg32(d));
    r.Emit(Movsx64From32(d, d));
    Pattern14Sound(other, r.sm, c, w);
    Finish(other, r, c, code, Emitted(P14, r.sm, c, w).code, w);
  }

  lemma Pattern15Sound(other: Other, sm: StaticMap, c: Cache, w: seq<Instr>)
    requires IsStaticMap(sm) && Injective(sm) && Inv(sm, c) && Matches(P15, w) && AllDecoded(w)
    ensures |w| == Length(P15)
    ensures var e := Emitted(P15, sm, c, w);
            Sound(other, sm, c, e.code, e.cache, w)
  {
    hide Matches, IsStaticMap, Injective, Inv, SrcDst, SrcHost, DstHost, Sound, AllDecoded, Computes, Steps,
         IsZeroTail, SetReg, Reg;
    Operands(P15, w);
    var s, d := SrcHost(sm, c, w[0].rs1), DstHost(sm, c, w[0].rs1, w[0].rd);
    var f := (x: Word) => Bool(x == 0);
    forall g: State ensures Steps(other, w, g) == SetReg(g, w[0].rd, f(Reg(g, w[0].rs1))) {
      Meaning15(other, w, g);
    }
    ComputesIsZero(s, d);
    SrcDstSound(other, sm, c, w[0].rs1, w[0].rd, IsZeroTail(s, d), f, w);
  }

  method EmitPattern15(r: RegisterInfo, w: seq<Instr>, ghost other: Other)
    requires Ready(r) && Matches(P15, w) && AllDecoded(w)
    modifies r`code, r`clock, r.content, r.recency
    ensures |w| == Length(P15)
    ensures var e := Emitted(P15, r.sm, old(r.State()), w);
            r.Valid() && r.State() == e.cache && r.code == old(r.code) + e.code
    ensures Ready(r) && Appended(other, r.sm, old(r.State()), old(r.code), r.State(), r.code, w)
  {
    hide Matches, IsStaticMap, Injective, Inv, SrcDst, SrcHost, DstHost, Sound, AllDecoded, Steps;
    ghost var c, code := r.State(), r.code;
    Operands(P15, w);
    var s, d := GetRsRd(r, w[0].rs1, w[0].rd);
    r.Emit(Test64(s, s));
    r.Emit(SetZ(d));
    r.Emit(Movzx32From8(d, d));
    Pattern15Sound(other, r.sm, c, w);
    Finish(other, r, c, code, Emitted(P15, r.sm, c, w).code, w);
  }

  lemma Pattern16Sound(other: Other, sm: StaticMap, c: Cache, w: seq<Instr>)
    requires IsStaticMap(sm) && Injective(sm) && Inv(sm, c) && Matches(P16, w) && AllDecoded(w)
    ensures |w| == Length(P16)
    ensures var e := Emitted(P16, sm, c, w);
            Sound(other, sm, c, e.code, e.cache, w)
  {
    hide Matches, IsStaticMap, Injective, Inv, SrcDst, SrcHost, DstHost, Sound, AllDecoded, Computes, Steps,
         IsNonzeroTail, SetReg, Reg;
    Operands(P16, w);
    var s, d := SrcHost(sm, c, w[0].rs2), DstHost(sm, c, w[0].rs2, w[0].rd);
    var f := (x: Word) => Bool(x != 0);
    forall g: State ensures Steps(other, w, g) == SetReg(g, w[0].rd, f(Reg(g, w[0].rs2))) {
      Meaning16(other, w, g);
    }
    ComputesIsNonzero(s, d);
    SrcDstSound(other, sm, c, w[0].rs2, w[0].rd, IsNonzeroTail(s, d), f, w);
  }

  method EmitPattern16(r: RegisterInfo, w: seq<Instr>, ghost other: Other)
    requires Ready(r) && Matches(P16, w) && AllDecoded(w)
    modifies r`code, r`clock, r.content, r.recency
    ensures |w| == Length(P16)
    ensures var e := Emitted(P16, r.sm, old(r.State()), w);
            r.Valid() && r.State() == e.cache && r.code == old(r.code) + e.code
    ensures Ready(r) && Appended(other, r.sm, old(r.State()), old(r.code), r.State(), r.code, w)
  {
    hide Matches, IsStaticMap, Injective, Inv, SrcDst, SrcHost, DstHost, Sound, AllDecoded, Steps;
    ghost var c, code := r.State(), r.code;
    Operands(P16, w);
    var s, d := GetRsRd(r, w[0].rs2, w[0].rd);
    r.Emit(Test64(s, s));
    r.Emit(SetNZ(d));
    r.Emit(Movzx32From8(d, d));
    Pattern16Sound(other, r.sm, c, w);
    Finish(other, r, c, code, Emitted(P16, r.sm, c, w).code, w);
  }

  lemma Pattern18Sound(other: Other, sm: StaticMap, c: Cache, w: seq<Instr>)
    requires IsStaticMap(sm) && Injective(sm) && Inv(sm, c) && Matches(P18, w) && AllDecoded(w)
    ensures |w| == Length(P18)
    ensures var e := Emitted(P18, sm, c, w);
            Sound(other, sm, c, e.code, e.cache, w)
  {
    hide Matches, IsStaticMap, Injective, Inv, SrcDst, SrcHost, DstHost, Sound, AllDecoded, Computes, Steps,
         IsPositiveTail, SetReg, Reg;
    Operands(P18, w);
    var s, d := SrcHost(sm, c, w[0].rs2), DstHost(sm, c, w[0].rs2, w[0].rd);
    var f := (x: Word) => Bool(Signed(x) > 0);
    forall g: State ensures Steps(other, w, g) == SetReg(g, w[0].rd, f(Reg(g, w[0].rs2))) {
      Meaning18(other, w, g);
    }
    ComputesIsPositive(s, d);
    SrcDstSound(other, sm, c, w[0].rs2, w[0].rd, IsPositiveTail(s, d), f, w);
  }

  method EmitPattern18(r: RegisterInfo, w: seq<Instr>, ghost other: Other)
    requires Ready(r) && Matches(P18, w) && AllDecoded(w)
    modifies r`code, r`clock, r.content, r.recency
    ensures |w| == Length(P18)
    ensures var e := Emitted(P18, r.sm, old(r.State()), w);
            r.Valid() && r.State() == e.cache && r.code == old(r.code) + e.code
    ensures Ready(r) && Appended(other, r.sm, old(r.State()), old(r.code), r.State(), r.code, w)
  {
    hide Matches, IsStaticMap, Injective, Inv, SrcDst, SrcHost, DstHost, Sound, AllDecoded, Steps;
    ghost var c, code := r.State(), r.code;
    Operands(P18, w);
    var s, d := GetRsRd(r, w[0].rs2, w[0].rd);
    r.Emit(Test64(s, s));
    r.Emit(SetG(d));
    r.Emit(Movzx32From8(d, d));
    Pattern18Sound(other, r.sm, c, w);
    Finish(other, r, c, code, Emitted(P18, r.sm, c, w).code, w);
  }

  lemma Pattern21Sound(other: Other, sm: StaticMap, c: Cache, w: seq<Instr>)
    requires IsStaticMap(sm) && Injective(sm) && Inv(sm, c) && Matches(P21, w) && AllDecoded(w)
    ensures |w| == Length(P21)
    ensures var e := Emitted(P21, sm, c, w);
            Sound(other, sm, c, e.code, e.cache, w)
  {
    hide Matches, IsStaticMap, Injective, Inv, SrcDst, SrcHost, DstHost, Sound, AllDecoded, Computes, Steps,
         ZextShiftTail, SetReg, Reg;
    Operands(P21, w);
    var s, d := SrcHost(sm, c, w[0].rs1), DstHost(sm, c, w[0].rs1, w[0].rd);
    var f := (x: Word) => ShiftedZext(x, w[1].imm);
    forall g: State ensures Steps(other, w, g) == SetReg(g, w[0].rd, f(Reg(g, w[0].rs1))) {
      hide ShiftedZext;
      Meaning21(other, w, g);
      ShiftedZextMeans(Reg(g, w[0].rs1), w[1].imm);
    }
    ComputesZextShift(s, d, w[1].imm);
    SrcDstSound(other, sm, c, w[0].rs1, w[0].rd, ZextShiftTail(s, d, w[1].imm), f, w);
  }

  method EmitPattern21(r: RegisterInfo, w: seq<Instr>, ghost other: Other)
    requires Ready(r) && Matches(P21, w) && AllDecoded(w)
    modifies r`code, r`clock, r.content, r.recency
    ensures |w| == Length(P21)
    ensures var e := Emitted(P21, r.sm, old(r.State()), w);
            r.Valid() && r.State() == e.cache && r.code == old(r.code) + e.code
    ensures Ready(r) && Appended(other, r.sm, old(r.State()), old(r.code), r.State(), r.code, w)
  {
    hide Matches, IsStaticMap, Injective, Inv, SrcDst, SrcHost, DstHost, Sound, AllDecoded, Steps;
    ghost var c, code := r.State(), r.code;
    Operands(P21, w);
    var s, d := GetRsRd(r, w[0].rs1, w[0].rd);
    r.Emit(Mov32(d, s));
    if w[1].imm < 32 {
      r.Emit(ShlImm64(d, 32 - w[1].imm));
    } else {
      r.Emit(ShrImm32(d, Sub(w[1].imm, 32)));
    }
    Pattern21Sound(other, r.sm, c, w);
    Finish(other, r, c, code, Emitted(P21, r.sm, c, w).code, w);
  }

  lemma Pattern22Sound(other: Other, sm: StaticMap, c: Cache, w: seq<Instr>)
    requires IsStaticMap(sm) && Injective(sm) && Inv(sm, c) && Matches(P22, w) && AllDecoded(w)
    ensures |w| == Length(P22)
    ensures var e := Emitted(P22, sm, c, w);
            Sound(other, sm, c, e.code, e.cache, w)
  {
    hide Matches, IsStaticMap, Injective, Inv, SrcDst, SrcHost, DstHost, Sound, AllDecoded, Computes, Steps,
         Zext8Tail, SetReg, Reg;
    Operands(P22, w);
    var s, d := SrcHost(sm, c, w[0].rs1), DstHost(sm, c, w[0].rs1, w[0].rd);
    var f := (x: Word) => Low8(x);
    forall g: State ensures Steps(other, w, g) == SetReg(g, w[0].rd, f(Reg(g, w[0].rs1))) {
      Meaning22(other, w, g);
    }
    ComputesZext8(s, d);
    SrcDstSound(other, sm, c, w[0].rs1, w[0].rd, Zext8Tail(s, d), f, w);
  }

  method EmitPattern22(r: RegisterInfo, w: seq<Instr>, ghost other: Other)
    requires Ready(r) && Matches(P22, w) && AllDecoded(w)
    modifies r`code, r`clock, r.content, r.recency
    ensures |w| == Length(P22)
    ensures var e := Emitted(P22, r.sm, old(r.State()), w);
            r.Valid() && r.State() == e.cache && r.code == old(r.code) + e.code
    ensures Ready(r) && Appended(other, r.sm, old(r.State()), old(r.code), r.State(), r.code, w)
  {
    hide Matches, IsStaticMap, Injective, Inv, SrcDst, SrcHost, DstHost, Sound, AllDecoded, Steps;
    ghost var c, code := r.State(), r.code;
    Operands(P22, w);
    var s, d := GetRsRd(r, w[0].rs1, w[0].rd);
    r.Emit(Movzx32From8(d, s));
    Pattern22Sound(other, r.sm, c, w);
    Finish(other, r, c, code, Emitted(P22, r.sm, c, w).code, w);
  }

  lemma Pattern23Sound(other: Other, sm: StaticMap, c: Cache, w: seq<Instr>)
    requires IsStaticMap(sm) && Injective(sm) && Inv(sm, c) && Matches(P23, w) && AllDecoded(w)
    ensures |w| == Length(P23)
    ensures var e := Emitted(P23, sm, c, w);
            Sound(other, sm, c, e.code, e.cache, w)
  {
    hide Matches, IsStaticMap, Injective, Inv, SrcDst, SrcHost, DstHost, Sound, AllDecoded, Computes, Steps,
         AddZext8Tail, SetReg, Reg;
    Operands(P23, w);
    var s, d := SrcHost(sm, c, w[0].rs1), DstHost(sm, c, w[0].rs1, w[0].rd);
    var f := (x: Word) => Low8(Low32(Add(x, w[0].imm)));
    forall g: State ensures Steps(other, w, g) == SetReg(g, w[0].rd, f(Reg(g, w[0].rs1))) {
      Meaning23(other, w, g);
    }
    ComputesAddZext8(s, d, w[0].imm);
    SrcDstSound(other, sm, c, w[0].rs1, w[0].rd, AddZext8Tail(s, d, w[0].imm), f, w);
  }

  method EmitPattern23(r: RegisterInfo, w: seq<Instr>, ghost other: Other)
    requires Ready(r) && Matches(P23, w) && AllDecoded(w)
    modifies r`code, r`clock, r.content, r.recency
    ensures |w| == Length(P23)
    ensures var e := Emitted(P23, r.sm, old(r.State()), w);
            r.Valid() && r.State() == e.cache && r.code == old(r.code) + e.code
    ensures Ready(r) && Appended(other, r.sm, old(r.State()), old(r.code), r.State(), r.code, w)
  {
    hide Matches, IsStaticMap, Injective, Inv, SrcDst, SrcHost, DstHost, Sound, AllDecoded, Steps;
    ghost var c, code := r.State(), r.code;
    Operands(P23, w);
    var s, d := GetRsRd(r, w[0].rs1, w[0].rd);
    if s != d {
      r.Emit(Lea32(d, s, w[0].imm));
    } else {
      r.Emit(AluRI(Add32, d, w[0].imm));
    }
    r.Emit(Movzx32From8(d, d));
    Pattern23Sound(other, r.sm, c, w);
    Finish(other, r, c, code, Emitted(P23, r.sm, c, w).code, w);
  }

  // ----- emitters without a source -----

  lemma ConstantRuns(other: Other, sm: StaticMap, c: Cache, rd: Guest, k: Word, w: seq<Instr>)
    requires IsStaticMap(sm) && Injective(sm) && Inv(sm, c)
    requires forall g: State :: Steps(other, w, g) == SetReg(g, rd, k)
    ensures var e := Constant(sm, c, rd, k);
            Sound(other, sm, c, e.code, e.cache, w)
  {
    hide IsStaticMap, Injective, Inv, SrcHost, Sound, Sets, Steps, GetDst;
    SetsImm(SrcHost(sm, c, rd), k);
    DstSound(other, sm, c, rd, [MovImm(SrcHost(sm, c, rd), k)], (mem: Memory) => k, w);
  }

  /** No code for a window that changes nothing. */
  lemma NothingSound(other: Other, sm: StaticMap, c: Cache, code: seq<Code>, w: seq<Instr>)
    requires Inv(sm, c) && (code == [] || code == [Nop])
    requires forall g: State :: Steps(other, w, g) == g
    ensures Sound(other, sm, c, code, c, w)
  {
    hide Steps, View, Inv, Run;
    forall m: Machine ensures Run(code, m) == m {
      if code == [] { RunNone(m); } else { RunNop(m); }
    }
  }

  lemma LoadWordRuns(other: Other, sm: StaticMap, c: Cache, rd: Guest, addr: Word, wide: bool, w: seq<Instr>)
    requires IsStaticMap(sm) && Injective(sm) && Inv(sm, c)
    requires forall g: State :: Steps(other, w, g) == SetReg(g, rd, Loaded(g.mem, addr, wide))
    ensures var e := LoadWord(sm, c, rd, addr, wide);
            Sound(other, sm, c, e.code, e.cache, w)
  {
    hide IsStaticMap, Injective, Inv, SrcHost, Sound, Sets, Steps, GetDst, FarLoad, LoadsFrom, NearLoad, BasedLoad,
         Loaded;
    var k := (mem: Memory) => Loaded(mem, addr, wide);
    var d := SrcHost(sm, c, rd);
    if FitsInt32(addr) {
      SetsLoaded(d, addr, wide);
      DstSound(other, sm, c, rd, [NearLoad(d, addr, wide)], k, w);
    } else {
      var i: Index := if d != AX then 0 else 2;
      BasedLoads(d, HostOf(i), addr, wide);
      FarLoadSound(other, sm, c, rd, i, addr, BasedLoad(d, HostOf(i), wide), k, w);
    }
  }

  lemma Pattern3Sound(other: Other, sm: StaticMap, c: Cache, w: seq<Instr>)
    requires IsStaticMap(sm) && Injective(sm) && Inv(sm, c) && Matches(P3, w) && AllDecoded(w)
    ensures |w| == Length(P3)
    ensures var e := Emitted(P3, sm, c, w);
            Sound(other, sm, c, e.code, e.cache, w)
  {
    hide Matches, IsStaticMap, Injective, Inv, Sound, AllDecoded, Steps;
    Operands(P3, w);
    forall g: State ensures Steps(other, w, g) == SetReg(g, w[0].rd, Address2(w)) {
      Meaning3(other, w, g);
    }
    if w[0].rd == X0 {
      NothingSound(other, sm, c, [], w);
    } else {
      hide Constant, Add;
      ConstantRuns(other, sm, c, w[0].rd, Address2(w), w);
    }
  }

  method EmitPattern3(r: RegisterInfo, w: seq<Instr>, ghost other: Other)
    requires Ready(r) && Matches(P3, w) && AllDecoded(w)
    modifies r`code, r`clock, r.content, r.recency
    ensures |w| == Length(P3)
    ensures var e := Emitted(P3, r.sm, old(r.State()), w);
            r.Valid() && r.State() == e.cache && r.code == old(r.code) + e.code
    ensures Ready(r) && Appended(other, r.sm, old(r.State()), old(r.code), r.State(), r.code, w)
  {
    hide Matches, IsStaticMap, Injective, Inv, Sound, AllDecoded, Steps, GetDst, SrcHost, Add;
    ghost var c, code := r.State(), r.code;
    Operands(P3, w);
    if w[1].rd != X0 {
      var d := r.GetRd(w[1].rd);
      r.Emit(MovImm(d, Add(Add(w[0].addr, w[0].imm), w[1].imm)));
    }
    Pattern3Sound(other, r.sm, c, w);
    Finish(other, r, c, code, Emitted(P3, r.sm, c, w).code, w);
  }

  lemma Pattern19Sound(other: Other, sm: StaticMap, c: Cache, w: seq<Instr>)
    requires IsStaticMap(sm) && Injective(sm) && Inv(sm, c) && Matches(P19, w) && AllDecoded(w)
    ensures |w| == Length(P19)
    ensures var e := Emitted(P19, sm, c, w);
            Sound(other, sm, c, e.code, e.cache, w)
  {
    hide Matches, IsStaticMap, Injective, Inv, Sound, AllDecoded, Steps;
    Operands(P19, w);
    forall g: State ensures Steps(other, w, g) == SetReg(g, w[0].rd, Add(w[0].imm, w[1].imm)) {
      Meaning19(other, w, g);
    }
    hide Constant, Add;
    ConstantRuns(other, sm, c, w[0].rd, Add(w[0].imm, w[1].imm), w);
  }

  method EmitPattern19(r: RegisterInfo, w: seq<Instr>, ghost other: Other)
    requires Ready(r) && Matches(P19, w) && AllDecoded(w)
    modifies r`code, r`clock, r.content, r.recency
    ensures |w| == Length(P19)
    ensures var e := Emitted(P19, r.sm, old(r.State()), w);
            r.Valid() && r.State() == e.cache && r.code == old(r.code) + e.code
    ensures Ready(r) && Appended(other, r.sm, old(r.State()), old(r.code), r.State(), r.code, w)
  {
    hide Matches, IsStaticMap, Injective, Inv, Sound, AllDecoded, Steps, GetDst, SrcHost, Add;
    ghost var c, code := r.State(), r.code;
    Operands(P19, w);
    var d := r.GetRd(w[0].rd);
    r.Emit(MovImm(d, Add(w[0].imm, w[1].imm)));
    Pattern19Sound(other, r.sm, c, w);
    Finish(other, r, c, code, Emitted(P19, r.sm, c, w).code, w);
  }

  lemma Pattern20Sound(other: Other, sm: StaticMap, c: Cache, w: seq<Instr>)
    requires IsStaticMap(sm) && Injective(sm) && Inv(sm, c) && Matches(P20, w) && AllDecoded(w)
    ensures |w| == Length(P20)
    ensures var e := Emitted(P20, sm, c, w);
            Sound(other, sm, c, e.code, e.cache, w)
  {
    hide Matches, IsStaticMap, Injective, Inv, Sound, AllDecoded, Steps;
    Operands(P20, w);
    forall g: State ensures Steps(other, w, g) == SetReg(g, w[0].rd, w[0].imm) {
      Meaning20(other, w, g);
    }
    hide Constant, Add;
    ConstantRuns(other, sm, c, w[0].rd, w[0].imm, w);
  }

  method EmitPattern20(r: RegisterInfo, w: seq<Instr>, ghost other: Other)
    requires Ready(r) && Matches(P20, w) && AllDecoded(w)
    modifies r`code, r`clock, r.content, r.recency
    ensures |w| == Length(P20)
    ensures var e := Emitted(P20, r.sm, old(r.State()), w);
            r.Valid() && r.State() == e.cache && r.code == old(r.code) + e.code
    ensures Ready(r) && Appended(other, r.sm, old(r.State()), old(r.code), r.State(), r.code, w)
  {
    hide Matches, IsStaticMap, Injective, Inv, Sound, AllDecoded, Steps, GetDst, SrcHost, Add;
    ghost var c, code := r.State(), r.code;
    Operands(P20, w);
    var d := r.GetRd(w[0].rd);
    r.Emit(MovImm(d, w[0].imm));
    Pattern20Sound(other, r.sm, c, w);
    Finish(other, r, c, code, Emitted(P20, r.sm, c, w).code, w);
  }

  lemma Pattern11Sound(other: Other, sm: StaticMap, c: Cache, w: seq<Instr>)
    requires IsStaticMap(sm) && Injective(sm) && Inv(sm, c) && Matches(P11, w) && AllDecoded(w)
    ensures |w| == Length(P11)
    ensures var e := Emitted(P11, sm, c, w);
            Sound(other, sm, c, e.code, e.cache, w)
  {
    hide Matches, IsStaticMap, Injective, Inv, SrcDst, SrcHost, DstHost, Sound, AllDecoded, Computes, Steps, Sets,
         GetDst, MoveTail;
    Operands(P11, w);
    var rs, rd := w[0].rs1, w[0].rd;
    if rs == X0 {
      forall g: State ensures Steps(other, w, g) == SetReg(g, rd, 0) { Meaning11(other, w, g); }
      SetsZero(SrcHost(sm, c, rd));
      DstSound(other, sm, c, rd, [Xor32(SrcHost(sm, c, rd), SrcHost(sm, c, rd))], (mem: Memory) => 0, w);
    } else {
      var s, d := SrcHost(sm, c, rs), DstHost(sm, c, rs, rd);
      var f := (x: Word) => x;
      forall g: State ensures Steps(other, w, g) == SetReg(g, rd, f(Reg(g, rs))) { Meaning11(other, w, g); }
      ComputesMove(s, d);
      SrcDstSound(other, sm, c, rs, rd, MoveTail(s, d), f, w);
    }
  }

  method EmitPattern11(r: RegisterInfo, w: seq<Instr>, ghost other: Other)
    requires Ready(r) && Matches(P11, w) && AllDecoded(w)
    modifies r`code, r`clock, r.content, r.recency
    ensures |w| == Length(P11)
    ensures var e := Emitted(P11, r.sm, old(r.State()), w);
            r.Valid() && r.State() == e.cache && r.code == old(r.code) + e.code
    ensures Ready(r) && Appended(other, r.sm, old(r.State()), old(r.code), r.State(), r.code, w)
  {
    hide Matches, IsStaticMap, Injective, Inv, SrcDst, SrcHost, DstHost, Sound, AllDecoded, Steps, GetDst;
    ghost var c, code := r.State(), r.code;
    Operands(P11, w);
    if w[0].rs1 == X0 {
      var d := r.GetRd(w[0].rd);
      r.Emit(Xor32(d, d));
    } else {
      var s, d := GetRsRd(r, w[0].rs1, w[0].rd);
      if s != d {
        r.Emit(Mov64(d, s));
      }
    }
    Pattern11Sound(other, r.sm, c, w);
    Finish(other, r, c, code, Emitted(P11, r.sm, c, w).code, w);
  }

  lemma Pattern10Sound(other: Other, sm: StaticMap, c: Cache, w: seq<Instr>)
    requires IsStaticMap(sm) && Injective(sm) && Inv(sm, c) && Matches(P10, w) && AllDecoded(w)
    ensures |w| == Length(P10)
    ensures var e := Emitted(P10, sm, c, w);
            Sound(other, sm, c, e.code, e.cache, w)
  {
    hide Matches, IsStaticMap, Injective, Inv, Sound, AllDecoded, Steps;
    forall g: State ensures Steps(other, w, g) == g { Meaning10(other, w, g); }
    assert |w| == Length(P10) by { Operands(P10, w); }
    NothingSound(other, sm, c, [Nop], w);
  }

  method EmitPattern10(r: RegisterInfo, w: seq<Instr>, ghost other: Other)
    requires Ready(r) && Matches(P10, w) && AllDecoded(w)
    modifies r`code, r`clock, r.content, r.recency
    ensures |w| == Length(P10)
    ensures var e := Emitted(P10, r.sm, old(r.State()), w);
            r.Valid() && r.State() == e.cache && r.code == old(r.code) + e.code
    ensures Ready(r) && Appended(other, r.sm, old(r.State()), old(r.code), r.State(), r.code, w)
  {
    hide Matches, IsStaticMap, Injective, Inv, Sound, AllDecoded, Steps;
    ghost var c, code := r.State(), r.code;
    Operands(P10, w);
    r.Emit(Nop);
    Pattern10Sound(other, r.sm, c, w);
    Finish(other, r, c, code, Emitted(P10, r.sm, c, w).code, w);
  }

  lemma Pattern4Sound(other: Other, sm: StaticMap, c: Cache, w: seq<Instr>)
    requires IsStaticMap(sm) && Injective(sm) && Inv(sm, c) && Matches(P4, w) && AllDecoded(w)
    ensures |w| == Length(P4)
    ensures var e := Emitted(P4, sm, c, w);
            Sound(other, sm, c, e.code, e.cache, w)
  {
    hide Matches, IsStaticMap, Injective, Inv, Sound, AllDecoded, Steps;
    Operands(P4, w);
    forall g: State ensures Steps(other, w, g) == SetReg(g, w[0].rd, Loaded(g.mem, Address2(w), false)) {
      Meaning4(other, w, g);
    }
    hide LoadWord, Add, Loaded;
    LoadWordRuns(other, sm, c, w[0].rd, Address2(w), false, w);
  }

  lemma Pattern5Sound(other: Other, sm: StaticMap, c: Cache, w: seq<Instr>)
    requires IsStaticMap(sm) && Injective(sm) && Inv(sm, c) && Matches(P5, w) && AllDecoded(w)
    ensures |w| == Length(P5)
    ensures var e := Emitted(P5, sm, c, w);
            Sound(other, sm, c, e.code, e.cache, w)
  {
    hide Matches, IsStaticMap, Injective, Inv, Sound, AllDecoded, Steps;
    Operands(P5, w);
    forall g: State ensures Steps(other, w, g) == SetReg(g, w[0].rd, Loaded(g.mem, Address2(w), true)) {
      Meaning5(other, w, g);
    }
    hide LoadWord, Add, Loaded;
    LoadWordRuns(other, sm, c, w[0].rd, Address2(w), true, w);
  }

  /** The common part of patterns 4 and 5. */
  method EmitLoad(r: RegisterInfo, rd: Guest, addr: Word, wide: bool)
    requires r.Valid()
    modifies r`code, r`clock, r.content, r.recency
    ensures var e := LoadWord(r.sm, old(r.State()), rd, addr, wide);
            r.Valid() && r.State() == e.cache && r.code == old(r.code) + e.code
  {
    hide SrcHost, GetDst, Invalidate, FitsInt32;
    var d := r.GetRd(rd);
    if FitsInt32(addr) {
      r.Emit(if wide then Load64Abs(d, addr) else LoadSx32Abs(d, addr));
    } else {
      var i: Index := if d != AX then 0 else 2;
      r.InvalidateReplacement(i, true);
      r.Emit(MovImm(HostOf(i), addr));
      r.Emit(if wide then Load64(d, HostOf(i)) else LoadSx32(d, HostOf(i)));
    }
  }

  method EmitPattern4(r: RegisterInfo, w: seq<Instr>, ghost other: Other)
    requires Ready(r) && Matches(P4, w) && AllDecoded(w)
    modifies r`code, r`clock, r.content, r.recency
    ensures |w| == Length(P4)
    ensures var e := Emitted(P4, r.sm, old(r.State()), w);
            r.Valid() && r.State() == e.cache && r.code == old(r.code) + e.code
    ensures Ready(r) && Appended(other, r.sm, old(r.State()), old(r.code), r.State(), r.code, w)
  {
    hide Matches, IsStaticMap, Injective, Inv, Sound, AllDecoded, Steps, LoadWord, Add;
    ghost var c, code := r.State(), r.code;
    Operands(P4, w);
    EmitLoad(r, w[1].rd, Add(Add(w[0].addr, w[0].imm), w[1].imm), false);
    Pattern4Sound(other, r.sm, c, w);
    Finish(other, r, c, code, Emitted(P4, r.sm, c, w).code, w);
  }

  method EmitPattern5(r: RegisterInfo, w: seq<Instr>, ghost other: Other)
    requires Ready(r) && Matches(P5, w) && AllDecoded(w)
    modifies r`code, r`clock, r.content, r.recency
    ensures |w| == Length(P5)
    ensures var e := Emitted(P5, r.sm, old(r.State()), w);
            r.Valid() && r.State() == e.cache && r.code == old(r.code) + e.code
    ensures Ready(r) && Appended(other, r.sm, old(r.State()), old(r.code), r.State(), r.code, w)
  {
    hide Matches, IsStaticMap, Injective, Inv, Sound, AllDecoded, Steps, LoadWord, Add;
    ghost var c, code := r.State(), r.code;
    Operands(P5, w);
    EmitLoad(r, w[1].rd, Add(Add(w[0].addr, w[0].imm), w[1].imm), true);
    Pattern5Sound(other, r.sm, c, w);
    Finish(other, r, c, code, Emitted(P5, r.sm, c, w).code, w);
  }

  // ----- emitters that do not, or not always, have the meaning of their window -----

  /** What pattern 8 computes: the source is read from its slot, slot 0 for x0. */
  lemma SextRuns(sm: StaticMap, c: Cache, rs: Guest, rd: Guest, m: Machine)
    requires IsStaticMap(sm) && Injective(sm) && forall i: Index :: c.content[i] == INVALID
    ensures var m' := Run(SextCode(sm, rs, rd), m);
            && View(sm, c, m')
            == SetReg(View(sm, c, m), rd, Sx32(if rs == X0 then m.file[X0] else Reg(View(sm, c, m), rs)))
            && LeavesHost(sm, m, m')
  {
    hide Sx32, Run, Exec;
    var d := if sm[rd].Mapped? then sm[rd].host else AX;
    var load := if sm[rs].Mapped? then Movsx64From32(d, sm[rs].host) else FetchSx32(d, rs);
    var v := Sx32(if rs == X0 then m.file[X0] else Reg(View(sm, c, m), rs));
    var m1 := Exec(load, m);
    assert m1 == Put(m, d, v) by {
      if sm[rs].Mapped? { ExecHalves(d, sm[rs].host, m); } else { ExecFetchSx32(d, rs, m); }
    }
    RunOne(load, m);
    RunAppend([load], if sm[rd].Mapped? then [] else [Store(rd, AX)], m);
    if sm[rd].Mapped? { RunNone(m1); } else { RunStore(rd, AX, m1); }
  }

  lemma FlushedRuns(sm: StaticMap, c: Cache, tail: seq<Code>, m: Machine)
    requires IsStaticMap(sm) && Inv(sm, c)
    ensures var e := InvalidateAll(c);
            var m1 := Run(e.code, m);
            && Inv(sm, e.cache) && (forall i: Index :: e.cache.content[i] == INVALID)
            && View(sm, e.cache, m1) == View(sm, c, m) && LeavesHost(sm, m, m1) && m1.file[X0] == m.file[X0]
            && Run(e.code + tail, m) == Run(tail, m1)
  {
    hide Run, View, InvalidateAll, LeavesHost;
    var e := InvalidateAll(c);
    InvalidateAllKeeps(sm, c, m);
    KeepsView(sm, c, m, e.cache, Run(e.code, m));
    KeepsHost(sm, c, m, e.cache, Run(e.code, m), {});
    SlotZeroStays(sm, c, m);
    RunAppend(e.code, tail, m);
  }

  lemma Pattern8Runs(other: Other, sm: StaticMap, c: Cache, w: seq<Instr>, m: Machine)
    requires IsStaticMap(sm) && Injective(sm) && Inv(sm, c) && Matches(P8, w) && AllDecoded(w)
    ensures |w| == Length(P8)
    ensures var e := Emitted(P8, sm, c, w);
            var m' := Run(e.code, m);
            && Inv(sm, e.cache) && LeavesHost(sm, m, m')
            && View(sm, e.cache, m') == Effect(other, P8, w, m.file[X0], View(sm, c, m))
  {
    Operands(P8, w);
    hide Steps, Run, View, SextCode, InvalidateAll, Matches, Sx32, LeavesHost, SetReg, Reg;
    var tail := SextCode(sm, w[0].rs1, w[0].rd);
    var m1 := Run(InvalidateAll(c).code, m);
    FlushedRuns(sm, c, tail, m);
    SextRuns(sm, InvalidateAll(c).cache, w[0].rs1, w[0].rd, m1);
    LeavesHostChain(sm, m, m1, Run(tail, m1));
  }

  /** The code of emit_pattern_8 does what the ADDIW does exactly when the source is not
      x0, or the destination is x0, or slot 0 of the register file has a zero lower half. */
  lemma Pattern8Exact(other: Other, sm: StaticMap, c: Cache, w: seq<Instr>, m: Machine)
    requires IsStaticMap(sm) && Injective(sm) && Inv(sm, c) && Matches(P8, w) && AllDecoded(w)
    ensures |w| == 1 && w[0].rs1 < 32 && w[0].rd < 32
    ensures var e := Emitted(P8, sm, c, w);
            View(sm, e.cache, Run(e.code, m)) == Steps(other, w, View(sm, c, m))
            <==> w[0].rs1 != X0 || w[0].rd == X0 || Low32(m.file[X0]) == 0
  {
    Operands(P8, w);
    hide Steps, Run, View, Emitted, Matches, Sx32, Low32, SetReg, LeavesHost, Inv;
    Pattern8Runs(other, sm, c, w, m);
    Meaning8(other, w, View(sm, c, m));
    ReadX0(View(sm, c, m));
    SameWrite(View(sm, c, m), w[0].rd, Sx32(m.file[X0]), Sx32(0));
    SextZero(m.file[X0]);
  }

  lemma ReadX0(g: State)
    ensures Reg(g, X0) == 0
  {
  }

  lemma SameWrite(g: State, r: Guest, a: Word, b: Word)
    ensures SetReg(g, r, a) == SetReg(g, r, b) <==> r == X0 || a == b
  {
    if r != X0 {
      assert SetReg(g, r, a).x[r] == a && SetReg(g, r, b).x[r] == b;
    }
  }

  lemma SextZero(x: Word)
    ensures Sx32(x) == Sx32(0) <==> Low32(x) == 0
  {
  }

  /** invalidateAllReplacements never writes slot 0. */
  lemma SlotZeroStays(sm: StaticMap, c: Cache, m: Machine)
    ensures Run(InvalidateAll(c).code, m).file[X0] == m.file[X0]
  {
    hide Run;
    var e0 := Invalidate(c, 0, true);
    var e1 := Invalidate(e0.cache, 1, true);
    var e2 := Invalidate(e1.cache, 2, true);
    var m0 := Run(e0.code, m);
    var m1 := Run(e1.code, m0);
    RunAppend(e0.code, e1.code, m);
    RunAppend(e0.code + e1.code, e2.code, m);
    SpillSlotZero(c, 0, m);
    SpillSlotZero(e0.cache, 1, m0);
    SpillSlotZero(e1.cache, 2, m1);
  }

  lemma SpillSlotZero(c: Cache, i: Index, m: Machine)
    ensures Run(Spill(c, i), m).file[X0] == m.file[X0]
  {
    hide Run;
    if Spill(c, i) == [] { RunNone(m); } else { RunStore(c.content[i], HostOf(i), m); }
  }

  method EmitPattern8(r: RegisterInfo, w: seq<Instr>)
    requires Ready(r) && Matches(P8, w) && AllDecoded(w)
    modifies r`code, r`clock, r.content, r.recency
    ensures |w| == Length(P8)
    ensures var e := Emitted(P8, r.sm, old(r.State()), w);
            r.Valid() && r.State() == e.cache && r.code == old(r.code) + e.code
  {
    hide Matches, Inv, IsStaticMap, Injective, AllDecoded, InvalidateAll;
    Operands(P8, w);
    var rs, rd := w[0].rs1, w[0].rd;
    r.InvalidateAllReplacements();
    if r.sm[rs].Mapped? {
      if r.sm[rd].Mapped? {
        r.Emit(Movsx64From32(r.sm[rd].host, r.sm[rs].host));
      } else {
        r.Emit(Movsx64From32(AX, r.sm[rs].host));
        r.Emit(Store(rd, AX));
      }
    } else {
      if r.sm[rd].Mapped? {
        r.Emit(FetchSx32(r.sm[rd].host, rs));
      } else {
        r.Emit(FetchSx32(AX, rs));
        r.Emit(Store(rd, AX));
      }
    }
  }

  lemma LuiMeans(other: Other, i: Instr, g: State)
    requires i.mnem == LUI
    ensures Steps(other, [i], g) == SetReg(g, i.rd, i.imm)
  {
    hide Steps;
    Steps1(other, [i], g);
  }

  lemma Pattern9Parts(w: seq<Instr>)
    requires Matches(P9, w) && AllDecoded(w)
    ensures |w| == Length(P9) == 4 && w[0].mnem == LUI && w[0].rd < 32
    ensures Matches(P6, [w[2], w[3]]) && AllDecoded([w[2], w[3]]) && w[2].rs1 < 32 && w[2].rd < 32
  {
    assert ElementMatches(Elements(P9)[0], w, 0) && ElementMatches(Elements(P9)[1], w, 1)
        && ElementMatches(Elements(P9)[2], w, 2) && ElementMatches(Elements(P9)[3], w, 3);
    var v := [w[2], w[3]];
    assert ElementMatches(Elements(P6)[0], v, 0) && ElementMatches(Elements(P6)[1], v, 1);
  }

  /** The code of pattern 9 carries out the window without its ADDI. */
  lemma Pattern9Sound(other: Other, sm: StaticMap, c: Cache, w: seq<Instr>)
    requires IsStaticMap(sm) && Injective(sm) && Inv(sm, c) && Matches(P9, w) && AllDecoded(w)
    ensures |w| == Length(P9) == 4
    ensures var e := Emitted(P9, sm, c, w);
            Sound(other, sm, c, e.code, e.cache, [w[0]] + [w[2], w[3]])
  {
    Pattern9Parts(w);
    hide Inv, IsStaticMap, Injective, FromSource, Sound, Steps, Matches, AllDecoded, IntoDst;
    var e1 := Constant(sm, c, w[0].rd, w[0].imm);
    forall g: State ensures Steps(other, [w[0]], g) == SetReg(g, w[0].rd, w[0].imm) { LuiMeans(other, w[0], g); }
    ConstantRuns(other, sm, c, w[0].rd, w[0].imm, [w[0]]);
    hide Constant;
    SoundInv(other, sm, c, e1.code, e1.cache, [w[0]]);
    Pattern6Sound(other, sm, e1.cache, [w[2], w[3]]);
    var e2 := Emitted(P6, sm, e1.cache, [w[2], w[3]]);
    SoundAppend(other, sm, c, e1.code, e1.cache, [w[0]], e2.code, e2.cache, [w[2], w[3]]);
  }

  method EmitPattern9(r: RegisterInfo, w: seq<Instr>, ghost other: Other)
    requires Ready(r) && Matches(P9, w) && AllDecoded(w)
    modifies r`code, r`clock, r.content, r.recency
    ensures |w| == Length(P9) == 4
    ensures var e := Emitted(P9, r.sm, old(r.State()), w);
            r.Valid() && r.State() == e.cache && r.code == old(r.code) + e.code
    ensures Ready(r)
         && Appended(other, r.sm, old(r.State()), old(r.code), r.State(), r.code, [w[0]] + [w[2], w[3]])
  {
    hide Inv, IsStaticMap, Injective, SrcDst, SrcHost, DstHost, Sound, Steps, GetDst, Matches, AllDecoded;
    ghost var c, code := r.State(), r.code;
    Pattern9Parts(w);
    var d := r.GetRd(w[0].rd);
    r.Emit(MovImm(d, w[0].imm));
    var s, t := GetRsRd(r, w[2].rs1, w[2].rd);
    r.Emit(Mov32(t, s));
    Pattern9Sound(other, r.sm, c, w);
    Finish(other, r, c, code, Emitted(P9, r.sm, c, w).code, [w[0]] + [w[2], w[3]]);
  }

  /** Dropping the ADDI is right exactly when its destination is x0 or already holds what
      the ADDI would put there. */
  lemma Pattern9Exact(other: Other, w: seq<Instr>, g: State)
    requires Matches(P9, w) && AllDecoded(w)
    ensures |w| == 4
    ensures Steps(other, w, g) == Steps(other, [w[0]] + [w[2], w[3]], g)
       <==> w[1].rd == 0 || Reg(g, w[1].rd) == (if w[0].rd == 0 then 0 else w[0].imm)
  {
    hide Steps, Shl, Shr;
    assert ElementMatches(Elements(P9)[0], w, 0) && ElementMatches(Elements(P9)[1], w, 1)
        && ElementMatches(Elements(P9)[2], w, 2) && ElementMatches(Elements(P9)[3], w, 3);
    Steps4(other, w, g);
    Steps3(other, [w[0]] + [w[2], w[3]], g);
    var a, b := w[0].rd, w[1].rd;
    var g1 := SetReg(g, a, w[0].imm);
    var x := Shl(Reg(g1, w[2].rs1), 32);
    DroppedWrite(g1, a, b, Add(Reg(g1, a), 0), x, Shr(Reg(SetReg(g1, a, x), a), 32));
  }

  lemma DroppedWrite(g: State, a: Guest, b: Guest, v: Word, x: Word, y: Word)
    requires a != b
    ensures SetReg(SetReg(SetReg(g, b, v), a, x), a, y) == SetReg(SetReg(g, a, x), a, y)
       <==> b == 0 || Reg(g, b) == v
  {
    var s, t := SetReg(SetReg(SetReg(g, b, v), a, x), a, y), SetReg(SetReg(g, a, x), a, y);
    if b != 0 {
      assert s.x[b] == v && t.x[b] == g.x[b];
      if g.x[b] == v { assert SetReg(g, b, v) == g; }
    }
  }

  /** What pattern 2 leaves: the sum in memory, and none of the register writes of its
      window. */
  function AddedInMemory(w: seq<Instr>, g: State): State
    requires |w| >= 4
  {
    var a := Address3(w);
    g.(mem := Write32(g.mem, a, Low32(Add(Read32(g.mem, a), w[3].imm))))
  }

  lemma Pattern2Runs(other: Other, sm: StaticMap, c: Cache, w: seq<Instr>, m: Machine)
    requires IsStaticMap(sm) && Inv(sm, c) && Matches(P2, w) && AllDecoded(w)
    ensures |w| == Length(P2) == 5
    ensures var e := Emitted(P2, sm, c, w);
            var m' := Run(e.code, m);
            && Inv(sm, e.cache) && LeavesHost(sm, m, m')
            && View(sm, e.cache, m') == AddedInMemory(w, View(sm, c, m))
  {
    assert |w| == Length(P2) == 5;
    Pattern2Emission(sm, c, w);
    hide Run, View, InvalidateAll, Matches, AllDecoded, Inv, LeavesHost, AddMemory, Emitted, IsStaticMap, Add, Write32,
         Read32, Low32, Elements;
    var a, k := Address3(w), w[3].imm;
    var e := InvalidateAll(c);
    var m1 := Run(e.code, m);
    FlushedRuns(sm, c, AddMemory(a, k), m);
    AddMemoryRuns(sm, e.cache, a, k, m1);
    LeavesHostChain(sm, m, m1, Run(AddMemory(a, k), m1));
  }

  lemma AddMemoryRuns(sm: StaticMap, c: Cache, a: Word, k: Word, m: Machine)
    requires IsStaticMap(sm) && forall i: Index :: c.content[i] == INVALID
    ensures var m' := Run(AddMemory(a, k), m);
            && LeavesHost(sm, m, m')
            && View(sm, c, m') == View(sm, c, m).(mem := Write32(m.mem, a, Low32(Add(Read32(m.mem, a), k))))
  {
    hide Run, Exec, Write32, Read32, Low32, Add, FitsInt32;
    if FitsInt32(a) {
      RunOne(AddMem32Abs(a, k), m);
      ExecAddMem(AX, a, k, m);
    } else {
      RunTwo(MovImm(AX, a), AddMem32(AX, k), m);
      ExecMovImm(AX, a, m);
      ExecAddMem(AX, a, k, Put(m, AX, a));
    }
  }

  lemma Pattern2Emission(sm: StaticMap, c: Cache, w: seq<Instr>)
    requires |w| == Length(P2) == 5
    ensures Emitted(P2, sm, c, w) == Flushed(c, AddMemory(Address3(w), w[3].imm))
  {
  }

  /** ADD of a constant to a 32-bit word in memory. */
  method EmitAddMemory(r: RegisterInfo, a: Word, k: Word)
    requires r.Valid()
    modifies r`code
    ensures r.Valid() && r.State() == old(r.State()) && r.code == old(r.code) + AddMemory(a, k)
  {
    hide FitsInt32;
    if FitsInt32(a) {
      r.Emit(AddMem32Abs(a, k));
    } else {
      r.Emit(MovImm(AX, a));
      r.Emit(AddMem32(AX, k));
    }
  }

  method EmitPattern2(r: RegisterInfo, w: seq<Instr>)
    requires Ready(r) && Matches(P2, w) && AllDecoded(w)
    modifies r`code, r`clock, r.content, r.recency
    ensures |w| == Length(P2)
    ensures var e := Emitted(P2, r.sm, old(r.State()), w);
            r.Valid() && r.State() == e.cache && r.code == old(r.code) + e.code
  {
    assert |w| == Length(P2) == 5;
    Pattern2Emission(r.sm, r.State(), w);
    hide Matches, Inv, IsStaticMap, Injective, AllDecoded, InvalidateAll, Add, Emitted, AddMemory, Elements;
    r.InvalidateAllReplacements();
    EmitAddMemory(r, Add(Add(Add(w[0].addr, w[0].imm), w[1].imm), w[2].imm), w[3].imm);
  }

  /** The window of pattern 2 ends with a sign-extended sum in its last destination, so the
      registers left by the emitter are wrong whenever that destination held anything else. */
  lemma Pattern2Differs(other: Other, w: seq<Instr>, g: State)
    requires Matches(P2, w) && AllDecoded(w) && |w| == 5
    requires w[3].rd != 0 && Sx32(Reg(g, w[3].rd)) != Reg(g, w[3].rd)
    ensures Steps(other, w, g).x != g.x
  {
    assert ElementMatches(Elements(P2)[3], w, 3) && ElementMatches(Elements(P2)[4], w, 4);
    assert w[3].mnem == ADDIW && w[4].mnem == SW && w[3].rd < 32;
    Steps5(other, w, g);
    hide Steps, Matches, ElementMatches, Elements;
    var g3 := Step(other, w[2], Step(other, w[1], Step(other, w[0], g)));
    SextAgain(other, w[3], w[4], g3);
  }

  lemma SextAgain(other: Other, i: Instr, j: Instr, g: State)
    requires i.mnem == ADDIW && j.mnem == SW && 0 < i.rd < 32
    ensures var v := Reg(Step(other, j, Step(other, i, g)), i.rd);
            Sx32(v) == v
  {
    var v := Add(Reg(g, i.rs1), i.imm);
    assert Reg(Step(other, i, g), i.rd) == Sx32(v);
    hide Add, Reg;
    LowOfExtended(v);
    assert Sx32(Sx32(v)) == Sx32(v);
  }

  lemma SameSpan(a: Word, b: Word)
    requires a in Span(b) && b in Span(a)
    ensures a == b
  {
  }

  /** Two writes of four bytes into an empty memory agree only on the same bytes. */
  lemma WritesAgree(a: Word, b: Word, v: Word, w: Word)
    requires Write32(map[], a, v) == Write32(map[], b, w)
    ensures a == b && Low32(v) == Low32(w)
  {
    WrittenBytes(map[], a, v);
    WrittenBytes(map[], b, w);
    FourBytes(v);
    FourBytes(w);
    hide Write32, Add, Low32;
    var none: Memory := map[];
    assert none.Keys + Span(a) == Span(a) && none.Keys + Span(b) == Span(b);
    SameSpan(a, b);
  }

  lemma ZerosFit(a: Word, b: Word)
    ensures Write32(map[a := 1], b, 0) == Write32(map[a := 1], a, 1) ==> Span(b) <= {Add(a, 1), Add(a, 2), Add(a, 3)}
  {
    WrittenBytes(map[a := 1], b, 0);
    WrittenBytes(map[a := 1], a, 1);
    hide Write32, Add;
  }

  /** Four zero bytes cannot stand in for a one at a certain place. */
  lemma ZeroForOne(a: Word, b: Word)
    ensures Write32(map[a := 1], b, 0) != Write32(map[a := 1], a, 1)
  {
    hide Write32, Add;
    ZerosFit(a, b);
    Distinct4(b);
    NoRoom(Span(b), Add(a, 1), Add(a, 2), Add(a, 3));
  }

  lemma NoRoom(s: set<Word>, p: Word, q: Word, r: Word)
    requires |s| == 4
    ensures !(s <= {p, q, r})
  {
    var t := {p, q, r};
    assert |t| <= 3;
    SubsetSize(s, t);
  }

  lemma {:induction false} SubsetSize(s: set<Word>, t: set<Word>)
    ensures s <= t ==> |s| <= |t|
  {
    if s != {} && s <= t {
      var x :| x in s;
      SubsetSize(s - {x}, t - {x});
    }
  }

  /** With x0 as the last destination the window stores a zero somewhere. */
  lemma Pattern2StoresZero(other: Other, w: seq<Instr>, g: State) returns (b: Word)
    requires Matches(P2, w) && AllDecoded(w) && |w| == 5 && w[3].rd == X0
    ensures Steps(other, w, g).mem == Write32(g.mem, b, 0)
  {
    assert ElementMatches(Elements(P2)[0], w, 0) && ElementMatches(Elements(P2)[1], w, 1)
        && ElementMatches(Elements(P2)[2], w, 2) && ElementMatches(Elements(P2)[3], w, 3)
        && ElementMatches(Elements(P2)[4], w, 4);
    assert w[0].mnem == AUIPC && w[1].mnem == ADDI && w[2].mnem == LW && w[3].mnem == ADDIW && w[4].mnem == SW;
    assert w[4].rs2 == X0;
    Steps5(other, w, g);
    hide Steps, Matches, ElementMatches, Elements, Add, Sx32, Read32, Write32;
    var g1 := Step(other, w[0], g);
    var g2 := Step(other, w[1], g1);
    var g3 := Step(other, w[2], g2);
    var g4 := Step(other, w[3], g3);
    ReadX0(g4);
    b := Add(Reg(g4, w[4].rs1), w[4].imm);
  }

  function Blank(mem: Memory): State { State(seq(33, i => 0), mem) }

  /** Pattern 2 is right for no window that it accepts: some guest state always tells the
      emitted code from the window. */
  lemma Pattern2NeverSound(other: Other, w: seq<Instr>)
    requires Matches(P2, w) && AllDecoded(w)
    ensures |w| == 5
    ensures exists g: State :: Steps(other, w, g) != AddedInMemory(w, g)
  {
    assert |w| == 5;
    assert w[3].rd < 32 by { assert ElementMatches(Elements(P2)[3], w, 3); }
    hide Matches, AllDecoded, Steps, Write32, Add, Low32;
    var a, k, d := Address3(w), w[3].imm, w[3].rd;
    if d != X0 {
      var g := Blank(map[]).(x := Blank(map[]).x[d := TWO_32]);
      Pattern2Differs(other, w, g);
      assert Steps(other, w, g) != AddedInMemory(w, g);
    } else {
      var g0, g1 := Blank(map[]), Blank(map[a := 1]);
      var b0 := Pattern2StoresZero(other, w, g0);
      var b1 := Pattern2StoresZero(other, w, g1);
      ReadsOne(a, k);
      if Steps(other, w, g0) == AddedInMemory(w, g0) {
        WritesAgree(b0, a, 0, Low32(Add(Read32(map[], a), k)));
        ZeroForOne(a, b1);
        assert Steps(other, w, g1) != AddedInMemory(w, g1);
      }
    }
  }

  lemma ReadsOne(a: Word, k: Word)
    ensures Low32(0) == 0
    ensures Low32(Low32(Add(Read32(map[], a), k))) == 0 ==> Low32(Add(Read32(map[a := 1], a), k)) == 1
  {
    assert Read32(map[], a) == 0;
    assert Read32(map[a := 1], a) == 1;
  }

  lemma Pattern17Parts(w: seq<Instr>)
    requires Matches(P17, w) && AllDecoded(w)
    ensures |w| == Length(P17) == 1 && w[0].rs1 < 32 && w[0].rd < 32
  {
    assert ElementMatches(Elements(P17)[0], w, 0);
  }

  /** The shift of pattern 17 lacks its register operand, so encoding it is an error. */
  lemma Pattern17Malformed(sm: StaticMap, c: Cache, w: seq<Instr>)
    requires IsStaticMap(sm) && Injective(sm) && Inv(sm, c) && Matches(P17, w) && AllDecoded(w)
    ensures |w| == Length(P17)
    ensures var e := Emitted(P17, sm, c, w);
            !AllEncodable(e.code) && Inv(sm, e.cache)
  {
    Pattern17Parts(w);
    Pattern17Emission(sm, c, w);
    hide Matches, AllDecoded, IsStaticMap, Injective, Inv, SrcDst, SrcHost, DstHost, Run, Where, Emitted, AllEncodable;
    var m0: Machine :| true;
    SrcDstKeeps(sm, c, w[0].rs1, w[0].rd, m0);
    var s, d := SrcHost(sm, c, w[0].rs1), DstHost(sm, c, w[0].rs1, w[0].rd);
    EndsMalformed(SrcDst(sm, c, w[0].rs1, w[0].rd).code, MoveTail(s, d));
  }

  lemma EndsMalformed(a: seq<Code>, b: seq<Code>)
    ensures !AllEncodable(a + (b + [Malformed]))
  {
    assert Malformed in a + (b + [Malformed]) && !Encodable(Malformed);
  }

  lemma Pattern17Emission(sm: StaticMap, c: Cache, w: seq<Instr>)
    requires |w| == Length(P17) == 1 && w[0].rs1 < 32 && w[0].rd < 32
    ensures var e := SrcDst(sm, c, w[0].rs1, w[0].rd);
            var s, d := SrcHost(sm, c, w[0].rs1), DstHost(sm, c, w[0].rs1, w[0].rd);
            Emitted(P17, sm, c, w) == Emission(e.code + (MoveTail(s, d) + [Malformed]), e.cache)
  {
    hide SrcDst, SrcHost, DstHost;
  }

  method EmitPattern17(r: RegisterInfo, w: seq<Instr>)
    requires Ready(r) && Matches(P17, w) && AllDecoded(w)
    modifies r`code, r`clock, r.content, r.recency
    ensures |w| == Length(P17)
    ensures var e := Emitted(P17, r.sm, old(r.State()), w);
            r.Valid() && r.State() == e.cache && r.code == old(r.code) + e.code
    ensures old(r.code) < r.code && r.code[|r.code| - 1] == Malformed
  {
    Pattern17Parts(w);
    Pattern17Emission(r.sm, r.State(), w);
    hide Matches, AllDecoded, Inv, IsStaticMap, Injective, SrcDst, SrcHost, DstHost, Emitted;
    var s, d := GetRsRd(r, w[0].rs1, w[0].rd);
    if s != d {
      r.Emit(Mov64(d, s));
    }
    r.Emit(Malformed);
  }

  // ----- all patterns -----

  /** What the code of a window does to the guest state; `z` is slot 0 of the register file. */
  function Effect(other: Other, i: PatternId, w: seq<Instr>, z: Word, g: State): State
    requires |w| == Length(i)
  {
    if i == P2 then AddedInMemory(w, g)
    else if i == P8 then SetReg(g, w[0].rd, Sx32(if w[0].rs1 == X0 then z else Reg(g, w[0].rs1)))
    else if i == P9 then Steps(other, [w[0]] + [w[2], w[3]], g)
    else Steps(other, w, g)
  }

  /** Windows whose emitted code is right in every machine state. */
  predicate Faithful(i: PatternId, w: seq<Instr>)
    requires |w| == Length(i)
  {
    i !in {P2, P9, P17} && (i == P8 ==> w[0].rs1 != X0 || w[0].rd == X0)
  }

  lemma SoundAt(other: Other, sm: StaticMap, c: Cache, code: seq<Code>, c': Cache, w: seq<Instr>, m: Machine)
    requires Sound(other, sm, c, code, c', w)
    ensures Inv(sm, c') && LeavesHost(sm, m, Run(code, m))
    ensures View(sm, c', Run(code, m)) == Steps(other, w, View(sm, c, m))
  {
  }

  /** The emitted code is sound for every pattern but 2, 8, 9 and 17. */
  lemma EmittedSound(other: Other, i: PatternId, sm: StaticMap, c: Cache, w: seq<Instr>)
    requires IsStaticMap(sm) && Injective(sm) && Inv(sm, c) && Matches(i, w) && AllDecoded(w)
    requires i !in {P2, P8, P9, P17}
    ensures |w| == Length(i)
    ensures var e := Emitted(i, sm, c, w);
            Sound(other, sm, c, e.code, e.cache, w)
  {
    hide IsStaticMap, Injective, Inv, AllDecoded, Sound, Emitted, Matches;
    if i == P3 { Pattern3Sound(other, sm, c, w); }
    else if i == P4 { Pattern4Sound(other, sm, c, w); }
    else if i == P5 { Pattern5Sound(other, sm, c, w); }
    else if i == P6 { Pattern6Sound(other, sm, c, w); }
    else if i == P7 { Pattern7Sound(other, sm, c, w); }
    else if i == P10 { Pattern10Sound(other, sm, c, w); }
    else if i == P11 { Pattern11Sound(other, sm, c, w); }
    else if i == P12 { Pattern12Sound(other, sm, c, w); }
    else if i == P13 { Pattern13Sound(other, sm, c, w); }
    else if i == P14 { Pattern14Sound(other, sm, c, w); }
    else if i == P15 { Pattern15Sound(other, sm, c, w); }
    else if i == P16 { Pattern16Sound(other, sm, c, w); }
    else if i == P18 { Pattern18Sound(other, sm, c, w); }
    else if i == P19 { Pattern19Sound(other, sm, c, w); }
    else if i == P20 { Pattern20Sound(other, sm, c, w); }
    else if i == P21 { Pattern21Sound(other, sm, c, w); }
    else if i == P22 { Pattern22Sound(other, sm, c, w); }
    else { Pattern23Sound(other, sm, c, w); }
  }

  /** For every window that a pattern accepts, but those of pattern 17, the emitted code has
      the stated effect, from any machine. */
  lemma EmittedEffect(other: Other, i: PatternId, sm: StaticMap, c: Cache, w: seq<Instr>, m: Machine)
    requires IsStaticMap(sm) && Injective(sm) && Inv(sm, c) && Matches(i, w) && AllDecoded(w) && i != P17
    ensures |w| == Length(i)
    ensures var e := Emitted(i, sm, c, w);
            var m' := Run(e.code, m);
            && Inv(sm, e.cache) && LeavesHost(sm, m, m')
            && View(sm, e.cache, m') == Effect(other, i, w, m.file[X0], View(sm, c, m))
  {
    hide IsStaticMap, Injective, Inv, AllDecoded, Sound, Emitted, Run, View, LeavesHost, Steps, AddedInMemory;
    if i == P2 {
      Pattern2Runs(other, sm, c, w, m);
    } else if i == P8 {
      Pattern8Runs(other, sm, c, w, m);
    } else if i == P9 {
      Pattern9Sound(other, sm, c, w);
      var e := Emitted(P9, sm, c, w);
      SoundAt(other, sm, c, e.code, e.cache, [w[0]] + [w[2], w[3]], m);
    } else {
      EmittedSound(other, i, sm, c, w);
      var e := Emitted(i, sm, c, w);
      SoundAt(other, sm, c, e.code, e.cache, w, m);
    }
  }

  /** Where the effect is that of the window. */
  lemma EffectFaithful(other: Other, i: PatternId, w: seq<Instr>, z: Word, g: State)
    requires Matches(i, w) && AllDecoded(w)
    ensures |w| == Length(i)
    ensures Faithful(i, w) || (i == P8 && Low32(z) == 0) ==> Effect(other, i, w, z, g) == Steps(other, w, g)
  {
    if i == P8 {
      Operands(P8, w);
      Meaning8(other, w, g);
      SextZero(z);
      ReadX0(g);
      hide Steps, Sx32, Low32;
      SameWrite(g, w[0].rd, Sx32(z), Sx32(0));
    }
  }

  /** For every faithful window the emitted code has its meaning. */
  lemma FaithfulSound(other: Other, i: PatternId, sm: StaticMap, c: Cache, w: seq<Instr>)
    requires IsStaticMap(sm) && Injective(sm) && Inv(sm, c) && Matches(i, w) && AllDecoded(w)
    requires |w| == Length(i) && Faithful(i, w)
    ensures var e := Emitted(i, sm, c, w);
            Sound(other, sm, c, e.code, e.cache, w)
  {
    hide IsStaticMap, Injective, Inv, AllDecoded, Matches, Emitted, Run, View, Steps, Effect, LeavesHost;
    EmittedInv(i, sm, c, w);
    var e := Emitted(i, sm, c, w);
    forall m: Machine
      ensures View(sm, e.cache, Run(e.code, m)) == Steps(other, w, View(sm, c, m)) && LeavesHost(sm, m, Run(e.code, m))
    {
      EmittedEffect(other, i, sm, c, w, m);
      EffectFaithful(other, i, w, m.file[X0], View(sm, c, m));
    }
  }

  lemma EmittedInv(i: PatternId, sm: StaticMap, c: Cache, w: seq<Instr>)
    requires IsStaticMap(sm) && Injective(sm) && Inv(sm, c) && Matches(i, w) && AllDecoded(w)
    ensures |w| == Length(i)
    ensures Inv(sm, Emitted(i, sm, c, w).cache)
  {
    hide IsStaticMap, Injective, Inv, AllDecoded, Emitted, Run, View, Steps, Effect;
    if i == P17 {
      Pattern17Malformed(sm, c, w);
    } else {
      var m0: Machine :| true;
      EmittedEffect((j: Instr, g: State) => g, i, sm, c, w, m0);
    }
  }

  /** patterns[i].emitter: appends exactly the code described, which for every faithful window
      has its meaning. */
  method EmitPattern(r: RegisterInfo, i: PatternId, w: seq<Instr>, ghost other: Other)
    requires Ready(r) && Matches(i, w) && AllDecoded(w)
    modifies r`code, r`clock, r.content, r.recency
    ensures |w| == Length(i)
    ensures var e := Emitted(i, r.sm, old(r.State()), w);
            r.Valid() && r.State() == e.cache && r.code == old(r.code) + e.code
    ensures Ready(r)
    ensures Faithful(i, w) ==> Appended(other, r.sm, old(r.State()), old(r.code), r.State(), r.code, w)
  {
    hide AllDecoded, Matches, Inv, IsStaticMap, Injective, Emitted, Sound;
    EmittedInv(i, r.sm, r.State(), w);
    ghost var e := Emitted(i, r.sm, r.State(), w);
    assert (r.code + e.code)[|r.code|..] == e.code;
    if Faithful(i, w) { FaithfulSound(other, i, r.sm, r.State(), w); }
    if i == P2 { EmitPattern2(r, w); }
    else if i == P9 { EmitPattern9(r, w, other); }
    else if i == P7 { EmitPattern7(r, w, other); }
    else if i == P3 { EmitPattern3(r, w, other); }
    else if i == P4 { EmitPattern4(r, w, other); }
    else if i == P5 { EmitPattern5(r, w, other); }
    else if i == P6 { EmitPattern6(r, w, other); }
    else if i == P21 { EmitPattern21(r, w, other); }
    else if i == P19 { EmitPattern19(r, w, other); }
    else if i == P23 { EmitPattern23(r, w, other); }
    else if i == P11 { EmitPattern11(r, w, other); }
    else if i == P20 { EmitPattern20(r, w, other); }
    else if i == P8 { EmitPattern8(r, w); }
    else if i == P22 { EmitPattern22(r, w, other); }
    else if i == P10 { EmitPattern10(r, w, other); }
    else if i == P12 { EmitPattern12(r, w, other); }
    else if i == P13 { EmitPattern13(r, w, other); }
    else if i == P14 { EmitPattern14(r, w, other); }
    else if i == P15 { EmitPattern15(r, w, other); }
    else if i == P16 { EmitPattern16(r, w, other); }
    else if i == P17 { EmitPattern17(r, w); }
    else { EmitPattern18(r, w, other); }
  }
}
