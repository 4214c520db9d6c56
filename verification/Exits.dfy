/** How blocks end: the translators of JAL, JALR and of a full block's last slot, without the
    return ring and without chaining, set the guest's pc for the main loop. */
module Exits {
  import opened Words
  import opened X86
  import opened RegisterCache
  import opened Riscv
  import opened Simulation
  import opened Translators
  import opened Emitters

  /** A constant to a guest register that is not cached.  The encoder takes signed 32-bit
      constants for memory only. */
  function SetConstant(sm: StaticMap, r: Guest, w: Word): Code {
    if sm[r].Mapped? then MovImm(sm[r].host, w) else StoreImm(r, w)
  }

  function JalCode(sm: StaticMap, c: Cache, i: Instr): Emission {
    var e := Translated(sm, c, Instr(i.addr, AUIPC, IMMEDIATE, 0, 0, i.rd, 4));
    var f := InvalidateAll(e.cache);
    Emission(e.code + (f.code + [SetConstant(sm, PC, Add(i.addr, i.imm))]), f.cache)
  }

  /** The target of a JALR into AX. */
  function TargetCode(sm: StaticMap, i: Instr): seq<Code> {
    var rs := AsGuest(i.rs1);
    [if sm[rs].Mapped? then Mov64(AX, sm[rs].host) else Fetch(AX, rs), AluRI(Add64, AX, i.imm), AluRI(And64, AX, EVEN)]
  }

  function LinkCode(sm: StaticMap, i: Instr): seq<Code> {
    if i.rd == 0 then [] else [SetConstant(sm, AsGuest(i.rd), Add(i.addr, 4))]
  }

  function PcFromAx(sm: StaticMap): Code { if sm[PC].Mapped? then Mov64(sm[PC].host, AX) else Store(PC, AX) }

  function JalrCode(sm: StaticMap, c: Cache, i: Instr): Emission {
    Flushed(c, TargetCode(sm, i) + (LinkCode(sm, i) + [PcFromAx(sm)]))
  }

  function NextCode(sm: StaticMap, c: Cache, i: Instr): Emission { Flushed(c, [MovImm(AX, i.imm), Store(PC, AX)]) }

  function ExitCode(sm: StaticMap, c: Cache, i: Instr): Emission {
    match i.mnem
    case JAL => JalCode(sm, c, i)
    case JALR => JalrCode(sm, c, i)
    case PC_NEXT_INST => NextCode(sm, c, i)
    case _ => Emission([], c)
  }

  /** With nothing cached, a guest register is its host register or its slot. */
  predicate Empty(c: Cache) { forall i: Index :: c.content[i] == INVALID }

  lemma WriteSlot(sm: StaticMap, c: Cache, r: Guest, w: Word, m: Machine)
    requires Empty(c) && sm[r].Unmapped? && r != X0
    ensures View(sm, c, m.(file := m.file[r := w])) == SetReg(View(sm, c, m), r, w)
    ensures LeavesHost(sm, m, m.(file := m.file[r := w]))
  {
  }

  lemma WriteMapped(sm: StaticMap, c: Cache, r: Guest, w: Word, m: Machine)
    requires Empty(c) && IsStaticMap(sm) && Injective(sm) && sm[r].Mapped?
    ensures View(sm, c, Put(m, sm[r].host, w)) == SetReg(View(sm, c, m), r, w)
    ensures LeavesHost(sm, m, Put(m, sm[r].host, w))
  {
  }

  lemma WriteAx(sm: StaticMap, c: Cache, w: Word, m: Machine)
    requires Empty(c) && IsStaticMap(sm)
    ensures View(sm, c, Put(m, AX, w)) == View(sm, c, m)
    ensures LeavesHost(sm, m, Put(m, AX, w))
  {
  }

  lemma ConstantSet(sm: StaticMap, c: Cache, r: Guest, w: Word, m: Machine)
    requires Empty(c) && IsStaticMap(sm) && Injective(sm) && r != X0 && Encodable(SetConstant(sm, r, w))
    ensures var m' := Exec(SetConstant(sm, r, w), m);
            && View(sm, c, m') == SetReg(View(sm, c, m), r, w) && LeavesHost(sm, m, m') && m'.regs[AX] == m.regs[AX]
  {
    hide Exec, View, LeavesHost, SetReg;
    if sm[r].Mapped? {
      ExecMovImm(sm[r].host, w, m);
      WriteMapped(sm, c, r, w, m);
    } else {
      ExecSlots(AX, r, w, m);
      WriteSlot(sm, c, r, w, m);
    }
  }

  lemma PcSet(sm: StaticMap, c: Cache, m: Machine)
    requires Empty(c) && IsStaticMap(sm) && Injective(sm)
    ensures var m' := Exec(PcFromAx(sm), m);
            View(sm, c, m') == SetReg(View(sm, c, m), PC, m.regs[AX]) && LeavesHost(sm, m, m')
  {
    hide Exec, View, LeavesHost, SetReg;
    if sm[PC].Mapped? {
      ExecMoves(sm[PC].host, AX, 0, m);
      WriteMapped(sm, c, PC, m.regs[AX], m);
    } else {
      ExecSlots(AX, PC, 0, m);
      WriteSlot(sm, c, PC, m.regs[AX], m);
    }
  }

  lemma FlushedEmpty(sm: StaticMap, c: Cache, tail: seq<Code>, m: Machine)
    requires IsStaticMap(sm) && Inv(sm, c)
    ensures var c' := InvalidateAll(c).cache;
            var m1 := Run(InvalidateAll(c).code, m);
            && Inv(sm, c') && Empty(c') && View(sm, c', m1) == View(sm, c, m) && LeavesHost(sm, m, m1)
            && m1.file[X0] == m.file[X0]
            && Run(InvalidateAll(c).code + tail, m) == Run(tail, m1)
  {
    FlushedRuns(sm, c, tail, m);
  }

  lemma NextRuns(sm: StaticMap, c: Cache, w: Word, m: Machine)
    requires Empty(c) && IsStaticMap(sm) && sm[PC].Unmapped?
    ensures var m' := Run([MovImm(AX, w), Store(PC, AX)], m);
            View(sm, c, m') == SetReg(View(sm, c, m), PC, w) && LeavesHost(sm, m, m')
  {
    hide Run, Exec, View, LeavesHost, SetReg, IsStaticMap;
    var m1 := Put(m, AX, w);
    RunTwo(MovImm(AX, w), Store(PC, AX), m);
    ExecMovImm(AX, w, m);
    ExecSlots(AX, PC, 0, m1);
    WriteAx(sm, c, w, m);
    WriteSlot(sm, c, PC, w, m1);
    LeavesHostChain(sm, m, m1, Exec(Store(PC, AX), m1));
  }

  lemma NextSound(sm: StaticMap, c: Cache, i: Instr)
    requires IsStaticMap(sm) && Injective(sm) && Inv(sm, c) && i.mnem == PC_NEXT_INST && sm[PC].Unmapped?
    ensures Sound(JumpMeaning, sm, c, NextCode(sm, c, i).code, NextCode(sm, c, i).cache, [i])
  {
    hide Run, Exec, View, LeavesHost, SetReg, InvalidateAll, Inv, Steps, IsStaticMap, Injective, Empty;
    var tail := [MovImm(AX, i.imm), Store(PC, AX)];
    var c' := InvalidateAll(c).cache;
    var m0: Machine :| true;
    FlushedEmpty(sm, c, tail, m0);
    forall m: Machine
      ensures var m' := Run(NextCode(sm, c, i).code, m);
              View(sm, c', m') == Steps(JumpMeaning, [i], View(sm, c, m)) && LeavesHost(sm, m, m')
    {
      var m1 := Run(InvalidateAll(c).code, m);
      FlushedEmpty(sm, c, tail, m);
      NextRuns(sm, c', i.imm, m1);
      Steps1(JumpMeaning, [i], View(sm, c, m));
      LeavesHostChain(sm, m, m1, Run(tail, m1));
    }
  }

  lemma JalSound(sm: StaticMap, c: Cache, i: Instr)
    requires IsStaticMap(sm) && Injective(sm) && Inv(sm, c) && i.mnem == JAL && Decoded(i)
    requires AllEncodable(JalCode(sm, c, i).code)
    ensures Sound(JumpMeaning, sm, c, JalCode(sm, c, i).code, JalCode(sm, c, i).cache, [i])
  {
    hide Run, Exec, View, LeavesHost, SetReg, InvalidateAll, Inv, Steps, IsStaticMap, Injective, Translated, Sound,
         SetConstant;
    var link := Instr(i.addr, AUIPC, IMMEDIATE, 0, 0, i.rd, 4);
    var e := Translated(sm, c, link);
    TranslatedSound(JumpMeaning, sm, c, link);
    SoundInv(JumpMeaning, sm, c, e.code, e.cache, [link]);
    var f := InvalidateAll(e.cache);
    var jump := SetConstant(sm, PC, Add(i.addr, i.imm));
    assert Encodable(jump) by { assert JalCode(sm, c, i).code[|JalCode(sm, c, i).code| - 1] == jump; }
    var m0: Machine :| true;
    FlushedEmpty(sm, e.cache, [jump], m0);
    forall m: Machine
      ensures var m' := Run(JalCode(sm, c, i).code, m);
              View(sm, f.cache, m') == Steps(JumpMeaning, [i], View(sm, c, m)) && LeavesHost(sm, m, m')
    {
      var m1 := Run(e.code, m);
      var m2 := Run(f.code, m1);
      SoundAt(JumpMeaning, sm, c, e.code, e.cache, [link], m);
      RunAppend(e.code, f.code + [jump], m);
      FlushedEmpty(sm, e.cache, [jump], m1);
      RunOne(jump, m2);
      ConstantSet(sm, f.cache, PC, Add(i.addr, i.imm), m2);
      Steps1(JumpMeaning, [link], View(sm, c, m));
      Steps1(JumpMeaning, [i], View(sm, c, m));
      LeavesHostChain(sm, m, m1, m2);
      LeavesHostChain(sm, m, m2, Exec(jump, m2));
    }
    SoundFromAll(JumpMeaning, sm, c, JalCode(sm, c, i).code, f.cache, [i]);
  }

  lemma SoundFromAll(other: Other, sm: StaticMap, c: Cache, code: seq<Code>, c': Cache, w: seq<Instr>)
    requires Inv(sm, c')
    requires forall m: Machine ::
               View(sm, c', Run(code, m)) == Steps(other, w, View(sm, c, m)) && LeavesHost(sm, m, Run(code, m))
    ensures Sound(other, sm, c, code, c', w)
  {
  }

  /** What the code of a JALR takes for rs1, when slot 0 of the register file holds z. */
  function JumpBase(i: Instr, z: Word, g: State): Word { if i.rs1 == X0 then z else Reg(g, i.rs1) }

  function JalrTarget(i: Instr, z: Word, g: State): Word { And(Add(JumpBase(i, z, g), i.imm), EVEN) }

  lemma TargetRuns(sm: StaticMap, c: Cache, i: Instr, m: Machine)
    requires Empty(c) && IsStaticMap(sm) && i.rs1 < 32
    ensures var m' := Run(TargetCode(sm, i), m);
            && View(sm, c, m') == View(sm, c, m) && LeavesHost(sm, m, m')
            && m'.regs[AX] == JalrTarget(i, m.file[X0], View(sm, c, m))
  {
    hide Run, Exec, LeavesHost, AluEval, And, Add;
    var rs: Guest := i.rs1;
    var x := JumpBase(i, m.file[X0], View(sm, c, m));
    var load := if sm[rs].Mapped? then Mov64(AX, sm[rs].host) else Fetch(AX, rs);
    var m1, m2 := Put(m, AX, x), Put(m, AX, Add(x, i.imm)).(tested := 0, order := UNORDERED);
    assert Exec(load, m) == m1 by {
      if sm[rs].Mapped? { ExecMoves(AX, sm[rs].host, 0, m); } else { ExecSlots(AX, rs, 0, m); }
    }
    hide View, Reg;
    RunThree(load, AluRI(Add64, AX, i.imm), AluRI(And64, AX, EVEN), m);
    ExecAluRI(Add64, AX, i.imm, m1);
    AluAdd(x, i.imm);
    ExecAluRI(And64, AX, EVEN, m2);
    AluAdd(Add(x, i.imm), EVEN);
    var t := And(Add(x, i.imm), EVEN);
    assert m.regs[AX := x][AX := Add(x, i.imm)] == m.regs[AX := Add(x, i.imm)];
    assert m.regs[AX := Add(x, i.imm)][AX := t] == m.regs[AX := t];
    assert Run(TargetCode(sm, i), m) == Put(m, AX, t).(tested := 0, order := UNORDERED);
    WriteAx(sm, c, t, m);
    FlagsDoNotMatter(sm, c, Put(m, AX, t));
  }

  lemma FlagsDoNotMatter(sm: StaticMap, c: Cache, m: Machine)
    ensures View(sm, c, m.(tested := 0, order := UNORDERED)) == View(sm, c, m)
    ensures LeavesHost(sm, m, m.(tested := 0, order := UNORDERED))
    ensures forall m0: Machine :: LeavesHost(sm, m0, m) ==> LeavesHost(sm, m0, m.(tested := 0, order := UNORDERED))
  {
  }

  lemma LinkRuns(sm: StaticMap, c: Cache, i: Instr, m: Machine)
    requires Empty(c) && IsStaticMap(sm) && Injective(sm) && i.rd < 32 && AllEncodable(LinkCode(sm, i))
    ensures var m' := Run(LinkCode(sm, i), m);
            && View(sm, c, m') == SetReg(View(sm, c, m), i.rd, Add(i.addr, 4)) && LeavesHost(sm, m, m')
            && m'.regs[AX] == m.regs[AX]
  {
    hide Run, Exec, View, Add, IsStaticMap, Injective, SetConstant;
    if i.rd == 0 {
      RunNone(m);
    } else {
      var link := SetConstant(sm, i.rd, Add(i.addr, 4));
      assert LinkCode(sm, i)[0] == link;
      RunOne(link, m);
      ConstantSet(sm, c, i.rd, Add(i.addr, 4), m);
    }
  }

  /** The code of a JALR, from any machine: its target is computed from what slot 0 holds if
      rs1 is x0. */
  lemma JalrRuns(sm: StaticMap, c: Cache, i: Instr, m: Machine)
    requires IsStaticMap(sm) && Injective(sm) && Inv(sm, c) && i.mnem == JALR && Decoded(i)
    requires AllEncodable(JalrCode(sm, c, i).code)
    ensures var e := JalrCode(sm, c, i);
            var m' := Run(e.code, m);
            var g := View(sm, c, m);
            && Inv(sm, e.cache) && LeavesHost(sm, m, m')
            && View(sm, e.cache, m') == SetReg(SetReg(g, i.rd, Add(i.addr, 4)), PC, JalrTarget(i, m.file[X0], g))
  {
    hide Run, Exec, View, LeavesHost, SetReg, InvalidateAll, Inv, IsStaticMap, Injective, TargetCode, LinkCode,
         PcFromAx, JalrTarget, Add;
    var target, link, jump := TargetCode(sm, i), LinkCode(sm, i), PcFromAx(sm);
    var tail := target + (link + [jump]);
    var c' := InvalidateAll(c).cache;
    assert AllEncodable(link);
    var m1 := Run(InvalidateAll(c).code, m);
    var m2 := Run(target, m1);
    var m3 := Run(link, m2);
    FlushedEmpty(sm, c, tail, m);
    RunAppend(target, link + [jump], m1);
    RunAppend(link, [jump], m2);
    RunOne(jump, m3);
    TargetRuns(sm, c', i, m1);
    LinkRuns(sm, c', i, m2);
    PcSet(sm, c', m3);
    LeavesHostChain(sm, m, m1, m2);
    LeavesHostChain(sm, m, m2, m3);
    LeavesHostChain(sm, m, m3, Exec(jump, m3));
  }

  lemma JalrSound(sm: StaticMap, c: Cache, i: Instr)
    requires IsStaticMap(sm) && Injective(sm) && Inv(sm, c) && i.mnem == JALR && Decoded(i) && i.rs1 != X0
    requires AllEncodable(JalrCode(sm, c, i).code)
    ensures Sound(JumpMeaning, sm, c, JalrCode(sm, c, i).code, JalrCode(sm, c, i).cache, [i])
  {
    hide Run, View, LeavesHost, SetReg, Inv, Steps, IsStaticMap, Injective, JalrCode, And, Add;
    var m0: Machine :| true;
    JalrRuns(sm, c, i, m0);
    forall m: Machine
      ensures var m' := Run(JalrCode(sm, c, i).code, m);
              View(sm, JalrCode(sm, c, i).cache, m') == Steps(JumpMeaning, [i], View(sm, c, m)) && LeavesHost(sm, m, m')
    {
      JalrRuns(sm, c, i, m);
      Steps1(JumpMeaning, [i], View(sm, c, m));
    }
  }

  /** A JALR on x0 jumps where it should exactly if slot 0 of the register file leads there. */
  lemma JalrZeroExact(sm: StaticMap, c: Cache, i: Instr, m: Machine)
    requires IsStaticMap(sm) && Injective(sm) && Inv(sm, c) && i.mnem == JALR && Decoded(i) && i.rs1 == X0
    requires AllEncodable(JalrCode(sm, c, i).code)
    ensures var e := JalrCode(sm, c, i);
            View(sm, e.cache, Run(e.code, m)) == JumpMeaning(i, View(sm, c, m))
            <==> And(Add(m.file[X0], i.imm), EVEN) == And(Add(0, i.imm), EVEN)
  {
    hide Run, View, LeavesHost, Inv, IsStaticMap, Injective, JalrCode, And, Add, SetReg;
    JalrRuns(sm, c, i, m);
    var g := SetReg(View(sm, c, m), i.rd, Add(i.addr, 4));
    PcOf(g, And(Add(m.file[X0], i.imm), EVEN));
    PcOf(g, And(Add(0, i.imm), EVEN));
  }

  lemma PcOf(g: State, w: Word)
    ensures Reg(SetReg(g, PC, w), PC) == w
  {
  }

  /** Exits of a block are translated right, for every map that leaves pc in its slot. */
  lemma ExitSound(sm: StaticMap, c: Cache, i: Instr)
    requires IsStaticMap(sm) && Injective(sm) && Inv(sm, c) && IsExit(i.mnem) && Decoded(i)
    requires sm[PC].Unmapped? && (i.mnem == JALR ==> i.rs1 != X0)
    requires AllEncodable(ExitCode(sm, c, i).code)
    ensures Sound(JumpMeaning, sm, c, ExitCode(sm, c, i).code, ExitCode(sm, c, i).cache, [i])
  {
    hide IsStaticMap, Injective, Inv, Sound, JalCode, JalrCode, NextCode;
    match i.mnem
    case JAL => JalSound(sm, c, i);
    case JALR => JalrSound(sm, c, i);
    case PC_NEXT_INST => NextSound(sm, c, i);
  }

  lemma ExitInv(sm: StaticMap, c: Cache, i: Instr)
    requires IsStaticMap(sm) && Injective(sm) && Inv(sm, c) && Decoded(i)
    ensures Inv(sm, ExitCode(sm, c, i).cache)
  {
    hide IsStaticMap, Injective, Inv, Sound, InvalidateAll, Translated, Run, TargetCode, LinkCode;
    var m0: Machine :| true;
    if i.mnem == JAL {
      var link := Instr(i.addr, AUIPC, IMMEDIATE, 0, 0, i.rd, 4);
      var e := Translated(sm, c, link);
      TranslatedSound(JumpMeaning, sm, c, link);
      SoundInv(JumpMeaning, sm, c, e.code, e.cache, [link]);
      FlushedEmpty(sm, e.cache, [], m0);
    } else {
      FlushedEmpty(sm, c, [], m0);
    }
  }
}
