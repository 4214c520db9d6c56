/** Two-operand instructions through the register cache: getRs1, getRs2, getRd and then
    doArithmCommutative. */
module Arithmetic {
  import opened Words
  import opened X86
  import opened RegisterCache
  import opened Riscv
  import opened Simulation
  import opened RegisterInfos

  /** The code of doArithmCommutative. */
  function Arithm(op: Alu, s1: Host, s2: Host, d: Host): seq<Code> {
    if d == s1 then [AluRR(op, s1, s2)]
    else if d == s2 then [AluRR(op, s2, s1)]
    else [Mov64(d, s1), AluRR(op, d, s2)]
  }

  ghost predicate Commutative(op: Alu) {
    forall a: Word, b: Word :: AluEval(op, a, b) == AluEval(op, b, a)
  }

  /** The commutative ones among the operations. */
  predicate IsCommutative(op: Alu) { op in {Add64, And64, Or64, Xor64, Add32, And32, Mul64, Mul32} }

  lemma CommutativeExactly(op: Alu)
    ensures Commutative(op) <==> IsCommutative(op)
  {
    if IsCommutative(op) {
      forall a: Word, b: Word ensures AluEval(op, a, b) == AluEval(op, b, a) {
        AndCommutes(64, a, b);
        OrCommutes(64, a, b);
        XorCommutes(64, a, b);
      }
    } else {
      assert AluEval(op, 1, 0) != AluEval(op, 0, 1);
    }
  }

  /** getRs1, getRs2, getRd */
  function SrcSrcDst(sm: StaticMap, c: Cache, rs1: Guest, rs2: Guest, rd: Guest): Emission {
    var e1 := GetSrc(sm, c, rs1);
    var e2 := GetSrc(sm, e1.cache, rs2);
    var e3 := GetDst(sm, e2.cache, rd);
    Emission(e1.code + e2.code + e3.code, e3.cache)
  }

  function Second(sm: StaticMap, c: Cache, rs1: Guest, rs2: Guest): Host {
    SrcHost(sm, GetSrc(sm, c, rs1).cache, rs2)
  }

  function Third(sm: StaticMap, c: Cache, rs1: Guest, rs2: Guest, rd: Guest): Host {
    SrcHost(sm, GetSrc(sm, GetSrc(sm, c, rs1).cache, rs2).cache, rd)
  }

  /** With three replacement registers, requesting both sources and the destination never
      evicts a source: afterwards each source register still holds its operand, and the
      third register is the home of the destination. */
  lemma OperandsStay(sm: StaticMap, c: Cache, rs1: Guest, rs2: Guest, rd: Guest, m: Machine)
    requires IsStaticMap(sm) && Injective(sm) && Inv(sm, c)
    ensures var e := SrcSrcDst(sm, c, rs1, rs2, rd);
            var m' := Run(e.code, m);
            && Inv(sm, e.cache) && Keeps(sm, c, m, e.cache, m', {rd})
            && Home(sm, e.cache, rd, Third(sm, c, rs1, rs2, rd))
            && m'.regs[SrcHost(sm, c, rs1)] == Val(sm, c, m, rs1)
            && m'.regs[Second(sm, c, rs1, rs2)] == Val(sm, c, m, rs2)
  {
    hide Run, Where, Inv, GetSrc, GetDst, Home, SrcHost;
    var e1 := GetSrc(sm, c, rs1);
    var m1 := Run(e1.code, m);
    var e2 := GetSrc(sm, e1.cache, rs2);
    var m2 := Run(e2.code, m1);
    var e3 := GetDst(sm, e2.cache, rd);
    var h1, v1 := SrcHost(sm, c, rs1), Val(sm, c, m, rs1);
    var h2, v2 := SrcHost(sm, e1.cache, rs2), Val(sm, c, m, rs2);
    GetSrcKeeps(sm, c, rs1, m);
    GetSrcKeeps(sm, e1.cache, rs2, m1);
    assert v2 == Val(sm, e1.cache, m1, rs2);
    GetDstKeeps(sm, e2.cache, rd, m2);
    GetSrcKeepsOperand(sm, e1.cache, rs2, m1, rs1, h1, v1);
    GetDstKeepsOperand(sm, e2.cache, rd, m2, rs1, h1, v1);
    HoldsLonger(sm, e2.cache, m2, rs2, h2, v2, 0, 1);
    GetDstKeepsOperand(sm, e2.cache, rd, m2, rs2, h2, v2);
    RunAppend(e1.code, e2.code, m);
    RunAppend(e1.code + e2.code, e3.code, m);
    KeepsChain(sm, c, m, e1.cache, m1, e2.cache, m2, {}, {});
    KeepsChain(sm, c, m, e2.cache, m2, e3.cache, Run(e3.code, m2), {}, {rd});
  }

  lemma ArithmRuns(op: Alu, s1: Host, s2: Host, d: Host, m: Machine)
    ensures var m' := Run(Arithm(op, s1, s2, d), m);
            && OnlyWrites(m, m', d)
            && m'.regs[d] == if d == s2 && d != s1 then AluEval(op, m.regs[s2], m.regs[s1])
                             else AluEval(op, m.regs[s1], m.regs[s2])
  {
    hide Run, AluEval;
    if d == s1 {
      RunAlu(op, s1, s2, m);
    } else if d == s2 {
      RunAlu(op, s2, s1, m);
    } else {
      assert Arithm(op, s1, s2, d) == [Mov64(d, s1)] + [AluRR(op, d, s2)];
      RunAppend([Mov64(d, s1)], [AluRR(op, d, s2)], m);
      RunMov64(d, s1, m);
      RunAlu(op, d, s2, Put(m, d, m.regs[s1]));
    }
  }

  /** rd := rs1 op rs2 for every choice of registers, mapped or not, equal or not, x0
      included.  The operands are swapped exactly when rd shares a register with rs2 but
      not with rs1, so the result is the wanted one for every commutative operation. */
  lemma ArithmThroughCache(sm: StaticMap, c: Cache, rs1: Guest, rs2: Guest, rd: Guest, op: Alu, m: Machine)
    requires IsStaticMap(sm) && Injective(sm) && Inv(sm, c)
    ensures var e := SrcSrcDst(sm, c, rs1, rs2, rd);
            var h1, h2, hd := SrcHost(sm, c, rs1), Second(sm, c, rs1, rs2), Third(sm, c, rs1, rs2, rd);
            var m' := Run(e.code + Arithm(op, h1, h2, hd), m);
            var s := View(sm, c, m);
            var a, b := Reg(s, rs1), Reg(s, rs2);
            && Inv(sm, e.cache) && LeavesHost(sm, m, m')
            && View(sm, e.cache, m')
               == SetReg(s, rd, if hd == h2 && hd != h1 then AluEval(op, b, a) else AluEval(op, a, b))
            && (Commutative(op) ==> View(sm, e.cache, m') == SetReg(s, rd, AluEval(op, a, b)))
  {
    hide Run, AluEval, Inv, Where, Home, SrcHost, Second, SrcSrcDst, LeavesHost, Spare;
    var e := SrcSrcDst(sm, c, rs1, rs2, rd);
    var h1, h2, hd := SrcHost(sm, c, rs1), Second(sm, c, rs1, rs2), Third(sm, c, rs1, rs2, rd);
    var m1 := Run(e.code, m);
    var code := Arithm(op, h1, h2, hd);
    OperandsStay(sm, c, rs1, rs2, rd, m);
    NotSpare(sm, GetSrc(sm, GetSrc(sm, c, rs1).cache, rs2).cache, rd);
    hide Third;
    RunAppend(e.code, code, m);
    ArithmRuns(op, h1, h2, hd, m1);
    WriteHome(sm, c, m, e.cache, m1, rd, hd, Run(code, m1));
    ValX0(sm, c, m);
  }

  /** With the operations that the translators of ADD, XOR, OR, AND, ADDW, MUL and MULW pass,
      the result is the operation on the operands, whatever registers coincide. */
  lemma CommutativeThroughCache(sm: StaticMap, c: Cache, rs1: Guest, rs2: Guest, rd: Guest, op: Alu, m: Machine)
    requires IsStaticMap(sm) && Injective(sm) && Inv(sm, c) && IsCommutative(op)
    ensures var e := SrcSrcDst(sm, c, rs1, rs2, rd);
            var code := Arithm(op, SrcHost(sm, c, rs1), Second(sm, c, rs1, rs2), Third(sm, c, rs1, rs2, rd));
            var s := View(sm, c, m);
            View(sm, e.cache, Run(e.code + code, m)) == SetReg(s, rd, AluEval(op, Reg(s, rs1), Reg(s, rs2)))
  {
    hide Run, AluEval, Inv, View, SrcHost, Second, Third, SrcSrcDst, Arithm;
    ArithmThroughCache(sm, c, rs1, rs2, rd, op, m);
    CommutativeExactly(op);
    var s := View(sm, c, m);
    assert AluEval(op, Reg(s, rs1), Reg(s, rs2)) == AluEval(op, Reg(s, rs2), Reg(s, rs1));
  }

  // ----- translators of two operands -----

  /** Tail code that computes `f` of the two operands into the destination. */
  ghost predicate ComputesTwo(tail: seq<Code>, h1: Host, h2: Host, hd: Host, f: (Word, Word) -> Word) {
    forall m: Machine ::
      OnlyWrites(m, Run(tail, m), hd) && Run(tail, m).regs[hd] == f(m.regs[h1], m.regs[h2])
  }

  lemma SrcSrcDstSound(other: Other, sm: StaticMap, c: Cache, rs1: Guest, rs2: Guest, rd: Guest,
                       tail: seq<Code>, f: (Word, Word) -> Word, w: seq<Instr>)
    requires IsStaticMap(sm) && Injective(sm) && Inv(sm, c)
    requires ComputesTwo(tail, SrcHost(sm, c, rs1), Second(sm, c, rs1, rs2), Third(sm, c, rs1, rs2, rd), f)
    requires forall s: State :: Steps(other, w, s) == SetReg(s, rd, f(Reg(s, rs1), Reg(s, rs2)))
    ensures var e := SrcSrcDst(sm, c, rs1, rs2, rd);
            Sound(other, sm, c, e.code + tail, e.cache, w)
  {
    NotSpare(sm, GetSrc(sm, GetSrc(sm, c, rs1).cache, rs2).cache, rd);
    assert !Spare(sm, Third(sm, c, rs1, rs2, rd));
    hide Run, Steps, SrcSrcDst, Second, Third, SrcHost, Val, Inv, Home, LeavesHost, Spare, View, Reg, SetReg;
    var e := SrcSrcDst(sm, c, rs1, rs2, rd);
    var m0: Machine :| true;
    OperandsStay(sm, c, rs1, rs2, rd, m0);
    forall m: Machine
      ensures var m' := Run(e.code + tail, m);
              View(sm, e.cache, m') == Steps(other, w, View(sm, c, m)) && LeavesHost(sm, m, m')
    {
      var m1 := Run(e.code, m);
      OperandsStay(sm, c, rs1, rs2, rd, m);
      ViewReg(sm, c, m, rs1);
      ViewReg(sm, c, m, rs2);
      RunAppend(e.code, tail, m);
      WriteHome(sm, c, m, e.cache, m1, rd, Third(sm, c, rs1, rs2, rd), Run(tail, m1));
    }
  }

  /** getRs1, getRs2 */
  function SrcSrc(sm: StaticMap, c: Cache, rs1: Guest, rs2: Guest): Emission {
    var e1 := GetSrc(sm, c, rs1);
    var e2 := GetSrc(sm, e1.cache, rs2);
    Emission(e1.code + e2.code, e2.cache)
  }

  lemma SrcSrcKeeps(sm: StaticMap, c: Cache, rs1: Guest, rs2: Guest, m: Machine)
    requires IsStaticMap(sm) && Inv(sm, c)
    ensures var e := SrcSrc(sm, c, rs1, rs2);
            var m' := Run(e.code, m);
            && Inv(sm, e.cache) && Keeps(sm, c, m, e.cache, m', {})
            && m'.regs[SrcHost(sm, c, rs1)] == Val(sm, c, m, rs1)
            && m'.regs[Second(sm, c, rs1, rs2)] == Val(sm, c, m, rs2)
  {
    hide Run, Where, Inv, GetSrc, SrcHost;
    var e1 := GetSrc(sm, c, rs1);
    var m1 := Run(e1.code, m);
    var e2 := GetSrc(sm, e1.cache, rs2);
    GetSrcKeeps(sm, c, rs1, m);
    GetSrcKeeps(sm, e1.cache, rs2, m1);
    GetSrcKeepsOperand(sm, e1.cache, rs2, m1, rs1, SrcHost(sm, c, rs1), Val(sm, c, m, rs1));
    RunAppend(e1.code, e2.code, m);
    KeepsChain(sm, c, m, e1.cache, m1, e2.cache, Run(e2.code, m1), {}, {});
  }

  /** A store of the second operand to an address made from the first. */
  ghost predicate StoresTo(store: Code, h1: Host, h2: Host, f: (Memory, Word, Word) -> Memory) {
    forall m: Machine :: Exec(store, m) == m.(mem := f(m.mem, m.regs[h1], m.regs[h2]))
  }

  lemma ViewOfMemory(sm: StaticMap, c: Cache, m: Machine, mem: Memory)
    ensures View(sm, c, m.(mem := mem)) == View(sm, c, m).(mem := mem)
  {
  }

  lemma SrcSrcSound(other: Other, sm: StaticMap, c: Cache, rs1: Guest, rs2: Guest, store: Code,
                    f: (Memory, Word, Word) -> Memory, w: seq<Instr>)
    requires IsStaticMap(sm) && Inv(sm, c)
    requires StoresTo(store, SrcHost(sm, c, rs1), Second(sm, c, rs1, rs2), f)
    requires forall s: State :: Steps(other, w, s) == s.(mem := f(s.mem, Reg(s, rs1), Reg(s, rs2)))
    ensures var e := SrcSrc(sm, c, rs1, rs2);
            Sound(other, sm, c, e.code + [store], e.cache, w)
  {
    hide Run, Exec, Steps, SrcSrc, Second, SrcHost, Val, Inv, Spare, View, Reg;
    var e := SrcSrc(sm, c, rs1, rs2);
    var m0: Machine :| true;
    SrcSrcKeeps(sm, c, rs1, rs2, m0);
    forall m: Machine
      ensures var m' := Run(e.code + [store], m);
              View(sm, e.cache, m') == Steps(other, w, View(sm, c, m)) && LeavesHost(sm, m, m')
    {
      var m1 := Run(e.code, m);
      SrcSrcKeeps(sm, c, rs1, rs2, m);
      ViewReg(sm, c, m, rs1);
      ViewReg(sm, c, m, rs2);
      ViewMem(sm, c, m);
      RunAppend(e.code, [store], m);
      RunOne(store, m1);
      KeepsHost(sm, c, m, e.cache, m1, {});
      KeepsView(sm, c, m, e.cache, m1);
      ViewOfMemory(sm, e.cache, m1, f(m1.mem, m1.regs[SrcHost(sm, c, rs1)], m1.regs[Second(sm, c, rs1, rs2)]));
    }
  }

  method DoArithmCommutative(r_info: RegisterInfo, s1: Host, s2: Host, d: Host, op: Alu)
    requires r_info.Valid()
    modifies r_info`code
    ensures r_info.Valid() && r_info.State() == old(r_info.State())
    ensures r_info.code == old(r_info.code) + Arithm(op, s1, s2, d)
  {
    if d == s1 {
      r_info.Emit(AluRR(op, s1, s2));
    } else if d == s2 {
      r_info.Emit(AluRR(op, s2, s1));
    } else {
      r_info.Emit(Mov64(d, s1));
      r_info.Emit(AluRR(op, d, s2));
    }
  }

  /** getRs1 or getRs2, then getRd: the opening of most translators. */
  method GetRsRd(r: RegisterInfo, rs: Guest, rd: Guest) returns (s: Host, d: Host)
    requires r.Valid()
    modifies r`code, r`clock, r.content, r.recency
    ensures var e := SrcDst(r.sm, old(r.State()), rs, rd);
            r.Valid() && r.State() == e.cache && r.code == old(r.code) + e.code
    ensures s == SrcHost(r.sm, old(r.State()), rs) && d == DstHost(r.sm, old(r.State()), rs, rd)
  {
    hide GetSrc, GetDst, SrcHost;
    s := r.GetRs(rs);
    d := r.GetRd(rd);
  }

  /** getRs1, getRs2, getRd */
  method GetRsRsRd(r: RegisterInfo, rs1: Guest, rs2: Guest, rd: Guest) returns (s1: Host, s2: Host, d: Host)
    requires r.Valid()
    modifies r`code, r`clock, r.content, r.recency
    ensures var e := SrcSrcDst(r.sm, old(r.State()), rs1, rs2, rd);
            r.Valid() && r.State() == e.cache && r.code == old(r.code) + e.code
    ensures s1 == SrcHost(r.sm, old(r.State()), rs1) && s2 == Second(r.sm, old(r.State()), rs1, rs2)
    ensures d == Third(r.sm, old(r.State()), rs1, rs2, rd)
  {
    hide GetSrc, GetDst, SrcHost;
    s1 := r.GetRs(rs1);
    s2 := r.GetRs(rs2);
    d := r.GetRd(rd);
  }

  /** getRs1, getRs2 */
  method GetRsRs(r: RegisterInfo, rs1: Guest, rs2: Guest) returns (s1: Host, s2: Host)
    requires r.Valid()
    modifies r`code, r`clock, r.content, r.recency
    ensures var e := SrcSrc(r.sm, old(r.State()), rs1, rs2);
            r.Valid() && r.State() == e.cache && r.code == old(r.code) + e.code
    ensures s1 == SrcHost(r.sm, old(r.State()), rs1) && s2 == Second(r.sm, old(r.State()), rs1, rs2)
  {
    hide GetSrc, SrcHost;
    s1 := r.GetRs(rs1);
    s2 := r.GetRs(rs2);
  }
}
