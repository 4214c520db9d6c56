/** Emitted code against guest instructions: the guest state a machine represents, and
    what it means for code to carry out a piece of guest program. */
module Simulation {
  import opened Words
  import opened X86
  import opened RegisterCache
  import opened Riscv

  function View(sm: StaticMap, c: Cache, m: Machine): State {
    State(seq(33, r requires 0 <= r < 33 => Val(sm, c, m, r)), m.mem)
  }

  /** A host register that holds nothing of the guest: SP, and what the map leaves free. */
  predicate Spare(sm: StaticMap, h: Host) {
    !IsReplacement(h) && forall r :: 0 <= r < N_REG && sm[r].Mapped? ==> sm[r].host != h
  }

  /** What belongs to the host is as before: the swap file and the spare registers. */
  ghost predicate LeavesHost(sm: StaticMap, m: Machine, m': Machine) {
    m'.swap == m.swap && forall h: Host :: Spare(sm, h) ==> m'.regs[h] == m.regs[h]
  }

  lemma LeavesHostChain(sm: StaticMap, m0: Machine, m1: Machine, m2: Machine)
    requires LeavesHost(sm, m0, m1) && LeavesHost(sm, m1, m2)
    ensures LeavesHost(sm, m0, m2)
  {
  }

  lemma KeepsHost(sm: StaticMap, c0: Cache, m0: Machine, c1: Cache, m1: Machine, lost: set<Guest>)
    requires Keeps(sm, c0, m0, c1, m1, lost)
    ensures LeavesHost(sm, m0, m1)
  {
    hide Val;
  }

  /** Running `code` from any machine takes the guest state through the window `w` and leaves
      the host's part of the machine alone. */
  ghost predicate Sound(other: Other, sm: StaticMap, c: Cache, code: seq<Code>, c': Cache, w: seq<Instr>) {
    && Inv(sm, c')
    && forall m: Machine ::
         var m' := Run(code, m);
         View(sm, c', m') == Steps(other, w, View(sm, c, m)) && LeavesHost(sm, m, m')
  }

  lemma SoundInv(other: Other, sm: StaticMap, c: Cache, code: seq<Code>, c': Cache, w: seq<Instr>)
    requires Sound(other, sm, c, code, c', w)
    ensures Inv(sm, c')
  {
  }

  lemma {:induction false} SoundAppend(other: Other, sm: StaticMap, c0: Cache, a: seq<Code>, c1: Cache, v: seq<Instr>,
                                       b: seq<Code>, c2: Cache, w: seq<Instr>)
    requires Sound(other, sm, c0, a, c1, v) && Sound(other, sm, c1, b, c2, w)
    ensures Sound(other, sm, c0, a + b, c2, v + w)
  {
    hide View, LeavesHost;
    forall m: Machine
      ensures View(sm, c2, Run(a + b, m)) == Steps(other, v + w, View(sm, c0, m)) && LeavesHost(sm, m, Run(a + b, m))
    {
      RunAppend(a, b, m);
      StepsAppend(other, v, w, View(sm, c0, m));
      LeavesHostChain(sm, m, Run(a, m), Run(b, Run(a, m)));
    }
  }

  lemma KeepsView(sm: StaticMap, c0: Cache, m0: Machine, c1: Cache, m1: Machine)
    requires Keeps(sm, c0, m0, c1, m1, {})
    ensures View(sm, c1, m1) == View(sm, c0, m0)
  {
    hide Val;
  }

  lemma NotSpare(sm: StaticMap, c: Cache, r: Guest)
    ensures !Spare(sm, SrcHost(sm, c, r))
  {
  }

  /** The machine changed in host register h only. */
  ghost predicate OnlyWrites(m: Machine, m': Machine, h: Host) {
    && m'.mem == m.mem && m'.swap == m.swap && m'.file == m.file
    && forall k: Host :: k != h ==> m'.regs[k] == m.regs[k]
  }

  /** Once the destination is requested, writing its register sets it and nothing else. */
  lemma WriteHome(sm: StaticMap, c0: Cache, m0: Machine, c: Cache, m: Machine, r: Guest, h: Host, m': Machine)
    requires Keeps(sm, c0, m0, c, m, {r}) && Home(sm, c, r, h) && OnlyWrites(m, m', h) && !Spare(sm, h)
    ensures View(sm, c, m') == SetReg(View(sm, c0, m0), r, m'.regs[h])
    ensures LeavesHost(sm, m0, m')
  {
    forall q: Guest
      ensures Val(sm, c, m', q) == if q == r then (if r == X0 then 0 else m'.regs[h]) else Val(sm, c0, m0, q)
    {
      ValX0(sm, c, m');
      ValX0(sm, c0, m0);
      hide Where;
    }
  }

  // ----- one destination, computed from at most one source -----

  /** Tail code that sets the destination register from guest memory alone. */
  ghost predicate Sets(tail: seq<Code>, hd: Host, k: Memory -> Word) {
    forall m: Machine :: OnlyWrites(m, Run(tail, m), hd) && Run(tail, m).regs[hd] == k(m.mem)
  }

  /** getRd alone. */
  lemma DstSound(other: Other, sm: StaticMap, c: Cache, rd: Guest, tail: seq<Code>, k: Memory -> Word, w: seq<Instr>)
    requires IsStaticMap(sm) && Injective(sm) && Inv(sm, c)
    requires Sets(tail, SrcHost(sm, c, rd), k)
    requires forall s: State :: Steps(other, w, s) == SetReg(s, rd, k(s.mem))
    ensures var e := GetDst(sm, c, rd);
            Sound(other, sm, c, e.code + tail, e.cache, w)
  {
    hide Run, View, Steps, LeavesHost, Spare, SrcHost;
    var e := GetDst(sm, c, rd);
    var m0: Machine :| true;
    GetDstKeeps(sm, c, rd, m0);
    NotSpare(sm, c, rd);
    forall m: Machine
      ensures var m' := Run(e.code + tail, m);
              View(sm, e.cache, m') == Steps(other, w, View(sm, c, m)) && LeavesHost(sm, m, m')
    {
      var m1 := Run(e.code, m);
      GetDstKeeps(sm, c, rd, m);
      RunAppend(e.code, tail, m);
      WriteHome(sm, c, m, e.cache, m1, rd, SrcHost(sm, c, rd), Run(tail, m1));
      ViewMem(sm, c, m);
    }
  }

  lemma ViewMem(sm: StaticMap, c: Cache, m: Machine)
    ensures View(sm, c, m).mem == m.mem
  {
  }

  lemma ViewReg(sm: StaticMap, c: Cache, m: Machine, r: Guest)
    ensures Reg(View(sm, c, m), r) == Val(sm, c, m, r)
  {
    ValX0(sm, c, m);
  }

  /** getRd, then a load through a scratch register that is freed for the address. */
  function FarLoad(sm: StaticMap, c: Cache, rd: Guest, i: Index, addr: Word, load: Code): Emission {
    var e1 := GetDst(sm, c, rd);
    var e2 := Invalidate(e1.cache, i, true);
    Emission(e1.code + e2.code + [MovImm(HostOf(i), addr), load], e2.cache)
  }

  /** An instruction that sets `hd` from guest memory, given the address in `hs`. */
  ghost predicate LoadsFrom(load: Code, hs: Host, addr: Word, hd: Host, k: Memory -> Word) {
    forall m: Machine :: m.regs[hs] == addr ==> OnlyWrites(m, Exec(load, m), hd) && Exec(load, m).regs[hd] == k(m.mem)
  }

  lemma FarLoadRuns(sm: StaticMap, c: Cache, rd: Guest, i: Index, addr: Word, load: Code, k: Memory -> Word, m: Machine)
    requires IsStaticMap(sm) && Injective(sm) && Inv(sm, c) && HostOf(i) != SrcHost(sm, c, rd)
    requires LoadsFrom(load, HostOf(i), addr, SrcHost(sm, c, rd), k)
    ensures var e := FarLoad(sm, c, rd, i, addr, load);
            var m' := Run(e.code, m);
            && Inv(sm, e.cache) && LeavesHost(sm, m, m')
            && View(sm, e.cache, m') == SetReg(View(sm, c, m), rd, k(m.mem))
  {
    hide Run, View, GetDst, Invalidate, Exec, SrcHost, Inv, Where, LeavesHost, Spare;
    NotSpare(sm, c, rd);
    var hd := SrcHost(sm, c, rd);
    var e1 := GetDst(sm, c, rd);
    var e2 := Invalidate(e1.cache, i, true);
    var tail := [MovImm(HostOf(i), addr), load];
    var m1 := Run(e1.code, m);
    var m2 := Run(e2.code, m1);
    var m3 := Put(m2, HostOf(i), addr);
    GetDstKeeps(sm, c, rd, m);
    InvalidateKeeps(sm, e1.cache, i, m1);
    ScratchKeeps(sm, e1.cache, i, rd, hd, m2, addr);
    KeepsChain(sm, e1.cache, m1, e2.cache, m2, e2.cache, m3, {}, {});
    KeepsChain(sm, c, m, e1.cache, m1, e2.cache, m3, {rd}, {});
    RunAppend(e1.code, e2.code, m);
    RunAppend(e1.code + e2.code, tail, m);
    RunTwo(MovImm(HostOf(i), addr), load, m2);
    ExecMovImm(HostOf(i), addr, m2);
    assert {rd} + {} == {rd};
    WriteHome(sm, c, m, e2.cache, m3, rd, hd, Exec(load, m3));
  }

  lemma FarLoadSound(other: Other, sm: StaticMap, c: Cache, rd: Guest, i: Index, addr: Word, load: Code,
                     k: Memory -> Word, w: seq<Instr>)
    requires IsStaticMap(sm) && Injective(sm) && Inv(sm, c) && HostOf(i) != SrcHost(sm, c, rd)
    requires LoadsFrom(load, HostOf(i), addr, SrcHost(sm, c, rd), k)
    requires forall s: State :: Steps(other, w, s) == SetReg(s, rd, k(s.mem))
    ensures var e := FarLoad(sm, c, rd, i, addr, load);
            Sound(other, sm, c, e.code, e.cache, w)
  {
    hide Run, View, Steps, FarLoad, Inv, LoadsFrom, IsStaticMap, Injective, SrcHost, LeavesHost;
    var e := FarLoad(sm, c, rd, i, addr, load);
    var m0: Machine :| true;
    FarLoadRuns(sm, c, rd, i, addr, load, k, m0);
    forall m: Machine
      ensures View(sm, e.cache, Run(e.code, m)) == Steps(other, w, View(sm, c, m)) && LeavesHost(sm, m, Run(e.code, m))
    {
      FarLoadRuns(sm, c, rd, i, addr, load, k, m);
      ViewMem(sm, c, m);
    }
  }

  /** A freed replacement register is no guest register's home. */
  lemma ScratchKeeps(sm: StaticMap, c: Cache, i: Index, r: Guest, h: Host, m: Machine, k: Word)
    requires AvoidsReplacements(sm) && Inv(sm, c) && h != HostOf(i) && Home(sm, c, r, h)
    ensures var c' := Invalidate(c, i, true).cache;
            Home(sm, c', r, h) && Keeps(sm, c', m, c', Put(m, HostOf(i), k), {})
  {
    hide Inv;
    InvalidateWhere(sm, c, i, r);
    forall q: Guest
      ensures Where(sm, Invalidate(c, i, true).cache, q) != InHost(HostOf(i))
      ensures Where(sm, Invalidate(c, i, true).cache, q) == InHost(h) ==> Where(sm, c, q) == InHost(h)
    {
      InvalidateWhere(sm, c, i, q);
    }
  }

  /** getRs1 (or getRs2) followed by getRd. */
  function SrcDst(sm: StaticMap, c: Cache, rs: Guest, rd: Guest): Emission {
    var e1 := GetSrc(sm, c, rs);
    var e2 := GetDst(sm, e1.cache, rd);
    Emission(e1.code + e2.code, e2.cache)
  }

  function DstHost(sm: StaticMap, c: Cache, rs: Guest, rd: Guest): Host {
    SrcHost(sm, GetSrc(sm, c, rs).cache, rd)
  }

  /** getRd, then the tail. */
  function IntoDst(sm: StaticMap, c: Cache, rd: Guest, tail: seq<Code>): Emission {
    var e := GetDst(sm, c, rd);
    Emission(e.code + tail, e.cache)
  }

  /** getRs1 (or getRs2), getRd, then the tail. */
  function FromSource(sm: StaticMap, c: Cache, rs: Guest, rd: Guest, tail: seq<Code>): Emission {
    var e := SrcDst(sm, c, rs, rd);
    Emission(e.code + tail, e.cache)
  }

  lemma SrcDstKeeps(sm: StaticMap, c: Cache, rs: Guest, rd: Guest, m: Machine)
    requires IsStaticMap(sm) && Injective(sm) && Inv(sm, c)
    ensures var e := SrcDst(sm, c, rs, rd);
            var m' := Run(e.code, m);
            && Inv(sm, e.cache) && Keeps(sm, c, m, e.cache, m', {rd})
            && Home(sm, e.cache, rd, DstHost(sm, c, rs, rd))
            && m'.regs[SrcHost(sm, c, rs)] == Val(sm, c, m, rs)
  {
    hide Run, Where, Inv, GetSrc, GetDst;
    var e1 := GetSrc(sm, c, rs);
    var m1 := Run(e1.code, m);
    var e2 := GetDst(sm, e1.cache, rd);
    GetSrcKeeps(sm, c, rs, m);
    GetDstKeeps(sm, e1.cache, rd, m1);
    HoldsLonger(sm, e1.cache, m1, rs, SrcHost(sm, c, rs), Val(sm, c, m, rs), 0, 1);
    GetDstKeepsOperand(sm, e1.cache, rd, m1, rs, SrcHost(sm, c, rs), Val(sm, c, m, rs));
    RunAppend(e1.code, e2.code, m);
    KeepsChain(sm, c, m, e1.cache, m1, e2.cache, Run(e2.code, m1), {}, {rd});
  }

  ghost predicate Computes(tail: seq<Code>, hs: Host, hd: Host, f: Word -> Word) {
    forall m: Machine :: OnlyWrites(m, Run(tail, m), hd) && Run(tail, m).regs[hd] == f(m.regs[hs])
  }

  lemma SrcDstSound(other: Other, sm: StaticMap, c: Cache, rs: Guest, rd: Guest,
                    tail: seq<Code>, f: Word -> Word, w: seq<Instr>)
    requires IsStaticMap(sm) && Injective(sm) && Inv(sm, c)
    requires Computes(tail, SrcHost(sm, c, rs), DstHost(sm, c, rs, rd), f)
    requires forall s: State :: Steps(other, w, s) == SetReg(s, rd, f(Reg(s, rs)))
    ensures var e := SrcDst(sm, c, rs, rd);
            Sound(other, sm, c, e.code + tail, e.cache, w)
  {
    NotSpare(sm, GetSrc(sm, c, rs).cache, rd);
    assert !Spare(sm, DstHost(sm, c, rs, rd));
    hide Run, Steps, SrcDst, DstHost, SrcHost, Val, Inv, Home, LeavesHost, Spare, View, Reg, SetReg;
    var e := SrcDst(sm, c, rs, rd);
    var m0: Machine :| true;
    SrcDstKeeps(sm, c, rs, rd, m0);
    forall m: Machine
      ensures var m' := Run(e.code + tail, m);
              View(sm, e.cache, m') == Steps(other, w, View(sm, c, m)) && LeavesHost(sm, m, m')
    {
      var m1 := Run(e.code, m);
      SrcDstKeeps(sm, c, rs, rd, m);
      ViewReg(sm, c, m, rs);
      RunAppend(e.code, tail, m);
      WriteHome(sm, c, m, e.cache, m1, rd, DstHost(sm, c, rs, rd), Run(tail, m1));
    }
  }
}
