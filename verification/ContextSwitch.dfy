/** The context switch between host and guest: the static register map and the two generated
    blocks that load the guest registers, run a block, and save them again. */
module ContextSwitch {
  import opened Words
  import opened X86
  import opened RegisterCache

  // ----- the static register map -----

  /** The twelve most used guest registers in the host registers that translators leave alone. */
  function RealMapping(r: nat): Mapping {
    match r
    case 15 => Mapped(BX)
    case 14 => Mapped(BP)
    case 13 => Mapped(SI)
    case 10 => Mapped(DI)
    case 8 => Mapped(R8)
    case 2 => Mapped(R9)
    case 12 => Mapped(R10)
    case 11 => Mapped(R11)
    case 9 => Mapped(R12)
    case 1 => Mapped(R13)
    case 17 => Mapped(R14)
    case 18 => Mapped(R15)
    case _ => Unmapped
  }

  function RealMap(): StaticMap { seq(N_REG, r requires 0 <= r < N_REG => RealMapping(r)) }

  predicate AvoidsSp(sm: StaticMap) { forall r :: 0 <= r < N_REG && sm[r].Mapped? ==> sm[r].host != SP }

  /** What the context switch needs of a static map. */
  predicate Switchable(sm: StaticMap) { AvoidsReplacements(sm) && Injective(sm) && AvoidsSp(sm) }

  /** The map that is built meets the demands of the register cache and of the switch. */
  lemma RealMapGood()
    ensures IsStaticMap(RealMap()) && Switchable(RealMap())
  {
  }

  /** The map when only the registers in `done` have been mapped. */
  ghost function Partial(done: set<nat>): StaticMap {
    seq(N_REG, r requires 0 <= r < N_REG => if r in done then RealMapping(r) else Unmapped)
  }

  /** map_gp_reg */
  method MapGpReg(gpMap: array<Mapping>, r: Guest, h: Host, ghost done: set<nat>) returns (ghost done': set<nat>)
    requires gpMap.Length == N_REG && gpMap[..] == Partial(done) && RealMapping(r) == Mapped(h)
    modifies gpMap
    ensures gpMap[..] == Partial(done') && done' == done + {r}
  {
    gpMap[r] := Mapped(h);
    done' := done + {r};
  }

  lemma RealMappings()
    ensures RealMapping(15) == Mapped(BX) && RealMapping(14) == Mapped(BP) && RealMapping(13) == Mapped(SI)
    ensures RealMapping(10) == Mapped(DI) && RealMapping(8) == Mapped(R8) && RealMapping(2) == Mapped(R9)
    ensures RealMapping(12) == Mapped(R10) && RealMapping(11) == Mapped(R11) && RealMapping(9) == Mapped(R12)
    ensures RealMapping(1) == Mapped(R13) && RealMapping(17) == Mapped(R14) && RealMapping(18) == Mapped(R15)
  {
  }

  lemma AllMapped(done: set<nat>)
    requires {1, 2, 8, 9, 10, 11, 12, 13, 14, 15, 17, 18} <= done
    ensures Partial(done) == RealMap()
  {
  }

  /** Fills gp_map and gp_mapped. */
  method MapRegisters(gpMap: array<Mapping>)
    requires gpMap.Length == N_REG
    modifies gpMap
    ensures gpMap[..] == RealMap()
  {
    hide RealMap, RealMapping;
    for i := 0 to N_REG
      invariant forall k :: 0 <= k < i ==> gpMap[k] == Unmapped
    {
      gpMap[i] := Unmapped;
    }
    ghost var done := {};
    assert gpMap[..] == Partial(done);
    hide Partial;
    RealMappings();
    done := MapGpReg(gpMap, 15, BX, done);
    done := MapGpReg(gpMap, 14, BP, done);
    done := MapGpReg(gpMap, 13, SI, done);
    done := MapGpReg(gpMap, 10, DI, done);
    done := MapGpReg(gpMap, 8, R8, done);
    done := MapGpReg(gpMap, 2, R9, done);
    done := MapGpReg(gpMap, 12, R10, done);
    done := MapGpReg(gpMap, 11, R11, done);
    done := MapGpReg(gpMap, 9, R12, done);
    done := MapGpReg(gpMap, 1, R13, done);
    done := MapGpReg(gpMap, 17, R14, done);
    done := MapGpReg(gpMap, 18, R15, done);
    AllMapped(done);
  }

  // ----- the generated code -----

  /** Stores of the mapped registers below n. */
  function SaveMapped(sm: StaticMap, n: nat): seq<Code>
    requires n <= PC + 1
  {
    if n == 0 then []
    else SaveMapped(sm, n - 1) + if sm[n - 1].Mapped? then [Store(n - 1, sm[n - 1].host)] else []
  }

  function LoadMapped(sm: StaticMap, n: nat): seq<Code>
    requires n <= PC + 1
  {
    if n == 0 then []
    else LoadMapped(sm, n - 1) + if sm[n - 1].Mapped? then [Fetch(sm[n - 1].host, n - 1)] else []
  }

  function KeepHost(): seq<Code> {
    [SaveSwap(0, BX), SaveSwap(1, BP), SaveSwap(2, R12)] + [SaveSwap(3, R13), SaveSwap(4, R14), SaveSwap(5, R15)]
  }

  function RestoreHost(): seq<Code> {
    [LoadSwap(BX, 0), LoadSwap(BP, 1), LoadSwap(R12, 2)] + [LoadSwap(R13, 3), LoadSwap(R14, 4), LoadSwap(R15, 5)]
  }

  /** The arguments go where the loads do not reach. */
  function MoveArguments(): seq<Code> { [Mov64(AX, DI), Mov64(DX, SI)] }

  function SaveBlock(sm: StaticMap): seq<Code> { SaveMapped(sm, PC + 1) + RestoreHost() }

  /** The loading block up to its conditional jump. */
  function LoadBlock(sm: StaticMap): seq<Code> { KeepHost() + (MoveArguments() + LoadMapped(sm, PC + 1)) }

  /** Emission of the saving block. */
  method EmitSave(sm: StaticMap) returns (code: seq<Code>)
    ensures code == SaveBlock(sm)
  {
    code := [];
    for i := 0 to PC + 1
      invariant code == SaveMapped(sm, i)
    {
      if sm[i].Mapped? {
        code := code + [Store(i, sm[i].host)];
      } else {
        assert code + [] == code;
      }
    }
    code := code + [LoadSwap(BX, 0), LoadSwap(BP, 1), LoadSwap(R12, 2), LoadSwap(R13, 3), LoadSwap(R14, 4),
                    LoadSwap(R15, 5)];
  }

  /** Emission of the loading block, up to the test of its second argument. */
  method EmitLoad(sm: StaticMap) returns (code: seq<Code>)
    ensures code == LoadBlock(sm)
  {
    code := [SaveSwap(0, BX), SaveSwap(1, BP), SaveSwap(2, R12), SaveSwap(3, R13), SaveSwap(4, R14), SaveSwap(5, R15),
             Mov64(AX, DI), Mov64(DX, SI)];
    ghost var front := code;
    for i := 0 to PC + 1
      invariant code == front + LoadMapped(sm, i)
    {
      if sm[i].Mapped? {
        code := code + [Fetch(sm[i].host, i)];
      } else {
        assert code + [] == code;
      }
    }
  }

  // ----- what the code does -----

  /** The slots of the mapped registers below n are filled from m. */
  predicate Saved(sm: StaticMap, n: nat, m: Machine, m': Machine) {
    && m' == m.(file := m'.file)
    && forall s: Slot :: m'.file[s] == if s < n && sm[s].Mapped? then m.regs[sm[s].host] else m.file[s]
  }

  lemma {:induction false} RunSaveMapped(sm: StaticMap, n: nat, m: Machine)
    requires n <= PC + 1
    ensures Saved(sm, n, m, Run(SaveMapped(sm, n), m))
  {
    hide Run;
    if n == 0 {
      RunNone(m);
    } else {
      hide Saved;
      var m1 := Run(SaveMapped(sm, n - 1), m);
      RunSaveMapped(sm, n - 1, m);
      SavedNext(sm, n, m, m1);
      if sm[n - 1].Mapped? {
        RunAppend(SaveMapped(sm, n - 1), [Store(n - 1, sm[n - 1].host)], m);
        RunStore(n - 1, sm[n - 1].host, m1);
      } else {
        assert SaveMapped(sm, n - 1) + [] == SaveMapped(sm, n - 1);
      }
    }
  }

  lemma SavedNext(sm: StaticMap, n: nat, m: Machine, m1: Machine)
    requires 0 < n <= PC + 1 && Saved(sm, n - 1, m, m1)
    ensures if sm[n - 1].Mapped? then Saved(sm, n, m, m1.(file := m1.file[n - 1 := m1.regs[sm[n - 1].host]]))
            else Saved(sm, n, m, m1)
  {
  }

  /** `h` is not the host register of a guest register below n. */
  predicate Untouched(sm: StaticMap, n: nat, h: Host) {
    forall r: Guest :: r < n && sm[r].Mapped? ==> sm[r].host != h
  }

  lemma {:induction false} RunLoadMapped(sm: StaticMap, n: nat, m: Machine)
    requires n <= PC + 1 && Injective(sm)
    ensures var m' := Run(LoadMapped(sm, n), m);
            && m' == m.(regs := m'.regs)
            && (forall r: Guest :: r < n && sm[r].Mapped? ==> m'.regs[sm[r].host] == m.file[r])
            && (forall h: Host :: Untouched(sm, n, h) ==> m'.regs[h] == m.regs[h])
  {
    hide Exec;
    if n == 0 {
    } else {
      hide Run;
      RunLoadMapped(sm, n - 1, m);
      var m1 := Run(LoadMapped(sm, n - 1), m);
      if sm[n - 1].Mapped? {
        RunAppend(LoadMapped(sm, n - 1), [Fetch(sm[n - 1].host, n - 1)], m);
        RunFetch(sm[n - 1].host, n - 1, m1);
      } else {
        assert LoadMapped(sm, n - 1) + [] == LoadMapped(sm, n - 1);
      }
      forall h: Host | Untouched(sm, n, h) ensures Untouched(sm, n - 1, h) {}
    }
  }

  /** The host registers that the caller expects to find again are in the swap file. */
  predicate Kept(swap: SwapFile, m: Machine) {
    && swap[0] == m.regs[BX] && swap[1] == m.regs[BP] && swap[2] == m.regs[R12]
    && swap[3] == m.regs[R13] && swap[4] == m.regs[R14] && swap[5] == m.regs[R15]
  }

  predicate SameHost(m: Machine, m': Machine) {
    forall h: Host :: IsCalleeSaved(h) ==> m'.regs[h] == m.regs[h]
  }

  predicate SameKept(swap: SwapFile, swap': SwapFile) { forall k :: 0 <= k < 6 ==> swap'[k] == swap[k] }

  lemma RunKeepHost(m: Machine)
    ensures var m' := Run(KeepHost(), m);
            m' == m.(swap := m'.swap) && Kept(m'.swap, m) && m'.swap[6] == m.swap[6]
  {
    hide Run;
    var a := [SaveSwap(0, BX), SaveSwap(1, BP), SaveSwap(2, R12)];
    var b := [SaveSwap(3, R13), SaveSwap(4, R14), SaveSwap(5, R15)];
    RunAppend(a, b, m);
    assert KeepHost() == a + b;
    RunSaveThree(0, BX, BP, R12, m);
    RunSaveThree(3, R13, R14, R15, Run(a, m));
  }

  lemma RunSaveThree(k: Swap, a: Host, b: Host, c: Host, m: Machine)
    requires k + 2 < 7
    ensures var m' := Run([SaveSwap(k, a), SaveSwap(k + 1, b), SaveSwap(k + 2, c)], m);
            && m' == m.(swap := m'.swap)
            && m'.swap[k] == m.regs[a] && m'.swap[k + 1] == m.regs[b] && m'.swap[k + 2] == m.regs[c]
            && forall j :: 0 <= j < 7 && (j < k || j > k + 2) ==> m'.swap[j] == m.swap[j]
  {
    hide Run;
    RunThree(SaveSwap(k, a), SaveSwap(k + 1, b), SaveSwap(k + 2, c), m);
  }

  predicate IsCalleeSaved(h: Host) { h in {BX, BP, R12, R13, R14, R15} }

  lemma RunRestoreHost(m: Machine)
    ensures var m' := Run(RestoreHost(), m);
            && m' == m.(regs := m'.regs) && Kept(m.swap, m')
            && forall h: Host :: !IsCalleeSaved(h) ==> m'.regs[h] == m.regs[h]
  {
    RunAppend([LoadSwap(BX, 0), LoadSwap(BP, 1), LoadSwap(R12, 2)],
              [LoadSwap(R13, 3), LoadSwap(R14, 4), LoadSwap(R15, 5)], m);
    RunThree(LoadSwap(BX, 0), LoadSwap(BP, 1), LoadSwap(R12, 2), m);
    RunThree(LoadSwap(R13, 3), LoadSwap(R14, 4), LoadSwap(R15, 5),
             Run([LoadSwap(BX, 0), LoadSwap(BP, 1), LoadSwap(R12, 2)], m));
  }

  /** Every mapped guest register is in its host register. */
  ghost predicate Loaded(sm: StaticMap, m: Machine, file: File) {
    forall r: Guest :: sm[r].Mapped? ==> m.regs[sm[r].host] == file[r]
  }

  lemma RunMoveArguments(m: Machine)
    ensures Run(MoveArguments(), m) == m.(regs := m.regs[AX := m.regs[DI]][DX := m.regs[SI]])
  {
    hide Run;
    RunTwo(Mov64(AX, DI), Mov64(DX, SI), m);
  }

  /** The loading block: host registers kept, arguments moved, guest registers loaded. */
  lemma LoadBlockLoads(sm: StaticMap, m: Machine)
    requires Switchable(sm)
    ensures var m' := Run(LoadBlock(sm), m);
            && Loaded(sm, m', m.file) && m'.file == m.file && m'.mem == m.mem
            && Kept(m'.swap, m) && m'.swap[6] == m.swap[6]
            && m'.regs[AX] == m.regs[DI] && m'.regs[DX] == m.regs[SI] && m'.regs[SP] == m.regs[SP]
  {
    RunAppend(KeepHost(), MoveArguments() + LoadMapped(sm, PC + 1), m);
    RunKeepHost(m);
    var m1 := Run(KeepHost(), m);
    RunAppend(MoveArguments(), LoadMapped(sm, PC + 1), m1);
    hide Run, LoadMapped, KeepHost, MoveArguments;
    RunMoveArguments(m1);
    RunLoadMapped(sm, PC + 1, Run(MoveArguments(), m1));
    assert Untouched(sm, PC + 1, AX) && Untouched(sm, PC + 1, DX) && Untouched(sm, PC + 1, SP);
  }

  /** The saving block: the file gets the mapped registers, the host its own back. */
  lemma SaveBlockSaves(sm: StaticMap, m: Machine)
    ensures var m' := Run(SaveBlock(sm), m);
            && (forall r: Guest :: m'.file[r] == if sm[r].Mapped? then m.regs[sm[r].host] else m.file[r])
            && m'.file[PC + 1] == m.file[PC + 1] && m'.mem == m.mem && m'.swap == m.swap
            && Kept(m.swap, m')
            && (forall h: Host :: !IsCalleeSaved(h) ==> m'.regs[h] == m.regs[h])
  {
    RunAppend(SaveMapped(sm, PC + 1), RestoreHost(), m);
    hide Run, SaveMapped;
    RunSaveMapped(sm, PC + 1, m);
    RunRestoreHost(Run(SaveMapped(sm, PC + 1), m));
  }

  /** The whole load_execute_save_context, called with a location and a flag in DI and SI; the
      block at the location is any change of the machine. */
  function LoadExecuteSave(sm: StaticMap, block: Machine -> Machine, m: Machine): Machine {
    var m1 := Run(LoadBlock(sm), m);
    if Low32(m1.regs[DX]) == 0 then m1 else Run(SaveBlock(sm), block(m1))
  }

  /** A full switch around a block that leaves the swap file and the stack pointer alone: the
      block starts with the guest registers loaded, the file ends with what the block left in
      them, and the host finds its registers again. */
  lemma SwitchRestores(sm: StaticMap, block: Machine -> Machine, m: Machine)
    requires Switchable(sm) && Low32(m.regs[SI]) != 0
    requires var m1 := Run(LoadBlock(sm), m);
             SameKept(m1.swap, block(m1).swap) && block(m1).regs[SP] == m1.regs[SP]
    ensures var start := Run(LoadBlock(sm), m);
            var end := block(start);
            var m' := LoadExecuteSave(sm, block, m);
            && Loaded(sm, start, m.file) && start.file == m.file && start.regs[AX] == m.regs[DI]
            && (forall r: Guest :: m'.file[r] == if sm[r].Mapped? then end.regs[sm[r].host] else end.file[r])
            && SameHost(m, m') && m'.regs[SP] == m.regs[SP] && m'.mem == end.mem
  {
    hide Run, LoadBlock, SaveBlock;
    LoadBlockLoads(sm, m);
    SaveBlockSaves(sm, block(Run(LoadBlock(sm), m)));
  }

  /** Switching there and back with nothing in between leaves the register file as it was. */
  lemma IdentitySwitch(sm: StaticMap, m: Machine)
    requires Switchable(sm) && Low32(m.regs[SI]) != 0
    ensures var m' := LoadExecuteSave(sm, x => x, m);
            m'.file == m.file && m'.mem == m.mem && SameHost(m, m')
  {
    hide Run, LoadBlock, SaveBlock;
    LoadBlockLoads(sm, m);
    var m1 := Run(LoadBlock(sm), m);
    SaveBlockSaves(sm, m1);
    var m' := Run(SaveBlock(sm), m1);
    forall s: Slot ensures m'.file[s] == m.file[s] {
      if s <= PC { assert m'.file[s] == if sm[s].Mapped? then m1.regs[sm[s].host] else m1.file[s]; }
    }
    assert m'.file == m.file;
  }

  /** A system call in the middle of a block: save, a host function that keeps the host's
      registers and the swap file, load without executing.  The guest continues with what the
      function left in the file, and the swap file still holds the host's registers. */
  lemma CallOutReloads(sm: StaticMap, call: Machine -> Machine, m: Machine)
    requires Switchable(sm)
    requires var m1 := Run(SaveBlock(sm), m);
             && SameHost(m1, call(m1)) && call(m1).swap == m1.swap
             && Low32(call(m1).regs[SI]) == 0
    ensures var called := call(Run(SaveBlock(sm), m));
            var m' := LoadExecuteSave(sm, x => x, called);
            && Loaded(sm, m', called.file) && m'.file == called.file && m'.swap == m.swap
  {
    hide Run, LoadBlock, SaveBlock;
    SaveBlockSaves(sm, m);
    var called := call(Run(SaveBlock(sm), m));
    LoadBlockLoads(sm, called);
    var m' := Run(LoadBlock(sm), called);
    assert m'.swap == m.swap;
  }
}
