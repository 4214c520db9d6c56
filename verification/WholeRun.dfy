/** Whole runs: the main loop, the context switch, the generated code and the guest program put
    together, with the return ring and chaining switched off. */
module WholeRun {
  import opened Words
  import opened X86
  import opened RegisterCache
  import opened RegisterInfos
  import opened Riscv
  import opened Simulation
  import opened Emitters
  import opened Exits
  import opened Optimize
  import opened ContextSwitch
  import opened GuestPath
  import opened GuestRun
  import opened CodeCache
  import opened Translate
  import opened MainLoop
  import BlockTranslation = Block

  // ----- one block through the context switch -----

  /** The guest state when the guest is not running: the register file and memory. */
  function FileState(m: Machine): State { State(seq(33, r requires 0 <= r < 33 => FileVal(m, r)), m.mem) }

  function FileVal(m: Machine, r: Guest): Word { if r == X0 then 0 else m.file[r] }

  lemma LoadedView(sm: StaticMap, m: Machine, start: Machine)
    requires IsStaticMap(sm) && ContextSwitch.Loaded(sm, start, m.file) && start.file == m.file && start.mem == m.mem
    ensures View(sm, BlockTranslation.NOTHING_CACHED, start) == FileState(m)
  {
    forall r: Guest ensures Val(sm, BlockTranslation.NOTHING_CACHED, start, r) == FileState(m).x[r] {}
  }

  lemma SavedView(sm: StaticMap, end: Machine, m': Machine)
    requires IsStaticMap(sm) && m'.mem == end.mem
    requires forall r: Guest :: m'.file[r] == if sm[r].Mapped? then end.regs[sm[r].host] else end.file[r]
    ensures FileState(m') == View(sm, BlockTranslation.NOTHING_CACHED, end)
  {
    forall r: Guest ensures Val(sm, BlockTranslation.NOTHING_CACHED, end, r) == FileState(m').x[r] {}
  }

  lemma SpIsSpare(sm: StaticMap, m: Machine, m': Machine)
    requires Switchable(sm) && LeavesHost(sm, m, m')
    ensures SameKept(m.swap, m'.swap) && m'.regs[SP] == m.regs[SP]
  {
    assert Spare(sm, SP);
  }

  lemma LoadBlockMem(sm: StaticMap, m: Machine)
    requires Switchable(sm)
    ensures Run(LoadBlock(sm), m).mem == m.mem
  {
    hide Run, LoadBlock;
    LoadBlockLoads(sm, m);
  }

  function Running(code: seq<Code>): Machine -> Machine { (m: Machine) => Run(code, m) }

  /** Code that carries out `w` on what is loaded carries it out on the register file when it
      is run through the context switch, and the host finds its registers again. */
  lemma ThroughSwitch(other: Other, sm: StaticMap, code: seq<Code>, w: seq<Instr>, m: Machine)
    requires IsStaticMap(sm) && Switchable(sm) && Low32(m.regs[SI]) != 0
    requires var c := BlockTranslation.NOTHING_CACHED;
             forall x: Machine ::
               View(sm, c, Run(code, x)) == Steps(other, w, View(sm, c, x)) && LeavesHost(sm, x, Run(code, x))
    ensures var m' := LoadExecuteSave(sm, Running(code), m);
            FileState(m') == Steps(other, w, FileState(m)) && SameHost(m, m') && m'.regs[SP] == m.regs[SP]
  {
    hide IsStaticMap, Switchable, Run, LoadBlock, LoadExecuteSave, View, Steps, FileState, LeavesHost,
         ContextSwitch.Loaded, SameHost, SameKept;
    var start := Run(LoadBlock(sm), m);
    var end := Run(code, start);
    SpIsSpare(sm, start, end);
    SwitchRestores(sm, Running(code), m);
    LoadBlockMem(sm, m);
    LoadedView(sm, m, start);
    SavedView(sm, end, LoadExecuteSave(sm, Running(code), m));
  }

  // ----- one block of a translator -----

  /** The translators that are not modelled are right wherever the encoder takes what they emit.
      Nothing is asked about a JALR on x0, which reads slot 0 of the register file. */
  ghost predicate PlainRight(other: Other, sm: StaticMap, plain: BlockTranslation.Plain) {
    forall c: Cache, i: Instr ::
      Inv(sm, c) && Decoded(i) && !Known(i.mnem) && (i.mnem == JALR ==> i.rs1 != X0) && AllEncodable(plain(c, i).code)
      ==> Sound(other, sm, c, plain(c, i).code, plain(c, i).cache, [i])
  }

  ghost predicate NoJumpFromZero(p: Program) {
    forall a: Word :: p.decode(a).mnem == JALR ==> p.decode(a).rs1 != X0
  }

  lemma NotFromZero(cfg: Config, p: Program, entry: Word, block: seq<Instr>, k: nat)
    requires WellFormed(p) && NoJumpFromZero(p) && IsBlock(cfg, p, entry, block) && k < |block|
    ensures block[k].mnem == JALR ==> block[k].rs1 != X0
  {
    if block[k].mnem == JALR {
      hide WellFormed, PathPc, Stops;
      SlotNotFromZero(cfg, p, entry, block, k);
    }
  }

  lemma SlotNotFromZero(cfg: Config, p: Program, entry: Word, block: seq<Instr>, k: nat)
    requires WellFormed(p) && NoJumpFromZero(p)
    requires k < |block| && SlotOf(cfg, p, entry, block, k) && block[k].mnem == JALR
    ensures block[k].rs1 != X0
  {
    hide WellFormed, PathPc, Paired;
  }

  lemma BlockPlainSound(other: Other, sm: StaticMap, plain: BlockTranslation.Plain, cfg: Config, p: Program,
                        entry: Word, block: seq<Instr>, pieces: seq<BlockTranslation.Piece>)
    requires PlainRight(other, sm, plain) && WellFormed(p) && NoJumpFromZero(p) && IsBlock(cfg, p, entry, block)
    requires BlockTranslation.Within(block, pieces)
    ensures BlockTranslation.PlainSound(other, sm, plain, block, pieces)
  {
    BlockParsed(cfg, p, entry, block);
    forall k | 0 <= k < |pieces|
      ensures var i := block[pieces[k].at];
              Decoded(i) && (i.mnem == JALR ==> i.rs1 != X0)
    {
      NotFromZero(cfg, p, entry, block, pieces[k].at);
    }
    hide Decoded, Known, Inv, Sound, IsBlock, WellFormed, NoJumpFromZero, Parsed;
  }

  /** All windows in the code of a block are of patterns whose emitters are right. */
  predicate FaithfulBlock(b: Block) {
    && BlockTranslation.Within(b.instrs, BlockTranslation.Pieces(b.marked, 0))
    && BlockTranslation.AllFaithful(b.instrs, b.marked)
  }

  /** A block that was generated for an address, run through the context switch from where the
      guest program is at this address, does what the ISA does for some positive number of
      instructions. */
  lemma BlockAdvances(cfg: Config, p: Program, other: Other, sm: StaticMap, plain: BlockTranslation.Plain, fusion: bool,
                      b: Block, m: Machine) returns (n: nat)
    requires WellFormed(p) && IsBlock(cfg, p, b.entry, b.instrs) && b.entry == Reg(FileState(m), PC)
    requires Meaning(other) && PlainRight(other, sm, plain) && NoJumpFromZero(p)
    requires IsStaticMap(sm) && Switchable(sm) && Low32(m.regs[SI]) != 0
    requires BlockTranslation.Generated(sm, plain, fusion, b.instrs, b.marked, b.code)
    requires FaithfulBlock(b) && AllEncodable(b.code)
    ensures var m' := LoadExecuteSave(sm, Running(b.code), m);
            && n > 0 && FileState(m') == IsaRun(other, p, FileState(m), n)
            && SameHost(m, m') && m'.regs[SP] == m.regs[SP]
  {
    assert Injective(sm);
    hide WellFormed, IsBlock, Meaning, PlainRight, NoJumpFromZero, IsStaticMap, Injective, Switchable, FileState,
         LoadExecuteSave, SameHost, Run, View, LeavesHost, Steps, IsaRun, BlockTranslation.Generated,
         BlockTranslation.Within, BlockTranslation.Pieces, Parsed, BlockTranslation.AllFaithful,
         BlockTranslation.PlainSound, Low32;
    var pieces := BlockTranslation.Pieces(b.marked, 0);
    BlockParsed(cfg, p, b.entry, b.instrs);
    BlockPlainSound(other, sm, plain, cfg, p, b.entry, b.instrs, pieces);
    forall x: Machine
      ensures LeavesHost(sm, x, Run(b.code, x))
      ensures View(sm, BlockTranslation.NOTHING_CACHED, Run(b.code, x))
           == Steps(other, b.instrs, View(sm, BlockTranslation.NOTHING_CACHED, x))
    {
      BlockTranslation.GeneratedMeaning(other, sm, plain, fusion, b.instrs, b.marked, b.code, x);
    }
    ThroughSwitch(other, sm, b.code, b.instrs, m);
    n := BlockIsRun(cfg, other, p, b.entry, b.instrs, FileState(m));
  }

  // ----- the main loop -----

  /** execute_cached: the switch is called with the location and a flag. */
  method ExecuteCached(t: Translator, loc: nat, m: Machine) returns (m': Machine, ghost m0: Machine)
    requires loc in t.blocks
    ensures FileState(m0) == FileState(m) && Low32(m0.regs[SI]) != 0
    ensures m' == LoadExecuteSave(t.r.sm, Running(t.blocks[loc].code), m0)
  {
    hide LoadExecuteSave, Run;
    var code := t.blocks[loc].code;
    var call := m.(regs := m.regs[DI := loc % TWO_64][SI := 1]);
    m', m0 := LoadExecuteSave(t.r.sm, Running(code), call), call;
  }

  /** What is known of a located block. */
  lemma LocatedBlock(t: Translator, loc: nat)
    requires t.Valid() && loc in t.blocks
    ensures WellFormed(t.program) && IsStaticMap(t.r.sm)
    ensures var b := t.blocks[loc];
            && IsBlock(t.cfg, t.program, b.entry, b.instrs)
            && BlockTranslation.Generated(t.r.sm, t.plain, t.fusion, b.instrs, b.marked, b.code)
            && (!t.failed ==> AllEncodable(b.code))
  {
    hide WellFormed, IsBlock, GoodEntries, Represents, Probing, Count, BlockTranslation.Generated, PlainFits, Inv,
         Injective, IsStaticMap, Empty, GoodPush;
  }

  predicate AllFaithfulAt(blocks: Blocks, locs: seq<nat>) {
    forall k :: 0 <= k < |locs| ==> locs[k] in blocks && FaithfulBlock(blocks[locs[k]])
  }

  /** A run of blocks from guest state g: before block k the ISA has done counts[k]
      instructions, and the block holds the code for where the guest program then is. */
  ghost predicate Follows(p: Program, blocks: Blocks, other: Other, g: State, locs: seq<nat>, counts: seq<nat>) {
    && |counts| == |locs| + 1 && counts[0] == 0
    && forall k :: 0 <= k < |locs| ==>
         counts[k] < counts[k + 1] && CodeFor(blocks, locs[k], Reg(IsaRun(other, p, g, counts[k]), PC))
  }

  /** Such a run that has reached machine m. */
  ghost predicate Reaches(p: Program, blocks: Blocks, other: Other, g: State, locs: seq<nat>, counts: seq<nat>,
                          m: Machine) {
    Follows(p, blocks, other, g, locs, counts) && FileState(m) == IsaRun(other, p, g, counts[|locs|])
  }

  lemma ReachesStart(p: Program, blocks: Blocks, other: Other, m: Machine)
    ensures Reaches(p, blocks, other, FileState(m), [], [0], m)
  {
    hide IsaStep;
  }

  lemma ReachesLonger(p: Program, blocks: Blocks, blocks': Blocks, other: Other, g: State, locs: seq<nat>,
                      counts: seq<nat>, m: Machine)
    requires Extends(blocks, blocks') && Reaches(p, blocks, other, g, locs, counts, m)
    ensures Reaches(p, blocks', other, g, locs, counts, m)
  {
    hide IsaRun, Reg, FileState;
  }

  lemma ReachesPush(p: Program, blocks: Blocks, other: Other, g: State, locs: seq<nat>, counts: seq<nat>, m: Machine,
                    loc: nat, n: nat, m': Machine)
    requires Reaches(p, blocks, other, g, locs, counts, m) && CodeFor(blocks, loc, Reg(FileState(m), PC))
    requires n > 0 && FileState(m') == IsaRun(other, p, FileState(m), n)
    ensures Reaches(p, blocks, other, g, locs + [loc], counts + [counts[|locs|] + n], m')
  {
    hide IsaRun, Reg, FileState, CodeFor;
    IsaRunAppend(other, p, g, counts[|locs|], n);
  }

  lemma FaithfulEarlier(blocks: Blocks, blocks': Blocks, locs: seq<nat>)
    requires Extends(blocks, blocks') && AllFaithfulAt(blocks', locs) && forall l :: l in locs ==> l in blocks
    ensures AllFaithfulAt(blocks, locs)
  {
    hide FaithfulBlock;
  }

  lemma ReachesNext(cfg: Config, p: Program, blocks: Blocks, other: Other, sm: StaticMap, plain: BlockTranslation.Plain,
                    fusion: bool, g: State, locs: seq<nat>, counts: seq<nat>, m: Machine, loc: nat, m0: Machine)
    returns (counts': seq<nat>)
    requires WellFormed(p) && Meaning(other) && PlainRight(other, sm, plain) && NoJumpFromZero(p)
    requires IsStaticMap(sm) && Switchable(sm) && Low32(m0.regs[SI]) != 0 && FileState(m0) == FileState(m)
    requires CodeFor(blocks, loc, Reg(FileState(m), PC)) && IsBlock(cfg, p, blocks[loc].entry, blocks[loc].instrs)
    requires var b := blocks[loc];
             BlockTranslation.Generated(sm, plain, fusion, b.instrs, b.marked, b.code) && AllEncodable(b.code)
    requires AllFaithfulAt(blocks, locs + [loc]) && Reaches(p, blocks, other, g, locs, counts, m)
    ensures Reaches(p, blocks, other, g, locs + [loc], counts', LoadExecuteSave(sm, Running(blocks[loc].code), m0))
  {
    hide WellFormed, IsBlock, Meaning, PlainRight, NoJumpFromZero, Switchable, IsStaticMap, IsaRun, FaithfulBlock,
         LoadExecuteSave, FileState, Reg, Low32, BlockTranslation.Generated, SameHost;
    assert FaithfulBlock(blocks[(locs + [loc])[|locs|]]);
    hide AllFaithfulAt;
    var n := BlockAdvances(cfg, p, other, sm, plain, fusion, blocks[loc], m0);
    ReachesPush(p, blocks, other, g, locs, counts, m, loc, n, LoadExecuteSave(sm, Running(blocks[loc].code), m0));
    counts' := counts + [counts[|locs|] + n];
  }

  lemma FaithfulFront(blocks: Blocks, locs: seq<nat>, loc: nat)
    requires AllFaithfulAt(blocks, locs + [loc])
    ensures AllFaithfulAt(blocks, locs)
  {
    hide FaithfulBlock;
    forall k | 0 <= k < |locs| ensures locs[k] == (locs + [loc])[k] {}
  }

  lemma PcInFile(m: Machine)
    ensures Reg(FileState(m), PC) == m.file[PC]
  {
  }

  /** One turn of the loop, from where the code was located. */
  method RunLocated(t: Translator, loc: nat, m: Machine, ghost other: Other, ghost g: State, ghost locs: seq<nat>,
                    ghost counts: seq<nat>) returns (m': Machine, ghost counts': seq<nat>)
    requires t.Valid() && !t.failed && CodeFor(t.blocks, loc, m.file[PC])
    requires Meaning(other) && PlainRight(other, t.r.sm, t.plain)
    requires NoJumpFromZero(t.program) && Switchable(t.r.sm)
    requires AllFaithfulAt(t.blocks, locs) ==> Reaches(t.program, t.blocks, other, g, locs, counts, m)
    ensures AllFaithfulAt(t.blocks, locs + [loc]) ==> Reaches(t.program, t.blocks, other, g, locs + [loc], counts', m')
  {
    hide GoodBlocks, GoodEntries, GoodCode, NoneRefused, PlainFits, Ready, Empty, Represents, Probing, Count, IsPow2;
    LocatedBlock(t, loc);
    PcInFile(m);
    hide WellFormed, IsBlock, Meaning, PlainRight, NoJumpFromZero, Switchable, IsStaticMap, AllFaithfulAt, FileState,
         LoadExecuteSave, Running, Reaches, BlockTranslation.Generated, Reg, Low32;
    ghost var m0;
    m', m0 := ExecuteCached(t, loc, m);
    counts' := counts;
    if AllFaithfulAt(t.blocks, locs + [loc]) {
      FaithfulFront(t.blocks, locs, loc);
      counts' := ReachesNext(t.cfg, t.program, t.blocks, other, t.r.sm, t.plain, t.fusion, g, locs, counts, m, loc, m0);
    }
  }

  /** The main loop until n blocks have run or the encoder has refused something.  The locations
      run hold the code for where the guest program is, and the guest state ends as the ISA
      has it after as many instructions, provided that no window of pattern 2 or 9, and none of
      pattern 8 on x0, was emitted in them. */
  method RunProgram(t: Translator, m: Machine, n: nat, ghost other: Other)
    returns (m': Machine, locs: seq<nat>, ghost counts: seq<nat>)
    requires t.Valid() && Started(t.cache.Full) == {} && !t.cfg.ras
    requires Meaning(other) && PlainRight(other, t.r.sm, t.plain)
    requires NoJumpFromZero(t.program) && Switchable(t.r.sm)
    modifies t`blocks, t`currentPos, t`failed, t.cache.Repr, t.Registers()
    ensures t.Valid() && Started(t.cache.Full) == {} && Extends(old(t.blocks), t.blocks)
    ensures |locs| <= n && (|locs| < n ==> !NoneRefused(t.blocks)) && forall l :: l in locs ==> l in t.blocks
    ensures AllFaithfulAt(t.blocks, locs) ==> Reaches(t.program, t.blocks, other, FileState(m), locs, counts, m')
    ensures !t.fusion ==> AllFaithfulAt(t.blocks, locs)
  {
    hide WellFormed, IsBlock, Meaning, PlainRight, NoJumpFromZero, Switchable, GoodBlocks, GoodEntries, Extends,
         Grown, Started, Probing, Represents, Count, IsPow2, GoodCode, NoneRefused, PlainFits, Ready, Empty,
         FileState, AllFaithfulAt, Reaches;
    m', locs, counts := m, [], [0];
    ReachesStart(t.program, t.blocks, other, m);
    NothingGrown(t.cache.Full, t.blocks);
    while |locs| < n
      invariant t.Valid() && Started(t.cache.Full) == {} && Extends(old(t.blocks), t.blocks)
      invariant fresh(t.cache.Repr - old(t.cache.Repr)) && |locs| <= n && forall l :: l in locs ==> l in t.blocks
      invariant AllFaithfulAt(t.blocks, locs) ==> Reaches(t.program, t.blocks, other, FileState(m), locs, counts, m')
    {
      ghost var b := t.blocks;
      var loc := Locate(t, m'.file[PC]);
      ExtendsChain(old(t.blocks), b, t.blocks);
      BlocksStay(b, t.blocks, locs);
      if AllFaithfulAt(t.blocks, locs) {
        FaithfulEarlier(b, t.blocks, locs);
        ReachesLonger(t.program, b, t.blocks, other, FileState(m), locs, counts, m');
      }
      if t.failed { break; }
      m', counts := RunLocated(t, loc, m', other, FileState(m), locs, counts);
      locs := locs + [loc];
    }
    if !t.fusion { NoFusionAll(t, locs); }
  }

  /** Without fusion there are no windows. */
  lemma NoFusionAll(t: Translator, locs: seq<nat>)
    requires t.Valid() && !t.fusion && forall l :: l in locs ==> l in t.blocks
    ensures AllFaithfulAt(t.blocks, locs)
  {
    hide WellFormed, IsBlock, Ready, Empty, PlainFits, GoodEntries, GoodBlocks, GoodCode, NoneRefused, Represents,
         Probing, Count, BlockTranslation.Generated, BlockTranslation.AllFaithful, BlockTranslation.Pieces, Parsed;
    forall k | 0 <= k < |locs| ensures FaithfulBlock(t.blocks[locs[k]]) {
      var b := t.blocks[locs[k]];
      LocatedBlock(t, locs[k]);
      BlockParsed(t.cfg, t.program, b.entry, b.instrs);
      BlockTranslation.NoFusionFaithful(t.r.sm, t.plain, b.instrs, b.marked, b.code);
    }
  }

  lemma BlocksStay(blocks: Blocks, blocks': Blocks, locs: seq<nat>)
    requires Extends(blocks, blocks') && forall l :: l in locs ==> l in blocks
    ensures forall l :: l in locs ==> l in blocks'
  {
  }

  // ----- the assumptions can be met -----

  /** Instructions that are neither modelled nor jumps: those that end a block stop the guest
      where it is, the others do nothing. */
  function Halting(): Other {
    (i: Instr, g: State) =>
      if IsExit(i.mnem) then JumpMeaning(i, g) else if Ends(i) then SetReg(g, PC, i.addr) else g
  }

  function HaltPlain(sm: StaticMap): BlockTranslation.Plain {
    (c: Cache, i: Instr) =>
      if IsExit(i.mnem) then ExitCode(sm, c, i)
      else if Ends(i) then Flushed(c, [MovImm(AX, i.addr), Store(PC, AX)])
      else Emission([], c)
  }

  lemma HaltingMeans()
    ensures Meaning(Halting())
  {
    hide JumpMeaning;
    var other := Halting();
    forall i: Instr, g: State, w: Word | !Known(i.mnem)
      ensures MeansRight(other, i, g, w)
    {
      SetPcTwice(g, w, i.addr);
    }
  }

  lemma SameMeaning(a: Other, b: Other, sm: StaticMap, c: Cache, code: seq<Code>, c': Cache, i: Instr)
    requires Sound(a, sm, c, code, c', [i]) && !Known(i.mnem) && forall g: State :: a(i, g) == b(i, g)
    ensures Sound(b, sm, c, code, c', [i])
  {
    hide Run, View, LeavesHost, Inv, Steps;
    forall g: State ensures Steps(a, [i], g) == Steps(b, [i], g) {
      Steps1(a, [i], g);
      Steps1(b, [i], g);
    }
  }

  lemma EndSound(sm: StaticMap, c: Cache, i: Instr)
    requires IsStaticMap(sm) && Injective(sm) && Inv(sm, c) && sm[PC].Unmapped?
    requires !IsExit(i.mnem) && !Known(i.mnem) && Ends(i)
    ensures var e := HaltPlain(sm)(c, i);
            Sound(Halting(), sm, c, e.code, e.cache, [i])
  {
    hide Run, View, LeavesHost, Inv, Steps, InvalidateAll, IsStaticMap, Injective, Sound, SetReg;
    var next := Instr(i.addr, PC_NEXT_INST, PSEUDO, 0, 0, 0, i.addr);
    NextSound(sm, c, next);
    var e := HaltPlain(sm)(c, i);
    var m0: Machine :| true;
    SoundAt(JumpMeaning, sm, c, e.code, e.cache, [next], m0);
    forall m: Machine
      ensures View(sm, e.cache, Run(e.code, m)) == Steps(Halting(), [i], View(sm, c, m))
      ensures LeavesHost(sm, m, Run(e.code, m))
    {
      SoundAt(JumpMeaning, sm, c, e.code, e.cache, [next], m);
      Steps1(JumpMeaning, [next], View(sm, c, m));
      Steps1(Halting(), [i], View(sm, c, m));
    }
    SoundFromAll(Halting(), sm, c, e.code, e.cache, [i]);
  }

  lemma NothingSound(other: Other, sm: StaticMap, c: Cache, i: Instr)
    requires Inv(sm, c) && !Known(i.mnem) && forall g: State :: other(i, g) == g
    ensures Sound(other, sm, c, [], c, [i])
  {
    hide View, LeavesHost, Inv, Steps;
    forall m: Machine
      ensures View(sm, c, Run([], m)) == Steps(other, [i], View(sm, c, m)) && LeavesHost(sm, m, Run([], m))
    {
      BlockTranslation.HostLeft(sm, m);
      Steps1(other, [i], View(sm, c, m));
    }
  }

  lemma HaltPlainSound(sm: StaticMap, c: Cache, i: Instr)
    requires IsStaticMap(sm) && Injective(sm) && sm[PC].Unmapped? && Inv(sm, c) && Decoded(i) && !Known(i.mnem)
    requires i.mnem == JALR ==> i.rs1 != X0
    ensures var e := HaltPlain(sm)(c, i);
            && Inv(sm, e.cache) && (AllEncodable(e.code) ==> Sound(Halting(), sm, c, e.code, e.cache, [i]))
  {
    hide Run, View, LeavesHost, Inv, Steps, InvalidateAll, IsStaticMap, Injective, Sound, SetReg, ExitCode,
         JumpMeaning;
    var e := HaltPlain(sm)(c, i);
    if IsExit(i.mnem) {
      ExitInv(sm, c, i);
      if AllEncodable(e.code) {
        ExitSound(sm, c, i);
        SameMeaning(JumpMeaning, Halting(), sm, c, e.code, e.cache, i);
      }
    } else if Ends(i) {
      EndSound(sm, c, i);
      SoundInv(Halting(), sm, c, e.code, e.cache, [i]);
    } else {
      NothingSound(Halting(), sm, c, i);
    }
  }

  /** What whole runs demand of the parameters is met with the real map, by the translators of
      the exits among others. */
  lemma AssumptionsMet()
    ensures var sm := RealMap();
            && IsStaticMap(sm) && Switchable(sm) && PlainFits(sm, HaltPlain(sm))
            && Meaning(Halting()) && PlainRight(Halting(), sm, HaltPlain(sm))
  {
    hide Meaning, Inv, Decoded, Known, HaltPlain, Sound, ExitCode, IsStaticMap;
    var sm := RealMap();
    RealMapGood();
    HaltingMeans();
    forall c: Cache, i: Instr | Inv(sm, c) && Decoded(i) && !Known(i.mnem)
      ensures Inv(sm, HaltPlain(sm)(c, i).cache)
      ensures (i.mnem == JALR ==> i.rs1 != X0) && AllEncodable(HaltPlain(sm)(c, i).code) ==>
                Sound(Halting(), sm, c, HaltPlain(sm)(c, i).code, HaltPlain(sm)(c, i).cache, [i])
    {
      HaltFits(sm, c, i);
      if i.mnem == JALR ==> i.rs1 != X0 { HaltPlainSound(sm, c, i); }
    }
  }

  lemma HaltFits(sm: StaticMap, c: Cache, i: Instr)
    requires IsStaticMap(sm) && Injective(sm) && sm[PC].Unmapped? && Inv(sm, c) && Decoded(i) && !Known(i.mnem)
    ensures Inv(sm, HaltPlain(sm)(c, i).cache)
  {
    hide Inv, InvalidateAll, IsStaticMap, Injective, Run, View, LeavesHost, ExitCode;
    if IsExit(i.mnem) {
      ExitInv(sm, c, i);
    } else {
      var m0: Machine :| true;
      FlushedEmpty(sm, c, [], m0);
    }
  }
}
