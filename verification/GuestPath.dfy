/** The guest program as the translator walks it, and what a parsed block is. */
module GuestPath {
  import opened Words
  import opened Riscv

  /** The translation options that parsing and translating read. */
  datatype Config = Config(ras: bool, jump: bool, singleStep: bool)

  function MaxCount(cfg: Config): (n: nat)
    ensures n >= 2
  {
    if cfg.singleStep then 2 else 64
  }

  predicate IsFence(i: Instr) { i.optype.SYSTEM? && i.mnem in {FENCE, FENCE_I} }

  predicate IsLink(r: nat) { r == 1 || r == 5 }

  /** parse_instruction at an address, and a bound on the length of the run of fences there. */
  datatype Program = Program(decode: Word -> Instr, ghost fences: Word -> nat)

  /** What the parser guarantees, and that every run of fences is finite. */
  ghost predicate WellFormed(p: Program) {
    forall a: Word ::
      var i := p.decode(a);
      && i.addr == a && Decoded(i) && !i.optype.PSEUDO? && !i.optype.PatternIndex?
      && i.mnem !in {PC_NEXT_INST, MANUAL_CSRR}
      && (i.optype.SYSTEM? ==> i.mnem in {FENCE, FENCE_I, ECALL, EBREAK} || i.mnem.CSRR?)
      && (i.optype.JUMP? <==> i.mnem in {JAL, JALR})
      && (Known(i.mnem) ==> i.optype in {REG_REG, IMMEDIATE, UPPER_IMMEDIATE, STORE})
      && (IsFence(i) ==> p.fences(Add(a, 4)) < p.fences(a))
  }

  lemma WellFormedAt(p: Program, a: Word)
    requires WellFormed(p)
    ensures var i := p.decode(a);
            && i.addr == a && Decoded(i) && i.mnem !in {PC_NEXT_INST, MANUAL_CSRR}
            && (i.optype.JUMP? <==> i.mnem in {JAL, JALR})
            && (Known(i.mnem) ==> i.optype in {REG_REG, IMMEDIATE, UPPER_IMMEDIATE, STORE})
            && (IsFence(i) ==> p.fences(Add(a, 4)) < p.fences(a))
  {
  }

  /** Where parsing of a block stops. */
  predicate Stops(cfg: Config, i: Instr) {
    match i.optype
    case INVALID_INSTRUCTION => true
    case BRANCH => true
    case SYSTEM => i.mnem in {ECALL, EBREAK}
    case JUMP => i.mnem == JALR || !cfg.jump || i.rd != 0
    case _ => false
  }

  /** Instructions other than jumps that end a block. */
  predicate Ends(i: Instr) {
    i.optype.INVALID_INSTRUCTION? || i.optype.BRANCH? || (i.optype.SYSTEM? && i.mnem in {ECALL, EBREAK})
  }

  function NextPc(i: Instr): Word { if i.mnem == JAL then Add(i.addr, i.imm) else Add(i.addr, 4) }

  /** The first address at or after `a` that holds no fence. */
  ghost function Skip(p: Program, a: Word): Word
    requires WellFormed(p)
    decreases p.fences(a)
  {
    if IsFence(p.decode(a)) then Skip(p, Add(a, 4)) else a
  }

  /** The address of the k-th instruction on the path from `entry`: JAL x0 is followed, fences
      are skipped. */
  ghost function PathPc(p: Program, entry: Word, k: nat): Word
    requires WellFormed(p)
  {
    if k == 0 then Skip(p, entry) else Skip(p, NextPc(p.decode(PathPc(p, entry, k - 1))))
  }

  /** What the parser leaves in the buffer for instruction `i`, except for the note in rs2 of
      a JALR. */
  function BlockForm(cfg: Config, i: Instr): Instr {
    if i.optype.SYSTEM? && i.mnem == EBREAK then
      i.(imm := 0, mnem := INVALID_MNEM, optype := INVALID_INSTRUCTION)
    else if i.optype.SYSTEM? && i.mnem.CSRR? && 0 < i.imm < 4 then
      i.(rs2 := i.mnem.op, mnem := MANUAL_CSRR)
    else if i.mnem == JAL && cfg.jump && i.rd == 0 then
      Instr(i.addr, AUIPC, IMMEDIATE, 0, 0, i.rd, 4)
    else i
  }

  /** Following a jump loses nothing: what is left in its slot changes no guest state. */
  lemma FollowedJump(cfg: Config, i: Instr, other: Other, s: State)
    requires i.optype.JUMP? && i.mnem == JAL && !Stops(cfg, i)
    ensures Step(other, BlockForm(cfg, i), s) == s && NextPc(i) == Add(i.addr, i.imm)
  {
  }

  /** Where a JALR goes that is paired with the AUIPC in front of it. */
  function PairTarget(prev: Instr, last: Instr): Word { Add(Add(Sub(last.addr, 4), prev.imm), last.imm) }

  /** A JALR whose target is known from the AUIPC in front of it. */
  predicate Paired(cfg: Config, prev: Instr, i: Instr) {
    cfg.jump && prev.mnem == AUIPC && prev.rd != 0 && i.rs1 == prev.rd
  }

  /** The final form of slot k of the block in `buf`. */
  ghost predicate SlotOf(cfg: Config, p: Program, entry: Word, buf: seq<Instr>, k: nat)
    requires WellFormed(p) && k < |buf|
  {
    var i := p.decode(PathPc(p, entry, k));
    if i.mnem == JALR then
      buf[k] == i.(rs2 := if k > 0 && Paired(cfg, buf[k - 1], i) then 1 else 0)
    else
      buf[k] == BlockForm(cfg, i)
  }

  /** Where the path goes on after its first k instructions. */
  ghost function After(p: Program, entry: Word, k: nat): Word
    requires WellFormed(p)
  {
    if k == 0 then entry else NextPc(p.decode(PathPc(p, entry, k - 1)))
  }

  /** The path from where a full block left it is the rest of the path. */
  lemma {:induction false} PathResumes(p: Program, entry: Word, last: nat, k: nat)
    requires WellFormed(p)
    ensures PathPc(p, After(p, entry, last), k) == PathPc(p, entry, last + k)
  {
    hide WellFormed, Skip, NextPc;
    if k == 0 {
    } else {
      PathResumes(p, entry, last, k - 1);
    }
  }

  /** A block whose last slot is the pseudo instruction holds the path's first instructions and
      names the address from which the path continues as it would have without the break. */
  lemma FullBlockResumes(cfg: Config, p: Program, entry: Word, block: seq<Instr>, k: nat)
    requires WellFormed(p) && IsBlock(cfg, p, entry, block) && block[|block| - 1].mnem == PC_NEXT_INST
    ensures var last := |block| - 1;
            && (forall j :: 0 <= j < last ==> SlotOf(cfg, p, entry, block, j))
            && PathPc(p, block[last].imm, k) == PathPc(p, entry, last + k)
  {
    hide WellFormed, PathPc, Stops, SlotOf;
    PathResumes(p, entry, |block| - 1, k);
  }

  /** `block` is the parse of the path from `entry`: each slot holds the instruction of the
      path; only the last one stops it; and a block that ends because the buffer is full ends
      with the address where the path goes on. */
  ghost predicate IsBlock(cfg: Config, p: Program, entry: Word, block: seq<Instr>)
    requires WellFormed(p)
  {
    && 0 < |block| <= MaxCount(cfg)
    && (forall k :: 0 <= k < |block| - 1 ==>
          SlotOf(cfg, p, entry, block, k) && !Stops(cfg, p.decode(PathPc(p, entry, k))))
    && var last := |block| - 1;
       if block[last].mnem == PC_NEXT_INST then
         |block| == MaxCount(cfg)
         && block[last].imm == NextPc(p.decode(PathPc(p, entry, last - 1)))
       else
         |block| < MaxCount(cfg)
         && SlotOf(cfg, p, entry, block, last) && Stops(cfg, p.decode(PathPc(p, entry, last)))
  }

  /** The form of an instruction in a block, written out: an EBREAK becomes an invalid instruction,
      a CSR access to 1 to 3 keeps its operation in rs2, a followed jump becomes an instruction
      without effect, and a JALR has a note. */
  function Written(jump: bool, i: Instr, known: bool): Instr {
    match i.mnem
    case EBREAK =>
      if i.optype.SYSTEM? then i.(imm := 0, mnem := INVALID_MNEM, optype := INVALID_INSTRUCTION) else i
    case CSRR(op) => if i.optype.SYSTEM? && i.imm in {1, 2, 3} then i.(rs2 := op, mnem := MANUAL_CSRR) else i
    case JAL => if jump && i.rd == 0 then Instr(i.addr, AUIPC, IMMEDIATE, 0, 0, 0, 4) else i
    case JALR => i.(rs2 := if known then 1 else 0)
    case _ => i
  }

  lemma FormExactly(cfg: Config, i: Instr)
    requires i.mnem != JALR
    ensures BlockForm(cfg, i) == Written(cfg.jump, i, false) == Written(cfg.jump, i, true)
  {
  }

  /** Every slot but the pseudo one holds the instruction of the path in this form; a JALR notes
      whether an AUIPC in front of it gives its target. */
  lemma SlotForms(cfg: Config, p: Program, entry: Word, block: seq<Instr>, k: nat)
    requires WellFormed(p) && IsBlock(cfg, p, entry, block) && k < |block|
    requires k == |block| - 1 ==> block[k].mnem != PC_NEXT_INST
    ensures var i := p.decode(PathPc(p, entry, k));
            var known := k > 0 && cfg.jump && block[k - 1].mnem == AUIPC && block[k - 1].rd != 0
                         && i.rs1 == block[k - 1].rd;
            block[k] == Written(cfg.jump, i, known)
  {
    assert SlotOf(cfg, p, entry, block, k);
    var i := p.decode(PathPc(p, entry, k));
    hide WellFormed, PathPc, Stops, IsBlock, BlockForm;
    if i.mnem != JALR {
      FormExactly(cfg, i);
      hide Written;
    }
  }

  /** Instructions at which parsing stops, written out. */
  predicate EndsBlock(jump: bool, i: Instr) {
    || i.optype in {INVALID_INSTRUCTION, BRANCH}
    || (i.optype == SYSTEM && (i.mnem == ECALL || i.mnem == EBREAK))
    || (i.optype == JUMP && (i.mnem == JALR || i.rd != 0 || !jump))
  }

  lemma StopsExactly(cfg: Config, p: Program, a: Word)
    requires WellFormed(p)
    ensures var i := p.decode(a);
            && (Stops(cfg, i) <==> EndsBlock(cfg.jump, i))
            && (EndsBlock(cfg.jump, i) && i.mnem == JAL ==> !cfg.jump || i.rd != 0)
  {
    WellFormedAt(p, a);
    hide WellFormed;
  }

  /** Where blocks end: at the first such instruction, or else when the buffer of 64 slots is
      full; under single step after one instruction.  A JAL x0 never ends one when jumps are
      followed. */
  lemma BlockEnds(cfg: Config, p: Program, entry: Word, block: seq<Instr>)
    requires WellFormed(p) && IsBlock(cfg, p, entry, block)
    ensures forall k :: 0 <= k < |block| - 1 ==> !EndsBlock(cfg.jump, p.decode(PathPc(p, entry, k)))
    ensures var last := |block| - 1;
            if block[last].mnem == PC_NEXT_INST then |block| == (if cfg.singleStep then 2 else 64)
            else
              && |block| <= (if cfg.singleStep then 1 else 63)
              && EndsBlock(cfg.jump, p.decode(PathPc(p, entry, last)))
              && (block[last].mnem == JAL ==> !cfg.jump || block[last].rd != 0)
  {
    forall k | 0 <= k < |block|
      ensures Stops(cfg, p.decode(PathPc(p, entry, k))) <==> EndsBlock(cfg.jump, p.decode(PathPc(p, entry, k)))
    {
      StopsExactly(cfg, p, PathPc(p, entry, k));
    }
    hide EndsBlock, Stops;
    if block[|block| - 1].mnem != PC_NEXT_INST { SlotForms(cfg, p, entry, block, |block| - 1); }
    StopsExactly(cfg, p, PathPc(p, entry, |block| - 1));
    hide WellFormed, PathPc, SlotOf;
  }

  /** The first n slots hold the first n instructions of the path, none of which stops the
      block. */
  ghost predicate Scanned(cfg: Config, p: Program, entry: Word, buf: seq<Instr>, n: nat)
    requires WellFormed(p) && n <= |buf|
  {
    forall k :: 0 <= k < n ==>
      var i := p.decode(PathPc(p, entry, k));
      i.mnem != JALR && buf[k] == BlockForm(cfg, i) && !Stops(cfg, i)
  }

  lemma ScannedNone(cfg: Config, p: Program, entry: Word, buf: seq<Instr>)
    requires WellFormed(p)
    ensures Scanned(cfg, p, entry, buf, 0)
  {
  }

  lemma SkipFence(p: Program, a: Word)
    requires WellFormed(p)
    ensures Skip(p, a) == if IsFence(p.decode(a)) then Skip(p, Add(a, 4)) else a
  {
  }

  lemma PathStep(p: Program, entry: Word, n: nat)
    requires WellFormed(p)
    ensures PathPc(p, entry, 0) == Skip(p, entry)
    ensures PathPc(p, entry, n + 1) == Skip(p, NextPc(p.decode(PathPc(p, entry, n))))
  {
  }

  lemma NoJalrInside(cfg: Config, p: Program, a: Word)
    requires WellFormed(p) && !Stops(cfg, p.decode(a))
    ensures p.decode(a).mnem != JALR
  {
    WellFormedAt(p, a);
  }

  lemma ScannedStep(cfg: Config, p: Program, entry: Word, buf: seq<Instr>, buf': seq<Instr>, n: nat)
    requires WellFormed(p) && n < |buf| == |buf'| && Scanned(cfg, p, entry, buf, n)
    requires buf'[..n] == buf[..n]
    requires var i := p.decode(PathPc(p, entry, n)); buf'[n] == BlockForm(cfg, i) && !Stops(cfg, i)
    ensures Scanned(cfg, p, entry, buf', n + 1)
  {
    NoJalrInside(cfg, p, PathPc(p, entry, n));
    hide WellFormed, BlockForm, PathPc, Stops;
    forall k | 0 <= k < n ensures buf'[k] == buf[k] { assert buf'[..n][k] == buf[..n][k]; }
  }

  lemma ScannedSame(cfg: Config, p: Program, entry: Word, buf: seq<Instr>, buf': seq<Instr>, n: nat)
    requires WellFormed(p) && n <= |buf| && n <= |buf'| && Scanned(cfg, p, entry, buf, n) && buf'[..n] == buf[..n]
    ensures Scanned(cfg, p, entry, buf', n)
  {
    hide WellFormed, BlockForm, PathPc, Stops;
    forall k | 0 <= k < n ensures buf'[k] == buf[k] { assert buf'[..n][k] == buf[..n][k]; }
  }

  /** A scanned path with its last slot in final form is a block. */
  lemma ScannedBlock(cfg: Config, p: Program, entry: Word, block: seq<Instr>)
    requires WellFormed(p) && 0 < |block| < MaxCount(cfg) && Scanned(cfg, p, entry, block, |block| - 1)
    requires SlotOf(cfg, p, entry, block, |block| - 1) && Stops(cfg, p.decode(PathPc(p, entry, |block| - 1)))
    ensures IsBlock(cfg, p, entry, block)
  {
    WellFormedAt(p, PathPc(p, entry, |block| - 1));
    hide WellFormed, PathPc, Stops;
  }

  lemma FullBlock(cfg: Config, p: Program, entry: Word, block: seq<Instr>)
    requires WellFormed(p) && |block| == MaxCount(cfg) && Scanned(cfg, p, entry, block, |block| - 1)
    requires block[|block| - 1].mnem == PC_NEXT_INST
    requires block[|block| - 1].imm == NextPc(p.decode(PathPc(p, entry, |block| - 2)))
    ensures IsBlock(cfg, p, entry, block)
  {
    hide WellFormed, PathPc, Stops, BlockForm;
  }
}
