/** Block discovery: parse_block and translate_block, which call each other over the guest's
    call graph, and the main loop that looks up, translates and executes.

    A location of the code buffer is represented by the block whose code was generated there,
    with that code and with the return pair it pushes. */
module Translate {
  import opened Words
  import opened Riscv
  import opened GuestPath
  import opened CodeCache
  import opened ReturnStack
  import opened X86
  import opened RegisterCache
  import opened RegisterInfos
  import opened Emitters
  import opened Exits
  import opened Optimize
  import BlockTranslation = Block

  datatype Push = NoPush | PushPair(pair: RsEntry)

  /** What was generated at a location: `marked` is what the optimiser made of the instructions. */
  datatype Block = Block(entry: Word, instrs: seq<Instr>, push: Push, marked: seq<Instr>, code: seq<Code>)

  /** rs_emit_push: nothing when the return target is still being translated. */
  function EmittedPush(target: Word, loc: nat): Push {
    if loc == TRANSLATION_STARTED then NoPush else PushPair(RsEntry(target, loc))
  }

  /** translate_JAL and translate_JALR push for calls through x1 and x5. */
  predicate Pushes(cfg: Config, last: Instr) {
    cfg.ras && last.mnem in {JAL, JALR} && IsLink(last.rd)
  }

  /** What a block that ends in `last` should push, given what is translated: a call through x1
      or x5 the return address with its location, nothing while this is still being
      translated, and null when it is not translated, as only happens to a JAL while call
      following is switched off. */
  predicate PushRight(cfg: Config, last: Instr, m: Directory, push: Push) {
    var ret := Add(last.addr, 4);
    if cfg.ras && (last.mnem == JAL || last.mnem == JALR) && (last.rd == 1 || last.rd == 5) then
      if ret !in m then push == PushPair(RsEntry(ret, UNSEEN)) && last.mnem == JAL && !cfg.jump
      else push == if m[ret] == TRANSLATION_STARTED then NoPush else PushPair(RsEntry(ret, m[ret]))
    else push == NoPush
  }

  predicate IsNull(push: Push) { push.PushPair? && push.pair.x86 == UNSEEN }

  /** A call that ends a block without its return address having been translated: only a JAL
      while call following is switched off. */
  predicate ReturnUnknown(cfg: Config, last: Instr, m: Directory) {
    last.mnem == JAL && !cfg.jump && Add(last.addr, 4) !in m
  }

  predicate IsWord(w: nat) { w < TWO_64 }

  ghost function AllWords(): set<nat> { set w: nat | w < TWO_64 && IsWord(w) }

  /** Addresses that have no entry yet: what bounds the recursion. */
  ghost function Unseen(m: Directory): set<nat> { AllWords() - m.Keys }

  lemma UnseenShrinks(m: Directory, m': Directory, a: Word)
    requires a !in m && m.Keys <= m'.Keys && a in m'
    ensures Unseen(m') < Unseen(m)
  {
    assert a in Unseen(m) && a !in Unseen(m');
  }

  /** `m'` grew from `m` by finished translations only. */
  ghost predicate Grown(m: Directory, m': Directory) {
    && m.Keys <= m'.Keys
    && (forall a :: a in m ==> m'[a] == m[a])
    && (forall a :: a in m' && a !in m ==> m'[a] != TRANSLATION_STARTED)
  }

  lemma GrownUnseen(m: Directory, m': Directory)
    requires Grown(m, m')
    ensures Unseen(m') <= Unseen(m)
  {
  }

  /** The addresses marked as being translated. */
  ghost function Started(m: Directory): set<Word> { set a | a in m && m[a] == TRANSLATION_STARTED }

  lemma GrownStarted(m: Directory, m': Directory)
    requires Grown(m, m')
    ensures Started(m') == Started(m)
  {
  }

  type Blocks = map<nat, Block>

  /** Location `loc` holds code generated for `a`. */
  predicate CodeFor(blocks: Blocks, loc: nat, a: Word) { loc in blocks && blocks[loc].entry == a }

  /** A pair that is safe to return through: its code is that of its address.  With call
      following switched off, a JAL may push the pair (target, 0). */
  predicate GoodPair(cfg: Config, blocks: Blocks, e: RsEntry) {
    CodeFor(blocks, e.x86, e.addr) || (e.x86 == UNSEEN && cfg.ras && !cfg.jump)
  }

  /** Only a call pushes, and what it pushes is safe to return through. */
  predicate GoodPush(cfg: Config, blocks: Blocks, b: Block) {
    |b.instrs| > 0
    && (b.push.PushPair? ==> Pushes(cfg, b.instrs[|b.instrs| - 1]) && GoodPair(cfg, blocks, b.push.pair))
  }

  ghost predicate GoodBlocks(cfg: Config, p: Program, blocks: Blocks, free: nat)
    requires WellFormed(p)
  {
    forall l :: l in blocks ==>
      && TRANSLATION_STARTED < l < free
      && IsBlock(cfg, p, blocks[l].entry, blocks[l].instrs)
      && GoodPush(cfg, blocks, blocks[l])
  }

  /** The code at every location was generated for the instructions recorded there. */
  ghost predicate GoodCode(sm: StaticMap, plain: BlockTranslation.Plain, fusion: bool, blocks: Blocks) {
    forall l :: l in blocks ==>
      BlockTranslation.Generated(sm, plain, fusion, blocks[l].instrs, blocks[l].marked, blocks[l].code)
  }

  /** The encoder took all code. */
  predicate NoneRefused(blocks: Blocks) { forall l :: l in blocks ==> AllEncodable(blocks[l].code) }

  lemma AddCode(sm: StaticMap, plain: BlockTranslation.Plain, fusion: bool, blocks: Blocks, loc: nat, b: Block)
    requires GoodCode(sm, plain, fusion, blocks)
    requires BlockTranslation.Generated(sm, plain, fusion, b.instrs, b.marked, b.code)
    ensures GoodCode(sm, plain, fusion, blocks[loc := b])
    ensures loc !in blocks ==> (NoneRefused(blocks[loc := b]) <==> NoneRefused(blocks) && AllEncodable(b.code))
  {
    hide BlockTranslation.Generated, AllEncodable;
    var blocks' := blocks[loc := b];
    forall l | l in blocks && l != loc ensures l in blocks' && blocks'[l] == blocks[l] {}
    if loc !in blocks && NoneRefused(blocks') {
      assert loc in blocks' && blocks'[loc] == b;
      forall l | l in blocks ensures AllEncodable(blocks[l].code) { assert l in blocks' && blocks'[l] == blocks[l]; }
    }
  }

  lemma FreePosition(cfg: Config, p: Program, blocks: Blocks, free: nat)
    requires WellFormed(p) && GoodBlocks(cfg, p, blocks, free)
    ensures free !in blocks
  {
    hide WellFormed, IsBlock, GoodPush;
  }

  /** The translators given as a parameter keep the register cache's invariant. */
  ghost predicate PlainFits(sm: StaticMap, plain: BlockTranslation.Plain) {
    forall c: Cache, i: Instr :: Inv(sm, c) && Decoded(i) && !Known(i.mnem) ==> Inv(sm, plain(c, i).cache)
  }

  lemma PlainFitsBlock(sm: StaticMap, plain: BlockTranslation.Plain, orig: seq<Instr>)
    requires PlainFits(sm, plain) && Parsed(orig)
    ensures BlockTranslation.PlainKeeps(sm, plain, orig)
  {
    hide Inv, Decoded, Known;
  }

  /** A parsed block holds nothing that only the optimiser puts there. */
  lemma BlockParsed(cfg: Config, p: Program, entry: Word, block: seq<Instr>)
    requires WellFormed(p) && IsBlock(cfg, p, entry, block)
    ensures Parsed(block)
  {
    hide WellFormed, PathPc, Stops, SlotOf, NextPc;
    forall k | 0 <= k < |block| ensures Decoded(block[k]) {
      if block[k].mnem != PC_NEXT_INST { SlotDecoded(cfg, p, entry, block, k); }
    }
  }

  lemma SlotDecoded(cfg: Config, p: Program, entry: Word, block: seq<Instr>, k: nat)
    requires WellFormed(p) && k < |block| && SlotOf(cfg, p, entry, block, k)
    ensures Decoded(block[k])
  {
    WellFormedAt(p, PathPc(p, entry, k));
    hide WellFormed, PathPc, Paired;
  }

  /** Every finished entry of the cache is code for its own address. */
  ghost predicate GoodEntries(blocks: Blocks, m: Directory) {
    forall a :: a in m ==> m[a] == TRANSLATION_STARTED || CodeFor(blocks, m[a], a)
  }

  ghost predicate Extends(blocks: Blocks, blocks': Blocks) {
    forall l :: l in blocks ==> l in blocks' && blocks'[l] == blocks[l]
  }

  lemma NothingGrown(m: Directory, blocks: Blocks)
    ensures Extends(blocks, blocks)
    ensures Grown(m, m)
  {
  }

  lemma GrownKeeps(m: Directory, m': Directory, a: Word)
    requires Grown(m, m') && a in m
    ensures a in m'
  {
  }

  lemma NotIn(m: Directory, a: Word)
    requires Get(m, a) == UNSEEN && forall b :: b in m ==> m[b] != UNSEEN
    ensures a !in m
  {
  }

  /** Replacing the last scanned slot by its final form. */
  lemma LastSlot(cfg: Config, p: Program, entry: Word, b: seq<Instr>, b': seq<Instr>, n: nat)
    requires WellFormed(p) && 0 < n <= |b| == |b'| && Scanned(cfg, p, entry, b, n - 1) && b'[..n - 1] == b[..n - 1]
    requires b[n - 1] == BlockForm(cfg, p.decode(PathPc(p, entry, n - 1)))
    requires b'[n - 1] == if b[n - 1].mnem == JALR then
                            b[n - 1].(rs2 := if n > 1 && Paired(cfg, b[n - 2], b[n - 1]) then 1 else 0)
                          else b[n - 1]
    ensures Scanned(cfg, p, entry, b'[..n], n - 1) && SlotOf(cfg, p, entry, b'[..n], n - 1)
  {
    hide WellFormed, PathPc, Stops, BlockForm, SlotOf, Paired, Scanned;
    assert b'[..n][..n - 1] == b[..n - 1];
    ScannedSame(cfg, p, entry, b, b'[..n], n - 1);
    if n > 1 { assert b'[..n][n - 2] == b[..n - 1][n - 2]; }
    FinalSlot(cfg, p, entry, b'[..n], n - 1, b[n - 1]);
  }

  lemma FinalSlot(cfg: Config, p: Program, entry: Word, b: seq<Instr>, k: nat, i: Instr)
    requires WellFormed(p) && k < |b| && i == BlockForm(cfg, p.decode(PathPc(p, entry, k)))
    requires b[k] == if i.mnem == JALR then i.(rs2 := if k > 0 && Paired(cfg, b[k - 1], i) then 1 else 0) else i
    ensures SlotOf(cfg, p, entry, b, k)
  {
    WellFormedAt(p, PathPc(p, entry, k));
    hide WellFormed, PathPc;
  }

  lemma GrownVisit(m: Directory, m2: Directory, a: Word, loc: nat)
    requires a !in m && Grown(m[a := TRANSLATION_STARTED], m2) && loc != TRANSLATION_STARTED
    ensures Grown(m, m2[a := loc])
  {
  }

  lemma GrownChain(m0: Directory, m1: Directory, m2: Directory)
    requires Grown(m0, m1) && Grown(m1, m2)
    ensures Grown(m0, m2)
  {
  }

  lemma GoodEntriesSet(blocks: Blocks, m: Directory, a: Word, loc: nat)
    requires GoodEntries(blocks, m) && (loc == TRANSLATION_STARTED || CodeFor(blocks, loc, a))
    ensures GoodEntries(blocks, m[a := loc])
  {
  }

  lemma ExtendsChain(b0: Blocks, b1: Blocks, b2: Blocks)
    requires Extends(b0, b1) && Extends(b1, b2)
    ensures Extends(b0, b2)
  {
  }

  /** Adding a block at the free position. */
  lemma AddBlock(cfg: Config, p: Program, blocks: Blocks, m: Directory, free: nat, b: Block, free': nat)
    requires WellFormed(p) && GoodBlocks(cfg, p, blocks, free) && GoodEntries(blocks, m)
    requires TRANSLATION_STARTED < free < free' && IsBlock(cfg, p, b.entry, b.instrs)
    requires GoodPush(cfg, blocks, b)
    ensures var blocks' := blocks[free := b];
            && Extends(blocks, blocks') && CodeFor(blocks', free, b.entry)
            && GoodBlocks(cfg, p, blocks', free') && GoodEntries(blocks', m)
  {
    hide WellFormed, IsBlock;
  }

  /** The addresses that the last instruction of a block leads to, as far as parsing follows
      calls, have entries: the return address of a call, the target of a JAL, and both addresses
      of a paired JALR. */
  predicate Followed(cfg: Config, m: Directory, prev: Instr, hasPrev: bool, last: Instr) {
    var ret := Add(last.addr, 4);
    && (last.mnem == JALR && cfg.ras && (last.rd == 1 || last.rd == 5) ==> ret in m)
    && (last.mnem == JAL && cfg.jump && (last.rd == 1 || last.rd == 5) ==> ret in m)
    && (last.mnem == JAL && cfg.jump ==> Add(last.addr, last.imm) in m)
    && (last.mnem == JALR && hasPrev && Paired(cfg, prev, last) ==> PairTarget(prev, last) in m && ret in m)
  }

  lemma FollowedNote(cfg: Config, m: Directory, prev: Instr, hasPrev: bool, last: Instr, note: nat)
    requires Followed(cfg, m, prev, hasPrev, last)
    ensures Followed(cfg, m, prev, hasPrev, last.(rs2 := note))
  {
  }

  lemma FollowedCall(cfg: Config, m: Directory, prev: Instr, hasPrev: bool, last: Instr)
    requires Followed(cfg, m, prev, hasPrev, last)
    ensures Pushes(cfg, last) && (cfg.jump || last.mnem == JALR) ==> Add(last.addr, 4) in m
  {
  }

  lemma NoPrev(cfg: Config, m: Directory, prev: Instr, prev': Instr, last: Instr)
    requires Followed(cfg, m, prev, false, last)
    ensures Followed(cfg, m, prev', false, last)
  {
  }

  lemma NothingToFollow(cfg: Config, m: Directory, prev: Instr, hasPrev: bool, last: Instr)
    requires last.mnem !in {JAL, JALR}
    ensures Followed(cfg, m, prev, hasPrev, last)
  {
  }

  /** What the register cache starts as. */
  lemma FirstState(sm: StaticMap)
    ensures var c := Cache([INVALID, INVALID, INVALID], [0, 0, 0], 1);
            Inv(sm, c) && Empty(c)
  {
  }

  class Translator {
    const cfg: Config
    const program: Program
    const fusion: bool
    const plain: BlockTranslation.Plain
    const codeSize: seq<Code> -> nat   // bytes of a block's code, without RET and padding
    const cache: CodeCache
    const r: RegisterInfo
    var blocks: Blocks
    var currentPos: nat
    var failed: bool                   // the encoder refused something

    ghost function Registers(): set<object> { {r, r.content, r.recency} }

    /** Between blocks nothing is cached in the replacement registers. */
    ghost predicate Valid()
      reads this, cache, cache.Repr, Registers()
    {
      && Ready(r) && Empty(r.State()) && PlainFits(r.sm, plain)
      && this !in Registers() && cache !in Registers() && cache.Repr !! Registers()
      && GoodCode(r.sm, plain, fusion, blocks) && (failed <==> !NoneRefused(blocks))
      && WellFormed(program)
      && cache.Valid() && this !in cache.Repr
      && currentPos > TRANSLATION_STARTED
      && GoodBlocks(cfg, program, blocks, currentPos)
      && GoodEntries(blocks, cache.Full)
    }

    constructor (cfg: Config, program: Program, fusion: bool, sm: StaticMap, plain: BlockTranslation.Plain,
                 codeSize: seq<Code> -> nat, base: nat)
      requires WellFormed(program) && base > TRANSLATION_STARTED
      requires IsStaticMap(sm) && Injective(sm) && PlainFits(sm, plain)
      ensures Valid() && fresh(cache) && fresh(cache.Repr) && fresh(Registers())
      ensures this.cfg == cfg && this.program == program && this.fusion == fusion && this.plain == plain && r.sm == sm
      ensures cache.Full == map[] && blocks == map[] && !failed
    {
      this.cfg, this.program, this.fusion, this.plain, this.codeSize := cfg, program, fusion, plain, codeSize;
      cache := new CodeCache();
      r := new RegisterInfo(sm);
      blocks, currentPos, failed := map[], base, false;
      new;
      FirstState(sm);
    }

    /** The loop of parse_block, up to the instruction that ends the block. */
    method ScanBlock(entry: Word, buf: array<Instr>) returns (count: nat, full: bool)
      requires WellFormed(program) && buf.Length == MaxCount(cfg)
      modifies buf
      ensures 0 < count <= buf.Length && Scanned(cfg, program, entry, buf[..], count - 1)
      ensures full ==> count == buf.Length && buf[count - 1].mnem == PC_NEXT_INST && buf[count - 1].optype == PSEUDO
                       && buf[count - 1].imm == NextPc(program.decode(PathPc(program, entry, count - 2)))
      ensures !full ==> var i := program.decode(PathPc(program, entry, count - 1));
                        count < buf.Length && buf[count - 1] == BlockForm(cfg, i) && Stops(cfg, i)
    {
      hide WellFormed, BlockForm, NextPc, Scanned, PathPc, Skip, Stops;
      var maxCount := MaxCount(cfg);
      var pos := 0;
      var pc := entry;
      PathStep(program, entry, 0);
      assert Scanned(cfg, program, entry, buf[..], 0) by { ScannedNone(cfg, program, entry, buf[..]); }
      while pos <= maxCount - 2
        invariant pos <= maxCount - 1
        invariant PathPc(program, entry, pos) == Skip(program, pc)
        invariant pos == maxCount - 1 ==> pc == NextPc(program.decode(PathPc(program, entry, pos - 1)))
        invariant Scanned(cfg, program, entry, buf[..], pos)
        decreases maxCount - pos, program.fences(pc)
      {
        WellFormedAt(program, pc);
        SkipFence(program, pc);
        ghost var b := buf[..];
        var instr := program.decode(pc);
        buf[pos] := instr;
        if IsFence(instr) {
          ScannedSame(cfg, program, entry, b, buf[..], pos);
          pc := Add(pc, 4);
        } else {
          buf[pos] := BlockForm(cfg, instr);
          if Stops(cfg, instr) {
            ScannedSame(cfg, program, entry, b, buf[..], pos);
            return pos + 1, false;
          }
          ScannedStep(cfg, program, entry, b, buf[..], pos);
          PathStep(program, entry, pos);
          pc := NextPc(instr);
          pos := pos + 1;
        }
      }
      ghost var b := buf[..];
      buf[maxCount - 1] := Instr(0, PC_NEXT_INST, PSEUDO, 0, 0, 0, pc);
      ScannedSame(cfg, program, entry, b, buf[..], maxCount - 1);
      return maxCount, true;
    }

    /** parse_block: scans the path and, for a call, first translates what it leads to. */
    method ParseBlock(entry: Word, buf: array<Instr>) returns (count: nat)
      requires Valid() && buf.Length == MaxCount(cfg) && buf !in cache.Repr && buf !in Registers()
      modifies this`blocks, this`currentPos, this`failed, cache.Repr, Registers(), buf
      ensures Valid() && fresh(cache.Repr - old(cache.Repr))
      ensures 0 < count <= buf.Length && IsBlock(cfg, program, entry, buf[..count])
      ensures Extends(old(blocks), blocks) && old(currentPos) <= currentPos
      ensures Grown(old(cache.Full), cache.Full)
      ensures Followed(cfg, cache.Full, if count > 1 then buf[count - 2] else buf[0], count > 1, buf[count - 1])
      ensures buf[count - 1].mnem != JALR && (buf[count - 1].mnem == JAL ==> !cfg.jump) ==>
                cache.Full == old(cache.Full)
      decreases Unseen(cache.Full), 5
    {
      hide WellFormed, IsBlock, GoodBlocks, GoodEntries, Scanned, PathPc, Stops, Grown, Extends, Paired, SlotOf,
           BlockForm, CodeCache.Consistent, GoodCode, NoneRefused, PlainFits, Ready, Empty, Followed;
      var full;
      count, full := ScanBlock(entry, buf);
      ghost var b := buf[..];
      if full {
        NothingGrown(cache.Full, blocks);
        NothingToFollow(cfg, cache.Full, buf[count - 2], true, buf[count - 1]);
        assert buf[..count] == buf[..];
        FullBlock(cfg, program, entry, buf[..count]);
      } else {
        var prev := if count > 1 then buf[count - 2] else buf[0];
        WellFormedAt(program, PathPc(program, entry, count - 1));
        var last := FollowCalls(buf[count - 1], prev, count > 1);
        FollowedNote(cfg, cache.Full, prev, count > 1, buf[count - 1], last.rs2);
        buf[count - 1] := last;
        if count == 1 { NoPrev(cfg, cache.Full, prev, buf[0], last); }
        LastSlot(cfg, program, entry, b, buf[..], count);
        ScannedBlock(cfg, program, entry, buf[..count]);
      }
    }

    /** The recursion of parse_block at the last instruction of a block: the targets of calls
        and the addresses they return to.  A JALR gets a note whether its target is known. */
    method FollowCalls(last: Instr, prev: Instr, hasPrev: bool) returns (last': Instr)
      requires Valid()
      modifies this`blocks, this`currentPos, this`failed, cache.Repr, Registers()
      ensures Valid() && fresh(cache.Repr - old(cache.Repr))
      ensures Extends(old(blocks), blocks) && old(currentPos) <= currentPos
      ensures Grown(old(cache.Full), cache.Full)
      ensures last' == if last.mnem == JALR then last.(rs2 := if hasPrev && Paired(cfg, prev, last) then 1 else 0)
                       else last
      ensures Followed(cfg, cache.Full, prev, hasPrev, last)
      ensures last.mnem != JALR && (last.mnem == JAL ==> !cfg.jump) ==> cache.Full == old(cache.Full)
      decreases Unseen(cache.Full), 4
    {
      hide WellFormed, GoodBlocks, GoodEntries, Extends, Grown, Paired, Probing, Represents, Count, IsPow2, GoodCode,
           NoneRefused, PlainFits, Ready, Empty;
      last' := last;
      var ret := Add(last.addr, 4);
      if last.mnem == JAL && cfg.jump {
        var target := Add(last.addr, last.imm);
        if IsLink(last.rd) {
          VisitTwo(target, ret);
        } else {
          VisitTarget(target);
        }
      } else if last.mnem == JALR {
        last' := FollowJalr(last, prev, hasPrev);
      } else {
        NothingGrown(cache.Full, blocks);
      }
    }

    method FollowJalr(last: Instr, prev: Instr, hasPrev: bool) returns (last': Instr)
      requires Valid()
      modifies this`blocks, this`currentPos, this`failed, cache.Repr, Registers()
      ensures Valid() && fresh(cache.Repr - old(cache.Repr))
      ensures Extends(old(blocks), blocks) && old(currentPos) <= currentPos
      ensures Grown(old(cache.Full), cache.Full)
      ensures last' == last.(rs2 := if hasPrev && Paired(cfg, prev, last) then 1 else 0)
      ensures cfg.ras && IsLink(last.rd) ==> Add(last.addr, 4) in cache.Full
      ensures hasPrev && Paired(cfg, prev, last) ==>
                PairTarget(prev, last) in cache.Full && Add(last.addr, 4) in cache.Full
      decreases Unseen(cache.Full), 3
    {
      hide WellFormed, GoodBlocks, GoodEntries, Extends, Grown, Paired, Probing, Represents, Count, IsPow2, GoodCode,
           NoneRefused, PlainFits, Ready, Empty;
      var ret := Add(last.addr, 4);
      NothingGrown(cache.Full, blocks);
      if cfg.ras && IsLink(last.rd) {
        VisitTarget(ret);
      }
      GrownUnseen(old(cache.Full), cache.Full);
      last' := last.(rs2 := 0);
      if hasPrev && Paired(cfg, prev, last) {
        ghost var m, b := cache.Full, blocks;
        VisitTwo(ret, PairTarget(prev, last));
        GrownChain(old(cache.Full), m, cache.Full);
        ExtendsChain(old(blocks), b, blocks);
        last' := last.(rs2 := 1);
      }
    }

    method VisitTwo(target1: Word, target2: Word)
      requires Valid()
      modifies this`blocks, this`currentPos, this`failed, cache.Repr, Registers()
      ensures Valid() && fresh(cache.Repr - old(cache.Repr))
      ensures Extends(old(blocks), blocks) && old(currentPos) <= currentPos
      ensures Grown(old(cache.Full), cache.Full) && target1 in cache.Full && target2 in cache.Full
      decreases Unseen(cache.Full), 2
    {
      hide WellFormed, GoodBlocks, GoodEntries, Extends, Probing, Represents, Count, IsPow2, GoodCode,
           NoneRefused, PlainFits, Ready, Empty;
      VisitTarget(target1);
      ghost var m, b := cache.Full, blocks;
      VisitTarget(target2);
      GrownChain(old(cache.Full), m, cache.Full);
      GrownKeeps(m, cache.Full, target1);
      ExtendsChain(old(blocks), b, blocks);
    }

    /** One recursive step: translate an address that has no entry, marking it first. */
    method VisitTarget(target: Word)
      requires Valid()
      modifies this`blocks, this`currentPos, this`failed, cache.Repr, Registers()
      ensures Valid() && fresh(cache.Repr - old(cache.Repr))
      ensures Extends(old(blocks), blocks) && old(currentPos) <= currentPos
      ensures Grown(old(cache.Full), cache.Full) && target in cache.Full
      decreases Unseen(cache.Full), 1
    {
      hide WellFormed, GoodBlocks, GoodEntries, Extends, Grown, Probing, Represents, Count, IsPow2, GoodCode,
           NoneRefused, PlainFits, Ready, Empty;
      NothingGrown(cache.Full, blocks);
      var loc := cache.LookupCacheEntry(target);
      if loc == UNSEEN {
        NotIn(cache.Full, target);
        TranslateTarget(target);
      }
    }

    /** Mark, translate, enter. */
    method TranslateTarget(target: Word)
      requires Valid() && target !in cache.Full
      modifies this`blocks, this`currentPos, this`failed, cache.Repr, Registers()
      ensures Valid() && fresh(cache.Repr - old(cache.Repr))
      ensures Extends(old(blocks), blocks) && old(currentPos) <= currentPos
      ensures Grown(old(cache.Full), cache.Full) && target in cache.Full
      decreases Unseen(cache.Full), 0
    {
      hide WellFormed, GoodBlocks, GoodEntries, Extends, Grown, GoodCode, NoneRefused, PlainFits, Ready, Empty,
           CodeCache.Consistent, IsWord, Unseen, SmallHash, Followed, PushRight;
      ghost var m := cache.Full;
      GoodEntriesSet(blocks, m, target, TRANSLATION_STARTED);
      cache.SetCacheEntry(target, TRANSLATION_STARTED);
      UnseenShrinks(m, cache.Full, target);
      var loc := TranslateBlock(target);
      ghost var m2 := cache.Full;
      GoodEntriesSet(blocks, m2, target, loc);
      LocBound(loc);
      cache.SetCacheEntry(target, loc);
      GrownVisit(m, m2, target, loc);
    }

    lemma NoNullCode(a: Word)
      requires Valid()
      ensures !CodeFor(blocks, UNSEEN, a)
    {
    }

    lemma LocBound(loc: nat)
      requires Valid() && loc in blocks
      ensures loc > TRANSLATION_STARTED
    {
    }

    /** translate_block */
    method TranslateBlock(entry: Word) returns (loc: nat)
      requires Valid()
      modifies this`blocks, this`currentPos, this`failed, cache.Repr, Registers()
      ensures Valid() && fresh(cache.Repr - old(cache.Repr))
      ensures Extends(old(blocks), blocks) && old(currentPos) <= currentPos
      ensures Grown(old(cache.Full), cache.Full)
      ensures CodeFor(blocks, loc, entry)
      ensures var b := blocks[loc];
              |b.instrs| > 0
              && var n := |b.instrs|;
                 var last := b.instrs[n - 1];
                 && PushRight(cfg, last, cache.Full, b.push)
                 && Followed(cfg, cache.Full, if n > 1 then b.instrs[n - 2] else b.instrs[0], n > 1, last)
                 && (IsNull(b.push) <==> Pushes(cfg, last) && ReturnUnknown(cfg, last, old(cache.Full)))
                 && (last.mnem != JALR && (last.mnem == JAL ==> !cfg.jump) ==> cache.Full == old(cache.Full))
      ensures Started(cache.Full) == Started(old(cache.Full))
      decreases Unseen(cache.Full), 6
    {
      hide WellFormed, IsBlock, GoodBlocks, GoodEntries, Grown, Extends, Probing, Represents, Count, IsPow2, GoodCode,
           NoneRefused, PlainFits, Ready, Empty;
      var buf := new Instr[MaxCount(cfg)](i => Instr(0, INVALID_MNEM, PSEUDO, 0, 0, 0, 0));
      var count := ParseBlock(entry, buf);
      FollowedCall(cfg, cache.Full, if count > 1 then buf[count - 2] else buf[0], count > 1, buf[count - 1]);
      ghost var b := blocks;
      loc := TranslateBlockInstructions(entry, buf, count);
      ExtendsChain(old(blocks), b, blocks);
      GrownStarted(old(cache.Full), cache.Full);
    }

    /** translate_block_instructions: generates the code at the current position. */
    method TranslateBlockInstructions(entry: Word, buf: array<Instr>, count: nat) returns (loc: nat)
      requires Valid() && 0 < count <= buf.Length && IsBlock(cfg, program, entry, buf[..count])
      requires buf !in cache.Repr && buf !in Registers()
      requires var last := buf[count - 1];
               Pushes(cfg, last) && (cfg.jump || last.mnem == JALR) ==> Add(last.addr, 4) in cache.Full
      modifies this`blocks, this`currentPos, this`failed, cache.tlb, Registers(), buf
      ensures Valid() && cache.Repr == old(cache.Repr) && cache.Full == old(cache.Full)
      ensures Extends(old(blocks), blocks) && old(currentPos) <= currentPos
      ensures CodeFor(blocks, loc, entry) && blocks[loc].instrs == old(buf[..count])
      ensures PushRight(cfg, old(buf[count - 1]), cache.Full, blocks[loc].push)
    {
      hide WellFormed, IsBlock, GoodBlocks, GoodEntries, GoodCode, GoodPair, NoneRefused, PlainFits, Ready, Empty,
           Extends, Probing, Represents, Count, IsPow2, Pushes, BlockTranslation.Generated, IsWord;
      loc := currentPos;
      var instrs := buf[..count];
      var push := PushOf(instrs[count - 1]);
      var marked, code := Generate(entry, buf, count);
      Finish(Block(entry, instrs, push, marked, code));
    }

    /** The pair that a call pushes: its return address and where that was translated to. */
    method PushOf(last: Instr) returns (push: Push)
      requires Valid()
      requires Pushes(cfg, last) && (cfg.jump || last.mnem == JALR) ==> Add(last.addr, 4) in cache.Full
      modifies cache.tlb
      ensures Valid() && cache.Repr == old(cache.Repr) && cache.Full == old(cache.Full)
      ensures PushRight(cfg, last, cache.Full, push)
      ensures push.PushPair? ==> Pushes(cfg, last) && GoodPair(cfg, blocks, push.pair)
    {
      hide WellFormed, GoodBlocks, GoodCode, NoneRefused, PlainFits, Ready, Empty, Probing, Represents, Count, IsPow2;
      push := NoPush;
      if Pushes(cfg, last) {
        var ret := Add(last.addr, 4);
        var target := cache.LookupCacheEntry(ret);
        push := EmittedPush(ret, target);
      }
    }

    /** finalize_block: RET, then padding to the next multiple of 16. */
    method Finish(b: Block)
      requires Valid() && IsBlock(cfg, program, b.entry, b.instrs) && GoodPush(cfg, blocks, b)
      requires BlockTranslation.Generated(r.sm, plain, fusion, b.instrs, b.marked, b.code)
      modifies this`blocks, this`currentPos, this`failed
      ensures Valid() && Extends(old(blocks), blocks) && old(currentPos) <= currentPos
      ensures CodeFor(blocks, old(currentPos), b.entry) && blocks == old(blocks)[old(currentPos) := b]
      ensures currentPos % 16 == 0
      ensures var end := old(currentPos) + codeSize(b.code) + 1;
              end <= currentPos < end + 16
    {
      hide WellFormed, IsBlock, GoodBlocks, GoodEntries, GoodCode, NoneRefused, PlainFits, Ready, Empty, GoodPush,
           Probing, Represents, Count, IsPow2, BlockTranslation.Generated;
      var loc := currentPos;
      var end := loc + codeSize(b.code) + 1;
      ghost var bs := blocks;
      currentPos := end + (16 - end % 16) % 16;
      AddBlock(cfg, program, bs, cache.Full, loc, b, currentPos);
      FreePosition(cfg, program, bs, loc);
      AddCode(r.sm, plain, fusion, bs, loc, b);
      blocks := blocks[loc := b];
      failed := failed || !AllEncodable(b.code);
    }

    /** The code of a block; `failed` is left to the caller. */
    method Generate(entry: Word, buf: array<Instr>, count: nat) returns (marked: seq<Instr>, code: seq<Code>)
      requires Ready(r) && Empty(r.State()) && PlainFits(r.sm, plain) && WellFormed(program)
      requires count <= buf.Length && IsBlock(cfg, program, entry, buf[..count]) && buf !in Registers()
      modifies Registers(), buf
      ensures Ready(r) && Empty(r.State())
      ensures BlockTranslation.Generated(r.sm, plain, fusion, old(buf[..count]), marked, code)
    {
      hide WellFormed, IsBlock, PlainFits, Inv, IsStaticMap, Injective, Parsed, Marked, Exhausted;
      ghost var instrs := buf[..count];
      ghost var c := r.State();
      var start := |r.code|;
      BlockParsed(cfg, program, entry, instrs);
      PlainFitsBlock(r.sm, plain, instrs);
      var ok;
      ghost var other: Other := (i: Instr, g: State) => g;
      ok, marked := BlockTranslation.TranslateBlockInstructions(r, buf, count, fusion, plain, other);
      code := r.code[start..];
      BlockTranslation.BlockInv(r.sm, plain, instrs, BlockTranslation.Pieces(marked, 0), count, c);
    }
  }
}
