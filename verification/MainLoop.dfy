/** The main loop: look up, translate, execute.  A return that hits in the return ring jumps to
    the next block without passing through the loop. */
module MainLoop {
  import opened Words
  import opened Riscv
  import opened GuestPath
  import opened CodeCache
  import opened ReturnStack
  import opened Translate
  import opened RegisterCache
  import opened Emitters
  import opened Exits
  import opened Simulation

  /** What translate_JALR does with the return ring before it leaves the block. */
  predicate Returns(cfg: Config, last: Instr) {
    cfg.ras && last.mnem == JALR && IsLink(last.rs1) && last.rd != last.rs1
  }

  /** What an instruction asks of a return-address stack (RISC-V Unprivileged ISA, section 2.5.1,
      table 2.1). */
  datatype Hint = NoHint | PopHint | PushHint | PopThenPush

  function HintOf(i: Instr): Hint {
    var rd, rs1 := i.rd == 1 || i.rd == 5, i.rs1 == 1 || i.rs1 == 5;
    match i.mnem
    case JAL => if rd then PushHint else NoHint
    case JALR =>
      if rd && rs1 && i.rd != i.rs1 then PopThenPush
      else if rd then PushHint
      else if rs1 then PopHint
      else NoHint
    case _ => NoHint
  }

  /** The translators push and pop as these hints say, if the option is on. */
  lemma HintsFollowed(cfg: Config, i: Instr)
    ensures Pushes(cfg, i) <==> cfg.ras && HintOf(i) in {PushHint, PopThenPush}
    ensures Returns(cfg, i) <==> cfg.ras && HintOf(i) in {PopHint, PopThenPush}
  {
  }

  /** Where a block goes when it ends. */
  datatype Exit = ToLoop | Jump(loc: nat)

  datatype Ended = Ended(ring: Ring, exit: Exit)

  /** The end of a block that ends in `last` and pushes `push`, when the guest program goes on at
      `next`: a return pops if the newest pair is for its target, and then jumps; one that is
      also a call does so after its push, and not through null. */
  function EndOf(cfg: Config, last: Instr, push: Push, r: Ring, next: Word): Ended {
    var hint := HintOf(last);
    var hit := cfg.ras && hint in {PopHint, PopThenPush} && r[0].addr == next;
    var r1 := if hit then Popped(r) else r;
    Ended(if push.PushPair? then Pushed(r1, push.pair) else r1,
          if hit && (hint == PopHint || r[0].x86 != UNSEEN) then Jump(r[0].x86) else ToLoop)
  }

  function LastOf(b: Block): Instr {
    if b.instrs == [] then Instr(0, INVALID_MNEM, PSEUDO, 0, 0, 0, 0) else b.instrs[|b.instrs| - 1]
  }

  /** An entry of the ring that was never written, or one that is safe to return through. */
  predicate SafeEntry(cfg: Config, blocks: Blocks, e: RsEntry) {
    e == RsEntry(0, UNSEEN) || GoodPair(cfg, blocks, e)
  }

  ghost predicate SafeRing(cfg: Config, blocks: Blocks, r: Ring) {
    forall k :: 0 <= k < ENTRIES ==> SafeEntry(cfg, blocks, r[k])
  }

  lemma SafeExtends(cfg: Config, blocks: Blocks, blocks': Blocks, r: Ring)
    requires SafeRing(cfg, blocks, r) && Extends(blocks, blocks')
    ensures SafeRing(cfg, blocks', r)
  {
  }

  lemma SafePush(cfg: Config, p: Program, blocks: Blocks, free: nat, loc: nat, r: Ring)
    requires WellFormed(p) && GoodBlocks(cfg, p, blocks, free) && loc in blocks && SafeRing(cfg, blocks, r)
    ensures GoodPush(cfg, blocks, blocks[loc])
    ensures blocks[loc].push.PushPair? ==> SafeRing(cfg, blocks, Pushed(r, blocks[loc].push.pair))
  {
    hide WellFormed, IsBlock, CodeFor;
  }

  lemma SafePop(cfg: Config, blocks: Blocks, r: Ring, target: Word)
    requires SafeRing(cfg, blocks, r)
    ensures SafeRing(cfg, blocks, AfterPop(r, target)) && SafeEntry(cfg, blocks, r[0])
  {
    hide CodeFor, GoodPair;
  }

  /** The jumps that are not to code: through a pair whose location is null.  Only a return to
      address 0, or call following switched off, can lead to one. */
  predicate NullPossible(cfg: Config, target: Word) { target == 0 || (cfg.ras && !cfg.jump) }

  /** The ring shares no memory with the translator. */
  ghost predicate Apart(t: Translator, ring: ReturnRing)
    reads t, t.cache, ring
  {
    {ring, ring.entries} !! t.cache.Repr && {ring, ring.entries} !! t.Registers()
  }

  /** Between two blocks. */
  ghost predicate Between(t: Translator, ring: ReturnRing)
    reads t, t.cache, t.cache.Repr, t.Registers(), ring, ring.entries
  {
    && t.Valid() && Started(t.cache.Full) == {} && ring.Valid() && Apart(t, ring)
    && SafeRing(t.cfg, t.blocks, ring.Contents())
  }

  /** The end of block `loc`, when the guest program goes on at `next`. */
  method Execute(t: Translator, ring: ReturnRing, loc: nat, next: Word) returns (exit: Exit)
    requires t.Valid() && ring.Valid() && loc in t.blocks
    requires SafeRing(t.cfg, t.blocks, ring.Contents())
    modifies ring`front, ring.entries
    ensures ring.Valid() && SafeRing(t.cfg, t.blocks, ring.Contents())
    ensures var b := t.blocks[loc];
            Ended(ring.Contents(), exit) == EndOf(t.cfg, LastOf(b), b.push, old(ring.Contents()), next)
    ensures exit.Jump? ==>
              CodeFor(t.blocks, exit.loc, next) || (exit.loc == UNSEEN && NullPossible(t.cfg, next))
  {
    hide WellFormed, IsBlock, GoodBlocks, GoodEntries, SafeRing, RingOf, CodeFor, Probing, Represents, Count, IsPow2,
         GoodCode, NoneRefused, PlainFits, Ready, Empty;
    SafePop(t.cfg, t.blocks, ring.Contents(), next);
    SafePush(t.cfg, t.program, t.blocks, t.currentPos, loc, ring.Contents());
    var b := t.blocks[loc];
    var last := b.instrs[|b.instrs| - 1];
    HintsFollowed(t.cfg, last);
    var saved := UNSEEN;
    if Returns(t.cfg, last) {
      var hit, cx := ring.Pop(next);
      if hit && !IsLink(last.rd) { return Jump(cx); }
      saved := if hit then cx else UNSEEN;
    }
    SafePush(t.cfg, t.program, t.blocks, t.currentPos, loc, ring.Contents());
    if b.push.PushPair? {
      ring.Push(b.push.pair.addr, b.push.pair.x86);
    }
    exit := if saved != UNSEEN then Jump(saved) else ToLoop;
  }

  /** The pair that block `loc`, generated now, pushes: it lacks a location exactly if its return
      address had not been translated. */
  predicate PushesKnown(cfg: Config, blocks: Blocks, loc: nat, m: Directory) {
    loc in blocks
    && var b := blocks[loc];
       && b.instrs != []
       && (IsNull(b.push) <==> Pushes(cfg, LastOf(b)) && ReturnUnknown(cfg, LastOf(b), m))
       && (b.push.PushPair? ==> b.push.pair.addr == Add(LastOf(b).addr, 4))
  }

  /** The pair that it pushes otherwise: its return address with the location in m, unless this is
      the address that the block itself was generated for. */
  predicate PushesEntry(cfg: Config, blocks: Blocks, loc: nat, m: Directory) {
    loc in blocks
    && var b := blocks[loc];
       var ret := Add(LastOf(b).addr, 4);
       cfg.ras && HintOf(LastOf(b)) in {PushHint, PopThenPush} && ret in m && ret != b.entry
       ==> b.push == PushPair(RsEntry(ret, m[ret]))
  }

  predicate EndsInUnfollowedCall(cfg: Config, blocks: Blocks, loc: nat) {
    loc in blocks
    && var b := blocks[loc];
       |b.instrs| > 0 && b.instrs[|b.instrs| - 1].mnem == JAL && !cfg.jump
  }

  /** The loop body's first half: the location of the code for `pc`, translating it if the
      cache does not know it. */
  method Locate(t: Translator, pc: Word) returns (loc: nat)
    requires t.Valid() && Started(t.cache.Full) == {}
    modifies t`blocks, t`currentPos, t`failed, t.cache.Repr, t.Registers()
    ensures t.Valid() && fresh(t.cache.Repr - old(t.cache.Repr))
    ensures Started(t.cache.Full) == {} && Extends(old(t.blocks), t.blocks)
    ensures loc > TRANSLATION_STARTED && CodeFor(t.blocks, loc, pc)
    ensures pc in t.cache.Full && t.cache.Full[pc] == loc
    ensures pc in old(t.cache.Full) ==> t.cache.Full == old(t.cache.Full) && t.blocks == old(t.blocks)
    ensures pc !in old(t.cache.Full) ==>
              PushesKnown(t.cfg, t.blocks, loc, old(t.cache.Full))
              && PushesEntry(t.cfg, t.blocks, loc, t.cache.Full)
              && (EndsInUnfollowedCall(t.cfg, t.blocks, loc) ==> t.cache.Full == old(t.cache.Full)[pc := loc])
  {
    hide WellFormed, IsBlock, GoodBlocks, GoodEntries, Extends, Grown, CodeFor, Started, Probing, Represents, Count,
         IsPow2, GoodCode, NoneRefused, PlainFits, Ready, Empty, PushesKnown, EndsInUnfollowedCall, PushesEntry;
    NothingGrown(t.cache.Full, t.blocks);
    loc := t.cache.LookupCacheEntry(pc);
    if loc == UNSEEN {
      NotIn(t.cache.Full, pc);
      loc := LocateNew(t, pc);
    } else {
      NotStarted(t.blocks, t.cache.Full, pc);
      InBlocks(t.blocks, loc, pc);
      t.LocBound(loc);
    }
  }

  method LocateNew(t: Translator, pc: Word) returns (loc: nat)
    requires t.Valid() && Started(t.cache.Full) == {} && pc !in t.cache.Full
    modifies t`blocks, t`currentPos, t`failed, t.cache.Repr, t.Registers()
    ensures t.Valid() && fresh(t.cache.Repr - old(t.cache.Repr))
    ensures Started(t.cache.Full) == {} && Extends(old(t.blocks), t.blocks)
    ensures loc > TRANSLATION_STARTED && CodeFor(t.blocks, loc, pc)
    ensures pc in t.cache.Full && t.cache.Full[pc] == loc
    ensures PushesEntry(t.cfg, t.blocks, loc, t.cache.Full)
    ensures PushesKnown(t.cfg, t.blocks, loc, old(t.cache.Full))
    ensures EndsInUnfollowedCall(t.cfg, t.blocks, loc) ==> t.cache.Full == old(t.cache.Full)[pc := loc]
  {
    hide WellFormed, IsBlock, GoodBlocks, GoodEntries, Extends, Grown, CodeFor, Started, CodeCache.Consistent, GoodCode,
         NoneRefused, PlainFits, Ready, Empty, Followed;
    loc := t.TranslateBlock(pc);
    InBlocks(t.blocks, loc, pc);
    HintsFollowed(t.cfg, LastOf(t.blocks[loc]));
    NoneStarted(t.cache.Full);
    t.LocBound(loc);
    GoodEntriesSet(t.blocks, t.cache.Full, pc, loc);
    StartedSet(t.cache.Full, pc, loc);
    t.cache.SetCacheEntry(pc, loc);
  }

  lemma NoneStarted(m: Directory)
    requires Started(m) == {}
    ensures forall a :: a in m ==> m[a] != TRANSLATION_STARTED
  {
    assert forall b :: b in m && m[b] == TRANSLATION_STARTED ==> b in Started(m);
  }

  lemma InBlocks(blocks: Blocks, loc: nat, a: Word)
    requires CodeFor(blocks, loc, a)
    ensures loc in blocks && blocks[loc].entry == a
  {
  }

  lemma StartedSet(m: Directory, a: Word, loc: nat)
    requires Started(m) == {} && loc != TRANSLATION_STARTED
    ensures Started(m[a := loc]) == {}
  {
    assert forall b :: b in m && m[b] == TRANSLATION_STARTED ==> b in Started(m);
  }

  lemma NotStarted(blocks: Blocks, m: Directory, a: Word)
    requires Started(m) == {} && GoodEntries(blocks, m) && Get(m, a) != UNSEEN
    ensures Get(m, a) != TRANSLATION_STARTED && CodeFor(blocks, m[a], a)
  {
    assert forall b :: b in m && m[b] == TRANSLATION_STARTED ==> b in Started(m);
  }

  lemma CodeStays(blocks: Blocks, blocks': Blocks, locs: seq<nat>, path: seq<Word>)
    requires Extends(blocks, blocks') && |locs| <= |path|
    requires forall k :: 0 <= k < |locs| ==> CodeFor(blocks, locs[k], path[k])
    ensures forall k :: 0 <= k < |locs| ==> CodeFor(blocks', locs[k], path[k])
  {
  }

  /** How a block ends that was run. */
  function EndOfBlock(cfg: Config, blocks: Blocks, loc: nat, r: Ring, next: Word): Ended
    requires loc in blocks
  {
    EndOf(cfg, LastOf(blocks[loc]), blocks[loc].push, r, next)
  }

  /** Blocks run one after the other: locs[k] is code for path[k], rings[k] is what the ring holds
      when it starts, and when it ends by a jump, this leads to locs[k + 1]. */
  ghost predicate Trace(cfg: Config, blocks: Blocks, path: seq<Word>, locs: seq<nat>, rings: seq<Ring>) {
    && |locs| <= |path| && 0 < |rings| <= |locs| + 1 && |rings| <= |path| + 1
    && (forall k :: 0 <= k < |locs| ==> CodeFor(blocks, locs[k], path[k]))
    && (forall k :: 0 <= k < |rings| - 1 ==> TraceStep(cfg, blocks, path, locs, rings, k))
  }

  ghost predicate TraceStep(cfg: Config, blocks: Blocks, path: seq<Word>, locs: seq<nat>, rings: seq<Ring>, k: nat)
    requires k + 1 < |rings|
  {
    && k < |locs| && locs[k] in blocks && k + 1 < |path|
    && var end := EndOfBlock(cfg, blocks, locs[k], rings[k], path[k + 1]);
       && rings[k + 1] == end.ring
       && (end.exit.Jump? && k + 1 < |locs| ==> locs[k + 1] == end.exit.loc)
  }

  lemma TraceExtends(cfg: Config, blocks: Blocks, blocks': Blocks, path: seq<Word>, locs: seq<nat>, rings: seq<Ring>)
    requires Extends(blocks, blocks') && Trace(cfg, blocks, path, locs, rings)
    ensures Trace(cfg, blocks', path, locs, rings)
  {
    hide EndOf, LastOf;
    forall k | 0 <= k < |rings| - 1 ensures TraceStep(cfg, blocks', path, locs, rings, k) {
      assert TraceStep(cfg, blocks, path, locs, rings, k);
    }
  }

  lemma TraceStart(cfg: Config, blocks: Blocks, path: seq<Word>, r: Ring)
    ensures Trace(cfg, blocks, path, [], [r])
  {
  }

  /** A run whose last block, if any, has ended in `exit`, leaving r in the ring. */
  ghost predicate Underway(cfg: Config, blocks: Blocks, path: seq<Word>, locs: seq<nat>, rings: seq<Ring>, exit: Exit,
                           r: Ring) {
    var n := |locs|;
    && Trace(cfg, blocks, path, locs, rings) && n < |path| && |rings| == n + 1 && rings[n] == r
    && (if n == 0 then exit == ToLoop
        else locs[n - 1] in blocks && exit == EndOfBlock(cfg, blocks, locs[n - 1], rings[n - 1], path[n]).exit)
    && (exit.Jump? ==> CodeFor(blocks, exit.loc, path[n]) || (exit.loc == UNSEEN && NullPossible(cfg, path[n])))
  }

  lemma UnderwayStart(cfg: Config, blocks: Blocks, path: seq<Word>, r: Ring)
    ensures Trace(cfg, blocks, path, [], [r])
    ensures path != [] ==> Underway(cfg, blocks, path, [], [r], ToLoop, r)
  {
  }

  lemma UnderwayExtends(cfg: Config, blocks: Blocks, blocks': Blocks, path: seq<Word>, locs: seq<nat>, rings: seq<Ring>,
                        exit: Exit, r: Ring)
    requires Extends(blocks, blocks') && Underway(cfg, blocks, path, locs, rings, exit, r)
    ensures Underway(cfg, blocks', path, locs, rings, exit, r)
  {
    hide EndOf, LastOf, Trace, NullPossible;
    TraceExtends(cfg, blocks, blocks', path, locs, rings);
  }

  /** The next block starts. */
  lemma Enter(cfg: Config, blocks: Blocks, path: seq<Word>, locs: seq<nat>, rings: seq<Ring>, exit: Exit, r: Ring,
              loc: nat)
    requires Underway(cfg, blocks, path, locs, rings, exit, r) && CodeFor(blocks, loc, path[|locs|])
    requires exit.Jump? ==> exit.loc == loc
    ensures Trace(cfg, blocks, path, locs + [loc], rings)
  {
    hide EndOfBlock, CodeFor, NullPossible;
    forall k | 0 <= k < |rings| - 1 ensures TraceStep(cfg, blocks, path, locs + [loc], rings, k) {
      assert TraceStep(cfg, blocks, path, locs, rings, k);
      assert (locs + [loc])[k] == locs[k];
    }
  }

  /** The block that started ends. */
  lemma Leave(cfg: Config, blocks: Blocks, path: seq<Word>, locs: seq<nat>, rings: seq<Ring>, exit: Exit, r: Ring)
    requires Trace(cfg, blocks, path, locs, rings) && |rings| == |locs| && locs[|locs| - 1] in blocks && |locs| < |path|
    requires Ended(r, exit) == EndOfBlock(cfg, blocks, locs[|locs| - 1], rings[|locs| - 1], path[|locs|])
    requires exit.Jump? ==>
               CodeFor(blocks, exit.loc, path[|locs|]) || (exit.loc == UNSEEN && NullPossible(cfg, path[|locs|]))
    ensures Underway(cfg, blocks, path, locs, rings + [r], exit, r)
  {
    hide EndOfBlock, CodeFor, NullPossible;
    var rings' := rings + [r];
    forall k | 0 <= k < |rings'| - 1 ensures TraceStep(cfg, blocks, path, locs, rings', k) {
      if k < |rings| - 1 { assert TraceStep(cfg, blocks, path, locs, rings, k); }
    }
  }

  /** The first half of the loop body; what was run before stays as it was. */
  method LocateNext(t: Translator, ring: ReturnRing, ghost path: seq<Word>, ghost locs: seq<nat>,
                    ghost rings: seq<Ring>, exit: Exit, pc: Word) returns (loc: nat)
    requires Between(t, ring) && Underway(t.cfg, t.blocks, path, locs, rings, exit, ring.Contents())
    requires pc == path[|locs|]
    modifies t`blocks, t`currentPos, t`failed, t.cache.Repr, t.Registers()
    ensures Between(t, ring) && fresh(t.cache.Repr - old(t.cache.Repr)) && Extends(old(t.blocks), t.blocks)
    ensures Underway(t.cfg, t.blocks, path, locs, rings, exit, ring.Contents())
    ensures if exit.Jump? then loc == exit.loc else CodeFor(t.blocks, loc, pc)
  {
    hide GoodBlocks, GoodEntries, Extends, Started, SafeRing, RingOf, CodeCache.Consistent, GoodCode, NoneRefused,
         PlainFits, Ready, Empty, Underway, PushesEntry, PushesKnown, EndsInUnfollowedCall, WellFormed;
    ghost var b := t.blocks;
    NothingGrown(t.cache.Full, b);
    if exit.ToLoop? {
      loc := Locate(t, pc);
      UnderwayExtends(t.cfg, b, t.blocks, path, locs, rings, exit, ring.Contents());
      SafeExtends(t.cfg, b, t.blocks, ring.Contents());
    } else {
      loc := exit.loc;
    }
  }

  /** A run of the guest program that enters its blocks at the addresses of `path`, through
      the loop or through the return ring.  Every block run is code generated for the address
      where the guest program is.  The run ends early only where the encoder has refused
      something, or with a return through a null location. */
  method Transcode(t: Translator, ring: ReturnRing, path: seq<Word>) returns (locs: seq<nat>, ghost rings: seq<Ring>)
    requires t.Valid() && Started(t.cache.Full) == {}
    requires ring.Valid() && SafeRing(t.cfg, t.blocks, ring.Contents())
    requires Apart(t, ring)
    modifies t`blocks, t`currentPos, t`failed, t.cache.Repr, t.Registers(), ring`front, ring.entries
    ensures t.Valid() && Started(t.cache.Full) == {} && Extends(old(t.blocks), t.blocks)
    ensures ring.Valid() && SafeRing(t.cfg, t.blocks, ring.Contents())
    ensures Trace(t.cfg, t.blocks, path, locs, rings)
    ensures rings[0] == old(ring.Contents()) && rings[|rings| - 1] == ring.Contents()
    ensures |rings| == if |locs| < |path| || path == [] then |locs| + 1 else |path|
    ensures |locs| < |path| ==>
              !NoneRefused(t.blocks)
              || (NullPossible(t.cfg, path[|locs|]) && |locs| > 0 && |rings| == |locs| + 1
                  && EndOfBlock(t.cfg, t.blocks, locs[|locs| - 1], rings[|locs| - 1], path[|locs|]).exit
                     == Jump(UNSEEN))
  {
    hide WellFormed, IsBlock, GoodBlocks, GoodEntries, Extends, Grown, CodeFor, Started, SafeRing, RingOf, EndOf,
         LastOf, CodeCache.Consistent, NullPossible, GoodCode, NoneRefused, PlainFits, Ready, Empty, Trace, TraceStep;
    locs, rings := [], [ring.Contents()];
    var exit := ToLoop;
    NothingGrown(t.cache.Full, t.blocks);
    UnderwayStart(t.cfg, t.blocks, path, ring.Contents());
    while |locs| < |path|
      invariant Between(t, ring) && Extends(old(t.blocks), t.blocks) && fresh(t.cache.Repr - old(t.cache.Repr))
      invariant |locs| < |path| ==> Underway(t.cfg, t.blocks, path, locs, rings, exit, ring.Contents())
      invariant |locs| <= |path| && Trace(t.cfg, t.blocks, path, locs, rings)
      invariant |rings| == if |locs| < |path| || path == [] then |locs| + 1 else |path|
      invariant |rings| > 0 && rings[0] == old(ring.Contents()) && rings[|rings| - 1] == ring.Contents()
    {
      ghost var b := t.blocks;
      var loc := LocateNext(t, ring, path, locs, rings, exit, path[|locs|]);
      ExtendsChain(old(t.blocks), b, t.blocks);
      t.NoNullCode(path[|locs|]);
      if t.failed || loc == UNSEEN { break; }
      InBlocks(t.blocks, loc, path[|locs|]);
      Enter(t.cfg, t.blocks, path, locs, rings, exit, ring.Contents(), loc);
      locs := locs + [loc];
      if |locs| < |path| {
        ghost var r := ring.Contents();
        exit := Execute(t, ring, loc, path[|locs|]);
        Leave(t.cfg, t.blocks, path, locs, rings, exit, ring.Contents());
        rings := rings + [ring.Contents()];
      }
    }
  }

  // ----- nested calls, block by block -----

  /** A call that returns: the block that ends in the call, the calls made before the return, and
      the block that ends in the return. */
  datatype Activation = Activation(call: nat, kids: seq<Activation>, back: nat)

  ghost predicate Nested(blocks: Blocks, a: Activation)
    decreases a, 1
  {
    && a.call in blocks && blocks[a.call].push.PushPair? && HintOf(LastOf(blocks[a.call])) == PushHint
    && a.back in blocks && HintOf(LastOf(blocks[a.back])) == PopHint
    && NestedAll(blocks, a.kids)
  }

  ghost predicate NestedAll(blocks: Blocks, s: seq<Activation>)
    decreases s, 0
  {
    s != [] ==> Nested(blocks, s[0]) && NestedAll(blocks, s[1..])
  }

  /** The pairs that are pushed. */
  ghost function TreeOf(blocks: Blocks, a: Activation): CallTree
    requires Nested(blocks, a)
    decreases a, 1
  {
    CallTree(blocks[a.call].push.pair, TreesOf(blocks, a.kids))
  }

  ghost function TreesOf(blocks: Blocks, s: seq<Activation>): seq<CallTree>
    requires NestedAll(blocks, s)
    decreases s, 0
  {
    if s == [] then [] else [TreeOf(blocks, s[0])] + TreesOf(blocks, s[1..])
  }

  lemma {:induction false} NestedStays(blocks: Blocks, blocks': Blocks, a: Activation)
    requires Extends(blocks, blocks') && Nested(blocks, a)
    ensures Nested(blocks', a) && TreeOf(blocks', a) == TreeOf(blocks, a)
    decreases a, 1
  {
    hide HintOf, LastOf;
    NestedAllStays(blocks, blocks', a.kids);
  }

  lemma {:induction false} NestedAllStays(blocks: Blocks, blocks': Blocks, s: seq<Activation>)
    requires Extends(blocks, blocks') && NestedAll(blocks, s)
    ensures NestedAll(blocks', s) && TreesOf(blocks', s) == TreesOf(blocks, s)
    decreases s, 0
  {
    hide Extends;
    if s == [] {
    } else {
      NestedStays(blocks, blocks', s[0]);
      NestedAllStays(blocks, blocks', s[1..]);
    }
  }

  lemma NoPushAtReturn(t: Translator, loc: nat)
    requires t.Valid() && loc in t.blocks && HintOf(LastOf(t.blocks[loc])) == PopHint
    ensures t.blocks[loc].push == NoPush
  {
    hide WellFormed, IsBlock, GoodEntries, GoodCode, NoneRefused, PlainFits, Ready, Empty, CodeCache.Consistent, HintOf,
         GoodPair, Pushes;
    HintsFollowed(t.cfg, LastOf(t.blocks[loc]));
  }

  /** Calls nested at most 64 deep, executed block by block: the return jumps through the pair
      that its own call pushed, and the ring is as the stack of pairs says. */
  method RunActivation(t: Translator, ring: ReturnRing, a: Activation, ghost tree: CallTree) returns (exit: Exit)
    requires Nested(t.blocks, a) && tree == TreeOf(t.blocks, a) && Depth(tree) <= ENTRIES
    requires t.cfg.ras && Between(t, ring)
    modifies ring`front, ring.entries
    ensures exit == Jump(tree.e.x86)
    ensures Between(t, ring) && ring.Contents() == Play(old(ring.Contents()), tree)
    decreases a, 1
  {
    hide GoodBlocks, GoodEntries, Started, SafeRing, RingOf, CodeCache.Consistent, GoodCode, NoneRefused, PlainFits,
         Ready, Empty, WellFormed, HintOf, LastOf;
    ghost var r := ring.Contents();
    exit := Execute(t, ring, a.call, 0);
    var inner := RunActivations(t, ring, a.kids, tree.kids);
    NestedHit(r, tree);
    exit := Execute(t, ring, a.back, t.blocks[a.call].push.pair.addr);
    NoPushAtReturn(t, a.back);
  }

  method RunActivations(t: Translator, ring: ReturnRing, s: seq<Activation>, ghost trees: seq<CallTree>)
    returns (exits: seq<Exit>)
    requires NestedAll(t.blocks, s) && trees == TreesOf(t.blocks, s) && DepthAll(trees) <= ENTRIES
    requires t.cfg.ras && Between(t, ring)
    modifies ring`front, ring.entries
    ensures |exits| == |trees| && forall k :: 0 <= k < |trees| ==> exits[k] == Jump(trees[k].e.x86)
    ensures Between(t, ring) && ring.Contents() == PlayAll(old(ring.Contents()), trees)
    decreases s, 0
  {
    hide GoodBlocks, GoodEntries, Started, SafeRing, RingOf, CodeCache.Consistent, GoodCode, NoneRefused, PlainFits,
         Ready, Empty, WellFormed, HintOf, LastOf;
    exits := [];
    if s != [] {
      var exit := RunActivation(t, ring, s[0], trees[0]);
      var rest := RunActivations(t, ring, s[1..], trees[1..]);
      exits := [exit] + rest;
    }
  }

  /** A call from a block that is translated now, and its return: if the return address has been
      translated, the return jumps to the code that the cache has for it. */
  method CallThenReturn(t: Translator, ring: ReturnRing, pc: Word, kids: seq<Activation>, back: nat)
    returns (call: nat, exit: Exit)
    requires Between(t, ring) && t.cfg.ras && pc !in t.cache.Full
    requires NestedAll(t.blocks, kids) && DepthAll(TreesOf(t.blocks, kids)) < ENTRIES
    requires back in t.blocks && HintOf(LastOf(t.blocks[back])) == PopHint
    modifies t`blocks, t`currentPos, t`failed, t.cache.Repr, t.Registers(), ring`front, ring.entries
    ensures CodeFor(t.blocks, call, pc)
    ensures var last := LastOf(t.blocks[call]);
            var ret := Add(last.addr, 4);
            HintOf(last) == PushHint && ret in t.cache.Full && ret != pc ==>
              exit == Jump(t.cache.Full[ret]) && CodeFor(t.blocks, t.cache.Full[ret], ret)
  {
    hide GoodBlocks, GoodEntries, Extends, Started, SafeRing, RingOf, CodeCache.Consistent, GoodCode, NoneRefused,
         PlainFits, Ready, Empty, PushesKnown, EndsInUnfollowedCall, WellFormed, HintOf, LastOf;
    ghost var b := t.blocks;
    call := Locate(t, pc);
    SafeExtends(t.cfg, b, t.blocks, ring.Contents());
    NestedAllStays(b, t.blocks, kids);
    BlockStays(b, t.blocks, back);
    exit := ToLoop;
    if t.blocks[call].push.PushPair? && HintOf(LastOf(t.blocks[call])) == PushHint {
      ghost var tree := CallTree(t.blocks[call].push.pair, TreesOf(t.blocks, kids));
      exit := RunActivation(t, ring, Activation(call, kids, back), tree);
    }
    ghost var ret := Add(LastOf(t.blocks[call]).addr, 4);
    if ret in t.cache.Full { EntryIsCode(t, ret); }
  }

  lemma EntryIsCode(t: Translator, a: Word)
    requires t.Valid() && Started(t.cache.Full) == {} && a in t.cache.Full
    ensures CodeFor(t.blocks, t.cache.Full[a], a)
  {
    hide Translator.Registers, GoodBlocks, WellFormed, GoodCode, NoneRefused, PlainFits, Ready, Empty;
    NoneStarted(t.cache.Full);
  }

  // ----- a run that reaches a null location -----

  /** Every address calls the function 8 bytes ahead, except address 8, which returns. */
  function CallAndReturn(): Program {
    Program((a: Word) => if a == 8 then Instr(8, JALR, JUMP, 1, 0, 0, 0) else Instr(a, JAL, JUMP, 0, 0, 1, 8),
            (a: Word) => 0)
  }

  /** A block whose first instruction ends it holds just this instruction. */
  lemma SingleBlock(cfg: Config, p: Program, entry: Word, block: seq<Instr>)
    requires WellFormed(p) && IsBlock(cfg, p, entry, block)
    requires !IsFence(p.decode(entry)) && Stops(cfg, p.decode(entry))
    ensures |block| == 1
    ensures p.decode(entry).mnem == JAL && BlockForm(cfg, p.decode(entry)) == p.decode(entry) ==>
              block[0] == p.decode(entry)
    ensures p.decode(entry).mnem == JALR ==> block[0] == p.decode(entry).(rs2 := 0)
  {
    assert PathPc(p, entry, 0) == entry;
  }

  lemma BlockAt(cfg: Config, p: Program, blocks: Blocks, free: nat, loc: nat)
    requires WellFormed(p) && GoodBlocks(cfg, p, blocks, free) && loc in blocks
    ensures IsBlock(cfg, p, blocks[loc].entry, blocks[loc].instrs)
  {
    hide WellFormed, IsBlock;
  }

  lemma UnwrittenSafe(cfg: Config, blocks: Blocks, r: Ring)
    requires forall k :: 0 <= k < ENTRIES ==> r[k] == RsEntry(0, UNSEEN)
    ensures SafeRing(cfg, blocks, r)
  {
  }

  /** The block at a location is the parse of its address. */
  lemma SingleAt(t: Translator, loc: nat, a: Word)
    requires t.Valid() && CodeFor(t.blocks, loc, a)
    requires var i := t.program.decode(a); i.mnem in {JAL, JALR} && !t.cfg.jump && Stops(t.cfg, i)
    ensures var i := t.program.decode(a);
            t.blocks[loc].instrs == [if i.mnem == JALR then i.(rs2 := 0) else i]
  {
    hide GoodEntries, GoodCode, NoneRefused, PlainFits, Ready, Empty, IsBlock, GoodBlocks, PathPc, Represents,
         Probing, Count;
    WellFormedAt(t.program, a);
    hide WellFormed;
    BlockAt(t.cfg, t.program, t.blocks, t.currentPos, loc);
    SingleBlock(t.cfg, t.program, a, t.blocks[loc].instrs);
  }

  /** A translator for this program that has seen nothing, with call following switched off, and
      a ring that was never written. */
  ghost predicate JustStarted(t: Translator, ring: ReturnRing)
    reads t, t.cache, ring, ring.entries
    requires ring.Valid()
  {
    && t.program == CallAndReturn() && t.cfg == Config(true, false, false) && t.cache.Full == map[]
    && forall k :: 0 <= k < ENTRIES ==> ring.Contents()[k] == RsEntry(0, UNSEEN)
  }

  /** The call: its block pushes a pair without a location. */
  method RunCall(t: Translator, ring: ReturnRing) returns (call: nat)
    requires t.Valid() && ring.Valid() && Apart(t, ring) && JustStarted(t, ring)
    modifies t`blocks, t`currentPos, t`failed, t.cache.Repr, t.Registers(), ring`front, ring.entries
    ensures t.Valid() && fresh(t.cache.Repr - old(t.cache.Repr)) && Started(t.cache.Full) == {}
    ensures ring.Valid() && SafeRing(t.cfg, t.blocks, ring.Contents())
    ensures CodeFor(t.blocks, call, 0) && t.blocks[call].push == PushPair(RsEntry(4, UNSEEN))
    ensures ring.Contents()[0] == RsEntry(4, UNSEEN)
  {
    hide GoodBlocks, GoodEntries, SafeRing, RingOf, CodeCache.Consistent, GoodCode, NoneRefused, PlainFits, Ready,
         Empty, WellFormed, Extends;
    UnwrittenSafe(t.cfg, t.blocks, ring.Contents());
    ghost var b0 := t.blocks;
    call := Locate(t, 0);
    SingleAt(t, call, 0);
    SafeExtends(t.cfg, b0, t.blocks, ring.Contents());
    var exit := Execute(t, ring, call, 8);
  }

  /** Call, then return: the return jumps through the pair that the call pushed. */
  method NullReturn(t: Translator, ring: ReturnRing) returns (call: nat, ret: nat, exit: Exit)
    requires t.Valid() && ring.Valid() && Apart(t, ring) && JustStarted(t, ring)
    modifies t`blocks, t`currentPos, t`failed, t.cache.Repr, t.Registers(), ring`front, ring.entries
    ensures CodeFor(t.blocks, call, 0) && t.blocks[call].push == PushPair(RsEntry(4, UNSEEN))
    ensures CodeFor(t.blocks, ret, 8) && exit == Jump(t.blocks[call].push.pair.x86)
  {
    hide GoodBlocks, GoodEntries, SafeRing, RingOf, CodeCache.Consistent, GoodCode, NoneRefused, PlainFits, Ready,
         Empty, WellFormed, Extends, PushesKnown, EndsInUnfollowedCall;
    call := RunCall(t, ring);
    ghost var b1 := t.blocks;
    ret := Locate(t, 8);
    SingleAt(t, ret, 8);
    SafeExtends(t.cfg, b1, t.blocks, ring.Contents());
    BlockStays(b1, t.blocks, call);
    exit := Execute(t, ring, ret, 4);
  }

  /** The program is one that the parser can deliver. */
  lemma CallAndReturnParses()
    ensures WellFormed(CallAndReturn())
  {
  }

  lemma BlockStays(blocks: Blocks, blocks': Blocks, loc: nat)
    requires Extends(blocks, blocks') && loc in blocks
    ensures loc in blocks' && blocks'[loc] == blocks[loc]
  {
  }
}
