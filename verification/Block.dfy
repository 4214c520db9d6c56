/** translate_block_instructions: translating an optimised block from left to right. */
module Block {
  import opened Words
  import opened X86
  import opened RegisterCache
  import opened Riscv
  import opened Simulation
  import opened RegisterInfos
  import opened Translators
  import opened Patterns
  import opened Emitters
  import opened Optimize
  import opened Exits

  // ----- tilings -----

  /** A piece of the block: one instruction on its own, or one emitted window. */
  datatype Piece = Alone(at: nat) | Window(at: nat, id: PatternId)

  function Size(p: Piece): nat { if p.Alone? then 1 else Length(p.id) }

  function End(p: Piece): nat { p.at + Size(p) }

  /** The pieces that the translation loop makes of a marked block, from position i on: a mark
      takes the whole window, other instructions are taken one by one. */
  function Pieces(marked: seq<Instr>, i: nat): seq<Piece>
    decreases |marked| - i
  {
    if i >= |marked| then []
    else
      var b := marked[i];
      if b.mnem == PATTERN_EMIT && b.optype.PatternIndex? && b.optype.index < N_PATTERNS then
        [Window(i, b.optype.index)] + Pieces(marked, i + Length(b.optype.index))
      else
        [Alone(i)] + Pieces(marked, i + 1)
  }

  /** The pieces cover the first `upto` instructions, each once and from left to right; a
      window matches its pattern in the original block and ends before the last
      instruction. */
  ghost predicate Tiles(orig: seq<Instr>, pieces: seq<Piece>, upto: nat)
    decreases |pieces|
  {
    if pieces == [] then upto == 0
    else
      var p := pieces[|pieces| - 1];
      && End(p) == upto <= |orig|
      && (p.Window? ==> upto < |orig| && Matches(p.id, orig[p.at..upto]))
      && Tiles(orig, pieces[..|pieces| - 1], p.at)
  }

  predicate Covers(p: Piece, x: nat) { p.at <= x < End(p) }

  lemma {:induction false} TilesBelow(orig: seq<Instr>, pieces: seq<Piece>, upto: nat, k: nat)
    requires Tiles(orig, pieces, upto) && k < |pieces|
    ensures End(pieces[k]) <= upto <= |orig|
    decreases |pieces|
  {
    if k >= |pieces| - 1 {
    } else {
      TilesBelow(orig, pieces[..|pieces| - 1], pieces[|pieces| - 1].at, k);
    }
  }

  /** In a tiling every instruction is in exactly one piece. */
  lemma {:induction false} CoveredOnce(orig: seq<Instr>, pieces: seq<Piece>, upto: nat, x: nat)
    requires Tiles(orig, pieces, upto) && x < upto
    ensures exists k :: 0 <= k < |pieces| && Covers(pieces[k], x)
                        && forall l :: 0 <= l < |pieces| && Covers(pieces[l], x) ==> l == k
    decreases |pieces|
  {
    var last, front := |pieces| - 1, pieces[..|pieces| - 1];
    var p := pieces[last];
    if p.at <= x {
      assert Covers(pieces[last], x);
      forall l | 0 <= l < last ensures !Covers(pieces[l], x) { TilesBelow(orig, front, p.at, l); }
    } else {
      CoveredOnce(orig, front, p.at, x);
      var k :| 0 <= k < |front| && Covers(front[k], x)
               && forall l :: 0 <= l < |front| && Covers(front[l], x) ==> l == k;
      assert Covers(pieces[k], x);
      forall l | 0 <= l < |pieces| && Covers(pieces[l], x) ensures l == k {
        assert l != last;
        assert Covers(front[l], x);
      }
    }
  }

  lemma TilesPush(orig: seq<Instr>, pieces: seq<Piece>, upto: nat, p: Piece)
    requires Tiles(orig, pieces, upto) && p.at == upto && End(p) <= |orig|
    requires p.Window? ==> End(p) < |orig| && Matches(p.id, orig[p.at..End(p)])
    ensures Tiles(orig, pieces + [p], End(p))
  {
    assert (pieces + [p])[..|pieces|] == pieces;
  }

  /** Although marked windows may nest or overlap, the pieces of a marked block tile it, and
      its last instruction stands alone. */
  lemma PiecesTile(orig: seq<Instr>, marked: seq<Instr>)
    requires Marked(orig, marked) && Parsed(orig)
    ensures Tiles(orig, Pieces(marked, 0), |orig|)
    ensures orig != [] ==>
              Pieces(marked, 0) != [] && Pieces(marked, 0)[|Pieces(marked, 0)| - 1] == Alone(|orig| - 1)
  {
    PiecesExtend(orig, marked, [], 0);
    assert [] + Pieces(marked, 0) == Pieces(marked, 0);
  }

  lemma {:induction false} PiecesExtend(orig: seq<Instr>, marked: seq<Instr>, front: seq<Piece>, i: nat)
    requires Marked(orig, marked) && Parsed(orig) && Tiles(orig, front, i) && i <= |orig|
    ensures Tiles(orig, front + Pieces(marked, i), |orig|)
    decreases |orig| - i
  {
    hide Matches, Tiles, Marked, Parsed, Pieces, Length;
    if i == |orig| {
      PiecesNone(orig, marked);
      assert front + [] == front;
    } else {
      PiecesHead(orig, marked, i);
      var p := Pieces(marked, i)[0];
      TilesPush(orig, front, i, p);
      PiecesExtend(orig, marked, front + [p], End(p));
      assert front + Pieces(marked, i) == (front + [p]) + Pieces(marked, End(p));
    }
  }

  lemma PiecesNone(orig: seq<Instr>, marked: seq<Instr>)
    requires Marked(orig, marked)
    ensures Pieces(marked, |orig|) == []
  {
  }

  lemma PiecesHead(orig: seq<Instr>, marked: seq<Instr>, i: nat)
    requires Marked(orig, marked) && Parsed(orig) && i < |orig|
    ensures Pieces(marked, i) != []
    ensures var p := Pieces(marked, i)[0];
            && p == (if marked[i].mnem == PATTERN_EMIT then Window(i, marked[i].optype.index) else Alone(i))
            && p.at == i && i < End(p) <= |orig|
            && (p.Window? ==> End(p) < |orig| && Matches(p.id, orig[i..End(p)]))
            && Pieces(marked, i) == [p] + Pieces(marked, End(p))
  {
    hide Matches, Elements;
    MarkedAt(orig, marked, i);
  }

  lemma MarkedAt(orig: seq<Instr>, marked: seq<Instr>, i: nat)
    requires Marked(orig, marked) && Parsed(orig) && i < |orig|
    ensures if marked[i].mnem == PATTERN_EMIT then Head(orig, i, marked[i]) else marked[i] == orig[i]
    ensures marked[i].mnem != SILENT_NOP
  {
    assert Decoded(orig[i]);
  }

  // ----- what the pieces are translated to -----

  /** The translators that are not modelled. */
  type Plain = (Cache, Instr) -> Emission

  /** dispatch_instr */
  function TranslateOne(sm: StaticMap, plain: Plain, c: Cache, i: Instr): Emission {
    if Known(i.mnem) then Translated(sm, c, i) else plain(c, i)
  }

  function EmitPiece(sm: StaticMap, plain: Plain, orig: seq<Instr>, c: Cache, p: Piece): Emission
    requires End(p) <= |orig|
  {
    if p.Alone? then TranslateOne(sm, plain, c, orig[p.at]) else Emitted(p.id, sm, c, orig[p.at..End(p)])
  }

  predicate Within(orig: seq<Instr>, pieces: seq<Piece>) {
    forall k :: 0 <= k < |pieces| ==> End(pieces[k]) <= |orig|
  }

  /** The pieces' code one after the other, each from the cache that the one before left. */
  function EmitPieces(sm: StaticMap, plain: Plain, orig: seq<Instr>, c: Cache, pieces: seq<Piece>): Emission
    requires Within(orig, pieces)
    decreases |pieces|
  {
    if pieces == [] then Emission([], c)
    else
      var n := |pieces| - 1;
      var e := EmitPieces(sm, plain, orig, c, pieces[..n]);
      var f := EmitPiece(sm, plain, orig, e.cache, pieces[n]);
      Emission(e.code + f.code, f.cache)
  }

  lemma EmitPiecesPush(sm: StaticMap, plain: Plain, orig: seq<Instr>, c: Cache, pieces: seq<Piece>, p: Piece)
    requires Within(orig, pieces) && End(p) <= |orig|
    ensures Within(orig, pieces + [p])
    ensures var e := EmitPieces(sm, plain, orig, c, pieces);
            var f := EmitPiece(sm, plain, orig, e.cache, p);
            EmitPieces(sm, plain, orig, c, pieces + [p]) == Emission(e.code + f.code, f.cache)
  {
    hide EmitPiece;
    assert (pieces + [p])[..|pieces|] == pieces;
  }

  lemma TilesWithin(orig: seq<Instr>, pieces: seq<Piece>, upto: nat)
    requires Tiles(orig, pieces, upto)
    ensures Within(orig, pieces)
  {
    hide Tiles;
    forall k | 0 <= k < |pieces| ensures End(pieces[k]) <= |orig| { TilesBelow(orig, pieces, upto, k); }
  }

  /** The translators that are not modelled keep the cache's invariant. */
  ghost predicate PlainKeeps(sm: StaticMap, plain: Plain, orig: seq<Instr>) {
    forall k, c: Cache :: 0 <= k < |orig| && !Known(orig[k].mnem) && Inv(sm, c) ==> Inv(sm, plain(c, orig[k]).cache)
  }

  // ----- what the code of the pieces does -----

  /** The unmodelled translators are right for the instructions that are translated alone,
      if the encoder takes what they emit. */
  ghost predicate PlainSound(other: Other, sm: StaticMap, plain: Plain, orig: seq<Instr>, pieces: seq<Piece>)
    requires Within(orig, pieces)
  {
    forall k, c: Cache :: 0 <= k < |pieces| && pieces[k].Alone? && !Known(orig[pieces[k].at].mnem) && Inv(sm, c) ==>
      var i := orig[pieces[k].at];
      AllEncodable(plain(c, i).code) ==> Sound(other, sm, c, plain(c, i).code, plain(c, i).cache, [i])
  }

  /** What a piece does to the guest state; `z` is slot 0 of the register file. */
  function PieceEffect(other: Other, orig: seq<Instr>, p: Piece, z: Word, g: State): State
    requires End(p) <= |orig|
  {
    if p.Alone? then Step(other, orig[p.at], g) else Effect(other, p.id, orig[p.at..End(p)], z, g)
  }

  /** One piece, which the encoder takes, from any machine. */
  lemma PieceRuns(other: Other, sm: StaticMap, plain: Plain, orig: seq<Instr>, c: Cache, p: Piece, m: Machine)
    requires IsStaticMap(sm) && Injective(sm) && Inv(sm, c) && Parsed(orig) && End(p) <= |orig|
    requires p.Window? ==> Matches(p.id, orig[p.at..End(p)])
    requires p.Alone? && !Known(orig[p.at].mnem) && AllEncodable(plain(c, orig[p.at]).code) ==>
               Sound(other, sm, c, plain(c, orig[p.at]).code, plain(c, orig[p.at]).cache, [orig[p.at]])
    requires AllEncodable(EmitPiece(sm, plain, orig, c, p).code)
    ensures var e := EmitPiece(sm, plain, orig, c, p);
            var m' := Run(e.code, m);
            && Inv(sm, e.cache) && LeavesHost(sm, m, m')
            && View(sm, e.cache, m') == PieceEffect(other, orig, p, m.file[X0], View(sm, c, m))
  {
    hide IsStaticMap, Injective, Inv, Run, View, LeavesHost, Step, Sound, Emitted, Effect, Matches, Translated,
         Elements;
    if p.Alone? {
      var i := orig[p.at];
      assert Decoded(i);
      if Known(i.mnem) { TranslatedSound(other, sm, c, i); }
      var e := TranslateOne(sm, plain, c, i);
      SoundAt(other, sm, c, e.code, e.cache, [i], m);
      Steps1(other, [i], View(sm, c, m));
    } else {
      var w := orig[p.at..End(p)];
      assert AllDecoded(w);
      if p.id == P17 { Pattern17Malformed(sm, c, w); }
      EmittedEffect(other, p.id, sm, c, w, m);
    }
  }

  /** The guest state after the pieces, each with its own effect. */
  ghost function Outcome(other: Other, sm: StaticMap, plain: Plain, orig: seq<Instr>, c: Cache, pieces: seq<Piece>,
                         m: Machine): State
    requires Within(orig, pieces)
    decreases |pieces|
  {
    if pieces == [] then View(sm, c, m)
    else
      var n := |pieces| - 1;
      var m1 := Run(EmitPieces(sm, plain, orig, c, pieces[..n]).code, m);
      PieceEffect(other, orig, pieces[n], m1.file[X0], Outcome(other, sm, plain, orig, c, pieces[..n], m))
  }

  /** Running the code of the pieces has their effects, one after the other. */
  lemma {:induction false} PiecesRun(other: Other, sm: StaticMap, plain: Plain, orig: seq<Instr>, c: Cache,
                                     pieces: seq<Piece>, upto: nat, m: Machine)
    requires IsStaticMap(sm) && Injective(sm) && Inv(sm, c) && Parsed(orig) && Tiles(orig, pieces, upto)
    requires Within(orig, pieces) && PlainSound(other, sm, plain, orig, pieces)
    requires AllEncodable(EmitPieces(sm, plain, orig, c, pieces).code)
    ensures var e := EmitPieces(sm, plain, orig, c, pieces);
            var m' := Run(e.code, m);
            && Inv(sm, e.cache) && LeavesHost(sm, m, m')
            && View(sm, e.cache, m') == Outcome(other, sm, plain, orig, c, pieces, m)
    decreases |pieces|
  {
    hide IsStaticMap, Injective, Inv, Run, View, LeavesHost, Sound, EmitPiece, PieceEffect, Matches, Parsed;
    if pieces == [] {
      RunNone(m);
      HostLeft(sm, m);
    } else {
      var n := |pieces| - 1;
      var front, p := pieces[..n], pieces[n];
      var e := EmitPieces(sm, plain, orig, c, front);
      var f := EmitPiece(sm, plain, orig, e.cache, p);
      var m1 := Run(e.code, m);
      assert PlainSound(other, sm, plain, orig, front) by {
        forall k | 0 <= k < n ensures front[k] == pieces[k] {}
      }
      PiecesRun(other, sm, plain, orig, c, front, p.at, m);
      PieceRuns(other, sm, plain, orig, e.cache, p, m1);
      RunAppend(e.code, f.code, m);
      LeavesHostChain(sm, m, m1, Run(f.code, m1));
    }
  }

  lemma HostLeft(sm: StaticMap, m: Machine)
    ensures LeavesHost(sm, m, m)
  {
  }

  /** A piece whose effect is that of its instructions. */
  predicate RightPiece(orig: seq<Instr>, p: Piece, z: Word)
    requires End(p) <= |orig|
  {
    p.Alone? || Faithful(p.id, orig[p.at..End(p)]) || (p.id == P8 && Low32(z) == 0)
  }

  ghost predicate AllRight(sm: StaticMap, plain: Plain, orig: seq<Instr>, c: Cache, pieces: seq<Piece>, m: Machine)
    requires Within(orig, pieces)
  {
    forall k :: 0 <= k < |pieces| ==>
      RightPiece(orig, pieces[k], Run(EmitPieces(sm, plain, orig, c, pieces[..k]).code, m).file[X0])
  }

  /** Where all pieces are right, their effects are the original block. */
  lemma {:induction false} OutcomeIsSteps(other: Other, sm: StaticMap, plain: Plain, orig: seq<Instr>, c: Cache,
                                          pieces: seq<Piece>, upto: nat, m: Machine)
    requires Parsed(orig) && Tiles(orig, pieces, upto) && Within(orig, pieces)
    requires AllRight(sm, plain, orig, c, pieces, m)
    ensures upto <= |orig|
    ensures Outcome(other, sm, plain, orig, c, pieces, m) == Steps(other, orig[..upto], View(sm, c, m))
    decreases |pieces|
  {
    hide Run, View, PieceEffect, RightPiece, AllRight, Matches, Parsed, EmitPieces, Steps;
    if pieces == [] {
      StepsNone(other, View(sm, c, m));
      assert orig[..0] == [];
    } else {
      var n := |pieces| - 1;
      var front, p := pieces[..n], pieces[n];
      LastRight(sm, plain, orig, c, pieces, m);
      OutcomeIsSteps(other, sm, plain, orig, c, front, p.at, m);
      var z := Run(EmitPieces(sm, plain, orig, c, front).code, m).file[X0];
      var w := orig[p.at..upto];
      var g := Steps(other, orig[..p.at], View(sm, c, m));
      assert orig[..upto] == orig[..p.at] + w;
      StepsAppend(other, orig[..p.at], w, View(sm, c, m));
      RightEffect(other, orig, p, z, g);
    }
  }

  lemma LastRight(sm: StaticMap, plain: Plain, orig: seq<Instr>, c: Cache, pieces: seq<Piece>, m: Machine)
    requires Within(orig, pieces) && pieces != [] && AllRight(sm, plain, orig, c, pieces, m)
    ensures var n := |pieces| - 1;
            && Within(orig, pieces[..n]) && AllRight(sm, plain, orig, c, pieces[..n], m)
            && RightPiece(orig, pieces[n], Run(EmitPieces(sm, plain, orig, c, pieces[..n]).code, m).file[X0])
  {
    hide Run, RightPiece, EmitPieces;
    var n := |pieces| - 1;
    var front := pieces[..n];
    forall k | 0 <= k < n ensures front[k] == pieces[k] && front[..k] == pieces[..k] {}
  }

  lemma RightEffect(other: Other, orig: seq<Instr>, p: Piece, z: Word, g: State)
    requires Parsed(orig) && End(p) <= |orig| && RightPiece(orig, p, z)
    requires p.Window? ==> Matches(p.id, orig[p.at..End(p)])
    ensures PieceEffect(other, orig, p, z, g) == Steps(other, orig[p.at..End(p)], g)
  {
    hide Step, Effect, Matches, Steps, Elements;
    var w := orig[p.at..End(p)];
    if p.Alone? {
      assert w == [orig[p.at]];
      Steps1(other, w, g);
    } else {
      assert AllDecoded(w);
      EffectFaithful(other, p.id, w, z, g);
    }
  }

  lemma StepsNone(other: Other, g: State)
    ensures Steps(other, [], g) == g
  {
  }

  // ----- the whole block -----

  /** The code of a block: the cache is flushed before and after its pieces. */
  function BlockCode(sm: StaticMap, plain: Plain, orig: seq<Instr>, pieces: seq<Piece>, c: Cache): Emission
    requires Within(orig, pieces)
  {
    var e0 := InvalidateAll(c);
    var e1 := EmitPieces(sm, plain, orig, e0.cache, pieces);
    var e2 := InvalidateAll(e1.cache);
    Emission(e0.code + e1.code + e2.code, e2.cache)
  }

  /** The machine when the pieces start. */
  function AtStart(c: Cache, m: Machine): Machine { Run(InvalidateAll(c).code, m) }

  lemma BlockInv(sm: StaticMap, plain: Plain, orig: seq<Instr>, pieces: seq<Piece>, upto: nat, c: Cache)
    requires IsStaticMap(sm) && Injective(sm) && Inv(sm, c) && Parsed(orig) && Tiles(orig, pieces, upto)
    requires Within(orig, pieces) && PlainKeeps(sm, plain, orig)
    ensures var e := BlockCode(sm, plain, orig, pieces, c);
            Inv(sm, e.cache) && forall i: Index :: e.cache.content[i] == INVALID
  {
    hide Inv, InvalidateAll, Tiles, Parsed, PlainKeeps, EmitPieces, IsStaticMap, Injective, Run;
    var m0: Machine :| true;
    FlushedRuns(sm, c, [], m0);
    var e0 := InvalidateAll(c);
    PiecesInv(sm, plain, orig, e0.cache, pieces, upto);
    FlushedRuns(sm, EmitPieces(sm, plain, orig, e0.cache, pieces).cache, [], m0);
  }

  lemma PieceInv(sm: StaticMap, plain: Plain, orig: seq<Instr>, c: Cache, p: Piece)
    requires IsStaticMap(sm) && Injective(sm) && Inv(sm, c) && Parsed(orig) && PlainKeeps(sm, plain, orig)
    requires End(p) <= |orig| && (p.Window? ==> Matches(p.id, orig[p.at..End(p)]))
    ensures Inv(sm, EmitPiece(sm, plain, orig, c, p).cache)
  {
    hide IsStaticMap, Injective, Inv, Emitted, Matches, Translated, Sound, Elements;
    if p.Alone? {
      var i := orig[p.at];
      assert Decoded(i);
      if Known(i.mnem) {
        var e := Translated(sm, c, i);
        TranslatedSound((j: Instr, g: State) => g, sm, c, i);
        SoundInv((j: Instr, g: State) => g, sm, c, e.code, e.cache, [i]);
      }
    } else {
      assert AllDecoded(orig[p.at..End(p)]);
      EmittedInv(p.id, sm, c, orig[p.at..End(p)]);
    }
  }

  lemma {:induction false} PiecesInv(sm: StaticMap, plain: Plain, orig: seq<Instr>, c: Cache, pieces: seq<Piece>,
                                     upto: nat)
    requires IsStaticMap(sm) && Injective(sm) && Inv(sm, c) && Parsed(orig) && PlainKeeps(sm, plain, orig)
    requires Tiles(orig, pieces, upto) && Within(orig, pieces)
    ensures Inv(sm, EmitPieces(sm, plain, orig, c, pieces).cache)
    decreases |pieces|
  {
    hide IsStaticMap, Injective, Inv, EmitPiece, Matches, Parsed, PlainKeeps;
    if pieces == [] {
    } else {
      var n := |pieces| - 1;
      PiecesInv(sm, plain, orig, c, pieces[..n], pieces[n].at);
      PieceInv(sm, plain, orig, EmitPieces(sm, plain, orig, c, pieces[..n]).cache, pieces[n]);
    }
  }

  /** Running a block, if the encoder took all of it: the guest state goes through the effects
      of its pieces, and the host's part of the machine is left alone. */
  lemma BlockRuns(other: Other, sm: StaticMap, plain: Plain, orig: seq<Instr>, pieces: seq<Piece>, c: Cache, m: Machine)
    requires IsStaticMap(sm) && Injective(sm) && Inv(sm, c) && Parsed(orig) && Tiles(orig, pieces, |orig|)
    requires Within(orig, pieces) && PlainSound(other, sm, plain, orig, pieces)
    requires AllEncodable(BlockCode(sm, plain, orig, pieces, c).code)
    ensures var e := BlockCode(sm, plain, orig, pieces, c);
            var m' := Run(e.code, m);
            && Inv(sm, e.cache) && (forall i: Index :: e.cache.content[i] == INVALID) && LeavesHost(sm, m, m')
            && View(sm, e.cache, m') == Outcome(other, sm, plain, orig, InvalidateAll(c).cache, pieces, AtStart(c, m))
  {
    hide Inv, InvalidateAll, Tiles, Parsed, EmitPieces, IsStaticMap, Injective, Run, View, LeavesHost, Outcome,
         PlainSound;
    var e0 := InvalidateAll(c);
    var e1 := EmitPieces(sm, plain, orig, e0.cache, pieces);
    var e2 := InvalidateAll(e1.cache);
    FlushedRuns(sm, c, e1.code, m);
    var m1 := Run(e0.code, m);
    PiecesRun(other, sm, plain, orig, e0.cache, pieces, |orig|, m1);
    var m2 := Run(e1.code, m1);
    FlushedRuns(sm, e1.cache, [], m2);
    RunAppend(e0.code + e1.code, e2.code, m);
    LeavesHostChain(sm, m, m1, m2);
    LeavesHostChain(sm, m, m2, Run(e2.code, m2));
  }

  /** The block keeps its meaning: the code is the original instructions, provided no window
      of pattern 2 or 9 is emitted and slot 0 is as needed where pattern 8 reads x0. */
  lemma BlockMeaning(other: Other, sm: StaticMap, plain: Plain, orig: seq<Instr>, pieces: seq<Piece>, c: Cache,
                     m: Machine)
    requires IsStaticMap(sm) && Injective(sm) && Inv(sm, c) && Parsed(orig) && Tiles(orig, pieces, |orig|)
    requires Within(orig, pieces) && PlainSound(other, sm, plain, orig, pieces)
    requires AllEncodable(BlockCode(sm, plain, orig, pieces, c).code)
    requires AllRight(sm, plain, orig, InvalidateAll(c).cache, pieces, AtStart(c, m))
    ensures var e := BlockCode(sm, plain, orig, pieces, c);
            var m' := Run(e.code, m);
            && View(sm, e.cache, m') == Steps(other, orig, View(sm, c, m)) && LeavesHost(sm, m, m')
            && Inv(sm, e.cache) && forall i: Index :: e.cache.content[i] == INVALID
  {
    hide Inv, InvalidateAll, Tiles, Parsed, BlockCode, IsStaticMap, Injective, Run, View, LeavesHost, Outcome,
         PlainSound, AllRight, Steps;
    BlockRuns(other, sm, plain, orig, pieces, c, m);
    FlushedRuns(sm, c, [], m);
    OutcomeIsSteps(other, sm, plain, orig, InvalidateAll(c).cache, pieces, |orig|, AtStart(c, m));
    assert orig[..|orig|] == orig;
  }

  // ----- blocks that are translated with nothing cached -----

  /** `code` was generated for the block `orig`, of which the optimiser made `marked`. */
  ghost predicate Generated(sm: StaticMap, plain: Plain, fusion: bool, orig: seq<Instr>, marked: seq<Instr>,
                            code: seq<Code>) {
    && Marked(orig, marked) && Tiles(orig, Pieces(marked, 0), |orig|) && Within(orig, Pieces(marked, 0))
    && (if fusion then forall i: PatternId :: Exhausted(marked, i) else marked == orig)
    && exists c: Cache :: Inv(sm, c) && Empty(c) && code == BlockCode(sm, plain, orig, Pieces(marked, 0), c).code
  }

  /** Every window that is emitted is of a pattern whose emitter is right, from any machine. */
  predicate AllFaithful(orig: seq<Instr>, marked: seq<Instr>)
    requires Within(orig, Pieces(marked, 0))
  {
    forall p :: p in Pieces(marked, 0) && p.Window? ==> Faithful(p.id, orig[p.at..End(p)])
  }

  const NOTHING_CACHED: Cache := Cache([INVALID, INVALID, INVALID], [0, 0, 0], 1)

  lemma EmptyView(sm: StaticMap, c: Cache, m: Machine)
    requires Empty(c)
    ensures View(sm, c, m) == View(sm, NOTHING_CACHED, m)
  {
    forall r: Guest ensures Val(sm, c, m, r) == Val(sm, NOTHING_CACHED, m, r) {}
  }

  /** Generated code does what the parsed block does. */
  lemma GeneratedMeaning(other: Other, sm: StaticMap, plain: Plain, fusion: bool, orig: seq<Instr>, marked: seq<Instr>,
                         code: seq<Code>, m: Machine)
    requires IsStaticMap(sm) && Injective(sm) && Parsed(orig) && Generated(sm, plain, fusion, orig, marked, code)
    requires PlainSound(other, sm, plain, orig, Pieces(marked, 0)) && AllFaithful(orig, marked) && AllEncodable(code)
    ensures LeavesHost(sm, m, Run(code, m))
    ensures View(sm, NOTHING_CACHED, Run(code, m)) == Steps(other, orig, View(sm, NOTHING_CACHED, m))
  {
    hide Inv, Tiles, Parsed, BlockCode, IsStaticMap, Injective, Run, View, LeavesHost, PlainSound, Steps, Marked,
         Within, Exhausted, Pieces, Empty, Faithful, EmitPieces, AllRight;
    var c: Cache :| Inv(sm, c) && Empty(c) && code == BlockCode(sm, plain, orig, Pieces(marked, 0), c).code;
    FaithfulIsRight(sm, plain, orig, marked, InvalidateAll(c).cache, AtStart(c, m));
    BlockMeaning(other, sm, plain, orig, Pieces(marked, 0), c, m);
    var e := BlockCode(sm, plain, orig, Pieces(marked, 0), c);
    EmptyView(sm, c, m);
    assert Empty(e.cache) by { IsEmpty(e.cache); }
    EmptyView(sm, e.cache, Run(code, m));
  }

  lemma IsEmpty(c: Cache)
    requires forall i: Index :: c.content[i] == INVALID
    ensures Empty(c)
  {
  }

  lemma FaithfulIsRight(sm: StaticMap, plain: Plain, orig: seq<Instr>, marked: seq<Instr>, c: Cache, m: Machine)
    requires Within(orig, Pieces(marked, 0)) && AllFaithful(orig, marked)
    ensures AllRight(sm, plain, orig, c, Pieces(marked, 0), m)
  {
    hide Faithful, EmitPieces, Run;
  }

  /** Without fusion every instruction is translated on its own. */
  lemma {:induction false} UnmarkedPieces(orig: seq<Instr>, i: nat)
    requires Parsed(orig)
    ensures forall p :: p in Pieces(orig, i) ==> p.Alone?
    decreases |orig| - i
  {
    if i >= |orig| {
    } else {
      assert Decoded(orig[i]);
      UnmarkedPieces(orig, i + 1);
    }
  }

  lemma NoFusionFaithful(sm: StaticMap, plain: Plain, orig: seq<Instr>, marked: seq<Instr>, code: seq<Code>)
    requires Parsed(orig) && Generated(sm, plain, false, orig, marked, code)
    ensures Within(orig, Pieces(marked, 0)) && AllFaithful(orig, marked)
  {
    hide Inv, Tiles, Parsed, BlockCode, Marked, Pieces;
    UnmarkedPieces(orig, 0);
  }

  /** For a block of modelled instructions nothing is assumed of other translators. */
  lemma KnownBlockSound(other: Other, sm: StaticMap, plain: Plain, orig: seq<Instr>, pieces: seq<Piece>)
    requires Within(orig, pieces) && forall k :: 0 <= k < |orig| ==> Known(orig[k].mnem)
    ensures PlainSound(other, sm, plain, orig, pieces) && PlainKeeps(sm, plain, orig)
  {
    hide Known;
  }

  /** The translators of the exits. */
  function ExitPlain(sm: StaticMap): Plain { (c: Cache, i: Instr) => ExitCode(sm, c, i) }

  /** For blocks that end in a jump or are full, what is assumed of other translators holds of
      those of the exits. */
  lemma ModelledBlockSound(sm: StaticMap, orig: seq<Instr>, pieces: seq<Piece>)
    requires IsStaticMap(sm) && Injective(sm) && sm[PC].Unmapped? && Within(orig, pieces) && Parsed(orig)
    requires forall k :: 0 <= k < |orig| ==>
               Known(orig[k].mnem) || (IsExit(orig[k].mnem) && (orig[k].mnem == JALR ==> orig[k].rs1 != X0))
    ensures PlainSound(JumpMeaning, sm, ExitPlain(sm), orig, pieces) && PlainKeeps(sm, ExitPlain(sm), orig)
  {
    hide IsStaticMap, Injective, Inv, Sound, ExitCode, Known;
    forall i: Instr, c: Cache | IsExit(i.mnem) && Decoded(i) && (i.mnem == JALR ==> i.rs1 != X0) && Inv(sm, c)
      ensures Inv(sm, ExitCode(sm, c, i).cache)
      ensures AllEncodable(ExitCode(sm, c, i).code) ==>
                Sound(JumpMeaning, sm, c, ExitCode(sm, c, i).code, ExitCode(sm, c, i).cache, [i])
    {
      ExitInv(sm, c, i);
      if AllEncodable(ExitCode(sm, c, i).code) { ExitSound(sm, c, i); }
    }
  }

  // ----- the loop in place -----

  /** The registers, immediates and addresses of a window.  Mnemonics and operation types,
      which marks of nested windows may have overwritten, are not read by any emitter; they
      are filled in from the table. */
  function Fields(id: PatternId, w: seq<Instr>): seq<Instr>
    requires |w| == Length(id)
  {
    seq(|w|, k requires 0 <= k < |w| => w[k].(mnem := Elements(id)[k].mnem, optype := IMMEDIATE))
  }

  predicate SameField(v: Instr, w: Instr) {
    v.addr == w.addr && v.rs1 == w.rs1 && v.rs2 == w.rs2 && v.rd == w.rd && v.imm == w.imm
  }

  lemma FieldsMatch(id: PatternId, v: seq<Instr>, w: seq<Instr>)
    requires Matches(id, w) && AllDecoded(w) && |v| == |w| && forall k :: 0 <= k < |v| ==> SameField(v[k], w[k])
    ensures Matches(id, Fields(id, v)) && AllDecoded(Fields(id, v))
    ensures forall k :: 0 <= k < |w| ==> Fields(id, v)[k] == w[k].(optype := IMMEDIATE)
  {
    var f := Fields(id, v);
    forall k | 0 <= k < |w| ensures f[k] == w[k].(optype := IMMEDIATE) {
      hide Elements;
      assert ElementMatches(Elements(id)[k], w, k);
    }
    hide Elements;
    forall k | 0 <= k < |w| ensures ElementMatches(Elements(id)[k], f, k) {
      assert ElementMatches(Elements(id)[k], w, k);
    }
  }

  /** The emitter run on the fields of a window emits the code of the original window. */
  method EmitWindow(r: RegisterInfo, id: PatternId, v: seq<Instr>, ghost w: seq<Instr>, ghost other: Other)
    requires Ready(r) && Matches(id, w) && AllDecoded(w)
    requires |v| == |w| && forall k :: 0 <= k < |v| ==> SameField(v[k], w[k])
    modifies r`code, r`clock, r.content, r.recency
    ensures Ready(r) && |w| == Length(id)
    ensures var e := Emitted(id, r.sm, old(r.State()), w);
            r.State() == e.cache && r.code == old(r.code) + e.code
  {
    hide Elements, Steps, Inv, IsStaticMap, Injective, Sound, Emitted;
    FieldsMatch(id, v, w);
    EmittedFields(id, r.sm, r.State(), Fields(id, v), w);
    EmitPattern(r, id, Fields(id, v), other);
  }

  method Silence(block: array<Instr>, i: nat, len: nat)
    requires i + len <= block.Length && len > 0
    modifies block
    ensures forall j :: i < j < i + len ==> block[j] == old(block[j]).(mnem := SILENT_NOP)
    ensures forall j :: (0 <= j <= i || i + len <= j < block.Length) ==> block[j] == old(block[j])
  {
    for k := 1 to len
      invariant forall j :: i < j < i + k ==> block[j] == old(block[j]).(mnem := SILENT_NOP)
      invariant forall j :: (0 <= j <= i || i + k <= j < block.Length) ==> block[j] == old(block[j])
    {
      block[i + k] := block[i + k].(mnem := SILENT_NOP);
    }
  }

  /** translate_pattern_emit: emits the window that the original block has there and silences
      the rest of it. */
  method TranslatePatternEmit(r: RegisterInfo, block: array<Instr>, i: nat, ghost orig: seq<Instr>, ghost other: Other)
    requires Ready(r) && |orig| <= block.Length && Parsed(orig)
    requires i < |orig| && Head(orig, i, block[i])
    requires forall j :: i <= j < |orig| ==> SameField(block[j], orig[j])
    modifies r`code, r`clock, r.content, r.recency, block
    ensures Ready(r)
    ensures var id := old(block[i]).optype.index;
            var e := Emitted(id, r.sm, old(r.State()), orig[i..i + Length(id)]);
            && r.State() == e.cache && r.code == old(r.code) + e.code
            && (forall j :: i < j < i + Length(id) ==> block[j] == old(block[j]).(mnem := SILENT_NOP))
            && (forall j :: (0 <= j <= i || i + Length(id) <= j < block.Length) ==> block[j] == old(block[j]))
  {
    hide Elements, Matches, Inv, IsStaticMap, Injective, Emitted;
    var id: PatternId := block[i].optype.index;
    ghost var w := orig[i..i + Length(id)];
    EmitWindow(r, id, block[i..i + Length(id)], w, other);
    Silence(block, i, Length(id));
  }

  /** The state of the loop at position i: the first `done` instructions are translated; those
      of them that are still ahead are silenced; the rest is as matching left it. */
  ghost predicate Progress(orig: seq<Instr>, marked: seq<Instr>, block: seq<Instr>, i: nat, done: nat) {
    && |block| == |marked| == |orig| && i <= done <= |orig|
    && (forall j :: i <= j < done ==> block[j].mnem == SILENT_NOP)
    && (forall j :: i <= j < |orig| ==> SameField(block[j], orig[j]))
    && (forall j :: done <= j < |orig| ==> block[j] == marked[j])
  }

  lemma MarkedProgress(orig: seq<Instr>, marked: seq<Instr>)
    requires Marked(orig, marked)
    ensures Progress(orig, marked, marked, 0, 0)
  {
  }

  lemma ProgressSkip(orig: seq<Instr>, marked: seq<Instr>, b: seq<Instr>, i: nat, done: nat)
    requires Progress(orig, marked, b, i, done) && i < done
    ensures Progress(orig, marked, b, i + 1, done)
  {
  }

  lemma ProgressAlone(orig: seq<Instr>, marked: seq<Instr>, b: seq<Instr>, i: nat)
    requires Progress(orig, marked, b, i, i) && i < |orig|
    ensures Progress(orig, marked, b, i + 1, i + 1)
  {
  }

  lemma ProgressWindow(orig: seq<Instr>, marked: seq<Instr>, b: seq<Instr>, b': seq<Instr>, i: nat, n: nat)
    requires Progress(orig, marked, b, i, i) && 0 < n && i + n <= |orig| && |b'| == |b|
    requires forall j :: i < j < i + n ==> b'[j] == b[j].(mnem := SILENT_NOP)
    requires forall j :: i + n <= j < |b| ==> b'[j] == b[j]
    ensures Progress(orig, marked, b', i + 1, i + n)
  {
  }

  /** What the loop finds at position i. */
  lemma ProgressCases(orig: seq<Instr>, marked: seq<Instr>, b: seq<Instr>, i: nat, done: nat)
    requires Progress(orig, marked, b, i, done) && i < |orig| && Parsed(orig) && Marked(orig, marked)
    ensures |b| == |orig| && i <= done
    ensures b[i].mnem == SILENT_NOP <==> i < done
    ensures forall j :: i <= j < |orig| ==> SameField(b[j], orig[j])
    ensures i == done ==> if b[i].mnem == PATTERN_EMIT then Head(orig, i, b[i]) else b[i] == orig[i]
    ensures i == done ==> Pieces(marked, i) != []
    ensures i == done ==>
              var p := Pieces(marked, i)[0];
              && p == (if b[i].mnem == PATTERN_EMIT then Window(i, b[i].optype.index) else Alone(i))
              && Pieces(marked, i) == [p] + Pieces(marked, End(p))
  {
    hide Matches, Elements, Pieces;
    if i == done {
      MarkedAt(orig, marked, i);
      PiecesHead(orig, marked, i);
    }
  }

  /** One step of the translation loop: nothing for a silenced instruction, otherwise the next
      piece. */
  method TranslateInstr(r: RegisterInfo, block: array<Instr>, i: nat, plain: Plain, ghost orig: seq<Instr>,
                        ghost marked: seq<Instr>, ghost done: nat, ghost other: Other) returns (ghost done': nat)
    requires Ready(r) && |orig| <= block.Length && Parsed(orig) && PlainKeeps(r.sm, plain, orig) && Marked(orig, marked)
    requires i < |orig| && Progress(orig, marked, block[..|orig|], i, done)
    modifies r`code, r`clock, r.content, r.recency, block
    ensures Ready(r) && done <= done' && Progress(orig, marked, block[..|orig|], i + 1, done')
    ensures if done' == done then r.State() == old(r.State()) && r.code == old(r.code)
            else
              && Pieces(marked, done) != [] && done' == End(Pieces(marked, done)[0]) <= |orig|
              && Pieces(marked, done) == [Pieces(marked, done)[0]] + Pieces(marked, done')
              && var e := EmitPiece(r.sm, plain, orig, old(r.State()), Pieces(marked, done)[0]);
                 r.State() == e.cache && r.code == old(r.code) + e.code
  {
    hide Elements, Matches, Inv, IsStaticMap, Injective, Progress, Emitted, Marked, Pieces, Translated, Known;
    ghost var b := block[..|orig|];
    done' := done;
    ProgressCases(orig, marked, b, i, done);
    assert block[i] == b[i];
    if block[i].mnem == PATTERN_EMIT {
      done' := i + Length(block[i].optype.index);
      TranslatePatternEmit(r, block, i, orig, other);
      ProgressWindow(orig, marked, b, block[..|orig|], i, done' - i);
    } else if block[i].mnem == SILENT_NOP {
      ProgressSkip(orig, marked, b, i, done);
    } else {
      done' := i + 1;
      assert orig[i] == block[i] && Decoded(orig[i]);
      TranslateAlone(r, block[i], plain, other);
      assert block[..|orig|] == b;
      ProgressAlone(orig, marked, b, i);
    }
  }

  /** dispatch_instr */
  method TranslateAlone(r: RegisterInfo, i: Instr, plain: Plain, ghost other: Other)
    requires Ready(r) && Decoded(i)
    requires !Known(i.mnem) ==> forall c: Cache :: Inv(r.sm, c) ==> Inv(r.sm, plain(c, i).cache)
    modifies r`code, r`clock, r.content, r.recency
    ensures Ready(r)
    ensures var e := TranslateOne(r.sm, plain, old(r.State()), i);
            r.State() == e.cache && r.code == old(r.code) + e.code
  {
    hide Inv, IsStaticMap, Injective, Translated, Sound, Decoded;
    ghost var c := r.State();
    if Known(i.mnem) {
      TranslatedSound(other, r.sm, c, i);
      SoundInv(other, r.sm, c, Translated(r.sm, c, i).code, Translated(r.sm, c, i).cache, [i]);
      hide Known;
      TranslateKnown(r, i);
    } else {
      r.Adopt(plain(r.State(), i));
    }
  }

  /** The translation loop. */
  method TranslateLoop(r: RegisterInfo, block: array<Instr>, n: nat, plain: Plain, ghost orig: seq<Instr>,
                       ghost other: Other)
    requires Ready(r) && n == |orig| <= block.Length && Parsed(orig) && PlainKeeps(r.sm, plain, orig)
    requires Marked(orig, block[..n])
    modifies r`code, r`clock, r.content, r.recency, block
    ensures Ready(r)
    ensures var pieces := Pieces(old(block[..n]), 0);
            Within(orig, pieces)
            && var e := EmitPieces(r.sm, plain, orig, old(r.State()), pieces);
               r.State() == e.cache && r.code == old(r.code) + e.code
  {
    hide Inv, IsStaticMap, Injective, Marked, PlainKeeps, Parsed, Progress, EmitPieces, EmitPiece, Pieces;
    ghost var marked := block[..n];
    ghost var done, pieces: seq<Piece> := 0, [];
    ghost var c0, code0 := r.State(), r.code;
    MarkedProgress(orig, marked);
    NothingEmitted(r.sm, plain, orig, c0);
    assert pieces + Pieces(marked, 0) == Pieces(marked, 0);
    for i := 0 to n
      invariant Ready(r) && Progress(orig, marked, block[..n], i, done)
      invariant pieces + Pieces(marked, done) == Pieces(marked, 0) && Within(orig, pieces)
      invariant r.State() == EmitPieces(r.sm, plain, orig, c0, pieces).cache
      invariant r.code == code0 + EmitPieces(r.sm, plain, orig, c0, pieces).code
    {
      ghost var done0 := done;
      done := TranslateInstr(r, block, i, plain, orig, marked, done, other);
      if done != done0 {
        hide Within;
        ghost var p := Pieces(marked, done0)[0];
        EmitPiecesPush(r.sm, plain, orig, c0, pieces, p);
        assert (pieces + [p]) + Pieces(marked, done) == pieces + Pieces(marked, done0);
        pieces := pieces + [p];
      }
    }
    ProgressEnd(orig, marked, block[..n], done);
    assert pieces + [] == pieces;
  }

  lemma NothingEmitted(sm: StaticMap, plain: Plain, orig: seq<Instr>, c: Cache)
    ensures Within(orig, []) && EmitPieces(sm, plain, orig, c, []) == Emission([], c)
  {
  }

  lemma ProgressEnd(orig: seq<Instr>, marked: seq<Instr>, b: seq<Instr>, done: nat)
    requires Progress(orig, marked, b, |orig|, done)
    ensures Pieces(marked, done) == []
  {
  }

  /** invalidateAllReplacements, as init_block and finalize_block call it. */
  method Flush(r: RegisterInfo)
    requires Ready(r)
    modifies r`code, r`clock, r.content, r.recency
    ensures Ready(r)
    ensures var e := InvalidateAll(old(r.State()));
            r.State() == e.cache && r.code == old(r.code) + e.code
  {
    hide Inv, IsStaticMap, Injective, InvalidateAll, Run, View;
    ghost var m0: Machine :| true;
    FlushedRuns(r.sm, r.State(), [], m0);
    r.InvalidateAllReplacements();
  }

  /** translate_block_instructions, with RET and padding left out.  The code appended is that of
      the pieces of the marked block, which tile it; it fails when the encoder refuses an
      instruction.  What the optimiser made of the block is returned for the record. */
  method TranslateBlockInstructions(r: RegisterInfo, block: array<Instr>, n: nat, fusion: bool, plain: Plain,
                                    ghost other: Other) returns (ok: bool, marked: seq<Instr>)
    requires Ready(r) && n <= block.Length && Parsed(block[..n]) && PlainKeeps(r.sm, plain, block[..n])
    modifies r`code, r`clock, r.content, r.recency, block
    ensures Ready(r)
    ensures Marked(old(block[..n]), marked) && Tiles(old(block[..n]), Pieces(marked, 0), n)
    ensures if fusion then forall i: PatternId :: Exhausted(marked, i) else marked == old(block[..n])
    ensures Within(old(block[..n]), Pieces(marked, 0))
    ensures var e := BlockCode(r.sm, plain, old(block[..n]), Pieces(marked, 0), old(r.State()));
            && r.State() == e.cache && r.code == old(r.code) + e.code && ok == AllEncodable(e.code)
  {
    hide Inv, IsStaticMap, Injective, Marked, Parsed, PlainKeeps, Exhausted, EmitPieces, InvalidateAll, Tiles, Pieces,
         Within;
    ghost var orig := block[..n];
    var start := |r.code|;
    ghost var c, code := r.State(), r.code;
    Flush(r);
    if fusion {
      OptimizePatterns(block, n);
    } else {
      Unmarked(orig);
    }
    marked := block[..n];
    PiecesTile(orig, marked);
    TranslateLoop(r, block, n, plain, orig, other);
    Flush(r);
    ok := AllEncodable(r.code[start..]);
    BlockCodeParts(r.sm, plain, orig, Pieces(marked, 0), c, code);
    hide BlockCode;
  }

  lemma BlockCodeParts(sm: StaticMap, plain: Plain, orig: seq<Instr>, pieces: seq<Piece>, c: Cache, code: seq<Code>)
    requires Within(orig, pieces)
    ensures var e0 := InvalidateAll(c);
            var e1 := EmitPieces(sm, plain, orig, e0.cache, pieces);
            var e2 := InvalidateAll(e1.cache);
            var e := BlockCode(sm, plain, orig, pieces, c);
            && ((code + e0.code) + e1.code) + e2.code == code + e.code && e2.cache == e.cache
            && (code + e.code)[|code|..] == e.code
  {
    hide InvalidateAll, EmitPieces;
  }

  lemma Unmarked(block: seq<Instr>)
    ensures Marked(block, block)
  {
  }
}
