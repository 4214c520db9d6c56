/** Which emitted instructions the encoder takes.  A block that holds one it refuses ends the
    program, so what is proved about running code is worth little without this. */
module Encoding {
  import opened Words
  import opened X86
  import opened RegisterCache
  import opened Riscv
  import opened Simulation
  import opened Arithmetic
  import opened Translators
  import opened Patterns
  import opened Emitters
  import opened Exits
  import opened Optimize
  import opened Block

  lemma Imm12Fits(w: Word)
    requires Imm12(w)
    ensures FitsInt32(w)
  {
  }

  // ----- the register cache -----

  lemma LoadEncodes(c: Cache, r: Guest, need: bool)
    ensures AllEncodable(Load(c, r, need).code)
  {
  }

  lemma GetEncodes(sm: StaticMap, c: Cache, r: Guest)
    ensures AllEncodable(GetSrc(sm, c, r).code) && AllEncodable(GetDst(sm, c, r).code)
  {
    hide Load, AllEncodable;
    LoadEncodes(c, r, true);
    LoadEncodes(c, r, false);
    NoneEncodes();
  }

  lemma NoneEncodes()
    ensures AllEncodable([])
  {
  }

  lemma FlushEncodes(c: Cache)
    ensures AllEncodable(InvalidateAll(c).code)
  {
    var e0 := Invalidate(c, 0, true);
    var e1 := Invalidate(e0.cache, 1, true);
    var e2 := Invalidate(e1.cache, 2, true);
    assert AllEncodable(e0.code) && AllEncodable(e1.code) && AllEncodable(e2.code);
    hide AllEncodable, Invalidate;
    EncodableAppend(e0.code, e1.code);
    EncodableAppend(e0.code + e1.code, e2.code);
  }

  lemma IntoDstEncodes(sm: StaticMap, c: Cache, rd: Guest, tail: seq<Code>)
    ensures AllEncodable(IntoDst(sm, c, rd, tail).code) <==> AllEncodable(tail)
  {
    hide GetDst, AllEncodable;
    GetEncodes(sm, c, rd);
    EncodableAppend(GetDst(sm, c, rd).code, tail);
  }

  lemma FromSourceEncodes(sm: StaticMap, c: Cache, rs: Guest, rd: Guest, tail: seq<Code>)
    ensures AllEncodable(FromSource(sm, c, rs, rd, tail).code) <==> AllEncodable(tail)
  {
    hide GetSrc, GetDst, AllEncodable;
    var e1 := GetSrc(sm, c, rs);
    var e2 := GetDst(sm, e1.cache, rd);
    GetEncodes(sm, c, rs);
    GetEncodes(sm, e1.cache, rd);
    EncodableAppend(e1.code, e2.code);
    EncodableAppend(e1.code + e2.code, tail);
  }

  lemma SrcSrcEncodes(sm: StaticMap, c: Cache, rs1: Guest, rs2: Guest, tail: seq<Code>)
    ensures AllEncodable(SrcSrc(sm, c, rs1, rs2).code + tail) <==> AllEncodable(tail)
  {
    hide GetSrc, AllEncodable;
    var e1 := GetSrc(sm, c, rs1);
    var e2 := GetSrc(sm, e1.cache, rs2);
    GetEncodes(sm, c, rs1);
    GetEncodes(sm, e1.cache, rs2);
    EncodableAppend(e1.code, e2.code);
    EncodableAppend(e1.code + e2.code, tail);
  }

  lemma SrcSrcDstEncodes(sm: StaticMap, c: Cache, rs1: Guest, rs2: Guest, rd: Guest, tail: seq<Code>)
    ensures AllEncodable(SrcSrcDst(sm, c, rs1, rs2, rd).code + tail) <==> AllEncodable(tail)
  {
    hide GetSrc, GetDst, AllEncodable;
    var e1 := GetSrc(sm, c, rs1);
    var e2 := GetSrc(sm, e1.cache, rs2);
    var e3 := GetDst(sm, e2.cache, rd);
    GetEncodes(sm, c, rs1);
    GetEncodes(sm, e1.cache, rs2);
    GetEncodes(sm, e2.cache, rd);
    EncodableAppend(e1.code, e2.code);
    EncodableAppend(e1.code + e2.code, e3.code);
    EncodableAppend(e1.code + e2.code + e3.code, tail);
  }

  // ----- translators -----

  lemma OneSourceTailEncodes(i: Instr, s: Host, d: Host)
    requires i.mnem in {ADDI, ADDIW, SLLI, SRLI, XORI, ANDI, SLTIU, LW, LD} && Decoded(i)
    ensures AllEncodable(OneSourceTail(i, s, d))
  {
    if i.mnem !in {SLLI, SRLI} { Imm12Fits(i.imm); }
    hide FitsInt32;
  }

  lemma TwoSourcesTailEncodes(i: Instr, s1: Host, s2: Host, d: Host)
    ensures AllEncodable(TwoSourcesTail(i, s1, s2, d))
  {
  }

  /** The encoder takes the code of every translator. */
  lemma TranslatedEncodes(sm: StaticMap, c: Cache, i: Instr)
    requires Known(i.mnem) && Decoded(i)
    ensures AllEncodable(Translated(sm, c, i).code)
  {
    var rs1, rs2, rd := AsGuest(i.rs1), AsGuest(i.rs2), AsGuest(i.rd);
    if i.mnem in {SW, SD} {
      var s1, s2 := SrcHost(sm, c, rs1), Second(sm, c, rs1, rs2);
      var tail := [if i.mnem == SW then Store32At(s1, i.imm, s2) else Store64At(s1, i.imm, s2)];
      hide SrcHost, Second;
      Imm12Fits(i.imm);
      assert AllEncodable(tail) by { hide FitsInt32; }
      SrcSrcEncodes(sm, c, rs1, rs2, tail);
    } else if i.mnem in {SUB, SUBW, SLT, SLTU} {
      var s1, s2, d := SrcHost(sm, c, rs1), Second(sm, c, rs1, rs2), Third(sm, c, rs1, rs2, rd);
      TwoSourcesTailEncodes(i, s1, s2, d);
      SrcSrcDstEncodes(sm, c, rs1, rs2, rd, TwoSourcesTail(i, s1, s2, d));
    } else if i.mnem in {LUI, AUIPC} {
      var k := if i.mnem == LUI then i.imm else Add(i.addr, i.imm);
      MoveEncodes(SrcHost(sm, c, rd), k);
      IntoDstEncodes(sm, c, rd, [MovImm(SrcHost(sm, c, rd), k)]);
      NoneEncodes();
    } else {
      var s, d := SrcHost(sm, c, rs1), DstHost(sm, c, rs1, rd);
      OneSourceTailEncodes(i, s, d);
      FromSourceEncodes(sm, c, rs1, rd, OneSourceTail(i, s, d));
    }
  }

  lemma MoveEncodes(d: Host, k: Word)
    ensures AllEncodable([MovImm(d, k)])
  {
  }

  // ----- emitters -----

  lemma SourceTailEncodes(i: PatternId, w: seq<Instr>, s: Host, d: Host)
    requires Matches(i, w) && AllDecoded(w) && FromOneSource(i)
    ensures AllEncodable(SourceTail(i, w, s, d))
  {
    Operands(i, w);
    assert Decoded(w[0]) && ElementMatches(Elements(i)[0], w, 0);
    hide Matches, Elements, AllDecoded;
    if i in {P7, P23} { Imm12Fits(w[0].imm); }
    hide FitsInt32;
  }

  lemma LoadWordEncodes(sm: StaticMap, c: Cache, rd: Guest, addr: Word, wide: bool)
    ensures AllEncodable(LoadWord(sm, c, rd, addr, wide).code)
  {
    var d := SrcHost(sm, c, rd);
    hide SrcHost, FitsInt32;
    if FitsInt32(addr) {
      assert AllEncodable([NearLoad(d, addr, wide)]);
      IntoDstEncodes(sm, c, rd, [NearLoad(d, addr, wide)]);
    } else {
      var i: Index := if d != AX then 0 else 2;
      var e1 := GetDst(sm, c, rd);
      var e2 := Invalidate(e1.cache, i, true);
      var tail := [MovImm(HostOf(i), addr), BasedLoad(d, HostOf(i), wide)];
      assert AllEncodable(e2.code) && AllEncodable(tail);
      hide AllEncodable, GetDst, Invalidate;
      GetEncodes(sm, c, rd);
      EncodableAppend(e1.code, e2.code);
      EncodableAppend(e1.code + e2.code, tail);
    }
  }

  lemma FlushedEncodes(c: Cache, tail: seq<Code>)
    ensures AllEncodable(Flushed(c, tail).code) <==> AllEncodable(tail)
  {
    hide InvalidateAll, AllEncodable;
    FlushEncodes(c);
    EncodableAppend(InvalidateAll(c).code, tail);
  }

  lemma ConstantEncodes(sm: StaticMap, c: Cache, rd: Guest, k: Word)
    ensures AllEncodable(Constant(sm, c, rd, k).code)
  {
    MoveEncodes(SrcHost(sm, c, rd), k);
    IntoDstEncodes(sm, c, rd, [MovImm(SrcHost(sm, c, rd), k)]);
  }

  lemma CopyEncodes(sm: StaticMap, c: Cache, rs: Guest, rd: Guest)
    ensures AllEncodable(Emitters.Copy(sm, c, rs, rd).code)
  {
    var d := SrcHost(sm, c, rd);
    var move := MoveTail(SrcHost(sm, c, rs), DstHost(sm, c, rs, rd));
    assert AllEncodable([Xor32(d, d)]) && AllEncodable(move) by { hide SrcHost, DstHost; }
    IntoDstEncodes(sm, c, rd, [Xor32(d, d)]);
    FromSourceEncodes(sm, c, rs, rd, move);
  }

  lemma Pattern2Immediate(w: seq<Instr>)
    requires Matches(P2, w) && AllDecoded(w)
    ensures |w| == 5 && FitsInt32(w[3].imm)
  {
    assert ElementMatches(Elements(P2)[3], w, 3);
    Imm12Fits(w[3].imm);
  }

  lemma MemoryEncodes(w: seq<Instr>)
    requires Matches(P2, w) && AllDecoded(w)
    ensures |w| == 5 && AllEncodable(AddMemory(Address3(w), w[3].imm))
  {
    Pattern2Immediate(w);
    hide FitsInt32, Matches, AllDecoded;
  }

  lemma SextEncodes(sm: StaticMap, rs: Guest, rd: Guest)
    ensures AllEncodable(SextCode(sm, rs, rd))
  {
  }

  /** The encoder takes the code of every window but those of pattern 17, of which it takes
      none. */
  lemma EmittedEncodes(i: PatternId, sm: StaticMap, c: Cache, w: seq<Instr>)
    requires Matches(i, w) && AllDecoded(w)
    ensures |w| == Length(i)
    ensures AllEncodable(Emitted(i, sm, c, w).code) <==> i != P17
  {
    var rs, rd := AsGuest(w[0].rs1), AsGuest(w[0].rd);
    if FromOneSource(i) {
      var s := SourceOf(i, w);
      var tail := SourceTail(i, w, SrcHost(sm, c, s), DstHost(sm, c, s, rd));
      SourceTailEncodes(i, w, SrcHost(sm, c, s), DstHost(sm, c, s, rd));
      FromSourceEncodes(sm, c, s, rd, tail);
    } else if i == P17 {
      var tail := MoveTail(SrcHost(sm, c, rs), DstHost(sm, c, rs, rd)) + [Malformed];
      assert Malformed in tail && !Encodable(Malformed);
      FromSourceEncodes(sm, c, rs, rd, tail);
    } else {
      OtherEmittedEncodes(i, sm, c, w);
    }
  }

  lemma OtherEmittedEncodes(i: PatternId, sm: StaticMap, c: Cache, w: seq<Instr>)
    requires Matches(i, w) && AllDecoded(w) && !FromOneSource(i) && i != P17
    ensures |w| == Length(i)
    ensures AllEncodable(Emitted(i, sm, c, w).code)
  {
    var rs, rd := AsGuest(w[0].rs1), AsGuest(w[0].rd);
    hide Constant, Emitters.Copy, LoadWord, Flushed, Zext32, AddMemory, SextCode, Add;
    if i == P2 {
      MemoryEncodes(w);
      FlushedEncodes(c, AddMemory(Address3(w), w[3].imm));
    } else if i == P9 {
      var e1 := Constant(sm, c, rd, w[0].imm);
      ConstantEncodes(sm, c, rd, w[0].imm);
      Zext32Encodes(sm, e1.cache, AsGuest(w[2].rs1), AsGuest(w[2].rd));
      EncodableAppend(e1.code, Zext32(sm, e1.cache, AsGuest(w[2].rs1), AsGuest(w[2].rd)).code);
    } else if i == P8 {
      SextEncodes(sm, rs, rd);
      FlushedEncodes(c, SextCode(sm, rs, rd));
    } else if i == P4 || i == P5 {
      LoadWordEncodes(sm, c, rd, Address2(w), i == P5);
    } else if i == P11 {
      CopyEncodes(sm, c, rs, rd);
    } else if i == P10 {
      assert AllEncodable([Nop]);
    } else {
      NoneEncodes();
      if i == P3 { ConstantEncodes(sm, c, rd, Address2(w)); }
      if i == P19 { ConstantEncodes(sm, c, rd, Add(w[0].imm, w[1].imm)); }
      if i == P20 { ConstantEncodes(sm, c, rd, w[0].imm); }
    }
  }

  lemma Zext32Encodes(sm: StaticMap, c: Cache, rs: Guest, rd: Guest)
    ensures AllEncodable(Zext32(sm, c, rs, rd).code)
  {
    var tail := Zext32Tail(SrcHost(sm, c, rs), DstHost(sm, c, rs, rd));
    assert AllEncodable(tail) by { hide SrcHost, DstHost; }
    FromSourceEncodes(sm, c, rs, rd, tail);
  }

  // ----- exits -----

  /** A constant for a register kept in memory has to be a signed 32-bit number. */
  predicate ConstantFits(sm: StaticMap, r: Guest, w: Word) { sm[r].Mapped? || FitsInt32(w) }

  /** When the encoder takes the code of a jump: with pc in memory a JAL whose target, and a
      linking JALR to a register in memory whose return address, is no signed 32-bit number is
      refused. */
  lemma ExitEncodes(sm: StaticMap, c: Cache, i: Instr)
    requires Decoded(i) && IsExit(i.mnem)
    ensures AllEncodable(ExitCode(sm, c, i).code) <==>
              match i.mnem
              case JAL => ConstantFits(sm, PC, Add(i.addr, i.imm))
              case JALR => i.rd == X0 || ConstantFits(sm, i.rd, Add(i.addr, 4))
              case _ => true
  {
    hide FitsInt32, InvalidateAll, Translated, Add;
    match i.mnem
    case JAL =>
      var e := Translated(sm, c, Instr(i.addr, AUIPC, IMMEDIATE, 0, 0, i.rd, 4));
      var f := InvalidateAll(e.cache);
      var jump := [SetConstant(sm, PC, Add(i.addr, i.imm))];
      TranslatedEncodes(sm, c, Instr(i.addr, AUIPC, IMMEDIATE, 0, 0, i.rd, 4));
      FlushEncodes(e.cache);
      EncodableAppend(f.code, jump);
      EncodableAppend(e.code, f.code + jump);
      SetEncodes(sm, PC, Add(i.addr, i.imm));
    case JALR =>
      JalrEncodes(sm, c, i);
    case PC_NEXT_INST =>
      var tail := [MovImm(AX, i.imm), Store(PC, AX)];
      assert AllEncodable(tail);
      FlushedEncodes(c, tail);
  }

  lemma SetEncodes(sm: StaticMap, r: Guest, w: Word)
    ensures AllEncodable([SetConstant(sm, r, w)]) <==> ConstantFits(sm, r, w)
  {
    hide FitsInt32;
    assert SetConstant(sm, r, w) in [SetConstant(sm, r, w)];
  }

  lemma JalrEncodes(sm: StaticMap, c: Cache, i: Instr)
    requires Decoded(i) && i.mnem == JALR
    ensures AllEncodable(JalrCode(sm, c, i).code) <==> i.rd == X0 || ConstantFits(sm, i.rd, Add(i.addr, 4))
  {
    var target, link, jump := TargetCode(sm, i), LinkCode(sm, i), [PcFromAx(sm)];
    Imm12Fits(i.imm);
    assert FitsInt32(EVEN);
    hide FitsInt32, InvalidateAll, Add;
    assert AllEncodable(target) && AllEncodable(jump);
    if i.rd == X0 { NoneEncodes(); } else { SetEncodes(sm, i.rd, Add(i.addr, 4)); }
    hide TargetCode, PcFromAx, SetConstant, AllEncodable, ConstantFits;
    EncodableAppend(link, jump);
    EncodableAppend(target, link + jump);
    FlushedEncodes(c, target + (link + jump));
  }

  // ----- blocks -----

  /** The encoder refuses the code of piece k: a window of pattern 17, or an instruction that a
      translator given as a parameter turns into code that is refused. */
  predicate Refused(sm: StaticMap, plain: Plain, orig: seq<Instr>, c: Cache, pieces: seq<Piece>, k: nat)
    requires Within(orig, pieces) && k < |pieces|
  {
    var p := pieces[k];
    if p.Window? then p.id == P17
    else
      var i := orig[p.at];
      !Known(i.mnem) && !AllEncodable(plain(EmitPieces(sm, plain, orig, c, pieces[..k]).cache, i).code)
  }

  lemma PieceEncodes(sm: StaticMap, plain: Plain, orig: seq<Instr>, c: Cache, p: Piece)
    requires Parsed(orig) && End(p) <= |orig| && (p.Window? ==> Matches(p.id, orig[p.at..End(p)]))
    ensures AllEncodable(EmitPiece(sm, plain, orig, c, p).code) <==>
              if p.Window? then p.id != P17
              else Known(orig[p.at].mnem) || AllEncodable(plain(c, orig[p.at]).code)
  {
    hide AllEncodable, Translated, Emitted, Matches, Elements, Known;
    if p.Window? {
      var w := orig[p.at..End(p)];
      assert AllDecoded(w);
      EmittedEncodes(p.id, sm, c, w);
    } else if Known(orig[p.at].mnem) {
      assert Decoded(orig[p.at]);
      TranslatedEncodes(sm, c, orig[p.at]);
    }
  }

  lemma {:induction false} PiecesEncode(sm: StaticMap, plain: Plain, orig: seq<Instr>, c: Cache, pieces: seq<Piece>,
                                        upto: nat)
    requires Parsed(orig) && Tiles(orig, pieces, upto) && Within(orig, pieces)
    ensures AllEncodable(EmitPieces(sm, plain, orig, c, pieces).code) <==>
              forall k :: 0 <= k < |pieces| ==> !Refused(sm, plain, orig, c, pieces, k)
    decreases |pieces|
  {
    hide AllEncodable, EmitPiece, Matches, Parsed, Known;
    if pieces == [] {
      NoneEncodes();
    } else {
      var n := |pieces| - 1;
      var front := pieces[..n];
      var e := EmitPieces(sm, plain, orig, c, front);
      PiecesEncode(sm, plain, orig, c, front, pieces[n].at);
      PieceEncodes(sm, plain, orig, e.cache, pieces[n]);
      EncodableAppend(e.code, EmitPiece(sm, plain, orig, e.cache, pieces[n]).code);
      forall k | 0 <= k < n
        ensures Refused(sm, plain, orig, c, pieces, k) <==> Refused(sm, plain, orig, c, front, k)
      {
        assert front[k] == pieces[k] && front[..k] == pieces[..k];
      }
      assert Refused(sm, plain, orig, c, pieces, n)
        <==> !AllEncodable(EmitPiece(sm, plain, orig, e.cache, pieces[n]).code);
    }
  }

  /** Translating a block fails exactly when one of its pieces is refused. */
  lemma BlockEncodes(sm: StaticMap, plain: Plain, orig: seq<Instr>, pieces: seq<Piece>, c: Cache)
    requires Parsed(orig) && Tiles(orig, pieces, |orig|) && Within(orig, pieces)
    ensures AllEncodable(BlockCode(sm, plain, orig, pieces, c).code) <==>
              forall k :: 0 <= k < |pieces| ==> !Refused(sm, plain, orig, InvalidateAll(c).cache, pieces, k)
  {
    hide AllEncodable, Tiles, Parsed, Refused, InvalidateAll, EmitPieces;
    var e0 := InvalidateAll(c);
    var e1 := EmitPieces(sm, plain, orig, e0.cache, pieces);
    FlushEncodes(c);
    FlushEncodes(e1.cache);
    PiecesEncode(sm, plain, orig, e0.cache, pieces, |orig|);
    EncodableAppend(e0.code, e1.code);
    EncodableAppend(e0.code + e1.code, InvalidateAll(e1.cache).code);
  }

  /** The same for recorded code: it is refused exactly when one of its pieces is. */
  lemma RefusedExactly(sm: StaticMap, plain: Plain, fusion: bool, orig: seq<Instr>, marked: seq<Instr>, code: seq<Code>)
    requires Parsed(orig) && Generated(sm, plain, fusion, orig, marked, code)
    ensures exists c: Cache ::
              Inv(sm, c) && Empty(c)
              && (AllEncodable(code) <==>
                    forall k :: 0 <= k < |Pieces(marked, 0)| ==> !Refused(sm, plain, orig, c, Pieces(marked, 0), k))
  {
    hide AllEncodable, Tiles, Parsed, Refused, Inv, BlockCode, Marked, Within, Exhausted, Pieces;
    var c: Cache :| Inv(sm, c) && Empty(c) && code == BlockCode(sm, plain, orig, Pieces(marked, 0), c).code;
    BlockEncodes(sm, plain, orig, Pieces(marked, 0), c);
    NothingFlushed(sm, c);
  }

  lemma NothingFlushed(sm: StaticMap, c: Cache)
    requires Inv(sm, c) && Empty(c)
    ensures InvalidateAll(c).cache == c
  {
    var i0: Index, i1: Index, i2: Index := 0, 1, 2;
    assert c.content[i0] == c.content[i1] == c.content[i2] == INVALID;
    assert c.recency[i0] == c.recency[i1] == c.recency[i2] == 0;
    assert c.content == [INVALID, INVALID, INVALID] && c.recency == [0, 0, 0];
  }
}
