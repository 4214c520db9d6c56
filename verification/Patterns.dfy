/** The fusion patterns, what the matcher accepts, and what an accepted window means. */
module Patterns {
  import opened Words
  import opened X86
  import opened RegisterCache
  import opened Riscv

  /** A register field of a pattern element: a fixed register, or a reference to the window
      position stored in h1 or h2. */
  datatype RegSpec = DONT_CARE | Is(r: nat) | rd_h1 | rd_h2 | not_rd_h1

  datatype ImmSpec = AnyImm | ImmIs(value: Word) | ImmOf(position: nat)

  datatype Element = Element(mnem: Mnem, rs1: RegSpec, rs2: RegSpec, rd: RegSpec, h1: nat, h2: nat, imm: ImmSpec)

  const N_PATTERNS: nat := 22

  type PatternId = i: nat | i < N_PATTERNS

  // Positions in the ordered table.
  const P2: PatternId := 0
  const P9: PatternId := 1
  const P7: PatternId := 2
  const P3: PatternId := 3
  const P4: PatternId := 4
  const P5: PatternId := 5
  const P6: PatternId := 6
  const P21: PatternId := 7
  const P19: PatternId := 8
  const P23: PatternId := 9
  const P11: PatternId := 10
  const P20: PatternId := 11
  const P8: PatternId := 12
  const P22: PatternId := 13
  const P10: PatternId := 14
  const P12: PatternId := 15
  const P13: PatternId := 16
  const P14: PatternId := 17
  const P15: PatternId := 18
  const P16: PatternId := 19
  const P17: PatternId := 20
  const P18: PatternId := 21

  function Any(mnem: Mnem): Element { Element(mnem, DONT_CARE, DONT_CARE, DONT_CARE, 0, 0, AnyImm) }

  function AnyWith(mnem: Mnem, imm: Word): Element { Any(mnem).(imm := ImmIs(imm)) }

  /** An instruction on the destination of window position 0, in place. */
  function InPlace(mnem: Mnem, imm: ImmSpec): Element { Element(mnem, rd_h1, DONT_CARE, rd_h1, 0, 0, imm) }

  function FromX0(mnem: Mnem): Element { Any(mnem).(rs1 := Is(0)) }

  /** The active entries of patterns[], in order of decreasing length. */
  function Elements(i: PatternId): seq<Element> {
    if i == P2 then [Any(AUIPC),
                     Element(ADDI, rd_h1, DONT_CARE, DONT_CARE, 0, 0, AnyImm),
                     Element(LW, rd_h1, DONT_CARE, DONT_CARE, 1, 0, AnyImm),
                     Element(ADDIW, rd_h1, DONT_CARE, DONT_CARE, 2, 0, AnyImm),
                     Element(SW, rd_h1, rd_h2, DONT_CARE, 0, 3, ImmOf(2))]
    else if i == P9 then [Any(LUI),
                          Element(ADDI, rd_h1, DONT_CARE, not_rd_h1, 0, 0, ImmIs(0)),
                          Element(SLLI, not_rd_h1, DONT_CARE, rd_h2, 1, 0, ImmIs(32)),
                          Element(SRLI, rd_h1, DONT_CARE, rd_h1, 2, 0, ImmIs(32))]
    else if i == P7 then [Any(ADDIW), InPlace(SLLI, ImmIs(32)), InPlace(SRLI, ImmIs(32))]
    else if i == P3 then [Any(AUIPC), InPlace(ADDI, AnyImm)]
    else if i == P4 then [Any(AUIPC), InPlace(LW, AnyImm)]
    else if i == P5 then [Any(AUIPC), InPlace(LD, AnyImm)]
    else if i == P6 then [AnyWith(SLLI, 32), InPlace(SRLI, ImmIs(32))]
    else if i == P21 then [AnyWith(SLLI, 32), InPlace(SRLI, AnyImm)]
    else if i == P19 then [Any(LUI), InPlace(ADDI, AnyImm)]
    else if i == P23 then [Any(ADDIW), InPlace(ANDI, ImmIs(0xFF))]
    else if i == P11 then [AnyWith(ADDI, 0)]
    else if i == P20 then [FromX0(ADDI)]
    else if i == P8 then [AnyWith(ADDIW, 0)]
    else if i == P22 then [AnyWith(ANDI, 0xFF)]
    else if i == P10 then [AnyWith(ADDI, 0).(rs1 := Is(0), rd := Is(0))]
    else if i == P12 then [AnyWith(XORI, TWO_64 - 1)]
    else if i == P13 then [FromX0(SUB)]
    else if i == P14 then [FromX0(SUBW)]
    else if i == P15 then [AnyWith(SLTIU, 1)]
    else if i == P16 then [FromX0(SLTU)]
    else if i == P17 then [Any(SLT).(rs2 := Is(0))]
    else [FromX0(SLT)]
  }

  function Length(i: PatternId): (n: nat)
    ensures 1 <= n <= 5
  {
    |Elements(i)|
  }

  /** References stay inside the window. */
  predicate Inside(e: Element, n: nat) {
    e.h1 < n && e.h2 < n && (e.imm.ImmOf? ==> e.imm.position < n)
  }

  /** Every reference of every table stays inside its window, and no table asks for one of
      the mnemonics that marking introduces. */
  lemma TablesWellFormed(i: PatternId)
    ensures forall k :: 0 <= k < Length(i) ==>
              Inside(Elements(i)[k], Length(i)) && Elements(i)[k].mnem !in {PATTERN_EMIT, SILENT_NOP}
  {
  }

  /** One register field of element `e` against the window `w`. */
  predicate RegMatches(spec: RegSpec, e: Element, actual: nat, w: seq<Instr>)
    requires e.h1 < |w| && e.h2 < |w|
  {
    match spec
    case DONT_CARE => true
    case Is(r) => actual == r
    case rd_h1 => actual == w[e.h1].rd
    case rd_h2 => actual == w[e.h2].rd
    case not_rd_h1 => actual != w[e.h1].rd
  }

  predicate ImmMatches(spec: ImmSpec, actual: Word, w: seq<Instr>)
    requires spec.ImmOf? ==> spec.position < |w|
  {
    match spec
    case AnyImm => true
    case ImmIs(v) => actual == v
    case ImmOf(k) => actual == w[k].imm
  }

  predicate ElementMatches(e: Element, w: seq<Instr>, k: nat)
    requires k < |w| && Inside(e, |w|)
  {
    && w[k].mnem == e.mnem
    && RegMatches(e.rs1, e, w[k].rs1, w)
    && RegMatches(e.rs2, e, w[k].rs2, w)
    && RegMatches(e.rd, e, w[k].rd, w)
    && ImmMatches(e.imm, w[k].imm, w)
  }

  /** The matcher accepts window `w` for pattern i. */
  predicate Matches(i: PatternId, w: seq<Instr>) {
    && |w| == Length(i)
    && forall k :: 0 <= k < |w| ==> Inside(Elements(i)[k], |w|) && ElementMatches(Elements(i)[k], w, k)
  }

  ghost predicate AllDecoded(w: seq<Instr>) {
    forall k :: 0 <= k < |w| ==> Decoded(w[k])
  }

  /** No table repeats the mnemonic of its first element, so accepted windows of one pattern
      never overlap. */
  lemma FirstMnemUnique(i: PatternId)
    ensures forall k :: 0 < k < Length(i) ==> Elements(i)[k].mnem != Elements(i)[0].mnem
  {
  }

  /** Pattern 10 accepts only what pattern 11, earlier in the table, accepts too. */
  lemma Pattern10Subsumed(w: seq<Instr>)
    requires Matches(P10, w)
    ensures Matches(P11, w)
  {
    assert ElementMatches(Elements(P10)[0], w, 0);
    assert ElementMatches(Elements(P11)[0], w, 0);
  }

  predicate Mnems(w: seq<Instr>, mnems: seq<Mnem>) {
    |w| == |mnems| && forall k :: 0 <= k < |w| ==> w[k].mnem == mnems[k]
  }

  /** An instruction whose source and destination are the register d. */
  predicate On(i: Instr, d: nat) { i.rs1 == d && i.rd == d }

  /** The instruction sequences that the patterns are meant for. */
  predicate Shape(i: PatternId, w: seq<Instr>) {
    if i == P2 then
      Mnems(w, [AUIPC, ADDI, LW, ADDIW, SW])
      && w[1].rs1 == w[0].rd && w[2].rs1 == w[1].rd && w[3].rs1 == w[2].rd
      && w[4].rs1 == w[0].rd && w[4].rs2 == w[3].rd && w[4].imm == w[2].imm
    else if i == P9 then
      Mnems(w, [LUI, ADDI, SLLI, SRLI])
      && w[1].rs1 == w[0].rd && w[1].rd != w[0].rd && w[1].imm == 0
      && w[2].rs1 != w[1].rd && w[2].rd == w[0].rd && w[2].imm == 32 && On(w[3], w[2].rd) && w[3].imm == 32
    else if i == P7 then
      Mnems(w, [ADDIW, SLLI, SRLI])
      && On(w[1], w[0].rd) && w[1].imm == 32 && On(w[2], w[0].rd) && w[2].imm == 32
    else if i == P3 then Mnems(w, [AUIPC, ADDI]) && On(w[1], w[0].rd)
    else if i == P4 then Mnems(w, [AUIPC, LW]) && On(w[1], w[0].rd)
    else if i == P5 then Mnems(w, [AUIPC, LD]) && On(w[1], w[0].rd)
    else if i == P6 then Mnems(w, [SLLI, SRLI]) && On(w[1], w[0].rd) && w[0].imm == 32 && w[1].imm == 32
    else if i == P21 then Mnems(w, [SLLI, SRLI]) && On(w[1], w[0].rd) && w[0].imm == 32
    else if i == P19 then Mnems(w, [LUI, ADDI]) && On(w[1], w[0].rd)
    else if i == P23 then Mnems(w, [ADDIW, ANDI]) && On(w[1], w[0].rd) && w[1].imm == 0xFF
    else if i == P11 then Mnems(w, [ADDI]) && w[0].imm == 0
    else if i == P20 then Mnems(w, [ADDI]) && w[0].rs1 == 0
    else if i == P8 then Mnems(w, [ADDIW]) && w[0].imm == 0
    else if i == P22 then Mnems(w, [ANDI]) && w[0].imm == 0xFF
    else if i == P10 then Mnems(w, [ADDI]) && On(w[0], 0) && w[0].imm == 0
    else if i == P12 then Mnems(w, [XORI]) && w[0].imm == TWO_64 - 1
    else if i == P13 then Mnems(w, [SUB]) && w[0].rs1 == 0
    else if i == P14 then Mnems(w, [SUBW]) && w[0].rs1 == 0
    else if i == P15 then Mnems(w, [SLTIU]) && w[0].imm == 1
    else if i == P16 then Mnems(w, [SLTU]) && w[0].rs1 == 0
    else if i == P17 then Mnems(w, [SLT]) && w[0].rs2 == 0
    else Mnems(w, [SLT]) && w[0].rs1 == 0
  }

  predicate MatchesAt(i: PatternId, w: seq<Instr>, k: nat)
    requires |w| == Length(i)
  {
    k < |w| ==> Inside(Elements(i)[k], |w|) && ElementMatches(Elements(i)[k], w, k)
  }

  lemma MatchesEach(i: PatternId, w: seq<Instr>)
    requires |w| == Length(i)
    ensures Matches(i, w) <==>
              MatchesAt(i, w, 0) && MatchesAt(i, w, 1) && MatchesAt(i, w, 2) && MatchesAt(i, w, 3) && MatchesAt(i, w, 4)
  {
    var n := Length(i);
    hide Elements, ElementMatches, Inside;
    if MatchesAt(i, w, 0) && MatchesAt(i, w, 1) && MatchesAt(i, w, 2) && MatchesAt(i, w, 3) && MatchesAt(i, w, 4) {
      forall k | 0 <= k < |w| ensures MatchesAt(i, w, k) {
        assert k == 0 || k == 1 || k == 2 || k == 3 || k == 4;
      }
    }
  }

  lemma MatchesFive(w: seq<Instr>)
    requires |w| == Length(P2)
    ensures Matches(P2, w) <==> Shape(P2, w)
  {
    MatchesEach(P2, w);
    hide Matches;
  }

  lemma MatchesFour(w: seq<Instr>)
    requires |w| == Length(P9)
    ensures Matches(P9, w) <==> Shape(P9, w)
  {
    MatchesEach(P9, w);
    hide Matches;
  }

  lemma MatchesThree(w: seq<Instr>)
    requires |w| == Length(P7)
    ensures Matches(P7, w) <==> Shape(P7, w)
  {
    MatchesEach(P7, w);
    hide Matches;
  }

  lemma MatchesPair(i: PatternId, w: seq<Instr>)
    requires i in {P3, P4, P5, P19} && |w| == Length(i)
    ensures Matches(i, w) <==> Shape(i, w)
  {
    MatchesEach(i, w);
    hide Matches;
  }

  lemma MatchesFixedPair(i: PatternId, w: seq<Instr>)
    requires i in {P6, P21, P23} && |w| == Length(i)
    ensures Matches(i, w) <==> Shape(i, w)
  {
    MatchesEach(i, w);
    hide Matches;
  }

  lemma MatchesZero(i: PatternId, w: seq<Instr>)
    requires i in {P10, P13, P14, P16, P17, P18, P20} && |w| == Length(i)
    ensures Matches(i, w) <==> Shape(i, w)
  {
    MatchesEach(i, w);
    hide Matches;
  }

  lemma MatchesImmediate(i: PatternId, w: seq<Instr>)
    requires i in {P8, P11, P12, P15, P22} && |w| == Length(i)
    ensures Matches(i, w) <==> Shape(i, w)
  {
    MatchesEach(i, w);
    hide Matches;
  }

  lemma ShapeLength(i: PatternId, w: seq<Instr>)
    requires Shape(i, w)
    ensures |w| == Length(i)
  {
  }

  /** The tables accept exactly these, with every register and immediate that is not fixed. */
  lemma MatchesExactly(i: PatternId, w: seq<Instr>)
    ensures Matches(i, w) <==> Shape(i, w)
  {
    hide Shape, Elements;
    if Shape(i, w) { ShapeLength(i, w); }
    if |w| == Length(i) {
      if i == P2 {
        MatchesFive(w);
      } else if i == P9 {
        MatchesFour(w);
      } else if i == P7 {
        MatchesThree(w);
      } else if i in {P3, P4, P5, P19} {
        MatchesPair(i, w);
      } else if i in {P6, P21, P23} {
        MatchesFixedPair(i, w);
      } else if i in {P8, P11, P12, P15, P22} {
        MatchesImmediate(i, w);
      } else {
        MatchesZero(i, w);
      }
    }
  }

  /** The register fields of an accepted window name registers. */
  lemma Operands(i: PatternId, w: seq<Instr>)
    requires Matches(i, w) && AllDecoded(w)
    ensures |w| == Length(i) && w[0].rd < 32 && (|w| == 2 ==> w[1].rd == w[0].rd)
    ensures i in {P6, P7, P8, P11, P12, P15, P21, P22, P23} ==> w[0].rs1 < 32
    ensures i in {P13, P14, P16, P18} ==> w[0].rs2 < 32
    ensures i == P21 ==> w[1].imm < 64
  {
    assert ElementMatches(Elements(i)[0], w, 0);
    if |w| == 2 { assert ElementMatches(Elements(i)[1], w, 1); }
  }

  // ----- the meaning of the windows that are emitted soundly -----

  lemma Meaning3(other: Other, w: seq<Instr>, s: State)
    requires Matches(P3, w) && AllDecoded(w)
    ensures Steps(other, w, s) == SetReg(s, w[1].rd, Add(Add(w[0].addr, w[0].imm), w[1].imm))
  {
    hide Steps, Imm12;
    Steps2(other, w, s);
    assert ElementMatches(Elements(P3)[0], w, 0) && ElementMatches(Elements(P3)[1], w, 1);
  }

  lemma Meaning4(other: Other, w: seq<Instr>, s: State)
    requires Matches(P4, w) && AllDecoded(w)
    ensures Steps(other, w, s) == SetReg(s, w[1].rd, Sx32(Read32(s.mem, Add(Add(w[0].addr, w[0].imm), w[1].imm))))
  {
    hide Steps, Imm12;
    Steps2(other, w, s);
    assert ElementMatches(Elements(P4)[0], w, 0) && ElementMatches(Elements(P4)[1], w, 1);
  }

  lemma Meaning5(other: Other, w: seq<Instr>, s: State)
    requires Matches(P5, w) && AllDecoded(w)
    ensures Steps(other, w, s) == SetReg(s, w[1].rd, Read64(s.mem, Add(Add(w[0].addr, w[0].imm), w[1].imm)))
  {
    hide Steps, Imm12;
    Steps2(other, w, s);
    assert ElementMatches(Elements(P5)[0], w, 0) && ElementMatches(Elements(P5)[1], w, 1);
  }

  lemma Meaning6(other: Other, w: seq<Instr>, s: State)
    requires Matches(P6, w) && AllDecoded(w)
    ensures Steps(other, w, s) == SetReg(s, w[1].rd, Low32(Reg(s, w[0].rs1)))
  {
    hide Steps, Imm12;
    Steps2(other, w, s);
    assert ElementMatches(Elements(P6)[0], w, 0) && ElementMatches(Elements(P6)[1], w, 1);
    ShiftUpDown(Reg(s, w[0].rs1));
  }

  lemma Meaning7(other: Other, w: seq<Instr>, s: State)
    requires Matches(P7, w) && AllDecoded(w)
    ensures Steps(other, w, s) == SetReg(s, w[0].rd, Low32(Add(Reg(s, w[0].rs1), w[0].imm)))
  {
    hide Steps, Imm12;
    Steps3(other, w, s);
    assert ElementMatches(Elements(P7)[0], w, 0) && ElementMatches(Elements(P7)[1], w, 1);
    assert ElementMatches(Elements(P7)[2], w, 2);
    ZeroExtendSum(Reg(s, w[0].rs1), w[0].imm);
  }

  lemma Meaning8(other: Other, w: seq<Instr>, s: State)
    requires Matches(P8, w) && AllDecoded(w)
    ensures Steps(other, w, s) == SetReg(s, w[0].rd, Sx32(Reg(s, w[0].rs1)))
  {
    hide Steps, Imm12;
    Steps1(other, w, s);
    assert ElementMatches(Elements(P8)[0], w, 0);
  }

  lemma Meaning10(other: Other, w: seq<Instr>, s: State)
    requires Matches(P10, w) && AllDecoded(w)
    ensures Steps(other, w, s) == s
  {
    hide Steps, Imm12;
    Steps1(other, w, s);
    assert ElementMatches(Elements(P10)[0], w, 0);
  }

  lemma Meaning11(other: Other, w: seq<Instr>, s: State)
    requires Matches(P11, w) && AllDecoded(w)
    ensures Steps(other, w, s) == SetReg(s, w[0].rd, Reg(s, w[0].rs1))
  {
    hide Steps, Imm12;
    Steps1(other, w, s);
    assert ElementMatches(Elements(P11)[0], w, 0);
  }

  lemma Meaning12(other: Other, w: seq<Instr>, s: State)
    requires Matches(P12, w) && AllDecoded(w)
    ensures Steps(other, w, s) == SetReg(s, w[0].rd, Not(Reg(s, w[0].rs1)))
  {
    hide Steps, Imm12;
    Steps1(other, w, s);
    assert ElementMatches(Elements(P12)[0], w, 0);
    NotByXor(Reg(s, w[0].rs1));
  }

  lemma Meaning13(other: Other, w: seq<Instr>, s: State)
    requires Matches(P13, w) && AllDecoded(w)
    ensures Steps(other, w, s) == SetReg(s, w[0].rd, Sub(0, Reg(s, w[0].rs2)))
  {
    hide Steps, Imm12;
    Steps1(other, w, s);
    assert ElementMatches(Elements(P13)[0], w, 0);
  }

  lemma Meaning14(other: Other, w: seq<Instr>, s: State)
    requires Matches(P14, w) && AllDecoded(w)
    ensures Steps(other, w, s) == SetReg(s, w[0].rd, Sx32(Sub(0, Reg(s, w[0].rs2))))
  {
    hide Steps, Imm12;
    Steps1(other, w, s);
    assert ElementMatches(Elements(P14)[0], w, 0);
  }

  lemma Meaning15(other: Other, w: seq<Instr>, s: State)
    requires Matches(P15, w) && AllDecoded(w)
    ensures Steps(other, w, s) == SetReg(s, w[0].rd, Bool(Reg(s, w[0].rs1) == 0))
  {
    hide Steps, Imm12;
    Steps1(other, w, s);
    assert ElementMatches(Elements(P15)[0], w, 0);
  }

  lemma Meaning16(other: Other, w: seq<Instr>, s: State)
    requires Matches(P16, w) && AllDecoded(w)
    ensures Steps(other, w, s) == SetReg(s, w[0].rd, Bool(Reg(s, w[0].rs2) != 0))
  {
    hide Steps, Imm12;
    Steps1(other, w, s);
    assert ElementMatches(Elements(P16)[0], w, 0);
  }

  lemma Meaning18(other: Other, w: seq<Instr>, s: State)
    requires Matches(P18, w) && AllDecoded(w)
    ensures Steps(other, w, s) == SetReg(s, w[0].rd, Bool(Signed(Reg(s, w[0].rs2)) > 0))
  {
    hide Steps, Imm12;
    Steps1(other, w, s);
    assert ElementMatches(Elements(P18)[0], w, 0);
  }

  lemma Meaning19(other: Other, w: seq<Instr>, s: State)
    requires Matches(P19, w) && AllDecoded(w)
    ensures Steps(other, w, s) == SetReg(s, w[0].rd, Add(w[0].imm, w[1].imm))
  {
    hide Steps, Imm12;
    Steps2(other, w, s);
    assert ElementMatches(Elements(P19)[0], w, 0) && ElementMatches(Elements(P19)[1], w, 1);
  }

  lemma Meaning20(other: Other, w: seq<Instr>, s: State)
    requires Matches(P20, w) && AllDecoded(w)
    ensures Steps(other, w, s) == SetReg(s, w[0].rd, w[0].imm)
  {
    hide Steps, Imm12;
    Steps1(other, w, s);
    assert ElementMatches(Elements(P20)[0], w, 0);
  }

  lemma Meaning21(other: Other, w: seq<Instr>, s: State)
    requires Matches(P21, w) && AllDecoded(w)
    ensures Steps(other, w, s) == SetReg(s, w[0].rd, Shr(Shl(Reg(s, w[0].rs1), 32), w[1].imm))
  {
    hide Steps, Imm12;
    Steps2(other, w, s);
    assert ElementMatches(Elements(P21)[0], w, 0) && ElementMatches(Elements(P21)[1], w, 1);
  }

  lemma Meaning22(other: Other, w: seq<Instr>, s: State)
    requires Matches(P22, w) && AllDecoded(w)
    ensures Steps(other, w, s) == SetReg(s, w[0].rd, Low8(Reg(s, w[0].rs1)))
  {
    hide Steps, Imm12;
    Steps1(other, w, s);
    assert ElementMatches(Elements(P22)[0], w, 0);
    MaskLow8(Reg(s, w[0].rs1));
  }

  lemma Meaning23(other: Other, w: seq<Instr>, s: State)
    requires Matches(P23, w) && AllDecoded(w)
    ensures Steps(other, w, s) == SetReg(s, w[0].rd, Low8(Low32(Add(Reg(s, w[0].rs1), w[0].imm))))
  {
    hide Steps, Imm12;
    Steps2(other, w, s);
    assert ElementMatches(Elements(P23)[0], w, 0) && ElementMatches(Elements(P23)[1], w, 1);
    LowByteOfSum(Reg(s, w[0].rs1), w[0].imm);
  }
}
