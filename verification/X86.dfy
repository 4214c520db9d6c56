/** The small x86-64 machine that emitted code runs on.

    Code is a list of abstract instructions.  The machine holds the sixteen
    general-purpose registers, the guest register file and the swap file that the
    translator keeps in host memory, the guest memory, and the outcome of the last
    TEST or CMP.  Byte encodings, RIP-relative operands and NOP padding are not modelled. */
module X86 {
  import opened Words

  /** General-purpose registers, numbered as in the x86-64 encoding. */
  type Host = h: nat | h < 16

  const AX: Host := 0
  const CX: Host := 1
  const DX: Host := 2
  const BX: Host := 3
  const SP: Host := 4
  const BP: Host := 5
  const SI: Host := 6
  const DI: Host := 7
  const R8: Host := 8
  const R9: Host := 9
  const R10: Host := 10
  const R11: Host := 11
  const R12: Host := 12
  const R13: Host := 13
  const R14: Host := 14
  const R15: Host := 15

  /** The guest register file has N_REG = 34 slots: x0 to x31, pc, and an unused one. */
  const N_REG: nat := 34

  type Slot = s: nat | s < N_REG

  /** Slots of the swap file: BX, BP, R12 to R15 and a scratch slot. */
  type Swap = k: nat | k < 7

  type Registers = s: seq<Word> | |s| == 16 witness [0, 0, 0, 0, 0, 0, 0, 0, 0, 0, 0, 0, 0, 0, 0, 0]
  type File = s: seq<Word> | |s| == N_REG witness seq(N_REG, i => 0)
  type SwapFile = s: seq<Word> | |s| == 7 witness [0, 0, 0, 0, 0, 0, 0]
  type Memory = map<Word, Byte>

  /** The outcome of a CMP: first operand less, as signed and as unsigned numbers. */
  datatype Order = Order(less: bool, below: bool)

  const UNORDERED := Order(false, false)

  datatype Machine = Machine(regs: Registers, file: File, swap: SwapFile, mem: Memory, tested: Word, order: Order)

  /** Two-operand arithmetic with the first operand as destination. */
  datatype Alu = Add64 | Sub64 | And64 | Or64 | Xor64 | Add32 | Sub32 | And32 | Mul64 | Mul32

  datatype Code =
    | Store(slot: Slot, src: Host)             // MOV64mr [base + 8*slot], src
    | StoreImm(slot: Slot, imm: Word)          // MOV64mi [base + 8*slot], imm: its lower half, sign-extended
    | Fetch(dst: Host, slot: Slot)             // MOV64rm dst, [base + 8*slot]
    | FetchSx32(dst: Host, slot: Slot)         // MOVSXr64m32 dst, [base + 8*slot]
    | SaveSwap(k: Swap, src: Host)             // MOV64mr [swap + 8*k], src
    | LoadSwap(dst: Host, k: Swap)             // MOV64rm dst, [swap + 8*k]
    | Mov64(dst: Host, src: Host)
    | Mov32(dst: Host, src: Host)              // clears the upper half
    | MovImm(dst: Host, imm: Word)
    | Xchg64(dst: Host, src: Host)
    | Xor32(dst: Host, src: Host)
    | AluRR(op: Alu, dst: Host, src: Host)
    | AluRI(op: Alu, dst: Host, imm: Word)
    | Lea32(dst: Host, src: Host, imm: Word)
    | Lea64(dst: Host, src: Host, imm: Word)
    | LeaScaled64(dst: Host, src: Host, count: Word)  // LEA64rm dst, [src << count]
    | ShlImm64(dst: Host, count: Word)
    | ShrImm64(dst: Host, count: Word)
    | ShrImm32(dst: Host, count: Word)
    | Not64(dst: Host)
    | Neg64(dst: Host)
    | Neg32(dst: Host)
    | Movsx64From32(dst: Host, src: Host)
    | Movzx32From8(dst: Host, src: Host)
    | Test64(dst: Host, src: Host)
    | SetZ(dst: Host)
    | SetNZ(dst: Host)
    | SetG(dst: Host)
    | Cmp64(fst: Host, snd: Host)
    | CmpImm64(fst: Host, imm: Word)
    | SetL(dst: Host)
    | SetC(dst: Host)
    | LoadSx32Abs(dst: Host, addr: Word)       // MOVSXr64m32 dst, [addr], addr a signed 32-bit number
    | Load64Abs(dst: Host, addr: Word)         // MOV64rm dst, [addr]
    | LoadSx32(dst: Host, base: Host)          // MOVSXr64m32 dst, [base]
    | Load64(dst: Host, base: Host)            // MOV64rm dst, [base]
    | LoadSx32At(dst: Host, base: Host, disp: Word)   // MOVSXr64m32 dst, [base + disp]
    | Load64At(dst: Host, base: Host, disp: Word)     // MOV64rm dst, [base + disp]
    | Store32At(base: Host, disp: Word, src: Host)    // MOV32mr [base + disp], src
    | Store64At(base: Host, disp: Word, src: Host)    // MOV64mr [base + disp], src
    | AddMem32Abs(addr: Word, imm: Word)       // ADD32mi [addr], imm
    | AddMem32(base: Host, imm: Word)          // ADD32mi [base], imm
    | Malformed                                // an encoder call that lacks an operand
    | Nop

  /** True when the word, read as signed, is a signed 32-bit number. */
  predicate FitsInt32(w: Word) { Sx32(w) == w }

  lemma FitsExactly(w: Word)
    ensures FitsInt32(w) <==> -0x8000_0000 <= Signed(w) < 0x8000_0000
  {
  }

  /** The encoder takes the operands of an instruction: none is lacking, immediates other than
      those of a register MOV and displacements are signed 32-bit numbers, and shifts are by
      less than the width. */
  predicate Encodable(c: Code) {
    match c
    case StoreImm(_, w) => FitsInt32(w)
    case AluRI(_, _, w) => FitsInt32(w)
    case CmpImm64(_, w) => FitsInt32(w)
    case Lea32(_, _, w) => FitsInt32(w)
    case Lea64(_, _, w) => FitsInt32(w)
    case LeaScaled64(_, _, n) => 1 <= n <= 3
    case ShlImm64(_, n) => n < 64
    case ShrImm64(_, n) => n < 64
    case ShrImm32(_, n) => n < 64
    case LoadSx32Abs(_, a) => FitsInt32(a)
    case Load64Abs(_, a) => FitsInt32(a)
    case LoadSx32At(_, _, d) => FitsInt32(d)
    case Load64At(_, _, d) => FitsInt32(d)
    case Store32At(_, d, _) => FitsInt32(d)
    case Store64At(_, d, _) => FitsInt32(d)
    case AddMem32Abs(a, w) => FitsInt32(a) && FitsInt32(w)
    case AddMem32(_, w) => FitsInt32(w)
    case Malformed => false
    case _ => true
  }

  predicate AllEncodable(code: seq<Code>) { forall c :: c in code ==> Encodable(c) }

  lemma EncodableAppend(a: seq<Code>, b: seq<Code>)
    ensures AllEncodable(a + b) <==> AllEncodable(a) && AllEncodable(b)
  {
    hide Encodable;
    assert forall c :: c in a + b <==> c in a || c in b;
  }

  function ReadByte(mem: Memory, a: Word): Byte { if a in mem then mem[a] else 0 }

  function Read32(mem: Memory, a: Word): (w: Word)
    ensures w < TWO_32
  {
    ReadByte(mem, a) + 0x100 * ReadByte(mem, Add(a, 1)) + 0x1_0000 * ReadByte(mem, Add(a, 2))
    + 0x100_0000 * ReadByte(mem, Add(a, 3))
  }

  function Read64(mem: Memory, a: Word): Word { Read32(mem, a) + TWO_32 * Read32(mem, Add(a, 4)) }

  function Write32(mem: Memory, a: Word, w: Word): Memory {
    mem[a := w % 0x100][Add(a, 1) := w / 0x100 % 0x100]
    [Add(a, 2) := w / 0x1_0000 % 0x100][Add(a, 3) := w / 0x100_0000 % 0x100]
  }

  function Write64(mem: Memory, a: Word, w: Word): Memory { Write32(Write32(mem, a, w), Add(a, 4), w / TWO_32) }

  lemma Distinct4(a: Word)
    ensures a != Add(a, 1) && a != Add(a, 2) && a != Add(a, 3)
    ensures Add(a, 1) != Add(a, 2) && Add(a, 1) != Add(a, 3) && Add(a, 2) != Add(a, 3)
  {
  }

  function Span(a: Word): set<Word> { {a, Add(a, 1), Add(a, 2), Add(a, 3)} }

  lemma WrittenBytes(mem: Memory, a: Word, v: Word)
    ensures Write32(mem, a, v).Keys == mem.Keys + Span(a)
    ensures var m := Write32(mem, a, v);
            && m[a] == v % 0x100 && m[Add(a, 1)] == v / 0x100 % 0x100
            && m[Add(a, 2)] == v / 0x1_0000 % 0x100 && m[Add(a, 3)] == v / 0x100_0000 % 0x100
    ensures v == 0 ==> forall b :: b in Span(a) ==> Write32(mem, a, v)[b] == 0
  {
    Distinct4(a);
    hide Add;
  }

  lemma NextByte(x: nat)
    ensures x == 0x100 * (x / 0x100) + x % 0x100 && 0 <= x % 0x100 < 0x100
  {
  }

  lemma FourBytes(v: Word)
    ensures Low32(v) == v % 0x100 + 0x100 * (v / 0x100 % 0x100) + 0x1_0000 * (v / 0x1_0000 % 0x100)
                        + 0x100_0000 * (v / 0x100_0000 % 0x100)
  {
    var v1, v2, v3 := v / 0x100, v / 0x1_0000, v / 0x100_0000;
    NextByte(v);
    NextByte(v1);
    NextByte(v2);
    assert v2 == v1 / 0x100 && v3 == v2 / 0x100;
    ModUnique(v, TWO_32, v3 / 0x100,
              v % 0x100 + 0x100 * (v1 % 0x100) + 0x1_0000 * (v2 % 0x100) + 0x100_0000 * (v3 % 0x100));
  }

  /** What is written is read back, little end first, and other bytes stay. */
  lemma WrittenRead(mem: Memory, a: Word, w: Word)
    ensures var mem' := Write32(mem, a, w);
            && Read32(mem', a) == Low32(w) && ReadByte(mem', a) == w % 0x100
            && forall b: Word :: b !in Span(a) ==> ReadByte(mem', b) == ReadByte(mem, b)
  {
    WrittenBytes(mem, a, w);
    FourBytes(w);
    hide Add, Low32;
  }

  lemma Offsets(a: Word, i: Word, j: Word)
    requires i < 8 && j < 8 && i != j
    ensures Add(a, i) != Add(a, j)
  {
  }

  lemma AddTwice(a: Word, i: Word, j: Word)
    requires i < 8 && j < 8
    ensures Add(Add(a, i), j) == Add(a, i + j)
  {
  }

  lemma SpansApart(a: Word, i: Word)
    requires i < 4
    ensures Add(a, i) !in Span(Add(a, 4))
  {
    hide Add;
    Offsets(a, i, 4);
    Offsets(a, i, 5);
    Offsets(a, i, 6);
    Offsets(a, i, 7);
    AddTwice(a, 4, 1);
    AddTwice(a, 4, 2);
    AddTwice(a, 4, 3);
  }

  lemma Halves(w: Word)
    ensures Low32(w / TWO_32) == w / TWO_32 && w == Low32(w) + TWO_32 * (w / TWO_32)
  {
  }

  lemma WrittenRead64(mem: Memory, a: Word, w: Word)
    ensures Read64(Write64(mem, a, w), a) == w
  {
    var low := Write32(mem, a, w);
    var c := Add(a, 4);
    assert Add(a, 0) == a;
    SpansApart(a, 0);
    SpansApart(a, 1);
    SpansApart(a, 2);
    SpansApart(a, 3);
    WrittenRead(mem, a, w);
    WrittenRead(low, c, w / TWO_32);
    Halves(w);
    hide Add, Write32, Span, Read32, ReadByte, Low32;
    SameRead32(low, Write32(low, c, w / TWO_32), a);
  }

  lemma SameRead32(mem: Memory, mem': Memory, a: Word)
    requires ReadByte(mem, a) == ReadByte(mem', a) && ReadByte(mem, Add(a, 1)) == ReadByte(mem', Add(a, 1))
    requires ReadByte(mem, Add(a, 2)) == ReadByte(mem', Add(a, 2))
    requires ReadByte(mem, Add(a, 3)) == ReadByte(mem', Add(a, 3))
    ensures Read32(mem, a) == Read32(mem', a)
  {
    hide Add, ReadByte;
  }

  function AluEval(op: Alu, a: Word, b: Word): Word {
    match op
    case Add64 => Add(a, b)
    case Sub64 => Sub(a, b)
    case And64 => And(a, b)
    case Or64 => Or(a, b)
    case Xor64 => Xor(a, b)
    case Add32 => Low32(Add(a, b))
    case Sub32 => Low32(Sub(a, b))
    case And32 => Low32(And(a, b))
    case Mul64 => Mul(a, b)
    case Mul32 => Low32(Mul(a, b))
  }

  function Compare(a: Word, b: Word): Order { Order(Signed(a) < Signed(b), a < b) }

  function Put(m: Machine, d: Host, w: Word): Machine { m.(regs := m.regs[d := w]) }

  /** One instruction.  Instructions that set the flags other than by TEST or CMP leave an
      outcome that no emitted SETcc reads. */
  function Exec(i: Code, m: Machine): Machine {
    match i
    case Store(k, s) => m.(file := m.file[k := m.regs[s]])
    case StoreImm(k, w) => m.(file := m.file[k := Sx32(w)])
    case Fetch(d, k) => Put(m, d, m.file[k])
    case FetchSx32(d, k) => Put(m, d, Sx32(m.file[k]))
    case SaveSwap(k, s) => m.(swap := m.swap[k := m.regs[s]])
    case LoadSwap(d, k) => Put(m, d, m.swap[k])
    case Mov64(d, s) => Put(m, d, m.regs[s])
    case Mov32(d, s) => Put(m, d, Low32(m.regs[s]))
    case MovImm(d, w) => Put(m, d, w)
    case Xchg64(d, s) => m.(regs := m.regs[d := m.regs[s]][s := m.regs[d]])
    case Xor32(d, s) => Put(m, d, Low32(Xor(m.regs[d], m.regs[s]))).(tested := 0, order := UNORDERED)
    case AluRR(op, d, s) => Put(m, d, AluEval(op, m.regs[d], m.regs[s])).(tested := 0, order := UNORDERED)
    case AluRI(op, d, w) => Put(m, d, AluEval(op, m.regs[d], w)).(tested := 0, order := UNORDERED)
    case Lea64(d, s, w) => Put(m, d, Add(m.regs[s], w))
    case LeaScaled64(d, s, n) => Put(m, d, Shl(m.regs[s], n))
    case Lea32(d, s, w) => Put(m, d, Low32(Add(m.regs[s], w)))
    case ShlImm64(d, n) => Put(m, d, Shl(m.regs[d], n)).(tested := 0, order := UNORDERED)
    case ShrImm32(d, n) => Put(m, d, Shr(Low32(m.regs[d]), n % 32)).(tested := 0, order := UNORDERED)
    case ShrImm64(d, n) => Put(m, d, Shr(m.regs[d], n)).(tested := 0, order := UNORDERED)
    case Not64(d) => Put(m, d, Not(m.regs[d]))
    case Neg64(d) => Put(m, d, Sub(0, m.regs[d])).(tested := 0, order := UNORDERED)
    case Neg32(d) => Put(m, d, Low32(Sub(0, m.regs[d]))).(tested := 0, order := UNORDERED)
    case Movsx64From32(d, s) => Put(m, d, Sx32(m.regs[s]))
    case Movzx32From8(d, s) => Put(m, d, Low8(m.regs[s]))
    case Test64(d, s) => m.(tested := And(m.regs[d], m.regs[s]), order := UNORDERED)
    case Cmp64(a, b) => m.(tested := 0, order := Compare(m.regs[a], m.regs[b]))
    case CmpImm64(a, w) => m.(tested := 0, order := Compare(m.regs[a], w))
    case SetL(d) => Put(m, d, SetLowByte(m.regs[d], m.order.less))
    case SetC(d) => Put(m, d, SetLowByte(m.regs[d], m.order.below))
    case SetZ(d) => Put(m, d, SetLowByte(m.regs[d], m.tested == 0))
    case SetNZ(d) => Put(m, d, SetLowByte(m.regs[d], m.tested != 0))
    case SetG(d) => Put(m, d, SetLowByte(m.regs[d], Signed(m.tested) > 0))
    case LoadSx32Abs(d, a) => Put(m, d, Sx32(Read32(m.mem, a)))
    case Load64Abs(d, a) => Put(m, d, Read64(m.mem, a))
    case LoadSx32(d, b) => Put(m, d, Sx32(Read32(m.mem, m.regs[b])))
    case Load64(d, b) => Put(m, d, Read64(m.mem, m.regs[b]))
    case LoadSx32At(d, b, k) => Put(m, d, Sx32(Read32(m.mem, Add(m.regs[b], k))))
    case Load64At(d, b, k) => Put(m, d, Read64(m.mem, Add(m.regs[b], k)))
    case Store32At(b, k, s) => m.(mem := Write32(m.mem, Add(m.regs[b], k), m.regs[s]))
    case Store64At(b, k, s) => m.(mem := Write64(m.mem, Add(m.regs[b], k), m.regs[s]))
    case AddMem32Abs(a, w) =>
      m.(mem := Write32(m.mem, a, Low32(Add(Read32(m.mem, a), w))), tested := 0, order := UNORDERED)
    case AddMem32(b, w) =>
      var a := m.regs[b];
      m.(mem := Write32(m.mem, a, Low32(Add(Read32(m.mem, a), w))), tested := 0, order := UNORDERED)
    case Malformed => m
    case Nop => m
  }

  function Run(code: seq<Code>, m: Machine): Machine
    decreases |code|
  {
    if code == [] then m else Run(code[1..], Exec(code[0], m))
  }

  lemma {:induction false} RunAppend(a: seq<Code>, b: seq<Code>, m: Machine)
    ensures Run(a + b, m) == Run(b, Run(a, m))
    decreases |a|
  {
    if a == [] {
      assert a + b == b;
    } else {
      assert (a + b)[1..] == a[1..] + b;
      RunAppend(a[1..], b, Exec(a[0], m));
    }
  }

  lemma RunOne(i: Code, m: Machine)
    ensures Run([i], m) == Exec(i, m)
  {
    assert [i][1..] == [];
    assert Run([], Exec(i, m)) == Exec(i, m);
  }

  lemma RunTwo(i: Code, j: Code, m: Machine)
    ensures Run([i, j], m) == Exec(j, Exec(i, m))
  {
    hide Exec;
    assert [i, j][1..] == [j];
    RunOne(j, Exec(i, m));
  }

  lemma RunThree(i: Code, j: Code, k: Code, m: Machine)
    ensures Run([i, j, k], m) == Exec(k, Exec(j, Exec(i, m)))
  {
    hide Exec;
    assert [i, j, k][1..] == [j, k];
    RunTwo(j, k, Exec(i, m));
  }

  lemma RunNone(m: Machine)
    ensures Run([], m) == m
  {
  }

  lemma RunStore(k: Slot, s: Host, m: Machine)
    ensures Run([Store(k, s)], m) == m.(file := m.file[k := m.regs[s]])
  {
    RunOne(Store(k, s), m);
  }

  lemma RunFetch(d: Host, k: Slot, m: Machine)
    ensures Run([Fetch(d, k)], m) == Put(m, d, m.file[k])
  {
    RunOne(Fetch(d, k), m);
  }

  lemma RunMov64(d: Host, s: Host, m: Machine)
    ensures Run([Mov64(d, s)], m) == Put(m, d, m.regs[s])
  {
    RunOne(Mov64(d, s), m);
  }

  lemma RunAlu(op: Alu, d: Host, s: Host, m: Machine)
    ensures Run([AluRR(op, d, s)], m) == Put(m, d, AluEval(op, m.regs[d], m.regs[s])).(tested := 0, order := UNORDERED)
  {
    RunOne(AluRR(op, d, s), m);
  }

  lemma RunXchg64(d: Host, s: Host, m: Machine)
    ensures Run([Xchg64(d, s)], m) == m.(regs := m.regs[d := m.regs[s]][s := m.regs[d]])
  {
    RunOne(Xchg64(d, s), m);
  }

  /** XOR of a register with itself clears it. */
  lemma RunZero(d: Host, m: Machine)
    ensures Run([Xor32(d, d)], m) == Put(m, d, 0).(tested := 0, order := UNORDERED)
  {
    RunOne(Xor32(d, d), m);
    XorSelf(64, m.regs[d]);
  }

  lemma RunNop(m: Machine)
    ensures Run([Nop], m) == m
  {
    RunOne(Nop, m);
  }

  // ----- single instructions, for proofs that keep Exec folded -----

  lemma ExecMovImm(d: Host, k: Word, m: Machine)
    ensures Exec(MovImm(d, k), m) == Put(m, d, k)
  {
  }

  lemma ExecTest(s: Host, m: Machine)
    ensures Exec(Test64(s, s), m) == m.(tested := m.regs[s], order := UNORDERED)
  {
    AndWithSelf(m.regs[s]);
  }

  lemma ExecSetcc(d: Host, m: Machine)
    ensures Exec(SetZ(d), m) == Put(m, d, SetLowByte(m.regs[d], m.tested == 0))
    ensures Exec(SetNZ(d), m) == Put(m, d, SetLowByte(m.regs[d], m.tested != 0))
    ensures Exec(SetG(d), m) == Put(m, d, SetLowByte(m.regs[d], Signed(m.tested) > 0))
  {
    hide SetLowByte, Signed;
  }

  lemma ExecSetOrder(d: Host, m: Machine)
    ensures Exec(SetL(d), m) == Put(m, d, SetLowByte(m.regs[d], m.order.less))
    ensures Exec(SetC(d), m) == Put(m, d, SetLowByte(m.regs[d], m.order.below))
  {
    hide SetLowByte, Signed;
  }

  lemma ExecCmp(a: Host, b: Host, k: Word, m: Machine)
    ensures Exec(Cmp64(a, b), m) == m.(tested := 0, order := Compare(m.regs[a], m.regs[b]))
    ensures Exec(CmpImm64(a, k), m) == m.(tested := 0, order := Compare(m.regs[a], k))
  {
    hide Compare;
  }

  lemma ExecMoves(d: Host, s: Host, k: Word, m: Machine)
    ensures Exec(Mov64(d, s), m) == Put(m, d, m.regs[s])
    ensures Exec(Lea64(d, s, k), m) == Put(m, d, Add(m.regs[s], k))
    ensures Exec(LeaScaled64(d, s, k), m) == Put(m, d, Shl(m.regs[s], k))
    ensures Exec(Lea32(d, s, k), m) == Put(m, d, Low32(Add(m.regs[s], k)))
  {
    hide Add, Shl, Low32;
  }

  lemma ExecSlots(d: Host, k: Slot, w: Word, m: Machine)
    ensures Exec(Fetch(d, k), m) == Put(m, d, m.file[k])
    ensures Exec(Store(k, d), m) == m.(file := m.file[k := m.regs[d]])
    ensures Exec(StoreImm(k, w), m) == m.(file := m.file[k := Sx32(w)])
  {
  }

  lemma ExecAluRI(op: Alu, d: Host, k: Word, m: Machine)
    ensures Exec(AluRI(op, d, k), m) == Put(m, d, AluEval(op, m.regs[d], k)).(tested := 0, order := UNORDERED)
  {
    hide AluEval;
  }

  lemma ExecShifts(d: Host, k: Word, m: Machine)
    ensures Exec(ShlImm64(d, k), m) == Put(m, d, Shl(m.regs[d], k)).(tested := 0, order := UNORDERED)
    ensures Exec(ShrImm64(d, k), m) == Put(m, d, Shr(m.regs[d], k)).(tested := 0, order := UNORDERED)
  {
    hide Shl, Shr;
  }

  lemma ExecLoadAt(d: Host, b: Host, k: Word, m: Machine)
    ensures Exec(LoadSx32At(d, b, k), m) == Put(m, d, Sx32(Read32(m.mem, Add(m.regs[b], k))))
    ensures Exec(Load64At(d, b, k), m) == Put(m, d, Read64(m.mem, Add(m.regs[b], k)))
  {
    hide Add, Sx32, Read32, Read64;
  }

  lemma ExecStoreAt(s: Host, b: Host, k: Word, m: Machine)
    ensures Exec(Store32At(b, k, s), m) == m.(mem := Write32(m.mem, Add(m.regs[b], k), m.regs[s]))
    ensures Exec(Store64At(b, k, s), m) == m.(mem := Write64(m.mem, Add(m.regs[b], k), m.regs[s]))
  {
    hide Add, Write32, Write64;
  }

  lemma ExecMovzx(d: Host, s: Host, m: Machine)
    ensures Exec(Movzx32From8(d, s), m) == Put(m, d, Low8(m.regs[s]))
  {
  }

  lemma ExecLoadAbs(d: Host, a: Word, m: Machine)
    ensures Exec(LoadSx32Abs(d, a), m) == Put(m, d, Sx32(Read32(m.mem, a)))
    ensures Exec(Load64Abs(d, a), m) == Put(m, d, Read64(m.mem, a))
  {
  }

  lemma ExecHalves(d: Host, s: Host, m: Machine)
    ensures Exec(Mov32(d, s), m) == Put(m, d, Low32(m.regs[s]))
    ensures Exec(Movsx64From32(d, s), m) == Put(m, d, Sx32(m.regs[s]))
    ensures Exec(Neg32(d), m) == Put(m, d, Low32(Sub(0, m.regs[d]))).(tested := 0, order := UNORDERED)
  {
  }

  lemma ExecFetchSx32(d: Host, k: Slot, m: Machine)
    ensures Exec(FetchSx32(d, k), m) == Put(m, d, Sx32(m.file[k]))
  {
  }

  lemma ExecAddMem(b: Host, a: Word, w: Word, m: Machine)
    ensures Exec(AddMem32Abs(a, w), m)
         == m.(mem := Write32(m.mem, a, Low32(Add(Read32(m.mem, a), w))), tested := 0, order := UNORDERED)
    ensures m.regs[b] == a ==> Exec(AddMem32(b, w), m) == Exec(AddMem32Abs(a, w), m)
  {
  }
}
