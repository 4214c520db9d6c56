/** optimize_patterns: matching over the whole block, one pattern after the other, marking
    the first instruction of every accepted window in place. */
module Optimize {
  import opened Words
  import opened Riscv
  import opened Patterns

  /** The marked form of an instruction. */
  function Mark(i: Instr, id: PatternId): Instr { i.(mnem := PATTERN_EMIT, optype := PatternIndex(id)) }

  /** `b` is instruction j of the original block, marked as the head of a window that the
      original block matches there and that ends before the last instruction. */
  predicate Head(orig: seq<Instr>, j: nat, b: Instr)
    requires j < |orig|
  {
    && b.mnem == PATTERN_EMIT && b.optype.PatternIndex? && b.optype.index < N_PATTERNS
    && b == Mark(orig[j], b.optype.index)
    && j + Length(b.optype.index) < |orig|
    && Matches(b.optype.index, orig[j..j + Length(b.optype.index)])
  }

  /** The block differs from the original in marked heads only. */
  predicate Marked(orig: seq<Instr>, block: seq<Instr>) {
    |block| == |orig| && forall j :: 0 <= j < |orig| ==> block[j] == orig[j] || Head(orig, j, block[j])
  }

  /** Some window of the block, ending before the last instruction, is accepted for i. */
  predicate Open(block: seq<Instr>, i: PatternId, j: nat) {
    j + Length(i) < |block| && Matches(i, block[j..j + Length(i)])
  }

  predicate Parsed(block: seq<Instr>) {
    forall j :: 0 <= j < |block| ==> Decoded(block[j])
  }

  /** The mnemonics of an accepted window are those of the table, so it contains no mark. */
  lemma OpenMnems(block: seq<Instr>, i: PatternId, j: nat, k: nat)
    requires Open(block, i, j) && k < Length(i)
    ensures block[j + k].mnem == Elements(i)[k].mnem != PATTERN_EMIT
  {
    TablesWellFormed(i);
    assert ElementMatches(Elements(i)[k], block[j..j + Length(i)], k);
  }

  /** An accepted window is a window of the original block. */
  lemma MatchedOriginal(orig: seq<Instr>, block: seq<Instr>, i: PatternId, j: nat)
    requires Marked(orig, block) && Open(block, i, j)
    ensures block[j..j + Length(i)] == orig[j..j + Length(i)]
  {
    hide Matches;
    var v, w := block[j..j + Length(i)], orig[j..j + Length(i)];
    forall k | 0 <= k < Length(i) ensures v[k] == w[k] {
      OpenMnems(block, i, j, k);
    }
  }

  /** Marking only removes matches. */
  lemma MarkCloses(block: seq<Instr>, block': seq<Instr>, at: nat, id: PatternId, i: PatternId, j: nat)
    requires at < |block| && block' == block[at := Mark(block[at], id)] && Open(block', i, j)
    ensures Open(block, i, j)
  {
    hide Matches;
    if j <= at < j + Length(i) {
      OpenMnems(block', i, j, at - j);
    } else {
      assert block[j..j + Length(i)] == block'[j..j + Length(i)];
    }
  }

  /** Accepted windows of one pattern do not overlap. */
  lemma WindowsApart(block: seq<Instr>, i: PatternId, j: nat, j': nat)
    requires Open(block, i, j) && Open(block, i, j') && j < j'
    ensures j + Length(i) <= j'
  {
    if j' < j + Length(i) {
      FirstMnemUnique(i);
      OpenMnems(block, i, j', 0);
      OpenMnems(block, i, j, j' - j);
    }
  }

  /** The inner loop over the elements of pattern i. */
  method WindowMatches(block: array<Instr>, j: nat, i: PatternId) returns (matched: bool)
    requires j + Length(i) <= block.Length
    ensures matched <==> Matches(i, block[j..j + Length(i)])
  {
    hide Elements, ElementMatches;
    TablesWellFormed(i);
    ghost var w := block[j..j + Length(i)];
    for k := 0 to Length(i)
      invariant forall l :: 0 <= l < k ==> ElementMatches(Elements(i)[l], w, l)
    {
      var ok := MatchElement(block, j, Length(i), Elements(i)[k], k);
      if !ok {
        return false;
      }
    }
    return true;
  }

  method MatchElement(block: array<Instr>, j: nat, n: nat, e: Element, k: nat) returns (ok: bool)
    requires k < n && j + n <= block.Length && Inside(e, n)
    ensures ok <==> ElementMatches(e, block[j..j + n], k)
  {
    var b := block[j + k];
    ok := e.mnem == b.mnem && FieldMatches(block, j, e, e.rs1, b.rs1) && FieldMatches(block, j, e, e.rs2, b.rs2)
          && FieldMatches(block, j, e, e.rd, b.rd);
    match e.imm {
      case AnyImm =>
      case ImmIs(v) => ok := ok && b.imm == v;
      case ImmOf(p) => ok := ok && b.imm == block[j + p].imm;
    }
  }

  /** One of the register switches of the matcher. */
  predicate FieldMatches(block: array<Instr>, j: nat, e: Element, spec: RegSpec, actual: nat)
    reads block
    requires j + e.h1 < block.Length && j + e.h2 < block.Length
  {
    match spec
    case DONT_CARE => true
    case Is(r) => actual == r
    case rd_h1 => actual == block[j + e.h1].rd
    case rd_h2 => actual == block[j + e.h2].rd
    case not_rd_h1 => actual != block[j + e.h1].rd
  }

  /** No accepted window of pattern i is left. */
  ghost predicate Exhausted(block: seq<Instr>, i: PatternId) {
    forall j: nat :: !Open(block, i, j)
  }

  /** Marking the head of an accepted window closes every window of the pattern up to its
      end and reopens none. */
  lemma MarkAdvances(orig: seq<Instr>, block: seq<Instr>, block': seq<Instr>, i: PatternId, j: nat)
    requires Parsed(orig) && Marked(orig, block) && Open(block, i, j)
    requires block' == block[j := Mark(block[j], i)]
    requires forall i': PatternId :: i' < i ==> Exhausted(block, i')
    requires forall j': nat :: j' < j ==> !Open(block, i, j')
    ensures Marked(orig, block')
    ensures forall i': PatternId :: i' < i ==> Exhausted(block', i')
    ensures forall j': nat :: j' < j + Length(i) ==> !Open(block', i, j')
  {
    hide Matches, Elements;
    MatchedOriginal(orig, block, i, j);
    assert block[j] == block[j..j + Length(i)][0] == orig[j];
    forall i': PatternId, j': nat | i' < i ensures !Open(block', i', j') {
      assert Exhausted(block, i') && !Open(block, i', j');
      if Open(block', i', j') { MarkCloses(block, block', j, i, i', j'); }
    }
    forall j': nat | j' < j + Length(i) ensures !Open(block', i, j') {
      if Open(block', i, j') {
        MarkCloses(block, block', j, i, i, j');
        if j' == j {
          OpenMnems(block', i, j, 0);
        } else if j < j' {
          FirstMnemUnique(i);
          OpenMnems(block, i, j, j' - j);
          OpenMnems(block, i, j', 0);
        }
      }
    }
  }

  /** One pass over the block. */
  method MatchPattern(block: array<Instr>, n: nat, i: PatternId, ghost orig: seq<Instr>)
    requires n <= block.Length && Parsed(orig) && Marked(orig, block[..n])
    requires forall i': PatternId :: i' < i ==> Exhausted(block[..n], i')
    modifies block
    ensures Marked(orig, block[..n]) && block[n..] == old(block[n..])
    ensures forall i': PatternId :: i' <= i ==> Exhausted(block[..n], i')
    ensures forall j :: 0 <= j < n ==>
              block[j] == old(block[j]) || (block[j] == Mark(old(block[j]), i) && Open(old(block[..n]), i, j))
  {
    hide Open, Matches;
    var j := 0;
    while j < n - Length(i)
      invariant 0 <= j
      invariant Marked(orig, block[..n]) && block[n..] == old(block[n..])
      invariant forall i': PatternId :: i' < i ==> Exhausted(block[..n], i')
      invariant forall j': nat :: j' < j ==> !Open(block[..n], i, j')
      invariant forall j' :: 0 <= j' < n ==>
                  block[j'] == old(block[j']) || (block[j'] == Mark(old(block[j']), i) && Open(old(block[..n]), i, j'))
      invariant forall j' :: j <= j' < n ==> block[j'] == old(block[j'])
    {
      var matched := WindowMatches(block, j, i);
      ghost var b := block[..n];
      OpenIff(block[..], n, i, j);
      if matched {
        SameOpen(old(block[..n]), b, i, j);
        block[j] := Mark(block[j], i);
        assert block[..n] == b[j := Mark(b[j], i)];
        MarkAdvances(orig, b, block[..n], i, j);
        j := j + Length(i) - 1;
      }
      j := j + 1;
    }
    forall j': nat ensures !Open(block[..n], i, j') { ClosedBeyond(block[..n], i, j'); }
  }

  lemma OpenIff(block: seq<Instr>, n: nat, i: PatternId, j: nat)
    requires n <= |block| && j + Length(i) < n
    ensures Open(block[..n], i, j) <==> Matches(i, block[j..j + Length(i)])
  {
    assert block[..n][j..j + Length(i)] == block[j..j + Length(i)];
  }

  lemma ClosedBeyond(block: seq<Instr>, i: PatternId, j: nat)
    ensures Open(block, i, j) ==> j < |block| - Length(i)
  {
  }

  /** Whether a window is open depends on its own instructions only. */
  lemma SameOpen(a: seq<Instr>, b: seq<Instr>, i: PatternId, j: nat)
    requires |a| == |b| && forall k :: j <= k < |a| ==> a[k] == b[k]
    ensures Open(a, i, j) == Open(b, i, j)
  {
    if j + Length(i) < |a| {
      assert a[j..j + Length(i)] == b[j..j + Length(i)];
    }
  }

  /** optimize_patterns.  Every mark stands on a window of the original block; afterwards no
      window that ends before the last instruction is accepted for any pattern; and the
      entry for pattern 10 is never used. */
  method OptimizePatterns(block: array<Instr>, n: nat)
    requires n <= block.Length && Parsed(block[..n])
    modifies block
    ensures Marked(old(block[..n]), block[..n]) && block[n..] == old(block[n..])
    ensures forall i: PatternId :: Exhausted(block[..n], i)
    ensures forall j :: 0 <= j < n ==> block[j].optype != PatternIndex(P10) || block[j] == old(block[j])
  {
    ghost var orig := block[..n];
    for i := 0 to N_PATTERNS
      invariant Marked(orig, block[..n]) && block[n..] == old(block[n..])
      invariant forall i': PatternId :: i' < i ==> Exhausted(block[..n], i')
      invariant forall j :: 0 <= j < n ==> block[j].optype != PatternIndex(P10) || block[j] == old(block[j])
    {
      hide Marked, Exhausted, Open;
      ghost var before := block[..n];
      MatchPattern(block, n, i, orig);
      if i == P10 { Pattern10Closed(before); }
    }
  }

  lemma Pattern10Closed(block: seq<Instr>)
    requires Exhausted(block, P11)
    ensures Exhausted(block, P10)
  {
    forall j: nat ensures !Open(block, P10, j) {
      assert !Open(block, P11, j);
      if Open(block, P10, j) {
        Pattern10Subsumed(block[j..j + 1]);
      }
    }
  }
}
