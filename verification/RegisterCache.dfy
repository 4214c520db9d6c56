/** The dynamic register cache: guest registers without a static host register are
    loaded lazily into AX, DX and CX, with recency stamps and write-back.

    The functions below describe, for each call of the translator, the bookkeeping it
    leaves and the code it emits.  The lemmas relate both by running the code. */
module RegisterCache {
  import opened Words
  import opened X86

  /** x0 to x31 and pc; INVALID marks an empty replacement register. */
  type Guest = r: nat | r < 33
  type Content = r: nat | r <= 33

  const X0: Guest := 0
  const PC: Guest := 32
  const INVALID: Content := 33

  /** Replacement registers by index. */
  type Index = i: nat | i < 3

  function HostOf(i: Index): Host { if i == 0 then AX else if i == 1 then DX else CX }

  predicate IsReplacement(h: Host) { h == AX || h == DX || h == CX }

  datatype Mapping = Unmapped | Mapped(host: Host)

  /** gp_mapped and gp_map, one entry for each slot of the register file. */
  type StaticMap = s: seq<Mapping> | |s| == N_REG witness seq(N_REG, i => Unmapped)

  predicate AvoidsReplacements(sm: StaticMap) {
    forall r :: 0 <= r < N_REG && sm[r].Mapped? ==> !IsReplacement(sm[r].host)
  }

  /** What the getters need on top: x0 has no host register. */
  predicate IsStaticMap(sm: StaticMap) {
    AvoidsReplacements(sm) && sm[X0].Unmapped?
  }

  predicate Injective(sm: StaticMap) {
    forall r, q :: 0 <= r < q < N_REG && sm[r].Mapped? && sm[q].Mapped? ==> sm[r].host != sm[q].host
  }

  type Contents = s: seq<Content> | |s| == 3 witness [0, 0, 0]
  type Stamps = s: seq<nat> | |s| == 3 witness [0, 0, 0]

  datatype Cache = Cache(content: Contents, recency: Stamps, clock: nat)

  datatype Emission = Emission(code: seq<Code>, cache: Cache)

  predicate Inv(sm: StaticMap, c: Cache) {
    && (forall i: Index :: c.content[i] == INVALID <==> c.recency[i] == 0)
    && (forall i: Index :: c.recency[i] <= c.clock)
    && (forall i: Index, j: Index :: i != j && c.recency[i] == c.recency[j] ==> c.recency[i] == 0)
    && (forall i: Index, j: Index :: i != j && c.content[i] == c.content[j] != INVALID ==> sm[c.content[i]].Mapped?)
  }

  /** The first replacement register holding `r`, or 3. */
  function Find(c: Cache, r: Content): (i: nat)
    ensures i <= 3
    ensures i < 3 ==> c.content[i] == r
    ensures forall j: Index :: j < i ==> c.content[j] != r
  {
    if c.content[0] == r then 0 else if c.content[1] == r then 1 else if c.content[2] == r then 2 else 3
  }

  /** The replacement register with the smallest stamp, the first one on a tie. */
  function Oldest(c: Cache): (i: Index)
    ensures forall j: Index :: c.recency[i] <= c.recency[j] && (j < i ==> c.recency[i] < c.recency[j])
  {
    if c.recency[0] <= c.recency[1] && c.recency[0] <= c.recency[2] then 0
    else if c.recency[1] <= c.recency[2] then 1 else 2
  }

  function Spill(c: Cache, i: Index): seq<Code> {
    if c.content[i] != X0 && c.content[i] != INVALID then [Store(c.content[i], HostOf(i))] else []
  }

  function Zero(i: Index): Code { Xor32(HostOf(i), HostOf(i)) }

  /** invalidateReplacement */
  function Invalidate(c: Cache, i: Index, writeback: bool): Emission {
    Emission(if writeback then Spill(c, i) else [],
             c.(content := c.content[i := INVALID], recency := c.recency[i := 0]))
  }

  /** invalidateOldest; the returned host register is that of Oldest(c). */
  function InvalidateOldest(c: Cache): Emission {
    var i := Oldest(c);
    if c.recency[i] != 0 && c.content[i] != INVALID then Invalidate(c, i, true) else Emission([], c)
  }

  /** invalidateAllReplacements */
  function InvalidateAll(c: Cache): Emission {
    var e0 := Invalidate(c, 0, true);
    var e1 := Invalidate(e0.cache, 1, true);
    var e2 := Invalidate(e1.cache, 2, true);
    Emission(e0.code + e1.code + e2.code, e2.cache)
  }

  /** The index that loadIntoReplacement returns. */
  function Target(c: Cache, r: Guest): Index {
    if Find(c, r) < 3 then Find(c, r) else Oldest(c)
  }

  /** loadIntoReplacement */
  function Load(c: Cache, r: Guest, need: bool): Emission {
    var i := Target(c, r);
    var c' := Cache(c.content[i := r], c.recency[i := c.clock + 1], c.clock + 1);
    if Find(c, r) < 3 then
      Emission(if r == X0 then [Zero(i)] else [], c')
    else
      Emission(Spill(c, i) + (if !need then [] else if r == X0 then [Zero(i)] else [Fetch(HostOf(i), r)]), c')
  }

  /** The moves of loadIntoSpecific between the place of the value and its destination. */
  function Shuffle(c: Cache, i: Index, present: Index, need: bool): seq<Code> {
    if c.recency[i] != 0 then
      if need then [Xchg64(HostOf(i), HostOf(present))] else [Mov64(HostOf(present), HostOf(i))]
    else
      if need then [Mov64(HostOf(i), HostOf(present))] else []
  }

  /** loadIntoSpecific.  The write-back guard of the source, "not x0 or not empty",
      always holds, so an occupied destination is stored even when it holds x0. */
  function LoadSpecific(c: Cache, r: Guest, i: Index, need: bool): Emission {
    var zero := if r == X0 then [Zero(i)] else [];
    var p := Find(c, r);
    if p == i then
      Emission(zero, c.(recency := c.recency[i := c.clock + 1], clock := c.clock + 1))
    else if p < 3 then
      Emission(Shuffle(c, i, p, need) + zero,
               Cache(c.content[i := c.content[p]][p := c.content[i]],
                     c.recency[p := c.recency[i]][i := c.clock + 1], c.clock + 1))
    else
      Emission((if c.recency[i] != 0 then [Store(c.content[i], HostOf(i))] else [])
               + (if r == X0 then [Zero(i)] else if need then [Fetch(HostOf(i), r)] else []),
               Cache(c.content[i := r], c.recency[i := c.clock + 1], c.clock + 1))
  }

  /** getRs1Into and getRs2Into on a statically mapped register. */
  function CopyMapped(c: Cache, r: Guest, from: Host, i: Index): Emission {
    var e := Invalidate(c, i, true);
    Emission(e.code + [Mov64(HostOf(i), from)],
             Cache(c.content[i := r], c.recency[i := c.clock + 1], c.clock + 1))
  }

  /** Where the translation keeps guest register `r`. */
  datatype Place = Nowhere | InHost(host: Host) | InFile(slot: Slot)

  function Where(sm: StaticMap, c: Cache, r: Guest): Place {
    if r == X0 then Nowhere
    else if sm[r].Mapped? then InHost(sm[r].host)
    else if Find(c, r) < 3 then InHost(HostOf(Find(c, r)))
    else InFile(r)
  }

  function Read(m: Machine, p: Place): Word {
    match p
    case Nowhere => 0
    case InHost(h) => m.regs[h]
    case InFile(k) => m.file[k]
  }

  /** The value the translation gives to guest register `r`. */
  function Val(sm: StaticMap, c: Cache, m: Machine, r: Guest): Word { Read(m, Where(sm, c, r)) }

  lemma ValX0(sm: StaticMap, c: Cache, m: Machine)
    ensures Val(sm, c, m, X0) == 0
  {
  }

  /** From bookkeeping c0 and machine m0 to c1 and m1, every guest register outside
      `lost` keeps its value, as do guest memory, the swap file and the statically
      mapped host registers. */
  ghost predicate Keeps(sm: StaticMap, c0: Cache, m0: Machine, c1: Cache, m1: Machine, lost: set<Guest>) {
    && m1.mem == m0.mem && m1.swap == m0.swap
    && (forall h: Host :: !IsReplacement(h) ==> m1.regs[h] == m0.regs[h])
    && (forall r: Guest :: r !in lost ==> Val(sm, c1, m1, r) == Val(sm, c0, m0, r))
  }

  lemma KeepsChain(sm: StaticMap, c0: Cache, m0: Machine, c1: Cache, m1: Machine, c2: Cache, m2: Machine,
                   a: set<Guest>, b: set<Guest>)
    requires Keeps(sm, c0, m0, c1, m1, a) && Keeps(sm, c1, m1, c2, m2, b)
    ensures Keeps(sm, c0, m0, c2, m2, a + b)
  {
    hide Val;
  }

  // ----- where registers are after a change of the bookkeeping -----

  lemma InvalidateInv(sm: StaticMap, c: Cache, i: Index)
    requires Inv(sm, c)
    ensures Inv(sm, Invalidate(c, i, true).cache)
  {
  }

  lemma InvalidateWhere(sm: StaticMap, c: Cache, i: Index, r: Guest)
    requires AvoidsReplacements(sm) && Inv(sm, c)
    ensures Where(sm, Invalidate(c, i, true).cache, r)
         == if Where(sm, c, r) == InHost(HostOf(i)) then InFile(r) else Where(sm, c, r)
    ensures Where(sm, c, r) == InHost(HostOf(i)) ==> c.content[i] == r && r != X0
  {
  }

  /** Bookkeeping after `r` was put into replacement register i. */
  function Placed(c: Cache, r: Guest, i: Index): Cache {
    Cache(c.content[i := r], c.recency[i := c.clock + 1], c.clock + 1)
  }

  lemma PlacedInv(sm: StaticMap, c: Cache, r: Guest, i: Index)
    requires Inv(sm, c)
    requires Find(c, r) == 3 || c.content[i] == r || sm[r].Mapped?
    ensures Inv(sm, Placed(c, r, i))
  {
  }

  lemma PlacedWhere(sm: StaticMap, c: Cache, r: Guest, i: Index, q: Guest)
    requires AvoidsReplacements(sm) && Inv(sm, c)
    requires c.content[i] == INVALID && (Find(c, r) == 3 || sm[r].Mapped?)
    ensures Where(sm, Placed(c, r, i), q)
         == if q == r && q != X0 && sm[q].Unmapped? then InHost(HostOf(i)) else Where(sm, c, q)
    ensures Where(sm, c, q) != InHost(HostOf(i))
  {
  }

  // ----- code of the building blocks -----

  /** Storing an occupied replacement register and marking it empty. */
  lemma SpillKeeps(sm: StaticMap, c: Cache, i: Index, code: seq<Code>, m: Machine)
    requires AvoidsReplacements(sm) && Inv(sm, c)
    requires code == [Store(c.content[i], HostOf(i))] || (code == [] && c.content[i] in {X0, INVALID})
    ensures var c' := Invalidate(c, i, true).cache;
            Inv(sm, c') && Keeps(sm, c, m, c', Run(code, m), {})
    ensures Run(code, m).regs == m.regs
  {
    hide Run;
    var c' := Invalidate(c, i, true).cache;
    InvalidateInv(sm, c, i);
    if code != [] { RunStore(c.content[i], HostOf(i), m); } else { RunNone(m); }
    var m' := Run(code, m);
    forall r: Guest ensures Val(sm, c', m', r) == Val(sm, c, m, r) {
      InvalidateWhere(sm, c, i, r);
    }
  }

  /** Writing replacement register i, which no guest register lives in. */
  lemma PlaceKeeps(sm: StaticMap, c: Cache, r: Guest, i: Index, m: Machine, m': Machine)
    requires AvoidsReplacements(sm) && Inv(sm, c)
    requires c.content[i] == INVALID && (Find(c, r) == 3 || sm[r].Mapped?)
    requires m'.mem == m.mem && m'.swap == m.swap && m'.file == m.file
    requires forall h: Host :: h != HostOf(i) ==> m'.regs[h] == m.regs[h]
    ensures Inv(sm, Placed(c, r, i))
    ensures Keeps(sm, c, m, Placed(c, r, i), m', if sm[r].Mapped? then {} else {r})
    ensures sm[r].Unmapped? && r != X0 ==> Val(sm, Placed(c, r, i), m', r) == m'.regs[HostOf(i)]
  {
    PlacedInv(sm, c, r, i);
    forall q: Guest
      ensures q == r && q != X0 && sm[q].Unmapped? ==> Val(sm, Placed(c, r, i), m', q) == m'.regs[HostOf(i)]
      ensures q != r || q == X0 || sm[q].Mapped? ==> Val(sm, Placed(c, r, i), m', q) == Val(sm, c, m, q)
    {
      PlacedWhere(sm, c, r, i, q);
    }
  }

  /** Marking a replacement register as just used, zeroing it when it holds x0. */
  lemma TouchKeeps(sm: StaticMap, c: Cache, i: Index, code: seq<Code>, m: Machine)
    requires AvoidsReplacements(sm) && Inv(sm, c) && c.content[i] < INVALID && sm[c.content[i]].Unmapped?
    requires code == if c.content[i] == X0 then [Zero(i)] else []
    ensures var c' := Placed(c, c.content[i], i);
            var m' := Run(code, m);
            && Inv(sm, c') && Keeps(sm, c, m, c', m', {})
            && m'.regs[HostOf(i)] == Val(sm, c, m, c.content[i])
  {
    hide Run;
    var c' := Placed(c, c.content[i], i);
    assert c'.content == c.content;
    PlacedInv(sm, c, c.content[i], i);
    if code != [] { RunZero(HostOf(i), m); } else { RunNone(m); }
    var m' := Run(code, m);
    forall q: Guest ensures Val(sm, c', m', q) == Val(sm, c, m, q) {
      assert Where(sm, c', q) == Where(sm, c, q);
      InvalidateWhere(sm, c, i, q);
    }
  }

  /** Loading into an empty replacement register. */
  lemma FillKeeps(sm: StaticMap, c: Cache, r: Guest, i: Index, fill: seq<Code>, m: Machine)
    requires AvoidsReplacements(sm) && Inv(sm, c) && c.content[i] == INVALID && Find(c, r) == 3 && sm[r].Unmapped?
    requires fill == [] || fill == (if r == X0 then [Zero(i)] else [Fetch(HostOf(i), r)])
    ensures var c' := Placed(c, r, i);
            var m' := Run(fill, m);
            && Inv(sm, c')
            && Keeps(sm, c, m, c', m', if fill != [] then {} else {r})
            && (fill != [] ==> m'.regs[HostOf(i)] == Val(sm, c, m, r))
  {
    hide Run;
    if fill == [] { RunNone(m); }
    else if r == X0 { RunZero(HostOf(i), m); }
    else { RunFetch(HostOf(i), r, m); }
    PlaceKeeps(sm, c, r, i, m, Run(fill, m));
    PlacedWhere(sm, c, r, i, r);
  }

  /** Freeing replacement register i and loading `r` into it. */
  lemma SpillFillKeeps(sm: StaticMap, c: Cache, r: Guest, i: Index, spill: seq<Code>, fill: seq<Code>, m: Machine)
    requires AvoidsReplacements(sm) && Inv(sm, c) && Find(c, r) == 3 && sm[r].Unmapped?
    requires spill == [Store(c.content[i], HostOf(i))] || (spill == [] && c.content[i] in {X0, INVALID})
    requires fill == [] || fill == (if r == X0 then [Zero(i)] else [Fetch(HostOf(i), r)])
    ensures var c' := Placed(c, r, i);
            var m' := Run(spill + fill, m);
            && Inv(sm, c')
            && Keeps(sm, c, m, c', m', if fill != [] then {} else {r})
            && (fill != [] ==> m'.regs[HostOf(i)] == Val(sm, c, m, r))
  {
    hide Run, Where;
    var c1 := Invalidate(c, i, true).cache;
    var m1 := Run(spill, m);
    SpillKeeps(sm, c, i, spill, m);
    FillKeeps(sm, c1, r, i, fill, m1);
    assert Placed(c1, r, i) == Placed(c, r, i);
    RunAppend(spill, fill, m);
  }

  // ----- each call -----

  lemma LoadKeeps(sm: StaticMap, c: Cache, r: Guest, need: bool, m: Machine)
    requires AvoidsReplacements(sm) && Inv(sm, c) && sm[r].Unmapped?
    ensures var e := Load(c, r, need);
            var m' := Run(e.code, m);
            && Inv(sm, e.cache) && e.cache == Placed(c, r, Target(c, r))
            && Keeps(sm, c, m, e.cache, m', if need || Find(c, r) < 3 then {} else {r})
            && (need || Find(c, r) < 3 ==> m'.regs[HostOf(Target(c, r))] == Val(sm, c, m, r))
  {
    hide Run, Where;
    var e := Load(c, r, need);
    var i := Target(c, r);
    if Find(c, r) < 3 {
      TouchKeeps(sm, c, i, e.code, m);
    } else {
      SpillFillKeeps(sm, c, r, i, Spill(c, i), e.code[|Spill(c, i)|..], m);
      assert e.code == Spill(c, i) + e.code[|Spill(c, i)|..];
    }
  }

  /** The bookkeeping of loadIntoSpecific when `r` is held elsewhere. */
  function Swapped(c: Cache, i: Index, p: Index): Cache {
    Cache(c.content[i := c.content[p]][p := c.content[i]],
          c.recency[p := c.recency[i]][i := c.clock + 1], c.clock + 1)
  }

  lemma SwappedInv(sm: StaticMap, c: Cache, i: Index, p: Index)
    requires Inv(sm, c) && i != p && c.content[p] < INVALID
    ensures Inv(sm, Swapped(c, i, p))
  {
  }

  lemma SwappedWhere(sm: StaticMap, c: Cache, i: Index, p: Index, q: Guest)
    requires AvoidsReplacements(sm) && Inv(sm, c) && i != p && c.content[p] < INVALID && sm[c.content[p]].Unmapped?
    ensures Where(sm, Swapped(c, i, p), q)
         == if Where(sm, c, q) == InHost(HostOf(i)) then InHost(HostOf(p))
            else if Where(sm, c, q) == InHost(HostOf(p)) then InHost(HostOf(i))
            else Where(sm, c, q)
    ensures Where(sm, c, q) == InHost(HostOf(p)) <==> q == c.content[p] && q != X0
    ensures Where(sm, c, q) == InHost(HostOf(i)) ==> c.recency[i] != 0
  {
  }

  lemma ShuffleKeeps(sm: StaticMap, c: Cache, r: Guest, i: Index, p: Index, need: bool, m: Machine)
    requires AvoidsReplacements(sm) && Inv(sm, c) && i != p && c.content[p] == r && sm[r].Unmapped?
    ensures var c' := Swapped(c, i, p);
            var m' := Run(Shuffle(c, i, p, need), m);
            && Inv(sm, c') && c'.content[i] == r
            && Keeps(sm, c, m, c', m', if need then {} else {r})
            && (need && r != X0 ==> m'.regs[HostOf(i)] == Val(sm, c, m, r))
  {
    hide Run;
    var c' := Swapped(c, i, p);
    var m' := Run(Shuffle(c, i, p, need), m);
    SwappedInv(sm, c, i, p);
    if c.recency[i] != 0 {
      if need { RunXchg64(HostOf(i), HostOf(p), m); } else { RunMov64(HostOf(p), HostOf(i), m); }
    } else {
      if need { RunMov64(HostOf(i), HostOf(p), m); } else { RunNone(m); }
    }
    SwappedWhere(sm, c, i, p, r);
    forall q: Guest ensures q != r || need ==> Val(sm, c', m', q) == Val(sm, c, m, q) {
      SwappedWhere(sm, c, i, p, q);
    }
  }

  /** The final XOR of loadIntoSpecific. */
  lemma ZeroKeeps(sm: StaticMap, c: Cache, i: Index, r: Guest, m: Machine)
    requires AvoidsReplacements(sm) && Inv(sm, c) && c.content[i] == r && sm[r].Unmapped?
    ensures var m' := Run(if r == X0 then [Zero(i)] else [], m);
            && Keeps(sm, c, m, c, m', {})
            && m'.regs[HostOf(i)] == Val(sm, c, m, r)
  {
    hide Run;
    if r == X0 { RunZero(HostOf(i), m); } else { RunNone(m); }
    forall q: Guest ensures Where(sm, c, q) == InHost(HostOf(i)) ==> q == r && q != X0 {
      InvalidateWhere(sm, c, i, q);
    }
    InvalidateWhere(sm, c, i, r);
  }

  lemma LoadSpecificKeeps(sm: StaticMap, c: Cache, r: Guest, i: Index, need: bool, m: Machine)
    requires AvoidsReplacements(sm) && Inv(sm, c) && sm[r].Unmapped?
    ensures var e := LoadSpecific(c, r, i, need);
            var m' := Run(e.code, m);
            && Inv(sm, e.cache)
            && Keeps(sm, c, m, e.cache, m', if need then {} else {r})
            && (need ==> m'.regs[HostOf(i)] == Val(sm, c, m, r))
  {
    hide Run, Where;
    var e := LoadSpecific(c, r, i, need);
    var p := Find(c, r);
    if p == i {
      TouchKeeps(sm, c, i, e.code, m);
      assert e.cache == Placed(c, r, i);
    } else if p < 3 {
      var moves, zero := Shuffle(c, i, p, need), if r == X0 then [Zero(i)] else [];
      RunAppend(moves, zero, m);
      ShuffleKeeps(sm, c, r, i, p, need, m);
      ZeroKeeps(sm, Swapped(c, i, p), i, r, Run(moves, m));
    } else {
      var spill := if c.recency[i] != 0 then [Store(c.content[i], HostOf(i))] else [];
      var fill := if r == X0 then [Zero(i)] else if need then [Fetch(HostOf(i), r)] else [];
      SpillFillKeeps(sm, c, r, i, spill, fill, m);
    }
  }

  lemma ShuffleFile(c: Cache, i: Index, p: Index, need: bool, m: Machine)
    ensures Run(Shuffle(c, i, p, need), m).file == m.file
  {
    hide Run;
    if c.recency[i] != 0 {
      if need { RunXchg64(HostOf(i), HostOf(p), m); } else { RunMov64(HostOf(p), HostOf(i), m); }
    } else {
      if need { RunMov64(HostOf(i), HostOf(p), m); } else { RunNone(m); }
    }
  }

  lemma FillFile(r: Guest, i: Index, fill: seq<Code>, m: Machine)
    requires fill == [] || fill == [Zero(i)] || fill == [Fetch(HostOf(i), r)]
    ensures Run(fill, m).file == m.file
  {
    hide Run;
    if fill == [] {
      RunNone(m);
    } else if fill == [Zero(i)] {
      RunZero(HostOf(i), m);
    } else {
      RunFetch(HostOf(i), r, m);
    }
  }

  /** What the guard means for slot 0: loadIntoSpecific writes it exactly when it displaces a
      cached x0. */
  lemma LoadSpecificSlotZero(sm: StaticMap, c: Cache, r: Guest, i: Index, need: bool, m: Machine)
    requires Inv(sm, c)
    ensures Run(LoadSpecific(c, r, i, need).code, m).file[X0]
         == if Find(c, r) == 3 && c.content[i] == X0 then m.regs[HostOf(i)] else m.file[X0]
  {
    hide Run;
    var p := Find(c, r);
    var zero := if r == X0 then [Zero(i)] else [];
    if p == i {
      FillFile(r, i, zero, m);
    } else if p < 3 {
      RunAppend(Shuffle(c, i, p, need), zero, m);
      ShuffleFile(c, i, p, need, m);
      FillFile(r, i, zero, Run(Shuffle(c, i, p, need), m));
    } else {
      var spill := if c.recency[i] != 0 then [Store(c.content[i], HostOf(i))] else [];
      var fill := if r == X0 then [Zero(i)] else if need then [Fetch(HostOf(i), r)] else [];
      RunAppend(spill, fill, m);
      FillFile(r, i, fill, Run(spill, m));
      if spill == [] { RunNone(m); } else { RunStore(c.content[i], HostOf(i), m); }
    }
  }

  /** Where loadIntoSpecific leaves every register, with or without its value: the requested one
      in replacement register i; the one displaced from i where the requested one was, or in
      its slot; all others where they were. */
  lemma LoadSpecificWhere(sm: StaticMap, c: Cache, r: Guest, i: Index, need: bool, q: Guest)
    requires AvoidsReplacements(sm) && Inv(sm, c) && sm[r].Unmapped?
    ensures var c' := LoadSpecific(c, r, i, need).cache;
            var p := Where(sm, c, q);
            c'.content[i] == r
            && Where(sm, c', q) == if q == r then (if r == X0 then Nowhere else InHost(HostOf(i)))
                                   else if p != InHost(HostOf(i)) then p
                                   else if Find(c, r) < 3 then InHost(HostOf(Find(c, r)))
                                   else InFile(q)
  {
    hide Oldest;
  }

  /** The requested register counts as the one used last. */
  lemma LoadSpecificYoungest(sm: StaticMap, c: Cache, r: Guest, i: Index, need: bool)
    requires Inv(sm, c)
    ensures var c' := LoadSpecific(c, r, i, need).cache;
            && (forall j: Index :: j != i ==> c'.recency[j] < c'.recency[i])
            && (forall j: Index :: j != i && j != Find(c, r) ==> c'.recency[j] == c.recency[j])
  {
    StampsBelow(sm, c);
  }

  lemma InvalidateKeeps(sm: StaticMap, c: Cache, i: Index, m: Machine)
    requires AvoidsReplacements(sm) && Inv(sm, c)
    ensures var e := Invalidate(c, i, true);
            var m' := Run(e.code, m);
            && Inv(sm, e.cache) && Keeps(sm, c, m, e.cache, m', {})
            && m'.regs == m.regs
  {
    SpillKeeps(sm, c, i, Spill(c, i), m);
  }

  /** After invalidateOldest the register it returns is free. */
  lemma InvalidateOldestKeeps(sm: StaticMap, c: Cache, m: Machine)
    requires AvoidsReplacements(sm) && Inv(sm, c)
    ensures var e := InvalidateOldest(c);
            var m' := Run(e.code, m);
            && Inv(sm, e.cache) && Keeps(sm, c, m, e.cache, m', {})
            && m'.regs == m.regs
            && e.cache.content[Oldest(c)] == INVALID
  {
    InvalidateKeeps(sm, c, Oldest(c), m);
  }

  /** After invalidateAllReplacements no register is cached and every unmapped
      register has its value in its slot. */
  lemma InvalidateAllKeeps(sm: StaticMap, c: Cache, m: Machine)
    requires AvoidsReplacements(sm) && Inv(sm, c)
    ensures var e := InvalidateAll(c);
            var m' := Run(e.code, m);
            && Inv(sm, e.cache) && Keeps(sm, c, m, e.cache, m', {})
            && m'.regs == m.regs
            && (forall i: Index :: e.cache.content[i] == INVALID)
            && (forall r: Guest :: r != X0 && sm[r].Unmapped? ==> m'.file[r] == Val(sm, c, m, r))
  {
    hide Run, Where;
    var e0 := Invalidate(c, 0, true);
    var e1 := Invalidate(e0.cache, 1, true);
    var e2 := Invalidate(e1.cache, 2, true);
    var m0 := Run(e0.code, m);
    var m1 := Run(e1.code, m0);
    InvalidateKeeps(sm, c, 0, m);
    InvalidateKeeps(sm, e0.cache, 1, m0);
    InvalidateKeeps(sm, e1.cache, 2, m1);
    RunAppend(e0.code, e1.code, m);
    RunAppend(e0.code + e1.code, e2.code, m);
    forall r: Guest | r != X0 && sm[r].Unmapped? ensures Where(sm, e2.cache, r) == InFile(r) {
      EmptyWhere(sm, e2.cache, r);
    }
  }

  lemma EmptyWhere(sm: StaticMap, c: Cache, r: Guest)
    requires forall i: Index :: c.content[i] == INVALID
    requires r != X0 && sm[r].Unmapped?
    ensures Where(sm, c, r) == InFile(r)
  {
  }

  lemma CopyMappedKeeps(sm: StaticMap, c: Cache, r: Guest, i: Index, m: Machine)
    requires AvoidsReplacements(sm) && Inv(sm, c) && sm[r].Mapped?
    ensures var e := CopyMapped(c, r, sm[r].host, i);
            var m' := Run(e.code, m);
            && Inv(sm, e.cache) && Keeps(sm, c, m, e.cache, m', {})
            && m'.regs[HostOf(i)] == m.regs[sm[r].host]
  {
    hide Run, Where;
    var e := Invalidate(c, i, true);
    var m1 := Run(e.code, m);
    InvalidateKeeps(sm, c, i, m);
    var move := [Mov64(HostOf(i), sm[r].host)];
    RunAppend(e.code, move, m);
    RunMov64(HostOf(i), sm[r].host, m1);
    PlaceKeeps(sm, e.cache, r, i, m1, Run(move, m1));
    assert Placed(e.cache, r, i) == CopyMapped(c, r, sm[r].host, i).cache;
  }

  // ----- every sequence of calls -----

  datatype Call =
    | LoadAny(r: Guest, need: bool)
    | LoadInto(r: Guest, i: Index, need: bool)
    | Copy(r: Guest, i: Index)
    | Drop(i: Index)
    | DropOldest
    | DropAll

  /** The getters ask for a load only when the register is unmapped, for a copy only
      when it is mapped. */
  predicate Proper(sm: StaticMap, call: Call) {
    match call
    case LoadAny(r, _) => sm[r].Unmapped?
    case LoadInto(r, _, _) => sm[r].Unmapped?
    case Copy(r, _) => sm[r].Mapped?
    case _ => true
  }

  function Perform(sm: StaticMap, c: Cache, call: Call): Emission
    requires Proper(sm, call)
  {
    match call
    case LoadAny(r, need) => Load(c, r, need)
    case LoadInto(r, i, need) => LoadSpecific(c, r, i, need)
    case Copy(r, i) => CopyMapped(c, r, sm[r].host, i)
    case Drop(i) => Invalidate(c, i, true)
    case DropOldest => InvalidateOldest(c)
    case DropAll => InvalidateAll(c)
  }

  /** The registers a call may leave with another value: destinations requested
      without their value. */
  function Lost(call: Call): set<Guest> {
    match call
    case LoadAny(r, need) => if need then {} else {r}
    case LoadInto(r, i, need) => if need then {} else {r}
    case _ => {}
  }

  function PerformAll(sm: StaticMap, c: Cache, calls: seq<Call>): Emission
    requires forall k :: 0 <= k < |calls| ==> Proper(sm, calls[k])
    decreases |calls|
  {
    if calls == [] then Emission([], c) else
    var e := Perform(sm, c, calls[0]);
    var rest := PerformAll(sm, e.cache, calls[1..]);
    Emission(e.code + rest.code, rest.cache)
  }

  function AllLost(calls: seq<Call>): set<Guest>
    decreases |calls|
  {
    if calls == [] then {} else Lost(calls[0]) + AllLost(calls[1..])
  }

  lemma PerformKeeps(sm: StaticMap, c: Cache, call: Call, m: Machine)
    requires AvoidsReplacements(sm) && Inv(sm, c) && Proper(sm, call)
    ensures var e := Perform(sm, c, call);
            Inv(sm, e.cache) && Keeps(sm, c, m, e.cache, Run(e.code, m), Lost(call))
  {
    hide Run, Where;
    match call
    case LoadAny(r, need) => LoadKeeps(sm, c, r, need, m);
    case LoadInto(r, i, need) => LoadSpecificKeeps(sm, c, r, i, need, m);
    case Copy(r, i) => CopyMappedKeeps(sm, c, r, i, m);
    case Drop(i) => InvalidateKeeps(sm, c, i, m);
    case DropOldest => InvalidateOldestKeeps(sm, c, m);
    case DropAll => InvalidateAllKeeps(sm, c, m);
  }

  /** Any sequence of calls keeps the invariant and, when the emitted code is run, every
      guest register that was not requested as a mere destination. */
  lemma {:induction false} CallsKeep(sm: StaticMap, c: Cache, calls: seq<Call>, m: Machine)
    requires AvoidsReplacements(sm) && Inv(sm, c)
    requires forall k :: 0 <= k < |calls| ==> Proper(sm, calls[k])
    ensures var e := PerformAll(sm, c, calls);
            Inv(sm, e.cache) && Keeps(sm, c, m, e.cache, Run(e.code, m), AllLost(calls))
    decreases |calls|
  {
    hide Run, Val, Lost;
    if calls == [] {
      RunNone(m);
    } else {
      var e := Perform(sm, c, calls[0]);
      var rest := PerformAll(sm, e.cache, calls[1..]);
      var m1 := Run(e.code, m);
      PerformKeeps(sm, c, calls[0], m);
      CallsKeep(sm, e.cache, calls[1..], m1);
      RunAppend(e.code, rest.code, m);
    }
  }

  // ----- getRs1, getRs2, getRd -----

  function SrcHost(sm: StaticMap, c: Cache, r: Guest): Host {
    if sm[r].Mapped? then sm[r].host else HostOf(Target(c, r))
  }

  function GetSrc(sm: StaticMap, c: Cache, r: Guest): Emission {
    if sm[r].Mapped? then Emission([], c) else Load(c, r, true)
  }

  function GetDst(sm: StaticMap, c: Cache, r: Guest): Emission {
    if sm[r].Mapped? then Emission([], c) else Load(c, r, false)
  }

  /** How many replacement registers were used after i. */
  function Younger(c: Cache, i: Index): nat {
    (if c.recency[0] > c.recency[i] then 1 else 0) + (if c.recency[1] > c.recency[i] then 1 else 0)
    + (if c.recency[2] > c.recency[i] then 1 else 0)
  }

  /** Host register `h` holds the value `w` of operand `r`, and if it is a replacement
      register, at most `age` others were used after it. */
  ghost predicate Holds(sm: StaticMap, c: Cache, m: Machine, r: Guest, h: Host, w: Word, age: nat) {
    && m.regs[h] == w && (r == X0 ==> w == 0)
    && if sm[r].Mapped? then h == sm[r].host
       else exists i: Index :: h == HostOf(i) && c.content[i] == r && Younger(c, i) <= age
  }

  lemma HoldsLonger(sm: StaticMap, c: Cache, m: Machine, r: Guest, h: Host, w: Word, age: nat, age': nat)
    requires Holds(sm, c, m, r, h, w, age) && age <= age'
    ensures Holds(sm, c, m, r, h, w, age')
  {
  }

  /** Writing `h` changes the value of guest register `r` and of no other. */
  ghost predicate Home(sm: StaticMap, c: Cache, r: Guest, h: Host) {
    && (r != X0 ==> Where(sm, c, r) == InHost(h))
    && (forall q: Guest :: q != r ==> Where(sm, c, q) != InHost(h))
  }

  lemma LoadFrame(c: Cache, r: Guest, need: bool, m: Machine, h: Host)
    requires h != HostOf(Target(c, r))
    ensures Run(Load(c, r, need).code, m).regs[h] == m.regs[h]
  {
    hide Run, Find, Oldest;
    var e := Load(c, r, need);
    var i := Target(c, r);
    if Find(c, r) < 3 {
      if r == X0 { RunZero(HostOf(i), m); } else { RunNone(m); }
    } else {
      var spill, fill := Spill(c, i), e.code[|Spill(c, i)|..];
      assert e.code == spill + fill;
      RunAppend(spill, fill, m);
      if spill == [] { RunNone(m); } else { RunStore(c.content[i], HostOf(i), m); }
      var m1 := Run(spill, m);
      if fill == [] { RunNone(m1); }
      else if r == X0 { RunZero(HostOf(i), m1); }
      else { RunFetch(HostOf(i), r, m1); }
    }
  }

  /** A load never evicts a register that is not the oldest. */
  lemma LoadSpares(sm: StaticMap, c: Cache, r: Guest, need: bool, m: Machine, i: Index)
    requires AvoidsReplacements(sm) && Inv(sm, c) && sm[r].Unmapped?
    requires Younger(c, i) <= 1 && c.content[i] != INVALID
    requires c.content[i] == X0 ==> m.regs[HostOf(i)] == 0
    ensures var e := Load(c, r, need);
            && e.cache.content[i] == c.content[i] && Younger(e.cache, i) <= Younger(c, i) + 1
            && Run(e.code, m).regs[HostOf(i)] == m.regs[HostOf(i)]
  {
    hide Run;
    if Target(c, r) == i {
      assert c.content[i] == r;
      if r == X0 { RunZero(HostOf(i), m); } else { RunNone(m); }
    } else {
      hide Find, Oldest;
      LoadFrame(c, r, need, m, HostOf(i));
    }
  }

  /** An operand stays in its register while other operands are loaded. */
  lemma LoadKeepsOperand(sm: StaticMap, c: Cache, r: Guest, need: bool, m: Machine, q: Guest, h: Host, w: Word,
                         age: nat)
    requires AvoidsReplacements(sm) && Inv(sm, c) && sm[r].Unmapped?
    requires age <= 1 && Holds(sm, c, m, q, h, w, age)
    ensures var e := Load(c, r, need);
            Holds(sm, e.cache, Run(e.code, m), q, h, w, age + 1)
  {
    hide Run, Find, Oldest;
    if sm[q].Mapped? {
      LoadFrame(c, r, need, m, h);
    } else {
      var i: Index :| h == HostOf(i) && c.content[i] == q && Younger(c, i) <= age;
      LoadSpares(sm, c, r, need, m, i);
    }
  }

  lemma GetSrcKeeps(sm: StaticMap, c: Cache, r: Guest, m: Machine)
    requires IsStaticMap(sm) && Inv(sm, c)
    ensures var e := GetSrc(sm, c, r);
            var m' := Run(e.code, m);
            && Inv(sm, e.cache) && Keeps(sm, c, m, e.cache, m', {})
            && Holds(sm, e.cache, m', r, SrcHost(sm, c, r), Val(sm, c, m, r), 0)
  {
    hide Run, Find;
    if sm[r].Mapped? {
      RunNone(m);
    } else {
      LoadKeeps(sm, c, r, true, m);
      var e := GetSrc(sm, c, r);
      assert Younger(e.cache, Target(c, r)) == 0 by { hide Inv; assert Inv(sm, c); StampsBelow(sm, c); }
    }
  }

  lemma StampsBelow(sm: StaticMap, c: Cache)
    requires Inv(sm, c)
    ensures c.recency[0] <= c.clock && c.recency[1] <= c.clock && c.recency[2] <= c.clock
  {
    var i0: Index, i1: Index, i2: Index := 0, 1, 2;
    assert c.recency[i0] <= c.clock && c.recency[i1] <= c.clock && c.recency[i2] <= c.clock;
  }

  lemma GetSrcKeepsOperand(sm: StaticMap, c: Cache, r: Guest, m: Machine, q: Guest, h: Host, w: Word)
    requires IsStaticMap(sm) && Inv(sm, c) && Holds(sm, c, m, q, h, w, 0)
    ensures var e := GetSrc(sm, c, r);
            Holds(sm, e.cache, Run(e.code, m), q, h, w, 1)
  {
    hide Run, Find, Oldest;
    if sm[r].Mapped? { RunNone(m); } else { LoadKeepsOperand(sm, c, r, true, m, q, h, w, 0); }
  }

  lemma GetDstKeepsOperand(sm: StaticMap, c: Cache, r: Guest, m: Machine, q: Guest, h: Host, w: Word)
    requires IsStaticMap(sm) && Inv(sm, c) && Holds(sm, c, m, q, h, w, 1)
    ensures var e := GetDst(sm, c, r);
            Run(e.code, m).regs[h] == w
  {
    hide Run, Find, Oldest;
    if sm[r].Mapped? { RunNone(m); } else { LoadKeepsOperand(sm, c, r, false, m, q, h, w, 1); }
  }

  lemma GetDstKeeps(sm: StaticMap, c: Cache, r: Guest, m: Machine)
    requires IsStaticMap(sm) && Injective(sm) && Inv(sm, c)
    ensures var e := GetDst(sm, c, r);
            var m' := Run(e.code, m);
            && Inv(sm, e.cache) && Keeps(sm, c, m, e.cache, m', {r})
            && Home(sm, e.cache, r, SrcHost(sm, c, r))
  {
    hide Run, Where;
    if sm[r].Mapped? {
      RunNone(m);
      MappedHome(sm, c, r);
    } else {
      LoadKeeps(sm, c, r, false, m);
      ReplacementHome(sm, GetDst(sm, c, r).cache, r, Target(c, r));
    }
  }

  lemma MappedHome(sm: StaticMap, c: Cache, r: Guest)
    requires IsStaticMap(sm) && Injective(sm) && sm[r].Mapped?
    ensures Home(sm, c, r, sm[r].host)
  {
  }

  lemma ReplacementHome(sm: StaticMap, c: Cache, r: Guest, i: Index)
    requires IsStaticMap(sm) && Inv(sm, c) && sm[r].Unmapped? && c.content[i] == r
    ensures Home(sm, c, r, HostOf(i))
  {
    InvalidateWhere(sm, c, i, r);
    forall q: Guest | q != r ensures Where(sm, c, q) != InHost(HostOf(i)) {
      InvalidateWhere(sm, c, i, q);
    }
  }

  // ----- getRdHinted -----

  /** An unmapped destination goes to the replacement register that the caller asks for. */
  function GetDstHinted(sm: StaticMap, c: Cache, r: Guest, i: Index): Emission {
    if sm[r].Unmapped? then LoadSpecific(c, r, i, false) else Emission([], c)
  }

  function HintedHost(sm: StaticMap, r: Guest, i: Index): Host { if sm[r].Unmapped? then HostOf(i) else sm[r].host }

  /** After loadIntoSpecific writing the register asked for sets the requested guest register
      and no other. */
  lemma LoadSpecificHome(sm: StaticMap, c: Cache, r: Guest, i: Index, need: bool)
    requires IsStaticMap(sm) && Inv(sm, c) && sm[r].Unmapped?
    ensures Home(sm, LoadSpecific(c, r, i, need).cache, r, HostOf(i))
  {
    hide LoadSpecific, Where;
    LoadSpecificWhere(sm, c, r, i, need, r);
    forall q: Guest | q != r ensures Where(sm, LoadSpecific(c, r, i, need).cache, q) != InHost(HostOf(i)) {
      LoadSpecificWhere(sm, c, r, i, need, q);
      if Find(c, r) < 3 && Where(sm, c, q) == InHost(HostOf(i)) { NotAlsoAt(sm, c, r, i, q); }
    }
  }

  /** A register displaced from i does not end up in i. */
  lemma NotAlsoAt(sm: StaticMap, c: Cache, r: Guest, i: Index, q: Guest)
    requires IsStaticMap(sm) && Inv(sm, c) && sm[r].Unmapped? && q != r && Find(c, r) < 3
    requires Where(sm, c, q) == InHost(HostOf(i))
    ensures Find(c, r) != i
  {
  }

  /** The destination is at home in the register returned, whether mapped or not. */
  lemma GetDstHintedKeeps(sm: StaticMap, c: Cache, r: Guest, i: Index, m: Machine)
    requires IsStaticMap(sm) && Injective(sm) && Inv(sm, c)
    ensures var e := GetDstHinted(sm, c, r, i);
            var m' := Run(e.code, m);
            && Inv(sm, e.cache) && Keeps(sm, c, m, e.cache, m', {r})
            && Home(sm, e.cache, r, HintedHost(sm, r, i))
  {
    hide Run, Where, LoadSpecific;
    if sm[r].Mapped? {
      RunNone(m);
      MappedHome(sm, c, r);
    } else {
      LoadSpecificKeeps(sm, c, r, i, false, m);
      LoadSpecificHome(sm, c, r, i, false);
    }
  }

  // ----- invalidateReplacement without writing back -----

  /** Without write-back nothing is emitted and what was cached is dropped: its register has the
      value of its slot again, all others keep theirs. */
  lemma DropForgets(sm: StaticMap, c: Cache, i: Index, q: Guest, m: Machine)
    requires AvoidsReplacements(sm) && Inv(sm, c)
    ensures var e := Invalidate(c, i, false);
            && e.code == [] && Inv(sm, e.cache) && e.cache.content[i] == INVALID
            && Val(sm, e.cache, m, q)
               == if Where(sm, c, q) == InHost(HostOf(i)) then m.file[q] else Val(sm, c, m, q)
  {
    InvalidateInv(sm, c, i);
    InvalidateWhere(sm, c, i, q);
  }
}
