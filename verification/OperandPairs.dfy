/** getRs1Into and getRs2Into one after the other, in either order, as the translators of the
    high products (AX first) and of the divisions (CX first) call them. */
module OperandPairs {
  import opened Words
  import opened X86
  import opened RegisterCache

  function GetInto(sm: StaticMap, c: Cache, r: Guest, i: Index): Emission {
    if sm[r].Unmapped? then LoadSpecific(c, r, i, true) else CopyMapped(c, r, sm[r].host, i)
  }

  lemma GetIntoKeeps(sm: StaticMap, c: Cache, r: Guest, i: Index, m: Machine)
    requires IsStaticMap(sm) && Inv(sm, c)
    ensures var e := GetInto(sm, c, r, i);
            var m' := Run(e.code, m);
            && Inv(sm, e.cache) && Keeps(sm, c, m, e.cache, m', {})
            && m'.regs[HostOf(i)] == Val(sm, c, m, r) && e.cache.content[i] == r
  {
    hide Run;
    if sm[r].Unmapped? {
      LoadSpecificKeeps(sm, c, r, i, true, m);
    } else {
      CopyMappedKeeps(sm, c, r, i, m);
    }
  }

  /** A replacement register that neither is the destination nor holds the operand is left
      alone. */
  lemma GetIntoFrame(sm: StaticMap, c: Cache, r: Guest, i: Index, j: Index, m: Machine)
    requires IsStaticMap(sm) && j != i && (sm[r].Unmapped? ==> j != Find(c, r))
    ensures Run(GetInto(sm, c, r, i).code, m).regs[HostOf(j)] == m.regs[HostOf(j)]
  {
    hide Run, Find;
    if sm[r].Mapped? {
      var spill, move := Invalidate(c, i, true).code, [Mov64(HostOf(i), sm[r].host)];
      RunAppend(spill, move, m);
      if spill == [] { RunNone(m); } else { RunStore(c.content[i], HostOf(i), m); }
      RunMov64(HostOf(i), sm[r].host, Run(spill, m));
    } else {
      SpecificFrame(c, r, i, j, m);
    }
  }

  lemma ZeroFrame(r: Guest, i: Index, j: Index, m: Machine)
    requires j != i
    ensures Run(if r == X0 then [Zero(i)] else [], m).regs[HostOf(j)] == m.regs[HostOf(j)]
  {
    hide Run;
    if r == X0 { RunZero(HostOf(i), m); } else { RunNone(m); }
  }

  lemma SpecificFrame(c: Cache, r: Guest, i: Index, j: Index, m: Machine)
    requires j != i && j != Find(c, r)
    ensures Run(LoadSpecific(c, r, i, true).code, m).regs[HostOf(j)] == m.regs[HostOf(j)]
  {
    hide Run, Find;
    var p := Find(c, r);
    var zero := if r == X0 then [Zero(i)] else [];
    if p == i {
      ZeroFrame(r, i, j, m);
    } else if p < 3 {
      var moves := Shuffle(c, i, p, true);
      RunAppend(moves, zero, m);
      if c.recency[i] != 0 { RunXchg64(HostOf(i), HostOf(p), m); } else { RunMov64(HostOf(i), HostOf(p), m); }
      ZeroFrame(r, i, j, Run(moves, m));
    } else {
      var spill := if c.recency[i] != 0 then [Store(c.content[i], HostOf(i))] else [];
      var fill := if r == X0 then [Zero(i)] else [Fetch(HostOf(i), r)];
      RunAppend(spill, fill, m);
      var m1 := Run(spill, m);
      if spill == [] { RunNone(m); } else { RunStore(c.content[i], HostOf(i), m); }
      if r == X0 { RunZero(HostOf(i), m1); } else { RunFetch(HostOf(i), r, m1); }
    }
  }

  /** One operand into replacement register i, then the other into j. */
  function Pair(sm: StaticMap, c: Cache, q: Guest, i: Index, r: Guest, j: Index): Emission {
    var e1 := GetInto(sm, c, q, i);
    var e2 := GetInto(sm, e1.cache, r, j);
    Emission(e1.code + e2.code, e2.cache)
  }

  /** After the first request, a second one for the same register changes i only if j is in
      use: then it exchanges the two. */
  lemma SecondRequest(sm: StaticMap, c: Cache, r: Guest, i: Index, j: Index, m: Machine)
    requires IsStaticMap(sm) && Inv(sm, c) && c.content[i] == r && sm[r].Unmapped? && i != j
    ensures Run(GetInto(sm, c, r, j).code, m).regs[HostOf(i)]
         == if c.recency[j] != 0 then m.regs[HostOf(j)] else m.regs[HostOf(i)]
  {
    hide Run;
    var zero := if r == X0 then [Zero(j)] else [];
    var moves := Shuffle(c, j, i, true);
    assert Find(c, r) == i;
    RunAppend(moves, zero, m);
    if c.recency[j] != 0 { RunXchg64(HostOf(j), HostOf(i), m); } else { RunMov64(HostOf(j), HostOf(i), m); }
    ZeroFrame(r, j, i, Run(moves, m));
  }

  /** What i holds after the pair. */
  function FirstAfter(sm: StaticMap, c: Cache, q: Guest, i: Index, r: Guest, j: Index, m: Machine): Word {
    Run(Pair(sm, c, q, i, r, j).code, m).regs[HostOf(i)]
  }

  /** j is in use once the first operand is in i. */
  predicate InUse(sm: StaticMap, c: Cache, r: Guest, i: Index, j: Index) {
    GetInto(sm, c, r, i).cache.recency[j] != 0
  }

  /** The pair keeps every guest register, the second operand is in j, and the first one is in i
      unless both are the same unmapped register and j was in use. */
  lemma PairHolds(sm: StaticMap, c: Cache, q: Guest, i: Index, r: Guest, j: Index, m: Machine)
    requires IsStaticMap(sm) && Inv(sm, c) && i != j
    ensures var e := Pair(sm, c, q, i, r, j);
            var m' := Run(e.code, m);
            && Inv(sm, e.cache) && Keeps(sm, c, m, e.cache, m', {})
            && m'.regs[HostOf(j)] == Val(sm, c, m, r)
    ensures q != r || sm[q].Mapped? || !InUse(sm, c, q, i, j) ==>
              FirstAfter(sm, c, q, i, r, j, m) == Val(sm, c, m, q)
    ensures q == r && sm[q].Unmapped? && InUse(sm, c, q, i, j) ==>
              FirstAfter(sm, c, q, i, r, j, m) == Run(GetInto(sm, c, q, i).code, m).regs[HostOf(j)]
  {
    hide Run, GetInto, Val, Inv;
    var e1 := GetInto(sm, c, q, i);
    var m1 := Run(e1.code, m);
    var e2 := GetInto(sm, e1.cache, r, j);
    GetIntoKeeps(sm, c, q, i, m);
    GetIntoKeeps(sm, e1.cache, r, j, m1);
    RunAppend(e1.code, e2.code, m);
    KeepsChain(sm, c, m, e1.cache, m1, e2.cache, Run(e2.code, m1), {}, {});
    if q == r && sm[q].Unmapped? {
      SecondRequest(sm, e1.cache, q, i, j, m1);
    } else {
      GetIntoFrame(sm, e1.cache, r, j, i, m1);
    }
  }

  /** When j is in use then: its stamp before, or that of i if the operand was in j. */
  lemma InUseBefore(sm: StaticMap, c: Cache, r: Guest, i: Index, j: Index)
    requires IsStaticMap(sm) && Inv(sm, c) && sm[r].Unmapped? && i != j
    ensures InUse(sm, c, r, i, j) <==> c.recency[if Find(c, r) == j then i else j] != 0
  {
  }

  function Witness(): Machine {
    Machine([5, 7, 9, 0, 0, 0, 0, 0, 0, 0, 0, 0, 0, 0, 0, 0], seq(N_REG, k => 0), [0, 0, 0, 0, 0, 0, 0], map[], 0,
            UNORDERED)
  }

  /** Asked for twice, an unmapped register is in i afterwards for every machine exactly when j
      is not in use; otherwise the exchange moves it away, as the witness shows. */
  lemma SameRegisterTwice(sm: StaticMap, c: Cache, r: Guest, i: Index, j: Index)
    requires IsStaticMap(sm) && Inv(sm, c) && sm[r].Unmapped? && i != j
    ensures (forall m: Machine :: FirstAfter(sm, c, r, i, r, j, m) == Val(sm, c, m, r)) <==> !InUse(sm, c, r, i, j)
  {
    if InUse(sm, c, r, i, j) {
      var m := Witness();
      PairHolds(sm, c, r, i, r, j, m);
      WitnessDiffers(sm, c, r, i, j);
      assert FirstAfter(sm, c, r, i, r, j, m) != Val(sm, c, m, r);
    } else {
      forall m: Machine ensures FirstAfter(sm, c, r, i, r, j, m) == Val(sm, c, m, r) {
        PairHolds(sm, c, r, i, r, j, m);
      }
    }
  }

  lemma WitnessDiffers(sm: StaticMap, c: Cache, r: Guest, i: Index, j: Index)
    requires IsStaticMap(sm) && Inv(sm, c) && sm[r].Unmapped? && i != j && InUse(sm, c, r, i, j)
    ensures Run(GetInto(sm, c, r, i).code, Witness()).regs[HostOf(j)] != Val(sm, c, Witness(), r)
  {
    hide Run;
    var m := Witness();
    if Find(c, r) == j {
      InUseBefore(sm, c, r, i, j);
      var zero := if r == X0 then [Zero(i)] else [];
      RunAppend([Xchg64(HostOf(i), HostOf(j))], zero, m);
      RunXchg64(HostOf(i), HostOf(j), m);
      ZeroFrame(r, i, j, Run([Xchg64(HostOf(i), HostOf(j))], m));
    } else {
      GetIntoFrame(sm, c, r, i, j, m);
    }
  }
}
