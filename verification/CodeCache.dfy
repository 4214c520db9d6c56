/** The code cache: a linear-probing hash table that doubles by re-inserting its entries,
    behind a direct-mapped table of 32 recent look-ups. */
module CodeCache {
  import opened Words

  /** A slot is empty when its location is UNSEEN. */
  datatype Entry = Entry(addr: Word, loc: nat)

  const UNSEEN: nat := 0
  const TRANSLATION_STARTED: nat := 1
  const INITIAL_SIZE: nat := 8192
  const SMALLTLB: nat := 0x20

  type Directory = map<Word, nat>

  function Get(m: Directory, a: Word): nat { if a in m then m[a] else UNSEEN }

  // ----- masks -----

  ghost predicate IsPow2(n: nat) { exists k: nat :: n == Pow2(k) }

  /** x & (size - 1), on enough bits for both operands. */
  function Masked(x: nat, size: nat): nat
    requires size > 0
  {
    AndBits(64 + size, x, size - 1)
  }

  lemma {:induction false} Pow2Above(k: nat)
    ensures k < Pow2(k)
  {
    if k == 0 {
    } else {
      Pow2Above(k - 1);
    }
  }

  /** For a power of two the mask is the remainder. */
  lemma MaskedIsMod(x: nat, size: nat)
    requires IsPow2(size)
    ensures size > 0 && Masked(x, size) == x % size
  {
    var k: nat :| size == Pow2(k);
    Pow2Above(k);
    MaskIsMod(64 + size, k, x);
  }

  function SmallHash(a: Word): (i: nat)
    ensures i < SMALLTLB
  {
    SmallHashBound(a);
    AndBits(64, a / 8, SMALLTLB - 1)
  }

  lemma SmallHashBound(a: Word)
    ensures AndBits(64, a / 8, SMALLTLB - 1) == a / 8 % SMALLTLB
  {
    assert Pow2(5) == SMALLTLB;
    MaskIsMod(64, 5, a / 8);
  }

  // ----- probe paths -----

  function Home(a: Word, size: nat): (h: nat)
    requires size > 0
    ensures h < size
  {
    a / 4 % size
  }

  /** Steps from h to i, going up and wrapping around. */
  function Dist(h: nat, i: nat, size: nat): (d: nat)
    requires h < size && i < size
    ensures d < size
  {
    if h <= i then i - h else i + size - h
  }

  function At(h: nat, d: nat, size: nat): (i: nat)
    requires h < size && d < size
    ensures i < size && Dist(h, i, size) == d
  {
    if h + d < size then h + d else h + d - size
  }

  lemma AtDist(h: nat, i: nat, size: nat)
    requires h < size && i < size
    ensures At(h, Dist(h, i, size), size) == i
  {
  }

  lemma AtNext(h: nat, d: nat, size: nat)
    requires h < size && d + 1 < size
    ensures At(h, d + 1, size) == (At(h, d, size) + 1) % size
  {
    var i := At(h, d, size);
    if i + 1 == size { ModUnique(size, size, 1, 0); } else { ModUnique(i + 1, size, 0, i + 1); }
  }

  // ----- the table as a value -----

  type Table = t: seq<Entry> | |t| > 0 witness [Entry(0, 0)]

  predicate Used(t: Table, i: nat)
    requires i < |t|
  {
    t[i].loc != UNSEEN
  }

  /** Every slot on the way from h to i is used. */
  ghost predicate PathFull(t: Table, h: nat, i: nat)
    requires h < |t| && i < |t|
  {
    forall d :: 0 <= d < Dist(h, i, |t|) ==> Used(t, At(h, d, |t|))
  }

  /** Each key sits at the end of a full probe path, and only once. */
  ghost predicate Probing(t: Table) {
    && (forall i :: 0 <= i < |t| && Used(t, i) ==> PathFull(t, Home(t[i].addr, |t|), i))
    && (forall i, j :: 0 <= i < |t| && 0 <= j < |t| && Used(t, i) && Used(t, j) && t[i].addr == t[j].addr ==> i == j)
  }

  ghost predicate Represents(t: Table, m: Directory) {
    && (forall i :: 0 <= i < |t| && Used(t, i) ==> t[i].addr in m && m[t[i].addr] == t[i].loc)
    && (forall a :: a in m ==> exists i :: 0 <= i < |t| && Used(t, i) && t[i].addr == a)
  }

  /** Used slots among the first n. */
  function Count(t: Table, n: nat): (c: nat)
    requires n <= |t|
    ensures c <= n
  {
    if n == 0 then 0 else Count(t, n - 1) + (if Used(t, n - 1) then 1 else 0)
  }

  lemma {:induction false} FreeSlot(t: Table, n: nat) returns (e: nat)
    requires n <= |t| && Count(t, n) < n
    ensures e < n && !Used(t, e)
  {
    if Used(t, n - 1) { e := FreeSlot(t, n - 1); } else { e := n - 1; }
  }

  lemma {:induction false} CountUpdate(t: Table, i: nat, e: Entry, n: nat)
    requires i < |t| && n <= |t| && e.loc != UNSEEN
    ensures Count(t[i := e], n) == Count(t, n) + (if i < n && !Used(t, i) then 1 else 0)
  {
    if n == 0 {
    } else {
      CountUpdate(t, i, e, n - 1);
    }
  }

  lemma {:induction false} CountEmpty(t: Table, n: nat)
    requires n <= |t| && forall i :: 0 <= i < n ==> !Used(t, i)
    ensures Count(t, n) == 0
  {
    if n == 0 {
    } else {
      CountEmpty(t, n - 1);
    }
  }

  /** What find_lin_slot returns for key `a`: the first slot on the probe path that is empty
      or holds `a`. */
  ghost predicate Found(t: Table, a: Word, i: nat) {
    && i < |t| && (Used(t, i) ==> t[i].addr == a)
    && forall d :: 0 <= d < Dist(Home(a, |t|), i, |t|) ==>
         var j := At(Home(a, |t|), d, |t|);
         Used(t, j) && t[j].addr != a
  }

  /** The slot found is used exactly when the key is present. */
  lemma FoundMeans(t: Table, m: Directory, a: Word, i: nat)
    requires Probing(t) && Represents(t, m) && Found(t, a, i)
    ensures Get(m, a) == t[i].loc
  {
    var h := Home(a, |t|);
    AtDist(h, i, |t|);
    forall p | 0 <= p < |t| && Used(t, p) && t[p].addr == a ensures p == i {
      AtDist(h, p, |t|);
      assert PathFull(t, h, p);
    }
  }

  /** Writing the slot found keeps the probe paths and sets the key. */
  lemma WriteFound(t: Table, m: Directory, a: Word, i: nat, loc: nat)
    requires Probing(t) && Represents(t, m) && Found(t, a, i) && loc != UNSEEN
    ensures var t' := t[i := Entry(a, loc)];
            Probing(t') && Represents(t', m[a := loc])
  {
    var t' := t[i := Entry(a, loc)];
    FoundMeans(t, m, a, i);
    forall j | 0 <= j < |t| && Used(t', j) ensures PathFull(t', Home(t'[j].addr, |t|), j) {
      if j != i { assert PathFull(t, Home(t[j].addr, |t|), j); }
    }
    forall j | 0 <= j < |t| && Used(t', j) && t'[j].addr == a ensures j == i { }
    var m' := m[a := loc];
    forall b | b in m' ensures exists j :: 0 <= j < |t'| && Used(t', j) && t'[j].addr == b {
      if b == a {
        assert Used(t', i) && t'[i].addr == b;
      } else {
        var j :| 0 <= j < |t| && Used(t, j) && t[j].addr == b;
        assert j != i;
        assert Used(t', j) && t'[j].addr == b;
      }
    }
  }

  /** An empty table. */
  lemma EmptyTable(t: Table)
    requires forall i :: 0 <= i < |t| ==> !Used(t, i)
    ensures Probing(t) && Represents(t, map[]) && Count(t, |t|) == 0
  {
    CountEmpty(t, |t|);
  }

  // ----- the cache -----

  class CodeCache {
    var table: array<Entry>     // cache_table; its length is table_size
    var count: nat              // count_entries
    const tlb: array<Entry>
    ghost var Stored: Directory // what the table holds
    ghost var Full: Directory   // what has been set; more than Stored only during a rehash
    ghost var Repr: set<object>

    /** The table and the TLB are consistent, the table perhaps holding only a part. */
    ghost predicate Consistent()
      reads this, Repr
    {
      && this in Repr && table in Repr && tlb in Repr && table != tlb
      && IsPow2(table.Length) && table.Length > 1
      && Probing(table[..]) && Represents(table[..], Stored)
      && count == Count(table[..], table.Length) <= table.Length / 2
      && (forall a :: a in Stored ==> a in Full && Full[a] == Stored[a])
      && (forall a :: a in Full ==> Full[a] != UNSEEN)
      && tlb.Length == SMALLTLB
      && (forall i :: 0 <= i < SMALLTLB && SmallHash(tlb[i].addr) == i ==> tlb[i].loc == Get(Full, tlb[i].addr))
    }

    ghost predicate Valid()
      reads this, Repr
    {
      Consistent() && Stored == Full
    }

    constructor ()
      ensures Valid() && fresh(Repr) && Full == map[]
    {
      table := new Entry[INITIAL_SIZE](i => Entry(0, UNSEEN));
      tlb := new Entry[SMALLTLB](i => Entry(0, UNSEEN));
      count := 0;
      Stored, Full := map[], map[];
      new;
      Repr := {this, table, tlb};
      EmptyTable(table[..]);
      InitialSize();
    }

    /** find_lin_slot.  The probe ends because at most half of the table is used. */
    method FindLinSlot(a: Word) returns (index: nat)
      requires Consistent()
      ensures Found(table[..], a, index) && Get(Stored, a) == table[index].loc
    {
      ghost var t := table[..];
      var size := table.Length;
      ghost var h := Home(a, size);
      ghost var e := FreeSlot(t, size);
      ghost var d := 0;
      MaskedIsMod(a / 4, size);
      index := Masked(a / 4, size);
      AtDist(h, e, size);
      while table[index].loc != UNSEEN && table[index].addr != a
        invariant d <= Dist(h, e, size) && index == At(h, d, size)
        invariant forall d' :: 0 <= d' < d ==> Used(t, At(h, d', size)) && t[At(h, d', size)].addr != a
        decreases Dist(h, e, size) - d
      {
        AtNext(h, d, size);
        MaskedIsMod(index + 1, size);
        index := Masked(index + 1, size);
        d := d + 1;
      }
      FoundMeans(t, Stored, a, index);
    }

    method SetTlb(a: Word, loc: nat)
      requires Consistent() && Get(Full, a) == loc
      modifies tlb
      ensures Consistent() && tlb[..] == old(tlb[..])[SmallHash(a) := Entry(a, loc)]
    {
      tlb[SmallHash(a)] := Entry(a, loc);
    }

    method LookupCacheEntry(a: Word) returns (loc: nat)
      requires Valid()
      modifies tlb
      ensures Valid() && loc == Get(Full, a)
      ensures Full == old(Full) && Repr == old(Repr)
      ensures loc != UNSEEN ==> tlb[SmallHash(a)] == Entry(a, loc)
    {
      var s := SmallHash(a);
      if tlb[s].addr == a {
        return tlb[s].loc;
      }
      var index := FindLinSlot(a);
      loc := table[index].loc;
      if loc != UNSEEN {
        SetTlb(a, loc);
      }
    }

    /** set_cache_entry.  During a rehash it is called on a table that holds only a part of
        the entries; such a call never resizes. */
    method SetCacheEntry(a: Word, loc: nat)
      requires Consistent() && loc != UNSEEN
      modifies Repr
      ensures Consistent() && fresh(Repr - old(Repr))
      ensures Stored == old(Stored)[a := loc] && Full == old(Full)[a := loc]
      ensures count == old(count) + (if a in old(Stored) then 0 else 1)
      ensures old(count) < old(table.Length) / 2 ==> table == old(table) && Repr == old(Repr)
      ensures old(count) >= old(table.Length) / 2 ==> table.Length == 2 * old(table.Length)
      ensures tlb[SmallHash(a)] == Entry(a, loc)
      decreases if count >= table.Length / 2 then 2 else 0
    {
      hide Probing, Represents, Count, Found, IsPow2;
      var index := FindLinSlot(a);
      if count >= table.Length / 2 {
        Rehash();
        index := FindLinSlot(a);
      }
      WriteEntry(a, loc, index);
    }

    /** The resizing step of set_cache_entry: a table of twice the size, filled by setting
        every old entry again.  No call of the loop resizes, and the TLB agrees throughout
        with everything that was ever set. */
    method Rehash()
      requires Consistent() && count >= table.Length / 2
      modifies Repr
      ensures Consistent() && fresh(Repr - old(Repr))
      ensures Stored == old(Stored) && Full == old(Full) && count == old(count)
      ensures table.Length == 2 * old(table.Length)
      decreases 1
    {
      hide Probing, Represents, IsPow2, Found;
      ghost var t, stored := table[..], Stored;
      var oldTable := table;
      Enlarge();
      ghost var newTable := table;
      assert oldTable[..] == t;
      for i := 0 to oldTable.Length
        invariant Consistent() && table == newTable && Repr == {this, table, tlb}
        invariant oldTable[..] == t && Full == old(Full)
        invariant count == Count(t, i)
        invariant forall b :: b in Stored ==> b in stored && stored[b] == Stored[b]
        invariant forall j :: 0 <= j < |t| && Used(t, j) ==> (t[j].addr in Stored <==> j < i)
      {
        CountMonotone(t, i, |t|);
        if oldTable[i].loc != UNSEEN {
          OldEntry(t, stored, i);
          SetCacheEntry(oldTable[i].addr, oldTable[i].loc);
        }
      }
      AllReinserted(t, stored, Stored);
    }

    /** A new empty table of twice the size. */
    method Enlarge()
      requires Consistent()
      modifies this
      ensures Consistent() && fresh(table) && Repr == {this, table, tlb}
      ensures table.Length == 2 * old(table.Length) && count == 0
      ensures Stored == map[] && Full == old(Full)
    {
      hide IsPow2;
      DoubleSize(table.Length);
      table := new Entry[2 * table.Length](i => Entry(0, UNSEEN));
      count := 0;
      Repr, Stored := {this, table, tlb}, map[];
      hide Probing, Represents, Count;
      EmptyTable(table[..]);
    }

    /** The last part of set_cache_entry: update or insert, then refresh the TLB. */
    method WriteEntry(a: Word, loc: nat, index: nat)
      requires Consistent() && loc != UNSEEN && Found(table[..], a, index) && count < table.Length / 2
      modifies this`count, this`Stored, this`Full, table, tlb
      ensures Consistent()
      ensures Stored == old(Stored)[a := loc] && Full == old(Full)[a := loc]
      ensures count == old(count) + (if a in old(Stored) then 0 else 1)
      ensures tlb[SmallHash(a)] == Entry(a, loc)
    {
      hide Probing, Represents, IsPow2, SmallHash, Count;
      ghost var t := table[..];
      assert index < |t| && (Used(t, index) ==> t[index].addr == a);
      hide Found;
      FoundMeans(t, Stored, a, index);
      WriteFound(t, Stored, a, index, loc);
      CountUpdate(t, index, Entry(a, loc), |t|);
      if table[index].loc != UNSEEN {
        table[index] := Entry(table[index].addr, loc);
      } else {
        table[index] := Entry(a, loc);
        count := count + 1;
      }
      assert table[..] == t[index := Entry(a, loc)];
      Stored, Full := Stored[a := loc], Full[a := loc];
      tlb[SmallHash(a)] := Entry(a, loc);
    }
  }

  lemma DoubleSize(n: nat)
    requires IsPow2(n)
    ensures IsPow2(2 * n)
  {
    var k: nat :| n == Pow2(k);
    assert 2 * n == Pow2(k + 1);
  }

  lemma {:induction false} CountMonotone(t: Table, i: nat, n: nat)
    requires i <= n <= |t|
    ensures Count(t, i) <= Count(t, n)
    decreases n
  {
    if i >= n {
    } else {
      CountMonotone(t, i, n - 1);
    }
  }

  lemma OldEntry(t: Table, m: Directory, i: nat)
    requires Probing(t) && Represents(t, m) && i < |t| && Used(t, i)
    ensures t[i].addr in m && m[t[i].addr] == t[i].loc
    ensures forall j :: 0 <= j < |t| && Used(t, j) && t[j].addr == t[i].addr ==> j == i
  {
  }

  lemma AllReinserted(t: Table, m: Directory, m': Directory)
    requires Represents(t, m)
    requires forall b :: b in m' ==> b in m && m[b] == m'[b]
    requires forall j :: 0 <= j < |t| && Used(t, j) ==> t[j].addr in m'
    ensures m' == m
  {
  }

  lemma InitialSize()
    ensures IsPow2(INITIAL_SIZE)
  {
    Pow2Sum(8, 5);
    assert Pow2(5) == 32 && Pow2(8) == 256;
    assert Pow2(13) == INITIAL_SIZE;
  }

  // ----- any sequence of calls -----

  datatype Call = Lookup(a: Word) | Set(a: Word, loc: nat)

  /** The answers a plain map would give. */
  ghost function Answers(m: Directory, calls: seq<Call>): seq<nat>
    decreases |calls|
  {
    if calls == [] then []
    else if calls[0].Lookup? then [Get(m, calls[0].a)] + Answers(m, calls[1..])
    else Answers(m[calls[0].a := calls[0].loc], calls[1..])
  }

  /** Whatever the calls and however often the table doubles, every look-up answers as a
      plain map does. */
  method Serve(cache: CodeCache, calls: seq<Call>) returns (answers: seq<nat>)
    requires cache.Valid() && forall k :: 0 <= k < |calls| && calls[k].Set? ==> calls[k].loc != UNSEEN
    modifies cache.Repr
    ensures cache.Valid() && fresh(cache.Repr - old(cache.Repr))
    ensures answers == Answers(old(cache.Full), calls)
  {
    answers := [];
    for k := 0 to |calls|
      invariant cache.Valid() && fresh(cache.Repr - old(cache.Repr))
      invariant answers + Answers(cache.Full, calls[k..]) == Answers(old(cache.Full), calls)
    {
      match calls[k]
      case Lookup(a) =>
        var loc := cache.LookupCacheEntry(a);
        answers := answers + [loc];
      case Set(a, loc) =>
        cache.SetCacheEntry(a, loc);
    }
  }
}
