/** The emulated brk system call: the guest's heap between the initial and the current break,
    in pages that are mapped as needed. */
module Brk {
  import opened Words

  const PAGE: nat := 4096

  // ----- page alignment -----

  /** ALIGN_UP(v, 4096): wraps around like the addition in it. */
  function AlignUp(v: Word): nat { AndBits(64, (v + (PAGE - 1)) % TWO_64, TWO_64 - PAGE) }

  /** Masking with the upper bits rounds down to a multiple of 2^k. */
  lemma {:induction false} HighMask(n: nat, k: nat, x: nat)
    requires k <= n && x < Pow2(n)
    ensures Pow2(k) <= Pow2(n) && AndBits(n, x, Pow2(n) - Pow2(k)) == x - x % Pow2(k)
  {
    if k == 0 {
      MaskIsMod(n, n, x);
      hide Pow2, AndBits;
      SmallMod(x, Pow2(n));
      PowZero();
    } else {
      HighMask(n - 1, k - 1, x / 2);
      Pow2Step(n);
      Pow2Step(k);
      hide Pow2, AndBits;
      HighStep(n, x, Pow2(n - 1), Pow2(k - 1), Pow2(k));
    }
  }

  lemma PowZero()
    ensures Pow2(0) == 1
  {
  }

  lemma HighStep(n: nat, x: nat, q: nat, p: nat, p2: nat)
    requires n > 0 && 0 < p <= q && p2 == 2 * p && AndBits(n - 1, x / 2, q - p) == x / 2 - x / 2 % p
    ensures AndBits(n, x, 2 * q - p2) == x - x % p2
  {
    hide Pow2;
    HalfMod(x, p);
    assert (2 * q - p2) % 2 == 0 && (2 * q - p2) / 2 == q - p;
  }

  lemma PageIsPower()
    ensures Pow2(12) == PAGE
  {
    assert Pow2(4) == 16;
    Pow2Sum(4, 4);
    Pow2Sum(4, 8);
  }

  /** The next page boundary, or 0 after a wrap-around. */
  lemma AlignUpExact(v: Word)
    ensures v + PAGE - 1 < TWO_64 ==> AlignUp(v) % PAGE == 0 && v <= AlignUp(v) < v + PAGE && AlignUp(v) < TWO_64
    ensures v + PAGE - 1 >= TWO_64 ==> AlignUp(v) == 0
  {
    hide Pow2, AndBits;
    Pow2Values();
    PageIsPower();
    HighMask(64, 12, (v + (PAGE - 1)) % TWO_64);
  }

  // ----- the simple form of the heap -----

  function Zeros(n: nat): (z: seq<Byte>)
    ensures |z| == n
  {
    seq(n, i => 0)
  }

  /** Cut, or extended by zeros. */
  function Resized(heap: seq<Byte>, n: nat): seq<Byte> {
    if n <= |heap| then heap[..n] else heap + Zeros(n - |heap|)
  }

  /** What the kernel will do with a mapping: refuse, or place it at the address asked for or
      at some other address. */
  datatype Outcome = Refuse | AtHint | Elsewhere(addr: Word)

  type Bytes = map<nat, Byte>

  /** The bytes from `lo` up to `hi` are not mapped. */
  predicate Free(mem: Bytes, lo: nat, hi: nat) { forall a :: lo <= a < hi ==> a !in mem }

  predicate Within(a: nat, lo: nat, hi: nat) { lo <= a < hi }

  function ZeroRange(lo: nat, hi: nat): Bytes { map a | lo <= a < hi && Within(a, lo, hi) :: 0 }

  ghost predicate AllMapped(mem: Bytes, lo: nat, hi: nat) { forall a :: lo <= a < hi ==> a in mem }

  ghost function Window(mem: Bytes, lo: nat, hi: nat): (h: seq<Byte>)
    requires lo <= hi && AllMapped(mem, lo, hi)
    ensures |h| == hi - lo
  {
    seq(hi - lo, i requires 0 <= i < hi - lo => mem[lo + i])
  }

  /** Zeroing what is exposed and keeping the rest resizes the window. */
  lemma WindowResized(mem: Bytes, mem': Bytes, lo: nat, hi: nat, hi': nat)
    requires lo <= hi && lo <= hi' && AllMapped(mem, lo, hi) && AllMapped(mem', lo, hi')
    requires forall a :: lo <= a < hi && a < hi' ==> mem'[a] == mem[a]
    requires forall a :: hi <= a < hi' ==> mem'[a] == 0
    ensures Window(mem', lo, hi') == Resized(Window(mem, lo, hi), hi' - lo)
  {
  }

  predicate BadAddr(a: nat) { a > 0xFFFF_FFFF_FFFF_F000 }

  const ENOMEM: Word := TWO_64 - 12

  /** Where a mapping goes.  A mapping is never placed over a mapped page, nor reaches the end
      of the address space, nor starts in the range of error codes. */
  function Placed(mem: Bytes, hint: Word, length: Word, outcome: Outcome): Word {
    var at := match outcome
              case Refuse => ENOMEM
              case AtHint => hint
              case Elsewhere(a) => a;
    if length > 0 && !BadAddr(at) && at + length < TWO_64 && Free(mem, at, at + length) then at else ENOMEM
  }

  /** A mapping goes where it was asked for exactly if the kernel agrees, there is something to
      map, and the bytes are free and end below the range of error codes. */
  lemma PlacedExactly(mem: Bytes, hint: Word, length: Word, outcome: Outcome)
    requires hint != ENOMEM
    ensures Placed(mem, hint, length, outcome) == hint <==>
              && (outcome == AtHint || outcome == Elsewhere(hint))
              && length > 0 && hint <= 0xFFFF_FFFF_FFFF_F000 && hint + length < 0x1_0000_0000_0000_0000
              && forall a :: hint <= a < hint + length ==> a !in mem
  {
  }

  class Heap {
    var initialBrk: Word
    var curBrk: Word
    var mappedBrk: Word
    var mem: Bytes   // the mapped bytes of the guest

    ghost predicate Valid()
      reads this
    {
      && initialBrk <= curBrk <= mappedBrk && mappedBrk % PAGE == 0
      && AllMapped(mem, initialBrk, mappedBrk)
    }

    /** What the guest may rely on: the bytes between the initial and the current break. */
    ghost function Contents(): (h: seq<Byte>)
      reads this
      requires Valid()
      ensures |h| == curBrk - initialBrk
    {
      Window(mem, initialBrk, curBrk)
    }

    /** setupBrk, at the end of the program's last page. */
    constructor (brk: Word, mem: Bytes)
      requires brk % PAGE == 0
      ensures Valid() && initialBrk == curBrk == mappedBrk == brk && this.mem == mem && Contents() == []
    {
      initialBrk, curBrk, mappedBrk := brk, brk, brk;
      this.mem := mem;
    }

    /** The guest stores a byte anywhere in its mapped memory, above the break too. */
    method Store(a: Word, b: Byte)
      requires Valid() && a in mem
      modifies this`mem
      ensures Valid() && mem == old(mem)[a := b]
      ensures Contents() == if initialBrk <= a < curBrk then old(Contents())[a - initialBrk := b] else old(Contents())
    {
      mem := mem[a := b];
    }

    method Memset(from: nat, to: nat)
      requires from <= to && AllMapped(mem, from, to)
      modifies this`mem
      ensures mem == old(mem) + ZeroRange(from, to)
    {
      for a := from to to
        invariant mem == old(mem) + ZeroRange(from, a)
      {
        mem := mem[a := 0];
      }
    }

    method Mmap(hint: Word, length: Word, outcome: Outcome) returns (at: Word)
      modifies this`mem
      ensures at == Placed(old(mem), hint, length, outcome)
      ensures mem == if BadAddr(at) then old(mem) else old(mem) + ZeroRange(at, at + length)
    {
      at := Placed(mem, hint, length, outcome);
      if !BadAddr(at) { mem := mem + ZeroRange(at, at + length); }
    }

    method Munmap(at: Word, length: Word)
      modifies this`mem
      ensures mem == old(mem) - ZeroRange(at, at + length).Keys
    {
      mem := mem - ZeroRange(at, at + length).Keys;
    }

    /** Whether the pages for a break above the mapped ones can be had. */
    ghost predicate Granted(brkAddr: Word, outcome: Outcome)
      reads this
    {
      var newMappedBrk := AlignUp(brkAddr);
      Placed(mem, mappedBrk, (newMappedBrk - mappedBrk) % TWO_64, outcome) == mappedBrk
    }

    /** brk with the requested address; the result goes to a0. */
    method Brk(brkAddr: Word, outcome: Outcome) returns (a0: Word)
      requires Valid()
      modifies this
      ensures Valid() && initialBrk == old(initialBrk) && a0 == curBrk
      ensures curBrk == if brkAddr < initialBrk || (brkAddr > old(mappedBrk) && !old(Granted(brkAddr, outcome)))
                        then old(curBrk) else brkAddr
      ensures curBrk == old(curBrk) ==> mappedBrk == old(mappedBrk) && mem == old(mem)
      ensures Contents() == Resized(old(Contents()), curBrk - initialBrk)
      ensures forall a :: a in old(mem) && !(old(curBrk) <= a < mappedBrk) ==> a in mem && mem[a] == old(mem[a])
      ensures mappedBrk == if curBrk <= old(mappedBrk) then old(mappedBrk) else AlignUp(curBrk)
    {
      hide AlignUp, Window, Resized;
      AlignUpExact(brkAddr);
      if brkAddr < initialBrk {
        WindowResized(mem, mem, initialBrk, curBrk, curBrk);
        return curBrk;
      }
      ghost var before := mem;
      if brkAddr <= mappedBrk {
        if brkAddr > curBrk {
          Memset(curBrk, brkAddr);
        }
        WindowResized(before, mem, initialBrk, curBrk, brkAddr);
        curBrk := brkAddr;
        return curBrk;
      }
      Grow(brkAddr, outcome);
      return curBrk;
    }

    /** The part of brk that maps further pages. */
    method Grow(brkAddr: Word, outcome: Outcome)
      requires Valid() && brkAddr > mappedBrk
      modifies this
      ensures Valid() && initialBrk == old(initialBrk)
      ensures curBrk == if old(Granted(brkAddr, outcome)) then brkAddr else old(curBrk)
      ensures mappedBrk == if old(Granted(brkAddr, outcome)) then AlignUp(curBrk) else old(mappedBrk)
      ensures !old(Granted(brkAddr, outcome)) ==> mem == old(mem)
      ensures Contents() == Resized(old(Contents()), curBrk - initialBrk)
      ensures forall a :: a in old(mem) && !(old(curBrk) <= a < mappedBrk) ==> a in mem && mem[a] == old(mem[a])
    {
      hide AlignUp, Window, Resized, AllMapped, ZeroRange, Placed, BadAddr;
      ghost var before := mem;
      GrantedFacts(mem, initialBrk, curBrk, mappedBrk, brkAddr, outcome);
      var newMappedBrk := AlignUp(brkAddr);
      var length := (newMappedBrk - mappedBrk) % TWO_64;
      var at := Mmap(mappedBrk, length, outcome);
      if !BadAddr(at) {
        if at != mappedBrk {
          UnmapUndoes(before, mappedBrk, length, outcome);
          Munmap(at, length);
        } else {
          Memset(curBrk, mappedBrk);
          GrownMemory(before, initialBrk, curBrk, mappedBrk, newMappedBrk);
          WindowResized(before, mem, initialBrk, curBrk, brkAddr);
          mappedBrk := newMappedBrk;
          curBrk := brkAddr;
          return;
        }
      }
      ValidMapped(before, initialBrk, curBrk, mappedBrk);
      WindowResized(before, mem, initialBrk, curBrk, curBrk);
    }
  }

  lemma ValidMapped(mem: Bytes, lo: nat, cur: nat, mapped: nat)
    requires lo <= cur <= mapped && AllMapped(mem, lo, mapped)
    ensures AllMapped(mem, lo, cur) && AllMapped(mem, cur, mapped)
  {
  }

  /** When the pages are granted, they are exactly those up to the new boundary. */
  lemma GrantedFacts(mem: Bytes, lo: Word, cur: Word, mapped: Word, brkAddr: Word, outcome: Outcome)
    requires lo <= cur <= mapped < brkAddr && AllMapped(mem, lo, mapped) && mapped % PAGE == 0
    ensures forall z: Bytes :: AllMapped(mem + z, cur, mapped)
    ensures var length := (AlignUp(brkAddr) - mapped) % TWO_64;
            Placed(mem, mapped, length, outcome) == mapped ==>
              && !BadAddr(mapped)
              && mapped < AlignUp(brkAddr) < TWO_64 && brkAddr <= AlignUp(brkAddr) && AlignUp(brkAddr) % PAGE == 0
              && length == AlignUp(brkAddr) - mapped && mapped + length == AlignUp(brkAddr)
              && Free(mem, mapped, AlignUp(brkAddr))
  {
    AlignUpExact(brkAddr);
    hide AlignUp;
    var length := (AlignUp(brkAddr) - mapped) % TWO_64;
    PlacedFacts(mem, mapped, length, outcome);
  }

  lemma UnmapUndoes(mem: Bytes, hint: Word, length: Word, outcome: Outcome)
    ensures var at := Placed(mem, hint, length, outcome);
            !BadAddr(at) ==> mem + ZeroRange(at, at + length) - ZeroRange(at, at + length).Keys == mem
  {
    PlacedFacts(mem, hint, length, outcome);
  }

  /** Memory after new pages were mapped and the rest of the last page was cleared. */
  lemma GrownMemory(mem: Bytes, lo: nat, cur: nat, mapped: nat, end: nat)
    requires lo <= cur <= mapped <= end && AllMapped(mem, lo, mapped)
    ensures var mem' := mem + ZeroRange(mapped, end) + ZeroRange(cur, mapped);
            && AllMapped(mem', lo, end)
            && (forall brk :: lo <= brk <= end ==> AllMapped(mem', lo, brk))
            && (forall a :: a in mem && !(cur <= a < end) ==> a in mem' && mem'[a] == mem[a])
            && (forall a :: cur <= a < end ==> a in mem' && mem'[a] == 0)
            && (forall a :: lo <= a < cur ==> a in mem && a in mem' && mem'[a] == mem[a])
  {
  }

  /** A mapping that is placed is free memory below the end of the address space. */
  lemma PlacedFacts(mem: Bytes, hint: Word, length: Word, outcome: Outcome)
    ensures var at := Placed(mem, hint, length, outcome);
            !BadAddr(at) ==> length > 0 && at + length < TWO_64 && Free(mem, at, at + length)
  {
  }

  // ----- any interleaving of stores and calls -----

  datatype Event = Write(a: Word, b: Byte) | SetBrk(addr: Word, outcome: Outcome)

  /** One event on the simple heap that starts at `lo`; a call is known by its result. */
  function Replayed(lo: Word, h: seq<Byte>, e: Event, a0: Word): seq<Byte> {
    match e
    case Write(a, b) => if lo <= a < lo + |h| then h[a - lo := b] else h
    case SetBrk(_, _) => if a0 < lo then h else Resized(h, a0 - lo)
  }

  /** `breaks` holds the break before the first event and after each event. */
  function Replay(lo: Word, h: seq<Byte>, events: seq<Event>, breaks: seq<Word>): seq<Byte>
    requires |breaks| == |events| + 1
  {
    if events == [] then h
    else
      var n := |events| - 1;
      Replayed(lo, Replay(lo, h, events[..n], breaks[..n + 1]), events[n], breaks[n + 1])
  }

  /** A call moves the break to the address asked for or leaves it. */
  predicate Answers(e: Event, before: Word, after: Word) {
    after == before || (e.SetBrk? && after == e.addr)
  }

  method Handle(heap: Heap, e: Event)
    requires heap.Valid()
    modifies heap
    ensures heap.Valid() && heap.initialBrk == old(heap.initialBrk)
    ensures heap.Contents() == Replayed(heap.initialBrk, old(heap.Contents()), e, heap.curBrk)
    ensures Answers(e, old(heap.curBrk), heap.curBrk)
  {
    hide AlignUp, Window, Resized, Placed, AllMapped;
    match e {
      case Write(a, b) =>
        // a store outside the mapped memory would end the guest program
        if a in heap.mem { heap.Store(a, b); } else { UnmappedOutside(heap.mem, heap.initialBrk, heap.mappedBrk, a); }
      case SetBrk(addr, outcome) =>
        var a0 := heap.Brk(addr, outcome);
    }
  }

  /** Whatever the guest stores and whatever mappings are granted, between the breaks it sees
      a sequence of bytes that calls cut or extend by zeros. */
  method RunEvents(heap: Heap, events: seq<Event>) returns (breaks: seq<Word>)
    requires heap.Valid()
    modifies heap
    ensures heap.Valid() && heap.initialBrk == old(heap.initialBrk) && |breaks| == |events| + 1
    ensures heap.Contents() == Replay(heap.initialBrk, old(heap.Contents()), events, breaks)
    ensures breaks[0] == old(heap.curBrk)
    ensures forall k :: 0 <= k < |events| ==> Answers(events[k], breaks[k], breaks[k + 1])
  {
    breaks := [heap.curBrk];
    ghost var start := heap.Contents();
    for k := 0 to |events|
      invariant heap.Valid() && heap.initialBrk == old(heap.initialBrk) && |breaks| == k + 1
      invariant heap.Contents() == Replay(heap.initialBrk, start, events[..k], breaks)
      invariant breaks[0] == old(heap.curBrk) && breaks[k] == heap.curBrk
      invariant forall j :: 0 <= j < k ==> Answers(events[j], breaks[j], breaks[j + 1])
    {
      hide AlignUp, Window, Replayed, AllMapped, Answers;
      ghost var bs := breaks;
      Handle(heap, events[k]);
      breaks := breaks + [heap.curBrk];
      assert events[..k + 1][..k] == events[..k] && breaks[..k + 1] == bs;
    }
    assert events[..|events|] == events;
  }

  lemma UnmappedOutside(mem: Bytes, lo: nat, hi: nat, a: nat)
    requires AllMapped(mem, lo, hi) && a !in mem
    ensures !(lo <= a < hi)
  {
  }
}
