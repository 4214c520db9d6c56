/** The return-address stack: a ring of 64 entries addressed by masked byte offsets, as a
    stack that remembers its newest 64 entries. */
module ReturnStack {
  import opened Words

  datatype RsEntry = RsEntry(addr: Word, x86: nat)

  const ENTRIES: nat := 64

  /** The entries from the newest to the oldest. */
  type Ring = s: seq<RsEntry> | |s| == ENTRIES witness seq(ENTRIES, i => RsEntry(0, 0))

  function Pushed(r: Ring, e: RsEntry): Ring { [e] + r[..ENTRIES - 1] }

  /** After a hit the newest entry becomes the oldest. */
  function Popped(r: Ring): Ring { r[1..] + [r[0]] }

  function AfterPop(r: Ring, target: Word): Ring { if r[0].addr == target then Popped(r) else r }

  /** A push and the pop that hits it restore all entries but the oldest. */
  lemma PushPop(r: Ring, e: RsEntry)
    ensures AfterPop(Pushed(r, e), e.addr) == r[..ENTRIES - 1] + [e]
  {
  }

  // ----- nested calls and returns -----

  /** A call with its return pair, and the calls made before it returns. */
  datatype CallTree = CallTree(e: RsEntry, kids: seq<CallTree>)

  ghost function Depth(t: CallTree): nat
    decreases t, 1
  {
    1 + DepthAll(t.kids)
  }

  ghost function DepthAll(ts: seq<CallTree>): nat
    decreases ts, 0
  {
    if ts == [] then 0
    else if Depth(ts[0]) > DepthAll(ts[1..]) then Depth(ts[0]) else DepthAll(ts[1..])
  }

  /** Push the pair, run the inner calls, pop for the return. */
  ghost function Play(r: Ring, t: CallTree): Ring
    decreases t, 1
  {
    AfterPop(PlayAll(Pushed(r, t.e), t.kids), t.e.addr)
  }

  ghost function PlayAll(r: Ring, ts: seq<CallTree>): Ring
    decreases ts, 0
  {
    if ts == [] then r else PlayAll(Play(r, ts[0]), ts[1..])
  }

  /** The pop of the outermost return of `t` finds the pair that its call pushed. */
  ghost predicate Hits(r: Ring, t: CallTree) { PlayAll(Pushed(r, t.e), t.kids)[0] == t.e }

  ghost predicate AllHit(r: Ring, t: CallTree)
    decreases t, 1
  {
    Hits(r, t) && AllHitAll(Pushed(r, t.e), t.kids)
  }

  ghost predicate AllHitAll(r: Ring, ts: seq<CallTree>)
    decreases ts, 0
  {
    ts != [] ==> AllHit(r, ts[0]) && AllHitAll(Play(r, ts[0]), ts[1..])
  }

  /** Calls nested at most 64 deep: every return hits with its own pair, and all but the
      oldest entries, as many as the calls are deep, are as before. */
  lemma {:induction false} NestedHit(r: Ring, t: CallTree)
    requires Depth(t) <= ENTRIES
    ensures AllHit(r, t)
    ensures Play(r, t)[..ENTRIES - Depth(t)] == r[..ENTRIES - Depth(t)]
    decreases t, 1
  {
    var d := DepthAll(t.kids);
    var r1 := Pushed(r, t.e);
    var r2 := PlayAll(r1, t.kids);
    NestedHitAll(r1, t.kids);
    assert r2[0] == r2[..ENTRIES - d][0] == t.e;
    assert r2[..ENTRIES - d][1..] == r1[..ENTRIES - d][1..];
    assert Play(r, t)[..ENTRIES - d - 1] == r2[..ENTRIES - d][1..];
    assert r1[..ENTRIES - d][1..] == r[..ENTRIES - d - 1];
  }

  lemma {:induction false} NestedHitAll(r: Ring, ts: seq<CallTree>)
    requires DepthAll(ts) < ENTRIES
    ensures AllHitAll(r, ts)
    ensures PlayAll(r, ts)[..ENTRIES - DepthAll(ts)] == r[..ENTRIES - DepthAll(ts)]
    decreases ts, 0
  {
    if ts == [] {
    } else {
      var d0, d1, d := Depth(ts[0]), DepthAll(ts[1..]), DepthAll(ts);
      var r1 := Play(r, ts[0]);
      NestedHit(r, ts[0]);
      NestedHitAll(r1, ts[1..]);
      assert r1[..ENTRIES - d] == r1[..ENTRIES - d0][..ENTRIES - d] == r[..ENTRIES - d];
      assert PlayAll(r, ts)[..ENTRIES - d] == PlayAll(r1, ts[1..])[..ENTRIES - d1][..ENTRIES - d];
    }
  }

  /** No entry of the ring, and no inner call, has return address `a`. */
  ghost predicate Absent(r: Ring, a: Word) { forall k :: 0 <= k < ENTRIES ==> r[k].addr != a }

  ghost predicate Avoids(t: CallTree, a: Word)
    decreases t, 1
  {
    t.e.addr != a && AvoidsAll(t.kids, a)
  }

  ghost predicate AvoidsAll(ts: seq<CallTree>, a: Word)
    decreases ts, 0
  {
    ts != [] ==> Avoids(ts[0], a) && AvoidsAll(ts[1..], a)
  }

  /** `a` is the return address of entry p and of no other. */
  ghost predicate OnlyAt(r: Ring, a: Word, p: nat) {
    p < ENTRIES && r[p].addr == a && forall k :: 0 <= k < ENTRIES && k != p ==> r[k].addr != a
  }

  lemma {:induction false} StaysAbsent(r: Ring, t: CallTree, a: Word)
    requires Absent(r, a) && Avoids(t, a)
    ensures Absent(Play(r, t), a)
    decreases t, 1
  {
    StaysAbsentAll(Pushed(r, t.e), t.kids, a);
  }

  lemma {:induction false} StaysAbsentAll(r: Ring, ts: seq<CallTree>, a: Word)
    requires Absent(r, a) && AvoidsAll(ts, a)
    ensures Absent(PlayAll(r, ts), a)
    decreases ts, 0
  {
    if ts == [] {
    } else {
      StaysAbsent(r, ts[0], a);
      StaysAbsentAll(Play(r, ts[0]), ts[1..], a);
    }
  }

  /** An entry p steps from the top survives calls that are not too deep and is overwritten
      by calls that are. */
  lemma {:induction false} Overwritten(r: Ring, t: CallTree, a: Word, p: nat)
    requires OnlyAt(r, a, p) && Avoids(t, a)
    ensures if p + Depth(t) < ENTRIES then OnlyAt(Play(r, t), a, p) else Absent(Play(r, t), a)
    decreases t, 1
  {
    var r1 := Pushed(r, t.e);
    if p + 1 < ENTRIES {
      assert OnlyAt(r1, a, p + 1);
      OverwrittenAll(r1, t.kids, a, p + 1);
      var r2 := PlayAll(r1, t.kids);
      if p + Depth(t) < ENTRIES {
        NestedHit(r, t);
        assert Play(r, t) == Popped(r2);
      }
    } else {
      assert Absent(r1, a);
      StaysAbsentAll(r1, t.kids, a);
    }
  }

  lemma {:induction false} OverwrittenAll(r: Ring, ts: seq<CallTree>, a: Word, p: nat)
    requires OnlyAt(r, a, p) && AvoidsAll(ts, a)
    ensures if p + DepthAll(ts) < ENTRIES then OnlyAt(PlayAll(r, ts), a, p) else Absent(PlayAll(r, ts), a)
    decreases ts, 0
  {
    if ts != [] {
      Overwritten(r, ts[0], a, p);
      var r1 := Play(r, ts[0]);
      if p + Depth(ts[0]) < ENTRIES {
        OverwrittenAll(r1, ts[1..], a, p);
      } else {
        StaysAbsentAll(r1, ts[1..], a);
      }
    }
  }

  /** With a return address that occurs nowhere else, the return of a call hits exactly when
      the calls are nested at most 64 deep; otherwise it misses. */
  lemma HitsExactly(r: Ring, t: CallTree)
    requires Absent(r, t.e.addr) && AvoidsAll(t.kids, t.e.addr)
    ensures Hits(r, t) <==> Depth(t) <= ENTRIES
    ensures Depth(t) > ENTRIES ==> PlayAll(Pushed(r, t.e), t.kids)[0].addr != t.e.addr
  {
    var r1 := Pushed(r, t.e);
    assert OnlyAt(r1, t.e.addr, 0);
    OverwrittenAll(r1, t.kids, t.e.addr, 0);
    if Depth(t) <= ENTRIES { NestedHit(r, t); }
  }

  // ----- the ring in memory -----

  lemma AndEven(n: nat, x: nat, b: nat)
    ensures AndBits(n + 1, x, 2 * b) == 2 * AndBits(n, x / 2, b)
  {
    assert 2 * b % 2 == 0 && 2 * b / 2 == b;
  }

  /** The mask 0x3f0 drops the offset within an entry and counts entries modulo 64. */
  lemma OffsetMask(x: nat)
    ensures AndBits(32, x, 0x3f0) == x / 16 % ENTRIES * 16
  {
    assert Pow2(6) == ENTRIES;
    hide AndBits, Pow2;
    AndEven(31, x, 0x1f8);
    AndEven(30, x / 2, 0xfc);
    AndEven(29, x / 2 / 2, 0x7e);
    AndEven(28, x / 2 / 2 / 2, 0x3f);
    MaskIsMod(28, 6, x / 2 / 2 / 2 / 2);
    assert x / 2 / 2 / 2 / 2 == x / 16;
  }

  /** The ring whose newest entry is at index f of the array. */
  function RingOf(es: seq<RsEntry>, f: nat): Ring
    requires |es| == ENTRIES && f < ENTRIES
  {
    seq(ENTRIES, k requires 0 <= k < ENTRIES => es[if k <= f then f - k else f + ENTRIES - k])
  }

  lemma RingPush(es: seq<RsEntry>, f: nat, e: RsEntry)
    requires |es| == ENTRIES && f < ENTRIES
    ensures var f' := if f + 1 == ENTRIES then 0 else f + 1;
            RingOf(es[f' := e], f') == Pushed(RingOf(es, f), e)
  {
  }

  lemma RingTop(es: seq<RsEntry>, f: nat)
    requires |es| == ENTRIES && f < ENTRIES
    ensures RingOf(es, f)[0] == es[f]
  {
  }

  lemma RingPop(es: seq<RsEntry>, f: nat)
    requires |es| == ENTRIES && f < ENTRIES
    ensures RingOf(es, if f == 0 then ENTRIES - 1 else f - 1) == Popped(RingOf(es, f))
  {
  }

  class ReturnRing {
    var front: nat              // rs_front, a byte offset
    const entries: array<RsEntry>  // r_stack

    ghost predicate Valid()
      reads this
    {
      entries.Length == ENTRIES && front % 16 == 0 && front < 1024
    }

    ghost function Contents(): Ring
      reads this, entries
      requires Valid()
    {
      RingOf(entries[..], front / 16)
    }

    /** init_return_stack */
    constructor ()
      ensures Valid() && fresh(entries)
      ensures front == 0 && forall k :: 0 <= k < ENTRIES ==> Contents()[k] == RsEntry(0, 0)
    {
      entries := new RsEntry[ENTRIES](i => RsEntry(0, 0));
      front := 0;
    }

    /** The steps emitted by rs_emit_push, on AX, CX and DX. */
    method Push(addr: Word, x86: nat)
      requires Valid()
      modifies this`front, entries
      ensures Valid() && Contents() == Pushed(old(Contents()), RsEntry(addr, x86))
      ensures front == (old(front) + 16) % 1024
    {
      hide AndBits, RingOf;
      RingPush(entries[..], front / 16, RsEntry(addr, x86));
      var ax := front;
      var cx := addr;
      ax := ax + 0x10;
      OffsetMask(ax);
      ax := AndBits(32, ax, 0x3f0);
      front := ax;
      var dx := x86;
      entries[ax / 16] := RsEntry(cx, dx);
    }

    /** The steps emitted by rs_emit_pop_RAX for a target in AX; a miss changes nothing. */
    method Pop(ax: Word) returns (hit: bool, cx: nat)
      requires Valid()
      modifies this`front
      ensures Valid() && hit == (old(Contents())[0].addr == ax)
      ensures Contents() == AfterPop(old(Contents()), ax)
      ensures !hit ==> front == old(front)
      ensures hit ==> cx == old(Contents())[0].x86 && (front + 16) % 1024 == old(front)
    {
      hide AndBits, RingOf;
      RingTop(entries[..], front / 16);
      RingPop(entries[..], front / 16);
      var dx := front;
      hit := entries[dx / 16].addr == ax;
      cx := 0;
      if hit {
        cx := front + 1023;
        OffsetMask(cx);
        cx := AndBits(32, cx, 0x3f0);
        front := cx;
        cx := entries[dx / 16].x86;
      }
    }
  }
}
