/** register_info and the code buffer, updated in place.  Each method is specified by the
    function of the same name in RegisterCache. */
module RegisterInfos {
  import opened Words
  import opened X86
  import opened RegisterCache
  import opened Riscv
  import opened Simulation

  class RegisterInfo {
    const sm: StaticMap            // gp_mapped and gp_map
    const content: array<Content>  // replacement_content
    const recency: array<nat>      // replacement_recency
    var clock: nat                 // *current_recency
    var code: seq<Code>            // what was written through `current`

    predicate Valid()
      reads this, content, recency
    {
      content.Length == 3 && recency.Length == 3 && content as object != recency as object
    }

    function State(): Cache
      reads this, content, recency
      requires Valid()
    {
      Cache(content[..], recency[..], clock)
    }

    /** All replacement registers empty and clean; the count starts at 1. */
    constructor (sm: StaticMap)
      ensures Valid() && fresh(content) && fresh(recency)
      ensures this.sm == sm && State() == Cache([INVALID, INVALID, INVALID], [0, 0, 0], 1) && code == []
    {
      this.sm := sm;
      content := new Content[3](i => INVALID);
      recency := new nat[3](i => 0);
      clock := 1;
      code := [];
    }

    method Emit(c: Code)
      requires Valid()
      modifies this`code
      ensures Valid() && State() == old(State()) && code == old(code) + [c]
    {
      code := code + [c];
    }

    /** Takes over what a translator given as a parameter emits. */
    method Adopt(e: Emission)
      requires Valid()
      modifies this`code, this`clock, content, recency
      ensures Valid() && State() == e.cache && code == old(code) + e.code
    {
      for i := 0 to 3
        invariant forall j :: 0 <= j < i ==> content[j] == e.cache.content[j] && recency[j] == e.cache.recency[j]
        invariant code == old(code)
      {
        content[i] := e.cache.content[i];
        recency[i] := e.cache.recency[i];
      }
      clock := e.cache.clock;
      code := code + e.code;
      assert content[..] == e.cache.content && recency[..] == e.cache.recency;
    }

    method InvalidateReplacement(i: Index, writeback: bool)
      requires Valid()
      modifies this`code, content, recency
      ensures var e := Invalidate(old(State()), i, writeback);
              Valid() && State() == e.cache && code == old(code) + e.code
    {
      var currentContent := content[i];
      if writeback && currentContent != X0 && currentContent != INVALID {
        Emit(Store(currentContent, HostOf(i)));
      }
      content[i] := INVALID;
      recency[i] := 0;
    }

    /** The search for the smallest stamp. */
    method FindOldest() returns (min: Index)
      requires Valid()
      ensures min == Oldest(State())
    {
      min := 0;
      for i := 1 to 3
        invariant min < i
        invariant forall j :: 0 <= j < i ==> recency[min] <= recency[j] && (j < min ==> recency[min] < recency[j])
      {
        if recency[i] < recency[min] {
          min := i;
        }
      }
    }

    method InvalidateOldestReplacement() returns (h: Host)
      requires Valid()
      modifies this`code, content, recency
      ensures var e := InvalidateOldest(old(State()));
              Valid() && State() == e.cache && code == old(code) + e.code
      ensures h == HostOf(Oldest(old(State())))
    {
      var min := FindOldest();
      h := HostOf(min);
      if recency[min] != 0 && content[min] != INVALID {
        InvalidateReplacement(min, true);
      }
    }

    method InvalidateAllReplacements()
      requires Valid()
      modifies this`code, content, recency
      ensures var e := InvalidateAll(old(State()));
              Valid() && State() == e.cache && code == old(code) + e.code
    {
      InvalidateReplacement(0, true);
      InvalidateReplacement(1, true);
      InvalidateReplacement(2, true);
    }

    /** The search for a register that is already loaded. */
    method FindPresent(r: Guest) returns (i: nat)
      requires Valid()
      ensures i == Find(State(), r)
    {
      i := 0;
      while i < 3 && content[i] != r
        invariant i <= 3 && forall j :: 0 <= j < i ==> content[j] != r
      {
        i := i + 1;
      }
    }

    method LoadIntoReplacement(requested: Guest, requireValue: bool) returns (h: Host)
      requires Valid()
      modifies this`code, this`clock, content, recency
      ensures var e := Load(old(State()), requested, requireValue);
              Valid() && State() == e.cache && code == old(code) + e.code
      ensures h == HostOf(Target(old(State()), requested))
    {
      ghost var c := State();
      var i := FindPresent(requested);
      clock := clock + 1;
      if i < 3 {
        recency[i] := clock;
        h := HostOf(i);
        if requested == X0 {
          Emit(Xor32(h, h));
        }
        assert content[..] == c.content[i := requested];
        return;
      }
      var min := FindOldest();
      assert min == Oldest(c);
      var currentlyPresent := content[min];
      h := HostOf(min);
      if currentlyPresent != X0 && currentlyPresent != INVALID {
        Emit(Store(currentlyPresent, h));
      }
      content[min] := requested;
      recency[min] := clock;
      if requireValue {
        if requested != X0 {
          Emit(Fetch(h, requested));
        } else {
          Emit(Xor32(h, h));
        }
      }
    }

    /** The part of loadIntoSpecific that moves a register held elsewhere, with the
        clock already advanced. */
    method Exchange(destination: Index, present: Index, requireValue: bool)
      requires Valid() && destination != present && clock > 0
      modifies this`code, content, recency
      ensures Valid() && clock == old(clock)
      ensures var c := old(State()).(clock := old(clock) - 1);
              State() == Swapped(c, destination, present)
              && code == old(code) + Shuffle(c, destination, present, requireValue)
    {
      if recency[destination] != 0 && requireValue {
        Emit(Xchg64(HostOf(destination), HostOf(present)));
      } else if recency[destination] != 0 {
        Emit(Mov64(HostOf(present), HostOf(destination)));
      } else if requireValue {
        Emit(Mov64(HostOf(destination), HostOf(present)));
      }
      recency[destination], recency[present] := recency[present], recency[destination];
      content[destination], content[present] := content[present], content[destination];
      recency[destination] := clock;
    }

    method LoadIntoSpecific(candidate: Guest, destination: Index, requireValue: bool) returns (h: Host)
      requires Valid()
      modifies this`code, this`clock, content, recency
      ensures var e := LoadSpecific(old(State()), candidate, destination, requireValue);
              Valid() && State() == e.cache && code == old(code) + e.code
      ensures h == HostOf(destination)
    {
      ghost var c := State();
      var present := FindPresent(candidate);
      clock := clock + 1;
      h := HostOf(destination);
      if present < 3 {
        if present == destination {
          if candidate == X0 {
            Emit(Xor32(h, h));
          }
          recency[present] := clock;
        } else {
          Exchange(destination, present, requireValue);
          if candidate == X0 {
            Emit(Xor32(h, h));
          }
        }
      } else {
        if recency[destination] != 0 && (content[destination] != X0 || content[destination] != INVALID) {
          Emit(Store(content[destination], h));
        }
        if requireValue && candidate != X0 {
          Emit(Fetch(h, candidate));
        } else if candidate == X0 {
          Emit(Xor32(h, h));
        }
        content[destination] := candidate;
        recency[destination] := clock;
      }
    }

    /** getRs1 and getRs2 */
    method GetRs(r: Guest) returns (h: Host)
      requires Valid()
      modifies this`code, this`clock, content, recency
      ensures var e := GetSrc(sm, old(State()), r);
              Valid() && State() == e.cache && code == old(code) + e.code
      ensures h == SrcHost(sm, old(State()), r)
    {
      if sm[r].Unmapped? {
        h := LoadIntoReplacement(r, true);
      } else {
        h := sm[r].host;
      }
    }

    method GetRd(r: Guest) returns (h: Host)
      requires Valid()
      modifies this`code, this`clock, content, recency
      ensures var e := GetDst(sm, old(State()), r);
              Valid() && State() == e.cache && code == old(code) + e.code
      ensures h == SrcHost(sm, old(State()), r)
    {
      if sm[r].Unmapped? {
        h := LoadIntoReplacement(r, false);
      } else {
        h := sm[r].host;
      }
    }

    /** getRs1Into and getRs2Into */
    method GetRsInto(r: Guest, into: Index) returns (h: Host)
      requires Valid()
      modifies this`code, this`clock, content, recency
      ensures var e := if sm[r].Unmapped? then LoadSpecific(old(State()), r, into, true)
                       else if sm[r].host == HostOf(into) then Emission([], old(State()))
                       else CopyMapped(old(State()), r, sm[r].host, into);
              Valid() && State() == e.cache && code == old(code) + e.code
      ensures h == HostOf(into)
    {
      ghost var c := State();
      if sm[r].Unmapped? {
        h := LoadIntoSpecific(r, into, true);
      } else if sm[r].host == HostOf(into) {
        h := sm[r].host;
      } else {
        InvalidateReplacement(into, true);
        Emit(Mov64(HostOf(into), sm[r].host));
        clock := clock + 1;
        recency[into] := clock;
        content[into] := r;
        h := HostOf(into);
        assert State() == CopyMapped(c, r, sm[r].host, into).cache;
      }
    }

    method GetRdHinted(r: Guest, hint: Index) returns (h: Host)
      requires Valid()
      modifies this`code, this`clock, content, recency
      ensures var e := GetDstHinted(sm, old(State()), r, hint);
              Valid() && State() == e.cache && code == old(code) + e.code
      ensures h == HintedHost(sm, r, hint)
    {
      if sm[r].Unmapped? {
        h := LoadIntoSpecific(r, hint, false);
      } else {
        h := sm[r].host;
      }
    }
  }
}
