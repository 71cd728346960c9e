/**
 * Whole runs of the small-memory heap on its bytes: calls of the allocator mixed with writes of the
 * owners to their blocks.
 */
module HeapTraces {
  import opened Machine
  import opened Tiling
  import opened HeapBytes
  import opened HeapOutcomes
  import opened SmallMem
  import HeapRuns

  datatype State = State(bytes: seq<Byte>, tiles: seq<Tile>)

  datatype Event =
    | Allocates(size: nat, r: Option<nat>)
    | Frees(rmem: Option<nat>)
    | Reallocates(rmem: Option<nat>, newsize: nat, r: Option<nat>)
    | OwnerWrites(ptr: nat, i: nat, b: Byte)

  /** The block an event is about, by its data address; allocations are about no block that exists. */
  function About(e: Event): Option<nat> {
    match e
    case Allocates(_, _) => None
    case Frees(rmem) => rmem
    case Reallocates(rmem, _, _) => rmem
    case OwnerWrites(ptr, _, _) => Some(ptr)
  }

  /** What the contracts of the allocator say about one call, and what an owner may do. */
  ghost predicate Step(s: State, e: Event, t: State) {
    && |t.bytes| == |s.bytes|
    && match e
    case Allocates(size, r) =>
      && AllIntact(s.bytes, t.bytes, s.tiles)
      && (if size == 0 then t.tiles == s.tiles else Allocated(s.tiles, t.tiles, r, Request(size)))
    case Frees(rmem) => Released(s, rmem, t)
    case Reallocates(rmem, newsize, r) =>
      var n := AlignUp(newsize);
      if n == 0 then Released(s, rmem, t)
      else if r == None then t == s
      else if rmem.None? then AllIntact(s.bytes, t.bytes, s.tiles) && Allocated(s.tiles, t.tiles, r, Request(n))
      else IsLiveIn(s.tiles, rmem.value) && Reallocated(s.tiles, s.bytes, t.tiles, t.bytes, r, rmem.value, n)
    case OwnerWrites(ptr, i, b) =>
      && IsLiveIn(s.tiles, ptr) && t.tiles == s.tiles
      && ptr + i < s.tiles[IndexOf(s.tiles, ptr - HEADER)].next && ptr + i < |s.bytes| && t.bytes == s.bytes[ptr + i := b]
  }

  ghost predicate Released(s: State, rmem: Option<nat>, t: State) {
    if rmem.None? then t == s
    else
      && IsLiveIn(s.tiles, rmem.value)
      && t.tiles == FreeTiles(s.tiles, rmem.value - HEADER)
      && OthersIntact(s.bytes, t.bytes, s.tiles, rmem.value - HEADER)
  }

  /** Every call of the allocator is such a step. */
  method Perform(h: SmallMem, e: Event) returns (done: Event)
    requires h.Valid() && !e.OwnerWrites? && (About(e).Some? ==> h.IsLive(About(e).value))
    requires (e.Allocates? ==> e.size < WORD_LIMIT) && (e.Reallocates? ==> e.newsize < WORD_LIMIT)
    modifies h, h.blocks, h.blocks.heap
    ensures h.Valid() && About(done) == About(e)
    ensures Step(State(old(h.blocks.heap[..]), old(h.blocks.tiles)), done, State(h.blocks.heap[..], h.blocks.tiles))
  {
    hide AllIntact, OthersIntact, Allocated, Reallocated, FreeTiles, AlignUp, Aligned;
    match e {
      case Allocates(size, _) =>
        var r := h.Alloc(size);
        done := Allocates(size, r);
      case Frees(rmem) =>
        h.Free(rmem);
        done := e;
      case Reallocates(rmem, newsize, _) =>
        var r := h.Realloc(rmem, newsize);
        done := Reallocates(rmem, newsize, r);
    }
  }

  // ---------------------------------------------------------------- a block nobody touches

  /** Block t is live and is not the one the event is about. */
  ghost predicate Bystander(t: Tile, s: State, e: Event) {
    t in s.tiles && t.used && About(e) != Some(t.off + HEADER)
  }

  lemma AllocKeeps(s: State, n: nat, r: Option<nat>, u: State, t: Tile)
    requires t in s.tiles && t.used && AllIntact(s.bytes, u.bytes, s.tiles) && Allocated(s.tiles, u.tiles, r, n)
    ensures t in u.tiles && Intact(s.bytes, u.bytes, t)
  {
    hide Intact, AllocTiles;
    AllocSurvives(s.tiles, n, t);
  }

  lemma ReallocKeeps(s: State, ptr: nat, n: nat, r: Option<nat>, u: State, t: Tile)
    requires t in s.tiles && t.used && ptr != t.off + HEADER && r.Some?
    requires Reallocated(s.tiles, s.bytes, u.tiles, u.bytes, r, ptr, n)
    ensures t in u.tiles && Intact(s.bytes, u.bytes, t)
  {
    hide Intact, ReallocTiles, ReallocPlan, Carried;
  }

  lemma StepKeeps(s: State, e: Event, u: State, memEnd: nat, t: Tile)
    requires Tiled(s.tiles, memEnd) && |s.bytes| == memEnd + HEADER && Bystander(t, s, e) && Step(s, e, u)
    ensures t in u.tiles && Intact(s.bytes, u.bytes, t)
  {
    hide Tiled, Intact, Allocated, Reallocated, Released, AlignUp, Request;
    StillTiled(s, memEnd, t);
    match e {
      case Allocates(size, r) =>
        if size == 0 {
          OneOfAll(s, u, t);
        } else {
          AllocKeeps(s, Request(size), r, u, t);
        }
      case Frees(rmem) => ReleaseKeeps(s, rmem, u, memEnd, t);
      case Reallocates(rmem, newsize, r) =>
        if AlignUp(newsize) == 0 {
          ReleaseKeeps(s, rmem, u, memEnd, t);
        } else if r.Some? && rmem.None? {
          AllocKeeps(s, Request(AlignUp(newsize)), r, u, t);
        } else if r.Some? {
          ReallocKeeps(s, rmem.value, AlignUp(newsize), r, u, t);
        }
      case OwnerWrites(ptr, i, b) => WriteKeeps(s, ptr, i, b, u, memEnd, t);
    }
  }

  lemma OneOfAll(s: State, u: State, t: Tile)
    requires t in s.tiles && t.used && AllIntact(s.bytes, u.bytes, s.tiles)
    ensures Intact(s.bytes, u.bytes, t)
  {}

  lemma ReleaseKeeps(s: State, rmem: Option<nat>, u: State, memEnd: nat, t: Tile)
    requires Tiled(s.tiles, memEnd) && |s.bytes| == memEnd + HEADER && Released(s, rmem, u)
    requires t in s.tiles && t.used && rmem != Some(t.off + HEADER)
    ensures t in u.tiles && Intact(s.bytes, u.bytes, t)
  {
    IntactUnchanged(s.bytes, s.tiles, memEnd);
    if rmem.Some? {
      FreeSurvives(s.tiles, IndexOf(s.tiles, rmem.value - HEADER), t);
    }
  }

  lemma WriteKeeps(s: State, ptr: nat, i: nat, b: Byte, u: State, memEnd: nat, t: Tile)
    requires Tiled(s.tiles, memEnd) && |s.bytes| == memEnd + HEADER && Step(s, OwnerWrites(ptr, i, b), u)
    requires t in s.tiles && t.used && ptr != t.off + HEADER
    ensures Intact(s.bytes, u.bytes, t)
  {
    var k := IndexOf(s.tiles, ptr - HEADER);
    IntactUnchanged(s.bytes, s.tiles, memEnd);
    TilesDisjoint(s.tiles, memEnd, t, s.tiles[k]);
  }

  lemma StepTiled(s: State, e: Event, u: State, memEnd: nat)
    requires WellTiled(s.tiles, memEnd) && Step(s, e, u)
    ensures WellTiled(u.tiles, memEnd)
  {
    hide WellTiled, AllIntact, OthersIntact, AllocTiles, FreeTiles, Moved, ReallocTiles, ReallocPlan, AlignUp, Request;
    match e {
      case Allocates(size, r) => AllocWellTiled(s.tiles, memEnd, Request(size));
      case Frees(rmem) => ReleaseTiled(s, rmem, u, memEnd);
      case Reallocates(rmem, newsize, r) =>
        if AlignUp(newsize) == 0 {
          ReleaseTiled(s, rmem, u, memEnd);
        } else if rmem.None? {
          AllocWellTiled(s.tiles, memEnd, Request(AlignUp(newsize)));
        } else if r.Some? {
          HeapRuns.ReallocWellTiled(s.tiles, memEnd, IndexOf(s.tiles, rmem.value - HEADER), AlignUp(newsize));
        }
      case OwnerWrites(_, _, _) =>
    }
  }

  lemma ReleaseTiled(s: State, rmem: Option<nat>, u: State, memEnd: nat)
    requires WellTiled(s.tiles, memEnd) && Released(s, rmem, u)
    ensures WellTiled(u.tiles, memEnd)
  {
    if rmem.Some? {
      HeapRuns.ReleaseWellTiled(s.tiles, memEnd, IndexOf(s.tiles, rmem.value - HEADER));
    }
  }

  /** A run from a tiled heap, such as initialisation leaves; reallocations are of live blocks. */
  ghost predicate Run(trace: seq<State>, events: seq<Event>, memEnd: nat) {
    && |trace| == |events| + 1
    && WellTiled(trace[0].tiles, memEnd) && |trace[0].bytes| == memEnd + HEADER
    && forall i, j :: 0 <= i < |events| && j == i + 1 ==> Step(trace[i], events[i], trace[j])
  }

  lemma {:induction false} RunTiled(trace: seq<State>, events: seq<Event>, memEnd: nat, k: nat)
    requires Run(trace, events, memEnd) && k < |trace|
    ensures WellTiled(trace[k].tiles, memEnd) && |trace[k].bytes| == memEnd + HEADER
  {
    if k > 0 {
      RunTiled(trace, events, memEnd, k - 1);
      StepTiled(trace[k - 1], events[k - 1], trace[k], memEnd);
    }
  }

  /**
   * The payload of a live block stays what it is, and the block where it is, until an event is about
   * it: whatever is allocated, freed, reallocated or written elsewhere.
   */
  lemma {:induction false} PayloadStays(trace: seq<State>, events: seq<Event>, memEnd: nat, t: Tile, a: nat, b: nat)
    requires Run(trace, events, memEnd) && a <= b < |trace| && t in trace[a].tiles && t.used
    requires forall i :: a <= i < b ==> About(events[i]) != Some(t.off + HEADER)
    ensures t in trace[b].tiles && Intact(trace[a].bytes, trace[b].bytes, t)
  {
    hide Step, Tiled;
    RunTiled(trace, events, memEnd, if a == b then a else b - 1);
    if a == b {
      StillTiled(trace[a], memEnd, t);
    } else {
      PayloadStays(trace, events, memEnd, t, a, b - 1);
      StepKeeps(trace[b - 1], events[b - 1], trace[b], memEnd, t);
    }
  }

  lemma StillTiled(s: State, memEnd: nat, t: Tile)
    requires Tiled(s.tiles, memEnd) && |s.bytes| == memEnd + HEADER && t in s.tiles && t.used
    ensures Intact(s.bytes, s.bytes, t)
  {
    IntactUnchanged(s.bytes, s.tiles, memEnd);
  }
}
