/** The small-memory heap over whole runs of allocations, releases and reallocations. */
module HeapRuns {
  import opened Machine
  import opened ByteMemory
  import opened Tiling
  import opened HeapLayout
  import opened HeapBytes
  import opened SmallMem

  /** One call, by its size after alignment and the header offset of the block it is about. */
  datatype Call = AllocCall(n: nat) | FreeCall(off: nat) | ReallocCall(off: nat, n: nat)

  predicate AlignedCall(c: Call) {
    !c.FreeCall? ==> c.n % 4 == 0
  }

  predicate LiveAtOffset(ts: seq<Tile>, off: nat) {
    IndexOf(ts, off) < |ts| && ts[IndexOf(ts, off)].used
  }

  /** The tiles after one call; a call about a block that is not live is not made. */
  function Step(ts: seq<Tile>, e: nat, c: Call): seq<Tile> {
    match c
    case AllocCall(n) => AllocTiles(ts, AtLeastMin(n))
    case FreeCall(off) => if LiveAtOffset(ts, off) then FreeTiles(ts, off) else ts
    case ReallocCall(off, n) =>
      if !LiveAtOffset(ts, off) || n + HEADER > e then ts
      else if n == 0 then FreeTiles(ts, off)
      else ReallocTiles(ts, IndexOf(ts, off), n)
  }

  function Run(ts: seq<Tile>, e: nat, calls: seq<Call>): seq<Tile> {
    if calls == [] then ts else Step(Run(ts, e, calls[..|calls| - 1]), e, calls[|calls| - 1])
  }

  lemma StepWellTiled(ts: seq<Tile>, e: nat, c: Call)
    requires WellTiled(ts, e)
    ensures WellTiled(Step(ts, e, c), e)
  {
    if c.AllocCall? {
      AllocWellTiled(ts, e, AtLeastMin(c.n));
    } else if !LiveAtOffset(ts, c.off) {
      assert Step(ts, e, c) == ts;
    } else {
      var r := LiveStepWellTiled(ts, e, c);
    }
  }

  lemma LiveStepWellTiled(ts: seq<Tile>, e: nat, c: Call) returns (r: seq<Tile>)
    requires WellTiled(ts, e) && !c.AllocCall? && LiveAtOffset(ts, c.off)
    ensures r == Step(ts, e, c) && WellTiled(r, e)
  {
    var k := IndexOf(ts, c.off);
    r := ts;
    if c.FreeCall? || (c.n == 0 && HEADER <= e) {
      r := FreeAt(ts, k);
      FreeWellTiled(ts, e, k);
    } else if c.n + HEADER <= e {
      r := ReallocTiles(ts, k, c.n);
      ReallocWellTiled(ts, e, k, c.n);
    }
  }

  lemma ReallocWellTiled(ts: seq<Tile>, e: nat, k: nat, n: nat)
    requires WellTiled(ts, e) && k < |ts| && ts[k].used
    ensures WellTiled(ReallocTiles(ts, k, n), e)
  {
    var plan := ReallocPlan(ts, k, n);
    if plan.ShrinkInPlace? {
      ShrinkTiled(ts, e, k, n);
      ShrinkSpaced(ts, k, n);
    } else if plan.Move? {
      MoveWellTiled(ts, e, k, AtLeastMin(n));
    }
  }

  lemma MoveWellTiled(ts: seq<Tile>, e: nat, k: nat, n: nat)
    requires WellTiled(ts, e) && k < |ts| && ts[k].used && FirstFit(ts, n) < |ts|
    ensures WellTiled(FreeTiles(AllocTiles(ts, n), ts[k].off), e)
  {
    var us := AllocTiles(ts, n);
    var i := MoveSetup(ts, e, n, k);
    AllocWellTiled(ts, e, n);
    ReleaseWellTiled(us, e, i);
  }

  lemma ReleaseWellTiled(ts: seq<Tile>, e: nat, k: nat)
    requires WellTiled(ts, e) && k < |ts| && ts[k].used
    ensures WellTiled(FreeTiles(ts, ts[k].off), e)
  {
    IndexOfTile(ts, e, k);
    FreeWellTiled(ts, e, k);
  }

  lemma StepAligned(ts: seq<Tile>, e: nat, c: Call)
    requires Aligned(ts) && AlignedCall(c)
    ensures Aligned(Step(ts, e, c))
  {
    if c.AllocCall? {
      AllocAligned(ts, AtLeastMin(c.n));
    } else if LiveAtOffset(ts, c.off) {
      FreeAligned(ts, IndexOf(ts, c.off));
      if c.ReallocCall? {
        ReallocAligned(ts, IndexOf(ts, c.off), c.n);
      }
    }
  }

  /**
   * After any run from initialisation the blocks tile the heap exactly, no two free ones are
   * adjacent, all are aligned, and used and free bytes, headers included, add up to the heap.
   */
  lemma {:induction false} RunInvariant(e: nat, calls: seq<Call>)
    requires HEADER <= e && forall c :: c in calls ==> AlignedCall(c)
    ensures var ts := Run([Tile(0, e, false)], e, calls);
            WellTiled(ts, e) && Aligned(ts) && Bytes(ts) == e && InUse(ts) <= e
  {
    var ts := Run([Tile(0, e, false)], e, calls);
    if calls != [] {
      RunInvariant(e, calls[..|calls| - 1]);
      StepWellTiled(Run([Tile(0, e, false)], e, calls[..|calls| - 1]), e, calls[|calls| - 1]);
      StepAligned(Run([Tile(0, e, false)], e, calls[..|calls| - 1]), e, calls[|calls| - 1]);
    }
    TotalBytes(ts, 0, e);
    InUseAtMost(ts);
  }

  lemma {:induction false} TotalBytes(ts: seq<Tile>, from: nat, e: nat)
    requires Chained(ts) && |ts| > 0 && ts[0].off == from && ts[|ts| - 1].next == e
    ensures from <= e && Bytes(ts) == e - from
  {
    if |ts| > 1 {
      TotalBytes(ts[1..], ts[0].next, e);
    }
  }

  lemma {:induction false} InUseAtMost(ts: seq<Tile>)
    ensures InUse(ts) <= Bytes(ts)
  {
    if ts != [] {
      var a, t := ts[..|ts| - 1], ts[|ts| - 1];
      InUseAtMost(a);
      assert ts == a + [t];
      BytesConcat(a, [t]);
    }
  }

  /** The block handed out is as large as asked for, except for the sizes whose alignment wraps around. */
  lemma RoomForRequest(size: nat)
    requires size < WORD_LIMIT
    ensures Request(size) >= size <==> size <= WORD_LIMIT - 4
  {
    AlignsUpIff(size);
  }

  /** The size searched for is the least aligned size that is large enough and no smaller than the minimum. */
  lemma LeastRequest(size: nat, m: nat)
    requires 0 < size <= WORD_LIMIT - 4
    ensures Request(size) % 4 == 0 && Request(size) >= size && Request(size) >= MIN_SIZE
    ensures m % 4 == 0 && m >= size && m >= MIN_SIZE ==> Request(size) <= m
  {
    hide AlignUp;
    Aligns(size);
    AlignsUpIff(size);
    if m % 4 == 0 && m >= size {
      LeastAbove(size, AlignUp(size), m);
    }
  }

  lemma LeastAbove(size: nat, aligned: nat, m: nat)
    requires aligned % 4 == 0 && size <= aligned < size + 4 && m % 4 == 0 && m >= size
    ensures aligned <= m
  {}

  /** The memory determines the tiles: no two tilings are laid out in the same words. */
  lemma LayoutUnique(w: Words, ts: seq<Tile>, us: seq<Tile>, e: nat, pool: nat)
    requires Walk(w, ts, 0, e, pool) && Walk(w, us, 0, e, pool)
    ensures ts == us
  {
    SameUpTo(w, ts, us, e, pool, if |ts| <= |us| then |ts| else |us|);
    WalkAt(w, ts, e, pool, |ts| - 1);
    WalkAt(w, us, e, pool, |us| - 1);
    if |ts| < |us| {
      WalkAt(w, us, e, pool, |ts| - 1);
    } else if |us| < |ts| {
      WalkAt(w, ts, e, pool, |us| - 1);
    }
  }

  lemma {:induction false} SameUpTo(w: Words, ts: seq<Tile>, us: seq<Tile>, e: nat, pool: nat, n: nat)
    requires Walk(w, ts, 0, e, pool) && Walk(w, us, 0, e, pool) && n <= |ts| && n <= |us|
    ensures forall i :: 0 <= i < n ==> ts[i] == us[i]
  {
    if n > 0 {
      SameUpTo(w, ts, us, e, pool, n - 1);
      WalkFrom(w, ts, n - 1, e, pool);
      WalkFrom(w, us, n - 1, e, pool);
    }
  }
}
