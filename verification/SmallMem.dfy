/** The small-memory allocator: first fit with boundary tags over one byte array. */
module SmallMem {
  import opened Machine
  import opened ByteMemory
  import opened Tiling
  import opened HeapBytes
  import opened HeapOutcomes
  import opened BlockHeap

  /** The number of data bytes searched for when `size` bytes are requested. */
  function Request(size: nat): nat {
    AtLeastMin(AlignUp(size))
  }

  /** In numbers: the size rounded up to a multiple of 4 and at least 12, or 12 where the rounding wraps around. */
  lemma RequestIs(size: nat)
    requires size < WORD_LIMIT
    ensures Request(size) == if 12 < size <= WORD_LIMIT - 4 then (size + 3) / 4 * 4 else 12
  {}

  /**
   * The part of the region [begin, begin + size) that rt_smem_init turns into a heap, after the
   * memory object of `header` bytes at its start: address of the heap and bytes of block space.
   * All sums are sums of 32-bit addresses.
   */
  function Region(begin: nat, size: nat, header: nat): Option<(nat, nat)> {
    var start := Wrap(AlignUp(begin) + header);
    var end := AlignDown(Wrap(begin + size));
    if end > 2 * HEADER && end - 2 * HEADER >= start
    then Some((AlignUp(start), Wrap(end - AlignUp(start) - 2 * HEADER))) else None
  }

  /**
   * An accepted region gives an aligned heap whose size never underflows. Blocks and closing header
   * lie inside the region, behind the object, exactly when neither the alignment of the start of
   * the region nor the end of the object wraps around.
   */
  lemma RegionFits(begin: nat, size: nat, header: nat)
    requires begin < WORD_LIMIT && size < WORD_LIMIT && header < WORD_LIMIT && Region(begin, size, header).Some?
    ensures var (heap, memSize) := Region(begin, size, header).value;
            && heap % 4 == 0 && memSize % 4 == 0 && heap + memSize + 2 * HEADER == AlignDown(Wrap(begin + size))
            && (begin + header <= heap && heap + memSize + 2 * HEADER <= begin + size <==>
                  begin <= WORD_LIMIT - 4 && AlignUp(begin) + header < WORD_LIMIT)
  {
    hide AlignUp, AlignDown, Wrap;
    var start, end := Wrap(AlignUp(begin) + header), AlignDown(Wrap(begin + size));
    Aligns(start);
    AlignsUpIff(start);
    StartWraps(begin, header);
    HeapPlace(start, AlignUp(start), end);
  }

  lemma HeapPlace(start: nat, heap: nat, end: nat)
    requires start <= heap < start + 4 && heap % 4 == 0 && end % 4 == 0 && end - 2 * HEADER >= start
    ensures heap <= end - 2 * HEADER && (end - heap - 2 * HEADER) % 4 == 0
  {}

  /** Where the object ends: behind the start of the region, unless an address wraps around. */
  lemma StartWraps(begin: nat, header: nat)
    requires begin < WORD_LIMIT && header < WORD_LIMIT
    ensures var start := Wrap(AlignUp(begin) + header);
            if begin <= WORD_LIMIT - 4 && AlignUp(begin) + header < WORD_LIMIT then begin + header <= start
            else start + 4 <= begin + header
  {
    AlignsUpIff(begin);
    if begin > WORD_LIMIT - 4 {
      assert AlignUp(begin) == 0;
    } else if AlignUp(begin) + header >= WORD_LIMIT {
      assert Wrap(AlignUp(begin) + header) == AlignUp(begin) + header - WORD_LIMIT;
    }
  }

  function Larger(a: nat, b: nat): nat { if a < b then b else a }

  /** The most bytes in use while the block whose data is at ptr is reallocated to n bytes. */
  function PeakAt(ts: seq<Tile>, ptr: nat, n: nat): nat {
    if HEADER <= ptr && IndexOf(ts, ptr - HEADER) < |ts| then ReallocPeak(ts, IndexOf(ts, ptr - HEADER), n) else 0
  }

  lemma OnlyOneAt(ts: seq<Tile>, e: nat, k: nat, t: Tile)
    requires WellTiled(ts, e) && k < |ts| && t in ts && t.off == ts[k].off
    ensures t == ts[k]
  {
    var i := IndexIn(ts, t);
    IndexOfTile(ts, e, i);
    IndexOfTile(ts, e, k);
  }

  class SmallMem {
    const blocks: BlockHeap
    var used: nat
    var max: nat

    ghost predicate Valid()
      reads this, blocks, blocks.heap
    {
      && blocks.Sound()
      && Aligned(blocks.tiles)
      && used == InUse(blocks.tiles) <= max
    }

    ghost predicate IsLive(ptr: nat)
      reads blocks`tiles
    {
      IsLiveIn(blocks.tiles, ptr)
    }

    /** The whole state as one value, to say that nothing changed. */
    ghost function State(): (seq<Byte>, seq<Tile>, nat, nat, nat)
      reads this, blocks, blocks.heap
    {
      (blocks.heap[..], blocks.tiles, blocks.lfree, used, max)
    }

    constructor (memSize: nat, pool: nat)
      requires memSize + 2 * HEADER < WORD_LIMIT && 0 < pool && pool + 1 < WORD_LIMIT && pool % 2 == 0
      ensures Valid() && fresh(blocks) && fresh(blocks.heap)
      ensures blocks.tiles == [Tile(0, memSize + HEADER, false)] && used == 0 && max == 0
    {
      blocks := new BlockHeap(memSize, pool);
      used, max := 0, 0;
    }

    method Charge(amount: nat)
      modifies `used, `max
      ensures used == old(used) + amount
      ensures max == Larger(old(max), used)
    {
      used := used + amount;
      if max < used {
        max := used;
      }
    }

    /** rt_smem_free: releases a live block; the null pointer is ignored. */
    method Free(rmem: Option<nat>)
      requires Valid()
      requires rmem.Some? ==> IsLive(rmem.value)
      modifies `used, blocks, blocks.heap
      ensures Valid()
      ensures rmem.None? ==> State() == old(State())
      ensures rmem.Some? ==> blocks.tiles == FreeTiles(old(blocks.tiles), rmem.value - HEADER)
      ensures rmem.Some? ==> OthersIntact(old(blocks.heap[..]), blocks.heap[..], old(blocks.tiles), rmem.value - HEADER)
    {
      if rmem.Some? {
        var mem := rmem.value - HEADER;
        ghost var k := IndexOf(blocks.tiles, mem);
        FreeAligned(blocks.tiles, k);
        var freed := blocks.FreeBlock(mem, k);
        used := used - freed;
      }
    }

    /** rt_smem_alloc. */
    method Alloc(size: nat) returns (r: Option<nat>)
      requires Valid() && size < WORD_LIMIT
      modifies this, blocks, blocks.heap
      ensures Valid()
      ensures r == None ==> State() == old(State())
      ensures size == 0 ==> r == None
      ensures size > 0 ==> Allocated(old(blocks.tiles), blocks.tiles, r, Request(size))
      ensures size > 0 ==>
                var n := if 12 < size <= WORD_LIMIT - 4 then (size + 3) / 4 * 4 else 12;
                && (r == None <==> forall t :: t in old(blocks.tiles) && !t.used ==> t.next - t.off - HEADER < n)
                && (r.Some? ==> exists t :: t in blocks.tiles && t.used && t.off + HEADER == r.value && n <= t.next - r.value < n + 24)
      ensures max == Larger(old(max), used)
      ensures AllIntact(old(blocks.heap[..]), blocks.heap[..], old(blocks.tiles))
    {
      hide Aligned, AllocTiles, AllIntact, AlignUp, Allocated;
      ghost var ts := blocks.tiles;
      Aligns(size);
      if size == 0 {
        blocks.IsTiled();
        IntactUnchanged(blocks.heap[..], blocks.tiles, blocks.memSize + HEADER);
        r := None;
      } else {
        var n := AlignUp(size);
        if n < MIN_SIZE {
          n := MIN_SIZE;
        }
        RequestIs(size);
        r := Serve(n);
        AllocatedServed(ts, blocks.tiles, r, n);
      }
    }

    /** An allocation of a size already aligned and raised to the minimum, with the account. */
    method Serve(n: nat) returns (r: Option<nat>)
      requires Valid() && n % 4 == 0
      modifies this, blocks, blocks.heap
      ensures Valid()
      ensures r == None ==> State() == old(State())
      ensures Allocated(old(blocks.tiles), blocks.tiles, r, n)
      ensures max == Larger(old(max), used)
      ensures AllIntact(old(blocks.heap[..]), blocks.heap[..], old(blocks.tiles))
    {
      hide Aligned, AllocTiles, AllIntact;
      AllocAligned(blocks.tiles, n);
      var taken;
      r, taken := blocks.TryAlloc(n);
      Transfer(taken, 0);
    }

    /** The account of an allocation followed by a release, once the blocks have changed. */
    method Transfer(taken: nat, freed: nat)
      requires used + taken == InUse(blocks.tiles) + freed && used <= max
      modifies `used, `max
      ensures used == InUse(blocks.tiles) <= max
      ensures max == Larger(old(max), old(used) + taken)
      ensures taken == freed == 0 ==> used == old(used) && max == old(max)
    {
      Charge(taken);
      used := used - freed;
    }

    /**
     * rt_smem_realloc. The size is aligned, with wrap-around, first; a result of zero releases the
     * block, one beyond the heap is refused.
     */
    method Realloc(rmem: Option<nat>, newsize: nat) returns (r: Option<nat>)
      requires Valid() && newsize < WORD_LIMIT
      requires rmem.Some? ==> IsLive(rmem.value)
      modifies this, blocks, blocks.heap
      ensures Valid()
      ensures r == None && AlignUp(newsize) != 0 ==> State() == old(State())
      ensures AlignUp(newsize) > blocks.memSize || AlignUp(newsize) == 0 ==> r == None
      ensures AlignUp(newsize) == 0 && rmem.None? ==> State() == old(State())
      ensures AlignUp(newsize) == 0 && rmem.Some? ==>
                && blocks.tiles == FreeTiles(old(blocks.tiles), rmem.value - HEADER)
                && OthersIntact(old(blocks.heap[..]), blocks.heap[..], old(blocks.tiles), rmem.value - HEADER)
                && max == old(max)
      ensures 0 < AlignUp(newsize) <= blocks.memSize && rmem.Some? ==>
                && Reallocated(old(blocks.tiles), old(blocks.heap[..]), blocks.tiles, blocks.heap[..], r, rmem.value, AlignUp(newsize))
                && max == Larger(old(max), PeakAt(old(blocks.tiles), rmem.value, AlignUp(newsize)))
                && forall t :: t in old(blocks.tiles) && t.used && t.off + HEADER == rmem.value ==>
                     Refitted(old(blocks.tiles), old(blocks.heap[..]), blocks.tiles, blocks.heap[..], r, t, AlignUp(newsize))
      ensures 0 < AlignUp(newsize) <= blocks.memSize && rmem.None? ==>
                && Allocated(old(blocks.tiles), blocks.tiles, r, Request(AlignUp(newsize)))
                && Served(old(blocks.tiles), blocks.tiles, r, if AlignUp(newsize) < 12 then 12 else AlignUp(newsize))
                && AllIntact(old(blocks.heap[..]), blocks.heap[..], old(blocks.tiles))
                && max == Larger(old(max), used)
    {
      hide AlignUp, Allocated, Reallocated, Served, Refitted, AllIntact, OthersIntact, Aligned, FreeTiles, PeakAt, Request;
      Aligns(newsize);
      var n := AlignUp(newsize);
      r := None;
      if n <= blocks.memSize {
        if n == 0 {
          Free(rmem);
        } else if rmem.None? {
          r := AllocAnew(n);
        } else {
          r := ReallocLive(rmem.value, n);
        }
      }
    }

    /** A reallocation without a block: the size has been aligned. */
    method AllocAnew(n: nat) returns (r: Option<nat>)
      requires Valid() && 0 < n < WORD_LIMIT && n % 4 == 0
      modifies this, blocks, blocks.heap
      ensures Valid()
      ensures r == None ==> State() == old(State())
      ensures Allocated(old(blocks.tiles), blocks.tiles, r, Request(n))
      ensures Served(old(blocks.tiles), blocks.tiles, r, if n < 12 then 12 else n)
      ensures max == Larger(old(max), used)
      ensures AllIntact(old(blocks.heap[..]), blocks.heap[..], old(blocks.tiles))
    {
      hide Allocated, Served, AllIntact, Aligned;
      ghost var ts := blocks.tiles;
      r := Alloc(n);
      RequestIs(n);
      AllocatedServed(ts, blocks.tiles, r, Request(n));
    }

    method ReallocLive(ptr: nat, n: nat) returns (r: Option<nat>)
      requires Valid() && IsLive(ptr) && n % 4 == 0
      modifies this, blocks, blocks.heap
      ensures Valid()
      ensures r == None ==> State() == old(State())
      ensures Reallocated(old(blocks.tiles), old(blocks.heap[..]), blocks.tiles, blocks.heap[..], r, ptr, n)
      ensures max == Larger(old(max), PeakAt(old(blocks.tiles), ptr, n))
      ensures forall t :: t in old(blocks.tiles) && t.used && t.off + HEADER == ptr ==>
                Refitted(old(blocks.tiles), old(blocks.heap[..]), blocks.tiles, blocks.heap[..], r, t, n)
    {
      hide Refitted, Resized, ReallocPeak;
      var mem := ptr - HEADER;
      ghost var ts, m, k := blocks.tiles, blocks.heap[..], IndexOf(blocks.tiles, mem);
      blocks.IsTiled();
      r := Resize(mem, n, k);
      ResizedRefitted(ts, m, blocks.tiles, blocks.heap[..], r, mem, k, n, blocks.memSize + HEADER);
      forall t | t in ts && t.used && t.off + HEADER == ptr ensures t == ts[k] {
        OnlyOneAt(ts, blocks.memSize + HEADER, k, t);
      }
    }

    /** Resizing a live block, with the account: max also covers the moment when both blocks are in use. */
    method Resize(mem: nat, n: nat, ghost k: nat) returns (r: Option<nat>)
      requires Valid() && k < |blocks.tiles| && blocks.tiles[k].off == mem && blocks.tiles[k].used && n % 4 == 0
      modifies this, blocks, blocks.heap
      ensures Valid()
      ensures r == None ==> State() == old(State())
      ensures Resized(old(blocks.tiles), old(blocks.heap[..]), blocks.tiles, blocks.heap[..], r, mem, k, n)
      ensures max == Larger(old(max), ReallocPeak(old(blocks.tiles), k, n))
    {
      var taken, freed;
      ReallocAligned(blocks.tiles, k, n);
      r, taken, freed := blocks.Resize(mem, n, k);
      Transfer(taken, freed);
    }
  }
}
