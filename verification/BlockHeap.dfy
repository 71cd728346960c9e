/** The block structure of the small-memory heap: headers rewritten in place in one byte array. */
module BlockHeap {
  import opened Machine
  import opened ByteMemory
  import opened Tiling
  import opened HeapLayout
  import opened HeapBytes
  import opened HeapOutcomes

  /** A pointer that follows a block from one place to another. */
  function Redirect(p: nat, from: nat, to: nat): nat {
    if p == from then to else p
  }

  class BlockHeap {
    const heap: array<Byte>  // heap_ptr, up to and including the header at heap_end
    const memSize: nat       // mem_size_aligned
    const pool: nat          // address of the object, as stored in every pool_ptr
    var lfree: nat
    ghost var words: Words
    ghost var tiles: seq<Tile>

    /** The heap bytes hold the tiles. */
    ghost predicate Layout()
      reads `words, `tiles, heap
    {
      && heap.Length == memSize + 2 * HEADER < WORD_LIMIT
      && 0 < pool && pool + 1 < WORD_LIMIT && pool % 2 == 0
      && Represents(heap[..], words)
      && Walk(words, tiles, 0, memSize + HEADER, pool)
    }

    /** The layout, with no two adjacent free blocks and lfree the lowest free one. */
    ghost predicate Sound()
      reads `words, `tiles, `lfree, heap
    {
      Layout() && Spaced(tiles) && lfree == LowestFree(tiles, memSize + HEADER)
    }

    /** The heap as rt_smem_init leaves it: one free block and the closing header. */
    constructor (memSize: nat, pool: nat)
      requires memSize + 2 * HEADER < WORD_LIMIT && 0 < pool && pool + 1 < WORD_LIMIT && pool % 2 == 0
      ensures this.memSize == memSize && this.pool == pool && fresh(heap)
      ensures Sound()
      ensures tiles == [Tile(0, memSize + HEADER, false)]
      ensures Holds(words, memSize + HEADER + 8, memSize + HEADER)
    {
      heap := new Byte[memSize + 2 * HEADER];
      this.memSize := memSize;
      this.pool := pool;
      lfree := 0;
      tiles := [];
      words := [];
      new;
      ghost var m := heap[..];
      words := seq(|m|, q requires 0 <= q < |m| => if q + 4 <= |m| then Word(m, q) else 0);
      var next := memSize + HEADER;
      WriteHeader(0, pool, next, 0);
      ghost var w := words;
      WriteHeader(next, pool + 1, next, next);
      InitialWalk(w, words, next, pool);
      tiles := [Tile(0, next, false)];
    }

    method WriteHeader(p: nat, tag: nat, next: nat, prev: nat)
      requires Represents(heap[..], words) && p + HEADER <= heap.Length
      requires tag < WORD_LIMIT && next < WORD_LIMIT && prev < WORD_LIMIT
      modifies `words, heap
      ensures Represents(heap[..], words) && Confined(old(words), words, p, p + HEADER)
      ensures Holds(words, p, tag) && Holds(words, p + 4, next) && Holds(words, p + 8, prev)
      ensures Kept(old(heap[..]), heap[..], 0, p) && Kept(old(heap[..]), heap[..], p + HEADER, heap.Length)
    {
      ghost var w := words;
      ghost var w1, w2 := Store3(p, tag, p + 4, next, p + 8, prev);
      HeaderStored(w, w1, w2, words, p, tag, next, prev);
    }

    lemma IsTiled()
      requires Layout()
      ensures Tiled(tiles, memSize + HEADER)
    {
      WalkTiled(words, tiles, memSize + HEADER, pool);
    }

    method Load(p: nat) returns (v: nat)
      requires Represents(heap[..], words) && p + 4 <= heap.Length
      ensures v == words[p]
    {
      v := Word(heap[..], p);
    }

    method Store(p: nat, v: nat)
      requires Represents(heap[..], words)
      requires p + 4 <= heap.Length && v < WORD_LIMIT
      modifies `words, heap
      ensures Represents(heap[..], words)
      ensures Stored(old(words), words, p, v)
      ensures forall i :: 0 <= i < heap.Length && !(p <= i < p + 4) ==> heap[i] == old(heap[i])
    {
      ghost var m, w := heap[..], words;
      heap[p], heap[p + 1], heap[p + 2], heap[p + 3] := v % 0x100, v / 0x100 % 0x100, v / 0x1_0000 % 0x100, v / 0x100_0000;
      assert heap[..] == PutWord(m, p, v);
      PutThenGet(m, p, v);
      words := seq(heap.Length, q requires 0 <= q < heap.Length =>
        if q + 4 <= heap.Length then Word(PutWord(m, p, v), q) else w[q]);
      forall q | 0 <= q < heap.Length && (q + 4 <= p || p + 4 <= q) ensures words[q] == w[q] {
        if q + 4 <= heap.Length {
          assert w[q] == Word(m, q);
        }
      }
    }

    /**
     * The three writes plug_holes makes to join block q, which follows block p, to p: q loses its
     * pool_ptr, p ends where q did, and the block after q points back to p.
     */
    method Join(p: nat, q: nat, ghost k: nat)
      requires Layout() && k + 1 < |tiles| && tiles[k].off == p && tiles[k + 1].off == q
      modifies `words, `tiles, heap
      ensures Layout()
      ensures tiles == JoinTiles(old(tiles), k)
      ensures BytesOutside(old(heap[..]), heap[..], p, old(tiles)[k + 1].next, old(tiles)[k + 1].next + 8)
    {
      ghost var e, w, ts := memSize + HEADER, words, tiles;
      WalkAt(w, ts, e, pool, k);
      WalkAt(w, ts, e, pool, k + 1);
      var after := Load(q + 4);
      ghost var w1, w2 := Store3(q, 0, p + 4, after, after + 8, p);
      JoinWalk(w, w1, w2, words, ts, e, pool, k);
      tiles := JoinTiles(ts, k);
    }

    /** Three stores in a row. */
    method Store3(p1: nat, v1: nat, p2: nat, v2: nat, p3: nat, v3: nat) returns (ghost w1: Words, ghost w2: Words)
      requires Represents(heap[..], words)
      requires p1 + 4 <= heap.Length && p2 + 4 <= heap.Length && p3 + 4 <= heap.Length
      requires v1 < WORD_LIMIT && v2 < WORD_LIMIT && v3 < WORD_LIMIT
      modifies `words, heap
      ensures Represents(heap[..], words)
      ensures Stored(old(words), w1, p1, v1) && Stored(w1, w2, p2, v2) && Stored(w2, words, p3, v3)
      ensures forall i :: 0 <= i < heap.Length && !(p1 <= i < p1 + 4) && !(p2 <= i < p2 + 4) && !(p3 <= i < p3 + 4)
                ==> heap[i] == old(heap[i])
    {
      Store(p1, v1);
      w1 := words;
      Store(p2, v2);
      w2 := words;
      Store(p3, v3);
    }

    /** The next field of the block at p. */
    method NextOf(p: nat, ghost k: nat) returns (next: nat)
      requires Layout() && k < |tiles| && tiles[k].off == p
      ensures next == tiles[k].next && p + HEADER <= next
    {
      WalkAt(words, tiles, memSize + HEADER, pool, k);
      next := Load(p + 4);
    }

    /** Whether the block at p is used, by its pool_ptr. */
    method IsUsed(p: nat, ghost k: nat) returns (b: bool)
      requires Layout() && k <= |tiles| && p == if k < |tiles| then tiles[k].off else memSize + HEADER
      ensures b == (k == |tiles| || tiles[k].used)
    {
      WalkAt(words, tiles, memSize + HEADER, pool, if k < |tiles| then k else 0);
      var tag := Load(p);
      b := tag % 2 == 1;
    }

    /** The block after the one at mem, and whether it is a free block to join. */
    method FreeSuccessor(mem: nat, ghost k: nat) returns (nmem: nat, free: bool)
      requires Layout() && k < |tiles| && tiles[k].off == mem
      ensures free == (RunEnd(tiles, k) == k + 2)
      ensures nmem == tiles[k].next
    {
      WalkAt(words, tiles, memSize + HEADER, pool, k);
      nmem := Load(mem + 4);
      var nextUsed := IsUsed(nmem, k + 1);
      free := mem != nmem && !nextUsed && nmem != memSize + HEADER;
    }

    /** The block before the one at mem, and whether it is a free block to join. */
    method FreePredecessor(mem: nat, ghost k: nat) returns (pmem: nat, free: bool)
      requires Layout() && k < |tiles| && tiles[k].off == mem
      ensures free == (RunStart(tiles, k) < k)
      ensures free ==> pmem == tiles[k - 1].off
    {
      ghost var j := if k == 0 then 0 else k - 1;
      WalkAt(words, tiles, memSize + HEADER, pool, k);
      WalkAt(words, tiles, memSize + HEADER, pool, j);
      pmem := Load(mem + 8);
      var prevUsed := IsUsed(pmem, j);
      free := pmem != mem && !prevUsed;
    }

    /** plug_holes, first half: the free block at mem takes in a free successor. */
    method PlugForward(mem: nat, ghost k: nat)
      requires Layout() && k < |tiles| && tiles[k].off == mem && !tiles[k].used
      requires lfree == LowestFree(tiles, memSize + HEADER)
      modifies `words, `tiles, `lfree, heap
      ensures Layout()
      ensures tiles == JoinRight(old(tiles), k)
      ensures lfree == LowestFree(tiles, memSize + HEADER)
      ensures RightOnly(old(heap[..]), heap[..], old(tiles), k)
    {
      var nmem, free := FreeSuccessor(mem, k);
      if free {
        IsTiled();
        JoinLowest(tiles, memSize + HEADER, k);
        lfree := Redirect(lfree, nmem, mem);
        Join(mem, nmem, k);
      }
    }

    /** plug_holes, second half: a free predecessor takes in the free block at mem. */
    method PlugBackward(mem: nat, ghost k: nat)
      requires Layout() && k < |tiles| && tiles[k].off == mem && !tiles[k].used
      requires lfree == LowestFree(tiles, memSize + HEADER)
      modifies `words, `tiles, `lfree, heap
      ensures Layout()
      ensures tiles == JoinLeft(old(tiles), k)
      ensures lfree == LowestFree(tiles, memSize + HEADER)
      ensures LeftOnly(old(heap[..]), heap[..], old(tiles), k)
    {
      var pmem, free := FreePredecessor(mem, k);
      if free {
        IsTiled();
        JoinLowest(tiles, memSize + HEADER, k - 1);
        lfree := Redirect(lfree, mem, pmem);
        Join(pmem, mem, k - 1);
      }
    }

    /** plug_holes: joins the free block at mem with a free successor, then with a free predecessor. */
    method PlugHoles(mem: nat, ghost k: nat)
      requires Layout() && k < |tiles| && tiles[k].off == mem && !tiles[k].used
      requires lfree == LowestFree(tiles, memSize + HEADER)
      modifies `words, `tiles, `lfree, heap
      ensures Layout()
      ensures tiles == FreeAt(old(tiles), k)
      ensures lfree == LowestFree(tiles, memSize + HEADER)
      ensures RunOnly(old(heap[..]), heap[..], old(tiles), k)
    {
      ghost var m, ts := heap[..], tiles;
      IsTiled();
      JoinRightShape(ts, k);
      PlugForward(mem, k);
      ghost var m1 := heap[..];
      PlugBackward(mem, k);
      JoinedOnly(m, m1, heap[..], ts, k, mem);
      JoinBoth(ts, k);
    }

    /** Marks the block at p used or free. */
    method Mark(p: nat, b: bool, ghost k: nat)
      requires Layout() && k < |tiles| && tiles[k].off == p
      modifies `words, `tiles, heap
      ensures Layout()
      ensures tiles == MarkTiles(old(tiles), k, b)
      ensures BytesOutside(old(heap[..]), heap[..], p, p + 4, p)
    {
      ghost var w := words;
      WalkAt(w, tiles, memSize + HEADER, pool, k);
      Store(p, Tag(pool, b));
      MarkWalk(w, words, tiles, memSize + HEADER, pool, k, b);
      tiles := MarkTiles(tiles, k, b);
    }

    /** Splits the block at p: a free block with its own header starts at `cut`. */
    method SplitBlock(p: nat, cut: nat, ghost k: nat)
      requires Layout() && k < |tiles| && tiles[k].off == p
      requires p + HEADER <= cut && cut + HEADER <= tiles[k].next
      modifies `words, `tiles, heap
      ensures Layout()
      ensures tiles == SplitTiles(old(tiles), k, cut)
      ensures BytesOutside(old(heap[..]), heap[..], p, old(tiles)[k].next, old(tiles)[k].next + 8)
      ensures Kept(old(heap[..]), heap[..], p + HEADER, cut)
    {
      ghost var w, ts, e := words, tiles, memSize + HEADER;
      WalkAt(w, ts, e, pool, k);
      var next := Load(p + 4);
      ghost var w3, w4 := SplitWrites(p, cut, next);
      SplitWalk(w, w3, w4, words, ts, e, pool, k, cut);
      tiles := SplitTiles(ts, k, cut);
    }

    method SplitWrites(p: nat, cut: nat, next: nat) returns (ghost w3: Words, ghost w4: Words)
      requires Represents(heap[..], words)
      requires p + HEADER <= cut && cut + HEADER <= next <= memSize + HEADER
      requires heap.Length == memSize + 2 * HEADER < WORD_LIMIT && pool + 1 < WORD_LIMIT
      modifies `words, heap
      ensures Represents(heap[..], words)
      ensures Confined(old(words), w3, cut, cut + HEADER)
      ensures Holds(w3, cut, pool) && Holds(w3, cut + 4, next) && Holds(w3, cut + 8, p)
      ensures Stored(w3, w4, p + 4, cut)
      ensures if next != memSize + HEADER then Stored(w4, words, next + 8, cut) else words == w4
      ensures forall i :: 0 <= i < heap.Length && !(cut <= i < cut + HEADER) && !(p + 4 <= i < p + 8) && !(next + 8 <= i < next + 12)
                ==> heap[i] == old(heap[i])
    {
      WriteHeader(cut, pool, next, p);
      w3 := words;
      Store(p + 4, cut);
      w4 := words;
      if next != memSize + HEADER {
        Store(next + 8, cut);
      }
    }

    method LowerLfree(p: nat)
      modifies `lfree
      ensures lfree == if p < old(lfree) then p else old(lfree)
    {
      if p < lfree {
        lfree := p;
      }
    }

    /** The part of rt_smem_free before plug_holes: marks the block free; `freed` comes off the account. */
    method Release(mem: nat, ghost k: nat) returns (freed: nat)
      requires Layout() && k < |tiles| && tiles[k].off == mem
      requires lfree == LowestFree(tiles, memSize + HEADER)
      modifies `words, `tiles, `lfree, heap
      ensures Layout()
      ensures tiles == MarkTiles(old(tiles), k, false)
      ensures lfree == LowestFree(tiles, memSize + HEADER)
      ensures freed == old(tiles)[k].Size()
      ensures BytesOutside(old(heap[..]), heap[..], mem, mem + 4, mem)
    {
      IsTiled();
      MarkLowest(tiles, memSize + HEADER, k);
      Mark(mem, false, k);
      LowerLfree(mem);
      var next := NextOf(mem, k);
      freed := next - mem;
    }

    /** rt_smem_free on the block at mem. */
    method FreeBlock(mem: nat, ghost k: nat) returns (freed: nat)
      requires Sound() && k < |tiles| && tiles[k].off == mem && tiles[k].used
      modifies `words, `tiles, `lfree, heap
      ensures Sound()
      ensures tiles == FreeAt(old(tiles), k)
      ensures InUse(tiles) == InUse(old(tiles)) - freed
      ensures OthersIntact(old(heap[..]), heap[..], old(tiles), mem)
    {
      ghost var m, ts := heap[..], tiles;
      IsTiled();
      FreeCorrect(ts, memSize + HEADER, k);
      freed := Release(mem, k);
      ghost var m1 := heap[..];
      PlugHoles(mem, k);
      IntactFree(m, m1, heap[..], ts, memSize + HEADER, k, mem);
    }

    /** The part of rt_smem_alloc that turns the fitting free block at ptr into a used one. */
    method CarveBlock(ptr: nat, size: nat, ghost k: nat) returns (taken: nat)
      requires Layout() && k < |tiles| && tiles[k].off == ptr && tiles[k].Fits(size)
      modifies `words, `tiles, heap
      ensures Layout()
      ensures tiles == Replace(old(tiles), k, k + 1, Carve(old(tiles)[k], size))
      ensures taken == Carve(old(tiles)[k], size)[0].Size()
      ensures BytesOutside(old(heap[..]), heap[..], ptr, old(tiles)[k].next, old(tiles)[k].next + 8)
    {
      ghost var ts := tiles;
      var next := NextOf(ptr, k);
      var cut := ptr + HEADER + size;
      if next - (ptr + HEADER) >= size + HEADER + MIN_SIZE {
        SplitBlock(ptr, cut, k);
        taken := size + HEADER;
      } else {
        taken := next - ptr;
      }
      CarveBySteps(ts, k, size, cut, tiles);
      ghost var m := heap[..];
      Mark(ptr, true, k);
    }

    /** Moves lfree up to the next free block, or to heap_end. */
    method AdvanceLfree(ghost k: nat)
      requires Layout() && k < |tiles| && lfree == tiles[k].off
      requires forall i :: 0 <= i < k ==> tiles[i].used
      modifies `lfree
      ensures lfree == LowestFree(tiles, memSize + HEADER)
    {
      ghost var j := k;
      var isUsed := IsUsed(lfree, j);
      while isUsed && lfree != memSize + HEADER
        invariant j <= |tiles| && lfree == if j < |tiles| then tiles[j].off else memSize + HEADER
        invariant forall i :: 0 <= i < j ==> tiles[i].used
        invariant isUsed == (j == |tiles| || tiles[j].used)
        decreases |tiles| - j
      {
        WalkAt(words, tiles, memSize + HEADER, pool, j);
        lfree := NextOf(lfree, j);
        j := j + 1;
        isUsed := IsUsed(lfree, j);
      }
      if j < |tiles| {
        WalkAt(words, tiles, memSize + HEADER, pool, j);
      }
      FirstFreeIs(tiles, j);
    }

    /** Corrects lfree after tile k of the tiles ts has been carved up. */
    method SettleLfree(ptr: nat, ghost k: nat, ghost ts: seq<Tile>, ghost mid: seq<Tile>)
      requires Layout() && Tiled(ts, memSize + HEADER) && lfree == LowestFree(ts, memSize + HEADER)
      requires k < |ts| && !ts[k].used && ts[k].off == ptr
      requires |mid| > 0 && mid[0].used && mid[0].off == ptr && tiles == Replace(ts, k, k + 1, mid)
      modifies `lfree
      ensures lfree == LowestFree(tiles, memSize + HEADER)
    {
      LowestIs(ts, memSize + HEADER, k);
      if ptr == lfree {
        AdvanceLfree(k);
      } else {
        CarveLowest(ts, memSize + HEADER, k, mid);
      }
    }

    /** The part of rt_smem_alloc after a fitting block has been found at ptr. */
    method Take(ptr: nat, size: nat, ghost k: nat) returns (taken: nat)
      requires Layout() && k < |tiles| && tiles[k].off == ptr && tiles[k].Fits(size)
      requires lfree == LowestFree(tiles, memSize + HEADER)
      modifies `words, `tiles, `lfree, heap
      ensures Layout()
      ensures tiles == Replace(old(tiles), k, k + 1, Carve(old(tiles)[k], size))
      ensures lfree == LowestFree(tiles, memSize + HEADER)
      ensures taken == Carve(old(tiles)[k], size)[0].Size()
      ensures BytesOutside(old(heap[..]), heap[..], ptr, old(tiles)[k].next, old(tiles)[k].next + 8)
    {
      ghost var ts := tiles;
      IsTiled();
      taken := CarveBlock(ptr, size, k);
      SettleLfree(ptr, k, ts, Carve(ts[k], size));
    }

    /** The search loop of rt_smem_alloc: the lowest free block with room for size bytes, if any. */
    method Search(size: nat) returns (ptr: nat, found: bool, ghost k: nat)
      requires Layout() && lfree == LowestFree(tiles, memSize + HEADER) && size <= memSize
      ensures k == FirstFit(tiles, size)
      ensures found == (k < |tiles|)
      ensures found ==> ptr == tiles[k].off
    {
      ptr := lfree;
      k := FirstFree(tiles);
      while ptr <= memSize - size
        invariant k <= |tiles| && ptr == if k < |tiles| then tiles[k].off else memSize + HEADER
        invariant forall i :: 0 <= i < k ==> !tiles[i].Fits(size)
        decreases |tiles| - k
      {
        var isUsed := IsUsed(ptr, k);
        var next := NextOf(ptr, k);
        if !isUsed && next - (ptr + HEADER) >= size {
          found := true;
          return;
        }
        WalkAt(words, tiles, memSize + HEADER, pool, k);
        ptr := next;
        k := k + 1;
      }
      IsTiled();
      NoFitBeyond(tiles, memSize + HEADER, size, k);
      k := FirstFit(tiles, size);
      found := false;
    }

    /** rt_smem_alloc, for a size already aligned and raised to the minimum. */
    method AllocBlock(n: nat) returns (ptr: nat, found: bool, taken: nat, ghost k: nat)
      requires Sound()
      modifies `words, `tiles, `lfree, heap
      ensures Sound()
      ensures k == FirstFit(old(tiles), n) && found == (k < |old(tiles)|)
      ensures tiles == AllocTiles(old(tiles), n)
      ensures !found ==> taken == 0 && heap[..] == old(heap[..]) && lfree == old(lfree)
      ensures found ==> ptr == old(tiles)[k].off
      ensures InUse(tiles) == InUse(old(tiles)) + taken
      ensures AllIntact(old(heap[..]), heap[..], old(tiles))
    {
      ghost var m, ts, e := heap[..], tiles, memSize + HEADER;
      ptr, taken, found, k := 0, 0, false, FirstFit(tiles, n);
      IsTiled();
      IntactUnchanged(m, ts, e);
      if n > memSize {
        NoFitBeyond(tiles, e, n, 0);
        return;
      }
      ptr, found, k := Search(n);
      if found {
        AllocCorrect(ts, e, n);
        taken := Take(ptr, n, k);
        IntactCarve(m, heap[..], ts, e, k);
      }
    }

    /** AllocBlock, with the data address as outcome. */
    method TryAlloc(n: nat) returns (r: Option<nat>, taken: nat)
      requires Sound()
      modifies `words, `tiles, `lfree, heap
      ensures Sound()
      ensures Allocated(old(tiles), tiles, r, n)
      ensures r == None ==> taken == 0 && heap[..] == old(heap[..]) && lfree == old(lfree)
      ensures InUse(tiles) == InUse(old(tiles)) + taken
      ensures AllIntact(old(heap[..]), heap[..], old(tiles))
    {
      ghost var ts := tiles;
      IsTiled();
      var ptr, found;
      ghost var k;
      ptr, found, taken, k := AllocBlock(n);
      if found {
        AllocatedAt(ts, memSize + HEADER, n, ptr);
        r := Some(ptr + HEADER);
      } else {
        AllocRefused(ts, n);
        r := None;
      }
    }

    /** rt_memcpy into the payload of tile k. */
    method Copy(dst: nat, src: nat, count: nat, ghost k: nat)
      requires Layout() && k < |tiles| && tiles[k].off + HEADER == dst && dst + count <= tiles[k].next
      requires src + count <= heap.Length
      modifies `words, heap
      ensures Layout()
      ensures Copied(old(heap[..]), heap[..], dst, src, count)
    {
      ghost var w := words;
      WalkAt(w, tiles, memSize + HEADER, pool, k);
      CopyBytes(dst, src, count);
      PayloadWalk(w, words, tiles, memSize + HEADER, pool, k, dst, dst + count);
    }

    method CopyBytes(dst: nat, src: nat, count: nat)
      requires Represents(heap[..], words)
      requires dst + count <= heap.Length && src + count <= heap.Length
      modifies `words, heap
      ensures Represents(heap[..], words) && Confined(old(words), words, dst, dst + count)
      ensures Copied(old(heap[..]), heap[..], dst, src, count)
    {
      ghost var m, w := heap[..], words;
      forall i | 0 <= i < count {
        heap[dst + i] := heap[src + i];
      }
      ghost var r := heap[..];
      words := seq(|r|, q requires 0 <= q < |r| => if q + 4 <= |r| then Word(r, q) else w[q]);
      WordsOutside(m, r, w, words, dst, dst + count);
    }

    method PutByte(p: nat, b: Byte)
      requires Represents(heap[..], words) && p < heap.Length
      modifies `words, heap
      ensures Represents(heap[..], words) && Confined(old(words), words, p, p + 1) && heap[..] == old(heap[..])[p := b]
    {
      ghost var m, w := heap[..], words;
      heap[p] := b;
      ghost var r := heap[..];
      words := seq(|r|, q requires 0 <= q < |r| => if q + 4 <= |r| then Word(r, q) else w[q]);
      WordsOutside(m, r, w, words, p, p + 1);
    }

    /** The owner of live tile k writes a byte of its payload. */
    method OwnerStores(p: nat, b: Byte, ghost k: nat)
      requires Sound() && k < |tiles| && tiles[k].off + HEADER <= p < tiles[k].next && p < heap.Length
      modifies `words, heap
      ensures Sound() && heap[..] == old(heap[..])[p := b]
    {
      ghost var w := words;
      PutByte(p, b);
      PayloadWalk(w, words, tiles, memSize + HEADER, pool, k, p, p + 1);
    }

    /** Corrects lfree after live tile k of the tiles ts has been split at `cut`. */
    method SettleSplit(cut: nat, ghost k: nat, ghost ts: seq<Tile>)
      requires Tiled(ts, memSize + HEADER) && lfree == LowestFree(ts, memSize + HEADER)
      requires k < |ts| && ts[k].used && ts[k].off <= cut < ts[k].next && tiles == SplitTiles(ts, k, cut)
      modifies `lfree
      ensures lfree == LowestFree(tiles, memSize + HEADER)
    {
      SplitLowest(ts, memSize + HEADER, k, cut);
      LowerLfree(cut);
    }

    /** The part of rt_smem_realloc that shrinks a block in place. */
    method Shrink(mem: nat, size: nat, n: nat, ghost k: nat)
      requires Layout() && lfree == LowestFree(tiles, memSize + HEADER)
      requires k < |tiles| && tiles[k].off == mem && tiles[k].used && tiles[k].Room() == size
      requires n + HEADER <= size
      modifies `words, `tiles, `lfree, heap
      ensures Layout() && lfree == LowestFree(tiles, memSize + HEADER)
      ensures tiles == ShrinkAt(old(tiles), k, n)
      ensures ShrinkOnly(old(heap[..]), heap[..], old(tiles), k, mem + HEADER + n)
    {
      ghost var m, ts := heap[..], tiles;
      var cut := mem + HEADER + n;
      IsTiled();
      SplitBlock(mem, cut, k);
      ghost var m1 := heap[..];
      SettleSplit(cut, k, ts);
      ShrinkBySteps(ts, k, n, cut, tiles);
      PlugHoles(cut, k + 1);
      ShrinkFrame(m, m1, heap[..], ts, k, cut);
    }

    /** The part of rt_smem_realloc that shrinks a block in place. */
    method ShrinkBlock(mem: nat, size: nat, n: nat, ghost k: nat)
      requires Sound() && k < |tiles| && tiles[k].off == mem && tiles[k].used && tiles[k].Room() == size
      requires n + HEADER + MIN_SIZE < size
      modifies `words, `tiles, `lfree, heap
      ensures Sound()
      ensures tiles == ShrinkAt(old(tiles), k, n)
      ensures InUse(tiles) == InUse(old(tiles)) - (size - n)
      ensures Moved(old(tiles), old(heap[..]), tiles, heap[..], mem + HEADER, n, mem, n)
    {
      ghost var m, ts, e := heap[..], tiles, memSize + HEADER;
      IsTiled();
      ShrinkCorrect(ts, e, k, n);
      Shrink(mem, size, n, k);
      ShrinkMoved(m, heap[..], ts, e, k, mem, n);
    }

    method CopyBlock(dst: nat, mem: nat, size: nat, n: nat, count: nat, ghost j: nat, ghost i: nat)
      requires Sound() && Placed(tiles, j, i, dst, mem, n, size) && count <= n && count <= size
      modifies `words, heap
      ensures Sound()
      ensures Copied(old(heap[..]), heap[..], dst, mem + HEADER, count)
    {
      WalkAt(words, tiles, memSize + HEADER, pool, i);
      Copy(dst, mem + HEADER, count, j);
    }

    /** The last part of rt_smem_realloc: copies the data to the new block at dst and releases the old one. */
    method MoveInto(dst: nat, mem: nat, size: nat, n: nat, count: nat, ghost j: nat, ghost i: nat) returns (freed: nat)
      requires Sound() && Placed(tiles, j, i, dst, mem, n, size) && count <= n && count <= size
      modifies `words, `tiles, `lfree, heap
      ensures Sound()
      ensures tiles == FreeAt(old(tiles), i)
      ensures InUse(tiles) == InUse(old(tiles)) - freed
      ensures Carried(tiles, heap[..], dst, n, old(heap[..]), mem + HEADER, count)
      ensures BystandersSafe(old(heap[..]), heap[..], old(tiles), tiles, j, mem)
    {
      ghost var m1, us, e := heap[..], tiles, memSize + HEADER;
      IsTiled();
      CopyBlock(dst, mem, size, n, count, j, i);
      ghost var m2 := heap[..];
      freed := FreeBlock(mem, i);
      MoveDone(m1, m2, heap[..], us, e, j, i, dst, mem, n, size, count);
    }

    /** The part of rt_smem_realloc that moves the data to a new block, if one is found. */
    method MoveBlock(mem: nat, size: nat, n: nat, ghost k: nat) returns (ptr: nat, found: bool, taken: nat, freed: nat)
      requires Sound() && k < |tiles| && tiles[k].off == mem && tiles[k].used && tiles[k].Room() == size
      modifies `words, `tiles, `lfree, heap
      ensures Sound()
      ensures found == (FirstFit(old(tiles), AtLeastMin(n)) < |old(tiles)|)
      ensures !found ==> tiles == old(tiles) && heap[..] == old(heap[..]) && lfree == old(lfree) && taken == freed == 0
      ensures found ==> tiles == FreeTiles(AllocTiles(old(tiles), AtLeastMin(n)), mem)
      ensures found ==> ptr == old(tiles)[FirstFit(old(tiles), AtLeastMin(n))].off + HEADER
      ensures InUse(AllocTiles(old(tiles), AtLeastMin(n))) == InUse(old(tiles)) + taken == InUse(tiles) + freed
      ensures found ==> Moved(old(tiles), old(heap[..]), tiles, heap[..], ptr, n, mem, if size < n then size else n)
    {
      ghost var m, ts, e, min := heap[..], tiles, memSize + HEADER, AtLeastMin(n);
      var count := if size < n then size else n;
      ghost var j, i;
      freed := 0;
      IsTiled();
      ptr, found, taken, j := AllocBlock(AtLeastMin(n));
      if found {
        ghost var m1, us := heap[..], tiles;
        IsTiled();
        i := MoveSetup(ts, e, min, k);
        IndexOfTile(us, e, i);
        ptr := ptr + HEADER;
        freed := MoveInto(ptr, mem, size, n, count, j, i);
        MoveComposed(m, m1, heap[..], ts, us, tiles, e, k, ptr, n, min, mem, count);
      }
    }

    /** The branches of rt_smem_realloc for a live block and an aligned size: keep, shrink in place, or move. */
    method Resize(mem: nat, n: nat, ghost k: nat) returns (r: Option<nat>, taken: nat, freed: nat)
      requires Sound() && k < |tiles| && tiles[k].off == mem && tiles[k].used
      modifies `words, `tiles, `lfree, heap
      ensures Sound()
      ensures Resized(old(tiles), old(heap[..]), tiles, heap[..], r, mem, k, n)
      ensures r == None ==> taken == freed == 0 && tiles == old(tiles) && heap[..] == old(heap[..]) && lfree == old(lfree)
      ensures InUse(old(tiles)) + taken == InUse(tiles) + freed == ReallocPeak(old(tiles), k, n)
    {
      ghost var ts, m := tiles, heap[..];
      var next := NextOf(mem, k);
      var size := next - mem - HEADER;
      taken, freed := 0, 0;
      if size == n {
        IsTiled();
        ResizedByKeeping(ts, m, memSize + HEADER, mem, k, n);
        return Some(mem + HEADER), taken, freed;
      }
      if n + HEADER + MIN_SIZE < size {
        ShrinkBlock(mem, size, n, k);
        ResizedByShrinking(ts, m, tiles, heap[..], mem, k, n);
        return Some(mem + HEADER), taken, size - n;
      }
      var ptr, found;
      ptr, found, taken, freed := MoveBlock(mem, size, n, k);
      if found {
        ResizedByMoving(ts, m, tiles, heap[..], ptr, mem, k, n, size);
        r := Some(ptr);
      } else {
        ResizeRefused(ts, m, mem, k, n);
        r := None;
      }
    }
  }

  /**
   * The prev field of heap_end is not a back link: initialisation leaves it pointing at heap_end
   * itself, not at the last block, in every heap.
   */
  method EndPrevAfterInit(memSize: nat, pool: nat) returns (h: BlockHeap, prev: nat)
    requires memSize + 2 * HEADER < WORD_LIMIT && 0 < pool && pool + 1 < WORD_LIMIT && pool % 2 == 0
    ensures h.Sound() && |h.tiles| > 0 && prev == memSize + HEADER != h.tiles[|h.tiles| - 1].off
    ensures h.heap.Length == memSize + 2 * HEADER && prev == Word(h.heap[..], memSize + HEADER + 8)
  {
    h := new BlockHeap(memSize, pool);
    prev := h.Load(memSize + HEADER + 8);
  }
}
