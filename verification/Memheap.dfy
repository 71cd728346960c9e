/**
 * memheap.c: blocks of a memory pool in a circular list by address, free blocks also in a second
 * circular list with a header of its own. Blocks are named by their offset in the pool; the fields
 * of their headers are kept one map per field.
 */
module Memheap {
  import opened LinkedRing
  import opened MemheapLayout
  import opened Machine

  datatype Pointer = Null | At(block: int)

  /** The header of the free list, which lies outside the pool. */
  const FREE_HEADER := -1

  /** The data size reserved for a request. */
  function Needed(size: nat): nat {
    var n := AlignUp(size);
    if n < MINI_ALLOC then MINI_ALLOC else n
  }

  /** The data size of the block at x. */
  function SizeOf(blocks: seq<int>, x: int): int {
    var k := Find(blocks, x);
    if k + 1 < |blocks| then blocks[k + 1] - blocks[k] - ITEM else 0
  }

  /** The first block of the free list that has room for n bytes. */
  function FirstFitting(blocks: seq<int>, frees: seq<int>, n: nat): Pointer {
    if frees == [] then Null
    else if SizeOf(blocks, frees[0]) >= n then At(frees[0])
    else FirstFitting(blocks, frees[1..], n)
  }

  lemma FindAt(s: seq<int>, k: nat)
    requires Distinct(s) && k < |s|
    ensures Find(s, s[k]) == k
  {
    assert s[k] in s;
  }

  class Memheap {
    const poolSize: nat
    var available: int
    var maxUsed: int
    var next: Links
    var prev: Links
    var nextFree: Links
    var prevFree: Links
    var used: set<int>
    ghost var blocks: seq<int>
    ghost var frees: seq<int>

    ghost predicate BlockList()
      reads `next, `prev, `blocks
    {
      Circle(next, prev, blocks)
    }

    ghost predicate FreeList()
      reads `nextFree, `prevFree, `frees
    {
      Circle(nextFree, prevFree, [FREE_HEADER] + frees)
    }

    ghost function View(): Layout
      reads `blocks, `used, `frees
    {
      Layout(blocks, used, frees)
    }

    ghost predicate Accounted()
      reads `available, `maxUsed, `blocks, `used
    {
      available == FreeBytes(blocks, used) && poolSize - available <= maxUsed
    }

    /** The lists agree, and the count is right. */
    ghost predicate Valid()
      reads this
    {
      BlockList() && FreeList() && Good(View(), poolSize - ITEM) && Accounted() && poolSize < WORD_LIMIT
    }

    /**
     * rt_memheap_init. A pool that cannot hold the headers of its first block and of the end block is
     * taken as well; its sizes and addresses wrap around.
     */
    constructor (size: nat)
      requires size < WORD_LIMIT
      ensures poolSize == AlignDown(size)
      ensures Valid() <==> poolSize >= 2 * ITEM
      ensures Valid() ==> View() == Layout([0, poolSize - ITEM], {poolSize - ITEM}, [0])
      ensures available == Wrap(poolSize - 2 * ITEM) && maxUsed == Wrap(poolSize - available)
    {
      var pool := AlignDown(size);
      poolSize := pool;
      var free := Wrap(pool - 2 * ITEM);
      available := free;
      maxUsed := Wrap(pool - free);
      var tail := Wrap(free + ITEM);
      next, prev := map[0 := tail, tail := 0], map[0 := tail, tail := 0];
      nextFree, prevFree := map[FREE_HEADER := 0, 0 := FREE_HEADER], map[FREE_HEADER := 0, 0 := FREE_HEADER];
      used := {tail};
      blocks, frees := [0, tail], [0];
      new;
      BytesOfTwo(0, tail, used);
    }

    // -------------------------------------------------------------- relinking

    /** Puts block x behind block a. */
    method LinkBehind(a: int, x: int)
      requires BlockList() && a in blocks && x !in blocks
      modifies `next, `prev, `blocks
      ensures BlockList() && blocks == Inserted(old(blocks), Find(old(blocks), a), x)
    {
      InsertAfter(next, prev, blocks, Find(blocks, a), x);
      Neighbours(next, prev, blocks, Find(blocks, a));
      prev := prev[x := a];
      next := next[x := next[a]];
      prev := prev[next[a] := x];
      next := next[a := x];
      blocks := Inserted(blocks, Find(blocks, a), x);
    }

    /** Takes block x out of the block list. */
    method Unlink(x: int)
      requires BlockList() && x in blocks && |blocks| >= 2
      modifies `next, `prev, `blocks
      ensures BlockList() && blocks == Removed(old(blocks), Find(old(blocks), x))
    {
      RemoveAt(next, prev, blocks, Find(blocks, x));
      Neighbours(next, prev, blocks, Find(blocks, x));
      prev := prev[next[x] := prev[x]];
      next := next[prev[x] := next[x]];
      blocks := Removed(blocks, Find(blocks, x));
    }

    /** Puts x at the front of the free list. */
    method InsertFree(x: int)
      requires FreeList() && x !in frees && x != FREE_HEADER
      modifies `nextFree, `prevFree, `frees
      ensures FreeList() && frees == [x] + old(frees)
    {
      ghost var ring := [FREE_HEADER] + frees;
      InsertAfter(nextFree, prevFree, ring, 0, x);
      Neighbours(nextFree, prevFree, ring, 0);
      nextFree := nextFree[x := nextFree[FREE_HEADER]];
      prevFree := prevFree[x := FREE_HEADER];
      prevFree := prevFree[nextFree[FREE_HEADER] := x];
      nextFree := nextFree[FREE_HEADER := x];
      RingInserted(frees, x);
      frees := [x] + frees;
    }

    /** Takes x out of the free list. */
    method RemoveFree(x: int)
      requires FreeList() && x in frees
      modifies `nextFree, `prevFree, `frees
      ensures FreeList() && frees == Drop(old(frees), x)
    {
      ghost var ring, k := [FREE_HEADER] + frees, Find(frees, x);
      RemoveAt(nextFree, prevFree, ring, k + 1);
      Neighbours(nextFree, prevFree, ring, k + 1);
      prevFree := prevFree[nextFree[x] := prevFree[x]];
      nextFree := nextFree[prevFree[x] := nextFree[x]];
      RemovedBehind(FREE_HEADER, frees, k);
      frees := Removed(frees, k);
    }

    // -------------------------------------------------------------- accounting

    /** Fewer bytes are available; the largest use so far is kept. Both are unsigned differences. */
    method Charge(n: int)
      modifies `available, `maxUsed
      ensures available == Wrap(old(available) - n)
      ensures maxUsed == Max(old(maxUsed), Wrap(poolSize - available))
    {
      available := Wrap(available - n);
      if Wrap(poolSize - available) > maxUsed {
        maxUsed := Wrap(poolSize - available);
      }
    }

    // -------------------------------------------------------------- allocation

    /** The walk along the free list. */
    method Search(n: nat) returns (r: Pointer, freeSize: int)
      requires BlockList() && FreeList() && Good(View(), poolSize - ITEM) && n > 0
      ensures r == FirstFitting(blocks, frees, n)
      ensures r.At? ==> r.block in frees && freeSize == SizeOf(blocks, r.block) >= n
    {
      FreeStep(nextFree, prevFree, frees, 0);
      var header := nextFree[FREE_HEADER];
      freeSize := 0;
      ghost var i := 0;
      assert frees[0..] == frees;
      while header != FREE_HEADER && freeSize < n
        invariant 0 <= i <= |frees| && header == if i < |frees| then frees[i] else FREE_HEADER
        invariant FirstFitting(blocks, frees, n) == FirstFitting(blocks, frees[i..], n)
        invariant freeSize >= n ==> i < |frees| && freeSize == SizeOf(blocks, frees[i])
        decreases |frees| - i, if freeSize < n then 1 else 0
      {
        SizeByLinks(View(), poolSize - ITEM, next, prev, header);
        freeSize := next[header] - header - ITEM;
        if freeSize < n {
          FreeStep(nextFree, prevFree, frees, i + 1);
          header := nextFree[header];
          i := i + 1;
        }
      }
      r := if freeSize >= n then At(header) else Null;
    }

    /** Splits free block x at `cut` and takes the first part. */
    method TakePart(x: int, cut: int)
      requires BlockList() && FreeList() && x in blocks && x in frees
      requires cut !in blocks && cut !in frees && cut != FREE_HEADER
      modifies `next, `prev, `blocks, `nextFree, `prevFree, `frees, `used
      ensures BlockList() && FreeList() && View() == Split(old(View()), Find(old(blocks), x), cut)
    {
      LinkBehind(x, cut);
      RemoveFree(x);
      InsertFree(cut);
      used := used + {x};
    }

    method TakeWhole(x: int)
      requires FreeList() && x in blocks && x in frees
      modifies `nextFree, `prevFree, `frees, `used
      ensures FreeList() && View() == Taken(old(View()), Find(blocks, x))
    {
      RemoveFree(x);
      used := used + {x};
    }

    /** A block is taken from free block x, which has room: all of it, or a part if the rest is worth keeping. */
    method TakeBlock(x: int, freeSize: int, n: nat)
      requires Valid() && x in frees && freeSize == SizeOf(blocks, x) >= n
      modifies `next, `prev, `blocks, `nextFree, `prevFree, `frees, `used, `available, `maxUsed
      ensures Valid() && View() == CarvedAt(old(View()), x, n)
      ensures maxUsed == Max(old(maxUsed), poolSize - available)
    {
      hide Circle, Good, Split, Taken;
      ghost var l, k := View(), Find(blocks, x);
      FreeBlockAt(l, poolSize - ITEM, x);
      if freeSize >= n + ITEM + MINI_ALLOC {
        var cut := x + ITEM + n;
        SplitGood(l, poolSize - ITEM, k, cut);
        SplitBytes(l, poolSize - ITEM, k, cut);
        CutIsNew(l, poolSize - ITEM, k, cut);
        BytesInRange(Split(l, k, cut), poolSize - ITEM);
        TakePart(x, cut);
        Charge(n + ITEM);
      } else {
        TakenGood(l, poolSize - ITEM, k);
        TakenBytes(l, poolSize - ITEM, k);
        BytesInRange(Taken(l, k), poolSize - ITEM);
        TakeWhole(x);
        Charge(freeSize);
      }
    }

    /**
     * rt_memheap_alloc. It fails exactly when no free block has the room needed, or all that is free
     * is no more than that. Otherwise a free block is handed out that has it and wastes less than
     * would make a block; of a larger one the rest is a free block behind it.
     */
    method Alloc(size: nat) returns (r: Pointer)
      requires Valid()
      modifies `next, `prev, `blocks, `nextFree, `prevFree, `frees, `used, `available, `maxUsed
      ensures Valid()
      ensures r == Choice(old(View()), old(available), Needed(size))
      ensures r.At? ==> View() == CarvedAt(old(View()), r.block, Needed(size))
      ensures r == Null ==> View() == old(View()) && available == old(available)
      ensures maxUsed == Max(old(maxUsed), poolSize - available)
      ensures r == Null <==>
                (forall x :: x in old(frees) ==> SizeOf(old(blocks), x) < Needed(size)) || Needed(size) == old(available)
      ensures r.At? ==>
                && r.block in old(frees) && r.block in used
                && (forall j :: 0 <= j < Find(old(frees), r.block) ==> SizeOf(old(blocks), old(frees)[j]) < Needed(size))
                && Needed(size) <= SizeOf(blocks, r.block) < Needed(size) + ITEM + MINI_ALLOC
      ensures r.At? && SizeOf(old(blocks), r.block) >= Needed(size) + ITEM + MINI_ALLOC ==>
                available == old(available) - Needed(size) - ITEM && r.block + ITEM + Needed(size) in frees
      ensures r.At? && SizeOf(old(blocks), r.block) < Needed(size) + ITEM + MINI_ALLOC ==>
                available == old(available) - SizeOf(old(blocks), r.block) && SizeOf(blocks, r.block) == SizeOf(old(blocks), r.block)
    {
      hide Circle, Good, CarvedAt, SizeOf, FreeBytes;
      ghost var l, tail := View(), poolSize - ITEM;
      var n := Needed(size);
      assert n > 0;
      hide Needed;
      RefusedIff(l, tail, n);
      r := Null;
      if n < available {
        var freeSize;
        r, freeSize := Search(n);
        if r.At? {
          NothingFits(blocks, frees, n);
          CarvedOut(l, tail, r.block, n);
          TakeBlock(r.block, freeSize, n);
        }
      }
    }

    // -------------------------------------------------------------- release

    /** Marks block x free and, if the block on its left is free, makes it part of that block. */
    method MergeLeft(x: int) returns (header: int)
      requires Valid() && Live(View(), poolSize - ITEM, x)
      modifies `next, `prev, `blocks, `used, `available
      ensures BlockList()
      ensures (blocks, used, header) == LeftMerged(old(View()), x)
      ensures available == FreeBytes(blocks, used)
    {
      hide Circle, Good;
      ghost var l, tail := View(), poolSize - ITEM;
      LiveLinks(l, tail, next, prev, x);
      GivenBackBytes(l, tail, Find(blocks, x));
      header := x;
      used := used - {x};
      available := available + (next[x] - x - ITEM);
      if prev[x] !in used {
        available := available + ITEM;
        header := prev[x];
        Unlink(x);
      }
    }

    /** Makes the block behind the free block `header` part of it, if that is free too. */
    method MergeRight(header: int, ghost g: Layout, ghost i: nat)
      requires BlockList() && FreeList() && GoodBut(g, poolSize - ITEM, i) && g.blocks[i] == header
      requires blocks == g.blocks && used == g.used && (frees == g.frees || [header] + frees == g.frees)
      requires available == FreeBytes(blocks, used)
      modifies `next, `prev, `blocks, `nextFree, `prevFree, `frees, `available
      ensures BlockList() && FreeList() && available == FreeBytes(blocks, used)
      ensures var h := RightMerged(g, i);
              blocks == h.blocks && used == h.used && (if old(frees) == g.frees then frees else [header] + frees) == h.frees
    {
      hide Circle, Spread, Listed, Distinct, FreeBytes;
      NextLinks(g, poolSize - ITEM, i, next, prev);
      if next[header] !in used {
        available := available + ITEM;
        var c := next[header];
        TakesNextBytes(g, poolSize - ITEM, i);
        NextInFrees(g, poolSize - ITEM, i, frees, header);
        Unlink(c);
        RemoveFree(c);
      }
    }

    /** rt_memheap_free of a live block. */
    method FreeBlock(x: int)
      requires Valid() && Live(View(), poolSize - ITEM, x)
      modifies `next, `prev, `blocks, `nextFree, `prevFree, `frees, `used, `available
      ensures Valid() && View() == FreedAt(old(View()), x)
      ensures used == old(used) - {x}
      ensures available == old(available) + SizeOf(old(blocks), x) + ITEM * (|old(blocks)| - |blocks|)
    {
      hide Circle, Good, GivenBack, FreeIndex, Freed, RightMerged, LeftMerged;
      ghost var l, k, tail := View(), Find(blocks, x), poolSize - ITEM;
      FreedInSteps(l, tail, x);
      FreedMore(l, tail, x);
      var header := MergeLeft(x);
      MergeRight(header, GivenBack(l, k), FreeIndex(l, k));
      if header == x {
        HeadIsNew(Freed(l, k), tail, x, frees);
        InsertFree(header);
      }
    }

    /** rt_memheap_free. */
    method Free(p: Pointer)
      requires Valid() && (p.At? ==> Live(View(), poolSize - ITEM, p.block))
      modifies `next, `prev, `blocks, `nextFree, `prevFree, `frees, `used, `available
      ensures Valid() && View() == if p.At? then FreedAt(old(View()), p.block) else old(View())
      ensures p.At? ==>
                && used == old(used) - {p.block}
                && available == old(available) + SizeOf(old(blocks), p.block) + ITEM * (|old(blocks)| - |blocks|)
    {
      if p.At? {
        FreeBlock(p.block);
      }
    }

    // -------------------------------------------------------------- change of size

    /** Replaces the free block c behind block x by one that begins at `cut`, further on. */
    method Reseat(x: int, c: int, cut: int, ghost k: nat)
      requires BlockList() && FreeList() && k + 1 < |blocks| && blocks[k] == x && blocks[k + 1] == c
      requires c !in used && c in frees && cut !in blocks && cut !in frees && cut != FREE_HEADER
      modifies `next, `prev, `blocks, `nextFree, `prevFree, `frees
      ensures BlockList() && FreeList() && View() == Moved(old(View()), k, cut)
    {
      hide Circle;
      BlocksDistinct(next, prev, blocks);
      FreesDistinct(nextFree, prevFree, frees);
      ReplacedByMove(blocks, k, cut);
      DropElements(frees, c);
      RemoveFree(c);
      Unlink(c);
      LinkBehind(x, cut);
      InsertFree(cut);
    }

    /**
     * Growth into the free block behind. For the few sizes where the test for it wraps around, the
     * new free block begins inside the header of block x, and the lists no longer agree.
     */
    method Grow(x: int, oldSize: int, n: nat)
      requires Valid() && Live(View(), poolSize - ITEM, x) && oldSize == SizeOf(blocks, x)
      requires n < WORD_LIMIT && GrowsInPlace(View(), x, n)
      modifies `next, `prev, `blocks, `nextFree, `prevFree, `frees, `available, `maxUsed
      ensures View() == MovedAt(old(View()), x, CutAt(x, n))
      ensures Valid() <==> TestExact(n)
      ensures available == Wrap(old(available) - (n - oldSize))
      ensures maxUsed == Max(old(maxUsed), Wrap(poolSize - available))
    {
      hide Circle, Good, Moved;
      ghost var l, k, tail := View(), Find(blocks, x), poolSize - ITEM;
      var cut := CutAt(x, n);
      LiveLinks(l, tail, next, prev, x);
      if TestExact(n) {
        GrowFits(l, tail, x, n);
        MovedGood(l, tail, k, cut);
        MovedBytes(l, tail, k, cut);
        BytesInRange(Moved(l, k, cut), tail);
      } else {
        WrappedGrowth(l, tail, x, n);
      }
      Charge(n - oldSize);
      Reseat(x, next[x], cut, k);
    }

    /** Begins a free block at `cut`, inside block x, and merges it with a free block behind. */
    method CutTail(x: int, cut: int, ghost k: nat) returns (merged: int)
      requires BlockList() && FreeList() && Good(View(), poolSize - ITEM) && k + 1 < |blocks| && blocks[k] == x && x in used
      requires x + ITEM <= cut && cut + ITEM <= blocks[k + 1]
      modifies `next, `prev, `blocks, `nextFree, `prevFree, `frees
      ensures BlockList() && FreeList() && View() == Moved(old(View()), k, cut)
      ensures merged == if old(View()).Free(k + 1) then SizeOf(old(blocks), old(blocks)[k + 1]) else 0
    {
      hide Circle, Good;
      ghost var l, tail := View(), poolSize - ITEM;
      ReplacedByMerge(l, tail, k, cut);
      LinkBehind(x, cut);
      merged := 0;
      LinksOfCut(next, prev, l.blocks, k, cut);
      if next[cut] !in used {
        var c := next[cut];
        merged := next[c] - c - ITEM;
        Unlink(c);
        RemoveFree(c);
      }
      InsertFree(cut);
    }

    /** Shrinking in place. */
    method Shrink(x: int, n: nat)
      requires Valid() && Live(View(), poolSize - ITEM, x) && n + ITEM + MINI_ALLOC < SizeOf(blocks, x)
      modifies `next, `prev, `blocks, `nextFree, `prevFree, `frees, `available
      ensures Valid() && View() == MovedAt(old(View()), x, x + ITEM + n)
    {
      hide Circle, Good, Moved;
      ghost var l, k, tail := View(), Find(blocks, x), poolSize - ITEM;
      var cut := x + ITEM + n;
      LiveLinks(l, tail, next, prev, x);
      ShrinkFits(l, tail, k, cut);
      MovedGood(l, tail, k, cut);
      MovedBytes(l, tail, k, cut);
      var merged := CutTail(x, cut, k);
      SizeOfMoved(l, tail, k, cut, next, prev);
      available := available - merged + (next[cut] - cut - ITEM);
    }

    /** Another block for the data of block x, which is then released. */
    method MoveElsewhere(x: int, n: nat) returns (r: Pointer)
      requires Valid() && Live(View(), poolSize - ITEM, x)
      modifies `next, `prev, `blocks, `nextFree, `prevFree, `frees, `used, `available, `maxUsed
      ensures Valid() && (r, View()) == Elsewhere(old(View()), old(available), x, n)
      ensures r == Null ==> available == old(available) && maxUsed == old(maxUsed)
    {
      hide Circle, Good, CarvedAt, FreedAt, Needed, SizeOf, FreeBytes;
      ghost var l, tail := View(), poolSize - ITEM;
      r := Alloc(n);
      if r.At? {
        StillLive(l, tail, r.block, Needed(n), x);
        FreeBlock(x);
      }
    }

    /**
     * rt_memheap_realloc. A live block stays where it is exactly if there is room in its place; else it
     * moves to a block that an allocation would give, and if there is none, nothing changes.
     */
    method Realloc(p: Pointer, size: nat) returns (r: Pointer)
      requires Valid() && (p.At? ==> Live(View(), poolSize - ITEM, p.block))
      modifies `next, `prev, `blocks, `nextFree, `prevFree, `frees, `used, `available, `maxUsed
      ensures (r, View()) == Reallocated(old(View()), old(available), p, size)
      ensures Valid() <==> p == Null || size == 0 || Sound(old(View()), p.block, Needed(size))
      ensures r == Null && size != 0 ==> available == old(available) && maxUsed == old(maxUsed)
      ensures r == Null && size != 0 ==> View() == old(View())
      ensures p.At? && size != 0 ==> (r == p <==> RoomInPlace(old(View()), p.block, Needed(size)))
      ensures size != 0 ==>
                (r == Null <==>
                   && (p.At? ==> !RoomInPlace(old(View()), p.block, Needed(size)))
                   && ((forall y :: y in old(frees) ==> SizeOf(old(blocks), y) < Needed(size)) || Needed(size) == old(available)))
      ensures r.At? && Valid() ==>
                r.block in used && Needed(size) <= SizeOf(blocks, r.block) <= Needed(size) + ITEM + MINI_ALLOC
      ensures r.At? && r == p && Valid() ==>
                SizeOf(blocks, r.block) == Needed(size) || (View() == old(View()) && SizeOf(blocks, r.block) > Needed(size))
      ensures r.At? && r != p ==>
                && r.block in old(frees)
                && Needed(size) <= SizeOf(blocks, r.block) < Needed(size) + ITEM + MINI_ALLOC
                && (SizeOf(old(blocks), r.block) >= Needed(size) + ITEM + MINI_ALLOC ==> r.block + ITEM + Needed(size) in frees)
    {
      hide Circle, Good, CarvedAt, FreedAt, MovedAt, Sound, Needed, SizeOf, FreeBytes, Choice, Resized, RoomInPlace;
      if size == 0 {
        Free(p);
        r := Null;
      } else {
        var n := Needed(size);
        NeededTwice(size);
        if p == Null {
          r := Alloc(n);
        } else {
          r := Resize(p.block, n);
        }
      }
    }

    /** The part of rt_memheap_realloc that has a block to work on. */
    method Resize(x: int, n: nat) returns (r: Pointer)
      requires Valid() && Live(View(), poolSize - ITEM, x) && n < WORD_LIMIT
      modifies `next, `prev, `blocks, `nextFree, `prevFree, `frees, `used, `available, `maxUsed
      ensures (r, View()) == Resized(old(View()), old(available), x, n)
      ensures Valid() <==> Sound(old(View()), x, n)
      ensures r == Null ==> available == old(available) && maxUsed == old(maxUsed)
      ensures r == Null ==> View() == old(View())
      ensures Needed(n) == n ==> Fitted(old(View()), View(), r, x, n)
    {
      hide Circle, Good, CarvedAt, FreedAt, MovedAt, Wrap, Fitted, Needed;
      ghost var l, tail := View(), poolSize - ITEM;
      if Needed(n) == n {
        ResizedOut(l, tail, x, n);
      }
      LiveLinks(View(), poolSize - ITEM, next, prev, x);
      BehindLinks(View(), poolSize - ITEM, next, prev, x, n);
      var oldSize := next[x] - x - ITEM;
      r := At(x);
      if n > oldSize {
        var c := next[x];
        if c !in used && next[c] - c - ITEM + oldSize > Wrap(n + MINI_ALLOC) {
          Grow(x, oldSize, n);
        } else {
          r := MoveElsewhere(x, n);
        }
      } else if n + ITEM + MINI_ALLOC < oldSize {
        Shrink(x, n);
      }
    }
  }

  function Elsewhere(l: Layout, available: int, x: int, n: nat): (Pointer, Layout) {
    match Choice(l, available, Needed(n))
    case Null => (Null, l)
    case At(y) => (At(y), FreedAt(CarvedAt(l, y, Needed(n)), x))
  }

  /** What rt_memheap_realloc makes of live block x and a new size of n bytes. */
  ghost function Resized(l: Layout, available: int, x: int, n: nat): (Pointer, Layout) {
    if n > SizeOf(l.blocks, x) then
      if GrowsInPlace(l, x, n) then (At(x), MovedAt(l, x, CutAt(x, n))) else Elsewhere(l, available, x, n)
    else if n + ITEM + MINI_ALLOC < SizeOf(l.blocks, x) then (At(x), MovedAt(l, x, x + ITEM + n))
    else (At(x), l)
  }

  ghost function Reallocated(l: Layout, available: int, p: Pointer, size: nat): (Pointer, Layout) {
    if size == 0 then (Null, if p.At? then FreedAt(l, p.block) else l)
    else if p.At? then Resized(l, available, p.block, Needed(size))
    else
      match Choice(l, available, Needed(Needed(size)))
      case Null => (Null, l)
      case At(y) => (At(y), CarvedAt(l, y, Needed(Needed(size))))
  }

  /** A size that has been aligned and raised to the minimum once stays as it is. */
  lemma NeededTwice(size: nat)
    ensures Needed(Needed(size)) == Needed(size) < WORD_LIMIT && Needed(size) % 4 == 0
  {
    Aligns(size);
    Aligns(Needed(size));
  }

  /** The block reserved is at least as large as asked for, except for the sizes whose alignment wraps around. */
  lemma NeededRoomIff(size: nat)
    requires size < WORD_LIMIT
    ensures Needed(size) >= size <==> size <= WORD_LIMIT - 4
  {
    hide AlignUp;
    AlignsUpIff(size);
    if size > WORD_LIMIT - 4 {
      WrapsToZero(size);
    }
  }

  /** What is reserved is the least aligned size that is large enough and no smaller than the smallest block. */
  lemma LeastNeeded(size: nat, m: nat)
    requires size <= WORD_LIMIT - 4
    ensures Needed(size) % 4 == 0 && Needed(size) >= size && Needed(size) >= MINI_ALLOC
    ensures m % 4 == 0 && m >= size && m >= MINI_ALLOC ==> Needed(size) <= m
  {
    hide AlignUp;
    Aligns(size);
    AlignsUpIff(size);
    if m % 4 == 0 && m >= size {
      LeastAbove(size, AlignUp(size), m);
    }
  }

  lemma LeastAbove(size: nat, aligned: nat, m: nat)
    requires aligned % 4 == 0 && size <= aligned < size + 4 && m % 4 == 0 && m >= size
    ensures aligned <= m
  {}

  lemma WrapsToZero(size: nat)
    requires WORD_LIMIT - 4 < size < WORD_LIMIT
    ensures AlignUp(size) == 0
  {}

  /** Allocation leaves live blocks alone. */
  lemma StillLive(l: Layout, tail: int, y: int, n: nat, x: int)
    requires Good(l, tail) && Live(l, tail, x)
    ensures Live(CarvedAt(l, y, n), tail, x)
  {
    var k := Find(l.blocks, y);
    if k + 1 < |l.blocks| {
      InsertedElements(l.blocks, k, l.blocks[k] + ITEM + n, x);
    }
  }

  lemma BehindLinks(l: Layout, tail: int, next: Links, prev: Links, x: int, n: nat)
    requires Good(l, tail) && Circle(next, prev, l.blocks) && Live(l, tail, x) && x in next
    ensures next[x] - x - ITEM == SizeOf(l.blocks, x) && next[x] in next
    ensures next[x] !in l.used && n > SizeOf(l.blocks, x) ==>
              (next[next[x]] - next[x] - ITEM + SizeOf(l.blocks, x) > Wrap(n + MINI_ALLOC) <==> GrowsInPlace(l, x, n))
    ensures next[x] in l.used ==> !GrowsInPlace(l, x, n)
  {
    var k := Find(l.blocks, x);
    LiveIndex(l, tail, x);
    Neighbours(next, prev, l.blocks, k);
    Neighbours(next, prev, l.blocks, k + 1);
  }

  lemma MergedIsMoved(blocks: seq<int>, k: nat, cut: int)
    requires k + 1 < |blocks|
    ensures Removed(Inserted(blocks, k, cut), k + 2) == blocks[k + 1 := cut]
  {}

  lemma FindBehindCut(blocks: seq<int>, tail: int, k: nat, cut: int)
    requires Spread(blocks, tail) && k + 1 < |blocks| && blocks[k] + ITEM <= cut && cut + ITEM <= blocks[k + 1]
    ensures var r := Inserted(blocks, k, cut); blocks[k + 1] in r && Find(r, blocks[k + 1]) == k + 2
  {
    var r := Inserted(blocks, k, cut);
    InsertSpread(blocks, tail, k, cut);
    SpreadDistinct(r, tail);
    assert r[k + 2] == blocks[k + 1];
    FindAt(r, k + 2);
  }

  lemma FreeBehind(l: Layout, tail: int, k: nat, cut: int)
    requires Good(l, tail) && k + 1 < |l.blocks| && l.Free(k + 1) && cut !in l.frees
    ensures k + 2 < |l.blocks| && l.blocks[k + 1] in l.frees && cut !in Drop(l.frees, l.blocks[k + 1])
    ensures SizeOf(l.blocks, l.blocks[k + 1]) == l.blocks[k + 2] - l.blocks[k + 1] - ITEM
  {
    SpreadDistinct(l.blocks, tail);
    FindAt(l.blocks, k + 1);
    assert l.blocks[k + 1] in l.blocks;
    DropElements(l.frees, l.blocks[k + 1]);
  }

  /** What shrinking finds and leaves, block by block. */
  lemma ReplacedByMerge(l: Layout, tail: int, k: nat, cut: int)
    requires Good(l, tail) && k + 1 < |l.blocks| && l.blocks[k] + ITEM <= cut && cut + ITEM <= l.blocks[k + 1]
    ensures Find(l.blocks, l.blocks[k]) == k && cut !in l.blocks && cut !in l.frees && cut > 0
    ensures l.Free(k + 1) ==>
              var r, c := Inserted(l.blocks, k, cut), l.blocks[k + 1];
              && k + 2 < |l.blocks| && c in l.frees && cut !in Drop(l.frees, c) && c in r && Find(r, c) == k + 2
              && Removed(r, k + 2) == l.blocks[k + 1 := cut] && SizeOf(l.blocks, c) == l.blocks[k + 2] - c - ITEM
  {
    hide Listed, Apart;
    SpreadDistinct(l.blocks, tail);
    FindAt(l.blocks, k);
    CutIsNew(l, tail, k, cut);
    if l.Free(k + 1) {
      FindBehindCut(l.blocks, tail, k, cut);
      FreeBehind(l, tail, k, cut);
      MergedIsMoved(l.blocks, k, cut);
    }
  }

  /** After the cut is linked in: the block behind it, and the block behind that. */
  lemma LinksOfCut(next: Links, prev: Links, blocks: seq<int>, k: nat, cut: int)
    requires k + 1 < |blocks| && Circle(next, prev, Inserted(blocks, k, cut))
    ensures cut in next && next[cut] == blocks[k + 1]
    ensures k + 2 < |blocks| ==> blocks[k + 1] in next && next[blocks[k + 1]] == blocks[k + 2]
  {
    Neighbours(next, prev, Inserted(blocks, k, cut), k + 1);
    Neighbours(next, prev, Inserted(blocks, k, cut), k + 2);
  }

  lemma ShrinkFits(l: Layout, tail: int, k: nat, cut: int)
    requires Good(l, tail) && k + 1 < |l.blocks| && l.blocks[k] + ITEM <= cut && cut + ITEM <= l.blocks[k + 1]
    ensures MoveFits(l, k, cut)
  {
    if l.Free(k + 1) {
      assert l.blocks[k + 1] + ITEM <= l.blocks[k + 2];
    }
  }

  /** The size, read from the links, of the free block that begins at the moved boundary. */
  lemma SizeOfMoved(l: Layout, tail: int, k: nat, cut: int, next: Links, prev: Links)
    requires Good(l, tail) && MoveFits(l, k, cut) && Circle(next, prev, Moved(l, k, cut).blocks)
    ensures cut in next
    ensures next[cut] - cut - ITEM - (if l.Free(k + 1) then SizeOf(l.blocks, l.blocks[k + 1]) else 0) ==
            if l.Free(k + 1) then l.blocks[k + 1] - cut else l.blocks[k + 1] - cut - ITEM
  {
    Neighbours(next, prev, Moved(l, k, cut).blocks, k + 1);
    SpreadDistinct(l.blocks, tail);
    FindAt(l.blocks, k + 1);
  }

  /**
   * The test for growing block x into a free block behind it: the two together are larger than the
   * request and the smallest block. The sum on the right is a 32-bit number.
   */
  ghost predicate GrowsInPlace(l: Layout, x: int, n: nat) {
    var k := Find(l.blocks, x);
    && k + 2 < |l.blocks| && l.Free(k + 1)
    && n > SizeOf(l.blocks, x) && l.Size(k + 1) + SizeOf(l.blocks, x) > Wrap(n + MINI_ALLOC)
  }

  /** The sum in that test does not wrap around. */
  predicate TestExact(n: nat) {
    n + MINI_ALLOC < WORD_LIMIT
  }

  /** Where a block of n bytes at x ends. The address wraps around for sizes next to 2^32, and falls back into the header of x. */
  function CutAt(x: int, n: nat): int {
    if TestExact(n) then x + ITEM + n else x + ITEM + n - WORD_LIMIT
  }

  /** A size that rt_memheap_realloc handles soundly: growth is not decided by a sum that wrapped around. */
  ghost predicate Sound(l: Layout, x: int, n: nat) {
    TestExact(n) || !GrowsInPlace(l, x, n)
  }

  /** The layout with the end of block x moved to `cut`. */
  function MovedAt(l: Layout, x: int, cut: int): Layout {
    var k := Find(l.blocks, x);
    if k + 1 < |l.blocks| then Moved(l, k, cut) else l
  }

  /** Growth decided by a sum that wrapped around: the links can be written, but the blocks overlap. */
  lemma WrappedGrowth(l: Layout, tail: int, x: int, n: nat)
    requires Good(l, tail) && Live(l, tail, x) && GrowsInPlace(l, x, n) && !TestExact(n) && n < WORD_LIMIT
    ensures var k, cut := Find(l.blocks, x), CutAt(x, n);
            && k + 1 < |l.blocks| && l.blocks[k] == x && l.blocks[k + 1] in l.frees && x < cut < x + ITEM
            && cut !in l.blocks && cut !in l.frees && cut != FREE_HEADER && !Good(Moved(l, k, cut), tail)
  {
    hide Wrap;
    var k, cut := Find(l.blocks, x), CutAt(x, n);
    LiveIndex(l, tail, x);
    assert l.blocks[k + 1] in l.blocks;
    CutBetween(l, tail, k, cut);
    assert Moved(l, k, cut).blocks[k] == x && Moved(l, k, cut).blocks[k + 1] == cut;
  }

  lemma BlocksDistinct(next: Links, prev: Links, s: seq<int>)
    requires Circle(next, prev, s)
    ensures Distinct(s)
  {}

  lemma FreesDistinct(nextFree: Links, prevFree: Links, frees: seq<int>)
    requires Circle(nextFree, prevFree, [FREE_HEADER] + frees)
    ensures Distinct(frees)
  {
    var ring := [FREE_HEADER] + frees;
    assert forall i :: 0 <= i < |frees| ==> ring[i + 1] == frees[i];
  }

  lemma ReplacedByMove(blocks: seq<int>, k: nat, cut: int)
    requires Distinct(blocks) && k + 1 < |blocks| && cut !in blocks
    ensures Find(blocks, blocks[k + 1]) == k + 1
    ensures var r := Removed(blocks, k + 1);
            blocks[k] in r && cut !in r && Find(r, blocks[k]) == k && Inserted(r, k, cut) == blocks[k + 1 := cut]
  {
    var r := Removed(blocks, k + 1);
    FindAt(blocks, k + 1);
    assert r[k] == blocks[k];
    FindAt(r, k);
    RemovedElements(blocks, k + 1, cut);
  }

  lemma GrowFits(l: Layout, tail: int, x: int, n: nat)
    requires Good(l, tail) && Live(l, tail, x) && GrowsInPlace(l, x, n) && TestExact(n)
    ensures var k, cut := Find(l.blocks, x), CutAt(x, n);
            && MoveFits(l, k, cut) && l.blocks[k] == x && l.blocks[k + 1] in l.frees
            && cut !in l.blocks && cut !in l.frees && cut != FREE_HEADER
  {
    hide Wrap;
    var k, cut := Find(l.blocks, x), CutAt(x, n);
    SizesNonNegative(l, tail, k);
    assert l.blocks[k + 1] in l.blocks;
    CutBetween(l, tail, k + 1, cut);
  }

  /** An address inside a block, behind its start, is not the start of a block. */
  lemma CutBetween(l: Layout, tail: int, k: nat, cut: int)
    requires Good(l, tail) && k + 1 < |l.blocks| && l.blocks[k] < cut < l.blocks[k + 1]
    ensures cut !in l.blocks && cut !in l.frees && cut > 0
  {
    forall i | 0 <= i < |l.blocks| ensures l.blocks[i] != cut {
      assert i < k ==> l.blocks[i] + ITEM <= l.blocks[k];
      assert i > k + 1 ==> l.blocks[k + 1] + ITEM <= l.blocks[i];
    }
  }

  ghost predicate Live(l: Layout, tail: int, x: int) {
    x in l.blocks && x in l.used && x != tail
  }

  /** The blocks, marks and free block after the first part of a release. */
  function LeftMerged(l: Layout, x: int): (seq<int>, set<int>, int) {
    var k := Find(l.blocks, x);
    if k < |l.blocks| then
      (GivenBack(l, k).blocks, GivenBack(l, k).used, if k > 0 && l.Free(k - 1) then l.blocks[k - 1] else x)
    else (l.blocks, l.used, x)
  }

  function RightMerged(g: Layout, i: nat): Layout {
    if i + 1 < |g.blocks| && g.Free(i + 1) then TakesNext(g, i) else g
  }

  function FreedAt(l: Layout, x: int): Layout {
    var k := Find(l.blocks, x);
    if k + 1 < |l.blocks| then Freed(l, k) else l
  }

  lemma LiveIndex(l: Layout, tail: int, x: int)
    requires Good(l, tail) && Live(l, tail, x)
    ensures var k := Find(l.blocks, x); k + 1 < |l.blocks| && l.blocks[k] == x && !l.Free(k)
  {}

  /** What the links of a live block say: its size, and whether the block on its left is free. */
  lemma LiveLinks(l: Layout, tail: int, next: Links, prev: Links, x: int)
    requires Good(l, tail) && Circle(next, prev, l.blocks) && Live(l, tail, x)
    ensures |l.blocks| >= 2 && x in next && x in prev
    ensures var k := Find(l.blocks, x);
            && k + 1 < |l.blocks| && l.blocks[k] == x && !l.Free(k) && next[x] - x - ITEM == l.Size(k)
            && (prev[x] !in l.used - {x} <==> k > 0 && l.Free(k - 1)) && (k > 0 ==> prev[x] == l.blocks[k - 1])
  {
    Neighbours(next, prev, l.blocks, Find(l.blocks, x));
    SpreadDistinct(l.blocks, tail);
  }

  lemma NextLinks(g: Layout, tail: int, i: nat, next: Links, prev: Links)
    requires GoodBut(g, tail, i) && Circle(next, prev, g.blocks)
    ensures g.blocks[i] in next && next[g.blocks[i]] == g.blocks[i + 1] && |g.blocks| >= 2
    ensures g.Free(i + 1) ==> Find(g.blocks, g.blocks[i + 1]) == i + 1
  {
    Neighbours(next, prev, g.blocks, i);
    SpreadDistinct(g.blocks, tail);
    FindAt(g.blocks, i + 1);
  }

  lemma NextInFrees(g: Layout, tail: int, i: nat, frees: seq<int>, header: int)
    requires GoodBut(g, tail, i) && g.Free(i + 1) && header == g.blocks[i]
    requires frees == g.frees || [header] + frees == g.frees
    ensures g.blocks[i + 1] in frees
    ensures [header] + frees == g.frees ==> [header] + Drop(frees, g.blocks[i + 1]) == Drop(g.frees, g.blocks[i + 1])
  {
    var c := g.blocks[i + 1];
    SpreadDistinct(g.blocks, tail);
    assert c in g.blocks && c in g.frees && c != header;
    if [header] + frees == g.frees {
      DropBehind(header, frees, c);
    }
  }

  lemma RingInserted(frees: seq<int>, x: int)
    ensures Inserted([FREE_HEADER] + frees, 0, x) == [FREE_HEADER] + ([x] + frees)
  {}

  lemma RemovedBehind(a: int, s: seq<int>, k: nat)
    requires k < |s|
    ensures Removed([a] + s, k + 1) == [a] + Removed(s, k)
  {}

  lemma FindBehind(a: int, s: seq<int>, x: int)
    requires a != x
    ensures Find([a] + s, x) == Find(s, x) + 1
  {
    assert ([a] + s)[1..] == s;
  }

  lemma DropBehind(a: int, s: seq<int>, x: int)
    requires a != x && x in s
    ensures Drop([a] + s, x) == [a] + Drop(s, x)
  {
    FindBehind(a, s, x);
    RemovedBehind(a, s, Find(s, x));
  }

  /** A release, step by step, is what Freed says, and makes more bytes available. */
  lemma FreedInSteps(l: Layout, tail: int, x: int)
    requires Good(l, tail) && Live(l, tail, x)
    ensures var k := Find(l.blocks, x);
            && k + 1 < |l.blocks|
            && GoodBut(GivenBack(l, k), tail, FreeIndex(l, k))
            && Good(Freed(l, k), tail) && FreedAt(l, x) == Freed(l, k) == RightMerged(GivenBack(l, k), FreeIndex(l, k))
            && LeftMerged(l, x) == (GivenBack(l, k).blocks, GivenBack(l, k).used, GivenBack(l, k).blocks[FreeIndex(l, k)])
            && (if GivenBack(l, k).blocks[FreeIndex(l, k)] == x then GivenBack(l, k).frees == [x] + l.frees
                else GivenBack(l, k).frees == l.frees)
  {
    var k := Find(l.blocks, x);
    LiveIndex(l, tail, x);
    SpreadDistinct(l.blocks, tail);
    GivenBackGood(l, tail, k);
    FreedGood(l, tail, k);
  }

  lemma SizesNonNegative(l: Layout, tail: int, k: nat)
    requires Good(l, tail) && k + 1 < |l.blocks|
    ensures l.Size(k) >= 0
  {}

  /** A released block is no longer in use; its data, and the header of each block that is merged into another, become available. */
  lemma FreedMore(l: Layout, tail: int, x: int)
    requires Good(l, tail) && Live(l, tail, x)
    ensures var f := FreedAt(l, x);
            && x !in f.used && f.used == l.used - {x} && SizeOf(l.blocks, x) >= 0 && |f.blocks| <= |l.blocks|
            && FreeBytes(f.blocks, f.used) == FreeBytes(l.blocks, l.used) + SizeOf(l.blocks, x) + ITEM * (|l.blocks| - |f.blocks|)
  {
    hide Spread, Listed;
    var k := Find(l.blocks, x);
    LiveIndex(l, tail, x);
    GivenBackGood(l, tail, k);
    GivenBackBytes(l, tail, k);
    SizesNonNegative(l, tail, k);
    var g, i := GivenBack(l, k), FreeIndex(l, k);
    if g.Free(i + 1) {
      TakesNextBytes(g, tail, i);
    }
  }

  lemma HeadIsNew(l: Layout, tail: int, x: int, frees: seq<int>)
    requires Good(l, tail) && l.frees == [x] + frees
    ensures x !in frees && x != FREE_HEADER
  {
    assert l.frees[0] == x && x in l.blocks;
    var i := Find(l.blocks, x);
    assert i > 0 ==> l.blocks[0] + ITEM <= l.blocks[i];
    assert forall j :: 0 <= j < |frees| ==> frees[j] == l.frees[j + 1];
  }

  function Max(a: int, b: int): int { if a < b then b else a }

  /** Where an allocation of n bytes goes. The request has to be smaller than all that is available. */
  function Choice(l: Layout, available: int, n: nat): Pointer {
    if n < available then FirstFitting(l.blocks, l.frees, n) else Null
  }

  function CarvedAt(l: Layout, x: int, n: nat): Layout {
    var k := Find(l.blocks, x);
    if k + 1 < |l.blocks| then Carved(l, k, n) else l
  }

  lemma FreeBlockAt(l: Layout, tail: int, x: int)
    requires Good(l, tail) && x in l.frees
    ensures var k := Find(l.blocks, x); k + 1 < |l.blocks| && l.blocks[k] == x && l.Free(k) && l.Size(k) == SizeOf(l.blocks, x)
  {}

  /** A cut inside a block is not the start of any block. */
  lemma CutIsNew(l: Layout, tail: int, k: nat, cut: int)
    requires Good(l, tail) && k + 1 < |l.blocks| && l.blocks[k] + ITEM <= cut && cut + ITEM <= l.blocks[k + 1]
    ensures cut !in l.blocks && cut !in l.frees && cut > 0
  {
    InsertSpread(l.blocks, tail, k, cut);
  }

  /** From element i of the free list, counting its header as element 0, the link leads to the next one. */
  lemma FreeStep(nextFree: Links, prevFree: Links, frees: seq<int>, i: nat)
    requires Circle(nextFree, prevFree, [FREE_HEADER] + frees) && i <= |frees|
    ensures var a := if i == 0 then FREE_HEADER else frees[i - 1];
            a in nextFree && nextFree[a] == if i < |frees| then frees[i] else FREE_HEADER
  {
    Neighbours(nextFree, prevFree, [FREE_HEADER] + frees, i);
  }

  /** The size computed from the links of a free block. */
  lemma SizeByLinks(l: Layout, tail: int, next: Links, prev: Links, x: int)
    requires Good(l, tail) && Circle(next, prev, l.blocks) && x in l.frees
    ensures x in next && next[x] - x - ITEM == SizeOf(l.blocks, x)
  {
    Neighbours(next, prev, l.blocks, Find(l.blocks, x));
  }

  // ---------------------------------------------------------------- live blocks stay where they are

  /** Block y reaches up to z. */
  ghost predicate Spans(blocks: seq<int>, y: int, z: int) {
    y in blocks && Find(blocks, y) + 1 < |blocks| && blocks[Find(blocks, y) + 1] == z
  }

  lemma SpansAt(blocks: seq<int>, j: nat)
    requires Distinct(blocks) && j + 1 < |blocks|
    ensures Spans(blocks, blocks[j], blocks[j + 1])
  {
    FindAt(blocks, j);
  }

  lemma SpansInserted(bs: seq<int>, k: nat, x: int, y: int, z: int)
    requires k < |bs| && Distinct(Inserted(bs, k, x)) && Spans(bs, y, z) && y != bs[k]
    ensures Spans(Inserted(bs, k, x), y, z)
  {
    var r, j := Inserted(bs, k, x), Find(bs, y);
    var i := if j < k then j else j + 1;
    assert r[i] == y && r[i + 1] == z;
    SpansAt(r, i);
  }

  lemma SpansRemoved(bs: seq<int>, k: nat, y: int, z: int)
    requires k < |bs| && Distinct(bs) && Distinct(Removed(bs, k)) && Spans(bs, y, z) && y != bs[k] && z != bs[k]
    ensures Spans(Removed(bs, k), y, z)
  {
    var r, j := Removed(bs, k), Find(bs, y);
    var i := if j < k then j else j - 1;
    assert r[i] == y && r[i + 1] == z;
    SpansAt(r, i);
  }

  lemma SpansUpdated(bs: seq<int>, k: nat, x: int, y: int, z: int)
    requires k < |bs| && Distinct(bs[k := x]) && Spans(bs, y, z) && y != bs[k] && z != bs[k]
    ensures Spans(bs[k := x], y, z)
  {
    SpansAt(bs[k := x], Find(bs, y));
  }

  /** A live block other than those an operation is about is still there, live, and as large as before. */
  ghost predicate Stays(l: Layout, m: Layout, tail: int, y: int) {
    Live(m, tail, y) && SizeOf(m.blocks, y) == SizeOf(l.blocks, y)
  }

  lemma StaysIfSpans(l: Layout, m: Layout, tail: int, y: int, z: int)
    requires y != tail && y in m.used && Spans(l.blocks, y, z) && Spans(m.blocks, y, z)
    ensures Stays(l, m, tail, y)
  {}

  lemma LiveSpans(l: Layout, tail: int, y: int) returns (z: int)
    requires Good(l, tail) && Live(l, tail, y)
    ensures Spans(l.blocks, y, z)
  {
    LiveIndex(l, tail, y);
    z := l.blocks[Find(l.blocks, y) + 1];
  }

  lemma GoodSpread(l: Layout, tail: int)
    requires Good(l, tail)
    ensures Spread(l.blocks, tail)
  {}

  lemma CarvedStays(l: Layout, tail: int, x: int, n: nat, y: int)
    requires Good(l, tail) && x in l.frees && n <= SizeOf(l.blocks, x) && Live(l, tail, y)
    ensures Stays(l, CarvedAt(l, x, n), tail, y)
  {
    hide Good, Spread, Spans, Distinct;
    var z := LiveSpans(l, tail, y);
    var k, cut := Find(l.blocks, x), x + ITEM + n;
    FreeBlockAt(l, tail, x);
    GoodSpread(l, tail);
    if l.Size(k) >= n + ITEM + MINI_ALLOC {
      InsertSpread(l.blocks, tail, k, cut);
      SpreadDistinct(Inserted(l.blocks, k, cut), tail);
      SpansInserted(l.blocks, k, cut, y, z);
    }
    StaysIfSpans(l, CarvedAt(l, x, n), tail, y, z);
  }

  lemma MovedStays(l: Layout, tail: int, x: int, cut: int, y: int)
    requires Good(l, tail) && Live(l, tail, x) && Live(l, tail, y) && x != y && MoveFits(l, Find(l.blocks, x), cut)
    ensures Stays(l, MovedAt(l, x, cut), tail, y)
  {
    hide Good, Spread, Spans, Distinct;
    var z := LiveSpans(l, tail, y);
    var k := Find(l.blocks, x);
    LiveIndex(l, tail, x);
    GoodSpread(l, tail);
    SpreadDistinct(l.blocks, tail);
    if l.Free(k + 1) {
      UpdateSpread(l.blocks, tail, k + 1, cut);
      SpreadDistinct(l.blocks[k + 1 := cut], tail);
      NotBehind(l.blocks, k, y, z);
      SpansUpdated(l.blocks, k + 1, cut, y, z);
    } else {
      InsertSpread(l.blocks, tail, k, cut);
      SpreadDistinct(Inserted(l.blocks, k, cut), tail);
      SpansInserted(l.blocks, k, cut, y, z);
    }
    StaysIfSpans(l, MovedAt(l, x, cut), tail, y, z);
  }

  /** Only block k itself reaches up to block k + 1. */
  lemma NotBehind(bs: seq<int>, k: nat, y: int, z: int)
    requires Distinct(bs) && k + 1 < |bs| && Spans(bs, y, z) && y != bs[k]
    ensures z != bs[k + 1]
  {}

  lemma GivenBackStays(l: Layout, tail: int, k: nat, y: int, z: int)
    requires Good(l, tail) && k + 1 < |l.blocks| && !l.Free(k) && y in l.used && y != l.blocks[k] && Spans(l.blocks, y, z)
    ensures y in GivenBack(l, k).used && Spans(GivenBack(l, k).blocks, y, z)
  {
    SpreadDistinct(l.blocks, tail);
    if k > 0 && l.Free(k - 1) {
      RemoveSpread(l.blocks, tail, k);
      SpreadDistinct(Removed(l.blocks, k), tail);
      NotBehind(l.blocks, k - 1, y, z);
      SpansRemoved(l.blocks, k, y, z);
    }
  }

  lemma TakesNextStays(g: Layout, tail: int, i: nat, y: int, z: int)
    requires GoodBut(g, tail, i) && g.Free(i + 1) && y in g.used && Spans(g.blocks, y, z)
    ensures y in TakesNext(g, i).used && Spans(TakesNext(g, i).blocks, y, z)
  {
    SpreadDistinct(g.blocks, tail);
    RemoveSpread(g.blocks, tail, i + 1);
    SpreadDistinct(Removed(g.blocks, i + 1), tail);
    NotBehind(g.blocks, i, y, z);
    SpansRemoved(g.blocks, i + 1, y, z);
  }

  lemma FreedStays(l: Layout, tail: int, x: int, y: int)
    requires Good(l, tail) && Live(l, tail, x) && Live(l, tail, y) && x != y
    ensures Stays(l, FreedAt(l, x), tail, y)
  {
    hide Good, Spans;
    var z := LiveSpans(l, tail, y);
    var k := Find(l.blocks, x);
    LiveIndex(l, tail, x);
    GivenBackGood(l, tail, k);
    GivenBackStays(l, tail, k, y, z);
    var g, i := GivenBack(l, k), FreeIndex(l, k);
    if g.Free(i + 1) {
      TakesNextStays(g, tail, i, y, z);
    }
    StaysIfSpans(l, FreedAt(l, x), tail, y, z);
  }

  /** Reallocating a block leaves every other live block where it is, and as large as it is. */
  lemma ResizedStays(l: Layout, tail: int, x: int, n: nat, y: int)
    requires Good(l, tail) && Live(l, tail, x) && Live(l, tail, y) && x != y && n > 0 && Sound(l, x, n)
    ensures Stays(l, Resized(l, FreeBytes(l.blocks, l.used), x, n).1, tail, y)
  {
    hide Good, MovedAt, FreedAt, CarvedAt, MoveFits, Wrap;
    if n > SizeOf(l.blocks, x) {
      if GrowsInPlace(l, x, n) {
        GrowFits(l, tail, x, n);
        MovedStays(l, tail, x, CutAt(x, n), y);
      } else {
        ElsewhereStays(l, tail, x, n, y);
      }
    } else if n + ITEM + MINI_ALLOC < SizeOf(l.blocks, x) {
      LiveIndex(l, tail, x);
      ShrinkFits(l, tail, Find(l.blocks, x), x + ITEM + n);
      MovedStays(l, tail, x, x + ITEM + n, y);
    }
  }

  lemma ElsewhereStays(l: Layout, tail: int, x: int, n: nat, y: int)
    requires Good(l, tail) && Live(l, tail, x) && Live(l, tail, y) && x != y
    ensures Stays(l, Elsewhere(l, FreeBytes(l.blocks, l.used), x, n).1, tail, y)
  {
    hide Good, FreedAt, CarvedAt;
    var need := Needed(n);
    var r := Choice(l, FreeBytes(l.blocks, l.used), need);
    if r.At? {
      NothingFits(l.blocks, l.frees, need);
      var c := CarvedAt(l, r.block, need);
      CarvedStays(l, tail, r.block, need, x);
      CarvedStays(l, tail, r.block, need, y);
      CarvedAtGood(l, tail, r.block, need);
      FreedStays(c, tail, x, y);
    }
  }

  lemma CarvedAtGood(l: Layout, tail: int, x: int, n: nat)
    requires Good(l, tail) && x in l.frees && n <= SizeOf(l.blocks, x)
    ensures Good(CarvedAt(l, x, n), tail)
  {
    hide Good, Split, Taken;
    FreeBlockAt(l, tail, x);
    var k := Find(l.blocks, x);
    if l.Size(k) >= n + ITEM + MINI_ALLOC {
      SplitGood(l, tail, k, x + ITEM + n);
    } else {
      TakenGood(l, tail, k);
    }
  }

  // ---------------------------------------------------------------- how much is handed out

  /** The size of block k. */
  lemma SizeAt(blocks: seq<int>, k: nat)
    requires Distinct(blocks) && k + 1 < |blocks|
    ensures SizeOf(blocks, blocks[k]) == blocks[k + 1] - blocks[k] - ITEM
  {
    FindAt(blocks, k);
  }

  /**
   * The block handed out has the n bytes asked for and wastes less than would make another block.
   * If the free block it comes from has n bytes and as many more, the rest is a free block behind it,
   * and n bytes and a header are no longer available.
   */
  lemma CarvedOut(l: Layout, tail: int, x: int, n: nat)
    requires Good(l, tail) && x in l.frees && n <= SizeOf(l.blocks, x)
    ensures var c, whole := CarvedAt(l, x, n), SizeOf(l.blocks, x);
            && x in c.used && n <= SizeOf(c.blocks, x) < n + ITEM + MINI_ALLOC
            && (if whole >= n + ITEM + MINI_ALLOC then
                  && SizeOf(c.blocks, x) == n && x + ITEM + n in c.frees && Spans(c.blocks, x, x + ITEM + n)
                  && FreeBytes(c.blocks, c.used) == FreeBytes(l.blocks, l.used) - n - ITEM
                else
                  SizeOf(c.blocks, x) == whole && FreeBytes(c.blocks, c.used) == FreeBytes(l.blocks, l.used) - whole)
  {
    hide Good, FreeBytes, Distinct, Split, Taken, Spans;
    FreeBlockAt(l, tail, x);
    var k, cut := Find(l.blocks, x), x + ITEM + n;
    if l.Size(k) >= n + ITEM + MINI_ALLOC {
      SplitOut(l, tail, k, n, cut);
    } else {
      TakenBytes(l, tail, k);
      TakenIs(l, k);
    }
  }

  lemma TakenIs(l: Layout, k: nat)
    requires k < |l.blocks|
    ensures Taken(l, k).blocks == l.blocks && l.blocks[k] in Taken(l, k).used
  {}

  lemma SplitOut(l: Layout, tail: int, k: nat, n: nat, cut: int)
    requires Good(l, tail) && k + 1 < |l.blocks| && l.Free(k)
    requires cut == l.blocks[k] + ITEM + n && l.Size(k) >= n + ITEM + MINI_ALLOC
    ensures var c, x := Split(l, k, cut), l.blocks[k];
            && x in c.used && cut in c.frees && SizeOf(c.blocks, x) == n && Spans(c.blocks, x, cut)
            && FreeBytes(c.blocks, c.used) == FreeBytes(l.blocks, l.used) - n - ITEM
  {
    hide Good, FreeBytes, Distinct, Spans, SizeOf;
    var bs := Inserted(l.blocks, k, cut);
    SplitBytes(l, tail, k, cut);
    GoodSpread(l, tail);
    InsertSpread(l.blocks, tail, k, cut);
    SpreadDistinct(bs, tail);
    InsertedPair(l.blocks, k, cut);
    SizeAt(bs, k);
    SpansAt(bs, k);
  }

  lemma InsertedPair(blocks: seq<int>, k: nat, cut: int)
    requires k < |blocks|
    ensures var bs := Inserted(blocks, k, cut); k + 1 < |bs| && bs[k] == blocks[k] && bs[k + 1] == cut
  {}

  /** A release leaves a free block alone that lies behind another live block. */
  lemma FreedKeepsFree(l: Layout, tail: int, x: int, a: int, b: int)
    requires Good(l, tail) && Live(l, tail, x) && a in l.used && a != x && Spans(l.blocks, a, b) && b in l.frees
    ensures b in FreedAt(l, x).frees
  {
    hide Good, Spans;
    var k := Find(l.blocks, x);
    LiveIndex(l, tail, x);
    GivenBackGood(l, tail, k);
    GivenBackStays(l, tail, k, a, b);
    var g, i := GivenBack(l, k), FreeIndex(l, k);
    assert b in g.frees;
    if g.Free(i + 1) {
      SpreadDistinct(g.blocks, tail);
      NotBehind(g.blocks, i, a, b);
      DropElements(g.frees, g.blocks[i + 1]);
    }
  }

  /** What is reserved when a block is moved elsewhere. */
  lemma MovedOut(l: Layout, tail: int, x: int, y: int, n: nat)
    requires Good(l, tail) && Live(l, tail, x) && y in l.frees && n <= SizeOf(l.blocks, y)
    ensures var f := FreedAt(CarvedAt(l, y, n), x);
            && x != y && y in f.used && n <= SizeOf(f.blocks, y) < n + ITEM + MINI_ALLOC
            && (SizeOf(l.blocks, y) >= n + ITEM + MINI_ALLOC ==> y + ITEM + n in f.frees)
  {
    hide Good, CarvedAt, FreedAt, Spans, FreeBytes, SizeOf;
    var c := CarvedAt(l, y, n);
    CarvedOut(l, tail, y, n);
    CarvedAtGood(l, tail, y, n);
    StillLive(l, tail, y, n, x);
    FreeIsNotLive(l, tail, x, y);
    CarvedIsLive(l, tail, y, n);
    FreedStays(c, tail, x, y);
    if SizeOf(l.blocks, y) >= n + ITEM + MINI_ALLOC {
      FreedKeepsFree(c, tail, x, y, y + ITEM + n);
    }
  }

  lemma FreeIsNotLive(l: Layout, tail: int, x: int, y: int)
    requires Good(l, tail) && Live(l, tail, x) && y in l.frees
    ensures x != y
  {}

  lemma CarvedIsLive(l: Layout, tail: int, y: int, n: nat)
    requires Good(l, tail) && y in l.frees && n <= SizeOf(l.blocks, y)
    ensures Live(CarvedAt(l, y, n), tail, y)
  {
    FreeBlockAt(l, tail, y);
    var k := Find(l.blocks, y);
    InsertedElements(l.blocks, k, y + ITEM + n, y);
    assert l.blocks[k] in l.blocks;
  }

  /** The size of live block x once its end has been moved. */
  lemma MovedSize(l: Layout, tail: int, x: int, cut: int)
    requires Good(l, tail) && Live(l, tail, x) && MoveFits(l, Find(l.blocks, x), cut)
    ensures x in MovedAt(l, x, cut).used && SizeOf(MovedAt(l, x, cut).blocks, x) == cut - x - ITEM
  {
    hide Good;
    LiveIndex(l, tail, x);
    var k := Find(l.blocks, x);
    MovedGood(l, tail, k, cut);
    GoodSpread(Moved(l, k, cut), tail);
    SpreadDistinct(Moved(l, k, cut).blocks, tail);
    SizeAt(Moved(l, k, cut).blocks, k);
  }

  /**
   * Block x has n bytes, or is followed by a free block, and the two together have more than n and
   * the smallest block, a sum that wraps around next to 2^32.
   */
  ghost predicate RoomInPlace(l: Layout, x: int, n: nat) {
    var k := Find(l.blocks, x);
    || n <= SizeOf(l.blocks, x)
    || (k + 2 < |l.blocks| && l.blocks[k + 1] !in l.used && l.blocks[k + 2] - l.blocks[k] - 2 * ITEM > Wrap(n + MINI_ALLOC))
  }

  /**
   * What a reallocation of live block x to n bytes gives: x itself exactly if there is room in its
   * place, else a block elsewhere, else nothing. Growing and shrinking in place leave just n bytes,
   * and a block in another place wastes less than would make one, with the rest free behind it.
   */
  ghost predicate Fitted(l: Layout, m: Layout, r: Pointer, x: int, n: nat) {
    && (r == At(x) <==> RoomInPlace(l, x, n))
    && (r == Null <==>
          && !RoomInPlace(l, x, n)
          && ((forall y :: y in l.frees ==> SizeOf(l.blocks, y) < n) || n == FreeBytes(l.blocks, l.used)))
    && (r == At(x) && Sound(l, x, n) ==>
          x in m.used && (SizeOf(m.blocks, x) == n || (m == l && n < SizeOf(l.blocks, x) <= n + ITEM + MINI_ALLOC)))
    && (r.At? && r != At(x) ==>
          && r.block in l.frees && r.block in m.used
          && n <= SizeOf(m.blocks, r.block) < n + ITEM + MINI_ALLOC
          && (SizeOf(l.blocks, r.block) >= n + ITEM + MINI_ALLOC ==> r.block + ITEM + n in m.frees))
  }

  lemma ResizedOut(l: Layout, tail: int, x: int, n: nat)
    requires Good(l, tail) && Live(l, tail, x) && Needed(n) == n
    ensures var (r, m) := Resized(l, FreeBytes(l.blocks, l.used), x, n); Fitted(l, m, r, x, n)
  {
    hide Good, MovedAt, FreedAt, CarvedAt, MoveFits, Wrap, FreeBytes, SizeOf, Needed, RoomInPlace, GrowsInPlace, Choice;
    RoomInPlaceIff(l, tail, x, n);
    RefusedIff(l, tail, n);
    if n > SizeOf(l.blocks, x) {
      if GrowsInPlace(l, x, n) {
        if TestExact(n) {
          GrowFits(l, tail, x, n);
          MovedSize(l, tail, x, CutAt(x, n));
        }
      } else {
        ElsewhereOut(l, tail, x, n);
      }
    } else if n + ITEM + MINI_ALLOC < SizeOf(l.blocks, x) {
      ShrinkFitsAt(l, tail, x, n);
      MovedSize(l, tail, x, x + ITEM + n);
    }
  }

  lemma RoomInPlaceIff(l: Layout, tail: int, x: int, n: nat)
    requires Good(l, tail) && Live(l, tail, x)
    ensures RoomInPlace(l, x, n) <==> n <= SizeOf(l.blocks, x) || GrowsInPlace(l, x, n)
  {
    LiveIndex(l, tail, x);
  }

  lemma ElsewhereOut(l: Layout, tail: int, x: int, n: nat)
    requires Good(l, tail) && Live(l, tail, x) && Needed(n) == n
    ensures var (r, m) := Elsewhere(l, FreeBytes(l.blocks, l.used), x, n);
            && r == Choice(l, FreeBytes(l.blocks, l.used), n)
            && (r.At? ==>
                  && r.block != x && r.block in l.frees && r.block in m.used
                  && n <= SizeOf(m.blocks, r.block) < n + ITEM + MINI_ALLOC
                  && (SizeOf(l.blocks, r.block) >= n + ITEM + MINI_ALLOC ==> r.block + ITEM + n in m.frees))
  {
    hide Good, FreedAt, CarvedAt, FreeBytes, SizeOf, Needed;
    NothingFits(l.blocks, l.frees, n);
    var r := Choice(l, FreeBytes(l.blocks, l.used), n);
    if r.At? {
      MovedOut(l, tail, x, r.block, n);
    }
  }

  lemma ShrinkFitsAt(l: Layout, tail: int, x: int, n: nat)
    requires Good(l, tail) && Live(l, tail, x) && n + ITEM + MINI_ALLOC < SizeOf(l.blocks, x)
    ensures MoveFits(l, Find(l.blocks, x), x + ITEM + n)
  {
    LiveIndex(l, tail, x);
    ShrinkFits(l, tail, Find(l.blocks, x), x + ITEM + n);
  }

  // ---------------------------------------------------------------- refusal

  lemma {:induction false} NothingFits(blocks: seq<int>, frees: seq<int>, n: nat)
    ensures FirstFitting(blocks, frees, n) == Null <==> forall x :: x in frees ==> SizeOf(blocks, x) < n
    ensures var r := FirstFitting(blocks, frees, n);
            r.At? ==>
              && r.block in frees && n <= SizeOf(blocks, r.block)
              && forall j :: 0 <= j < Find(frees, r.block) ==> SizeOf(blocks, frees[j]) < n
  {
    if frees != [] {
      NothingFits(blocks, frees[1..], n);
      forall j | 0 < j < |frees| ensures frees[j] == frees[1..][j - 1] {
      }
      assert frees == [frees[0]] + frees[1..];
    }
  }

  /**
   * A request is refused exactly when no free block has room for it, or when it is for as many
   * bytes as are available in all: that last case is refused even if one block has just that size.
   */
  lemma RefusedIff(l: Layout, tail: int, n: nat)
    requires Good(l, tail)
    ensures Choice(l, FreeBytes(l.blocks, l.used), n) == Null <==>
            (forall x :: x in l.frees ==> SizeOf(l.blocks, x) < n) || n == FreeBytes(l.blocks, l.used)
  {
    NothingFits(l.blocks, l.frees, n);
    forall x | x in l.frees ensures SizeOf(l.blocks, x) <= FreeBytes(l.blocks, l.used) {
      FreeBlockAt(l, tail, x);
      OneOfMany(l, tail, Find(l.blocks, x));
    }
  }

  /** A heap with a single free block of 12 bytes refuses a request for 12 bytes. */
  lemma RefusesTheLastBlock()
    ensures var l := Layout([0, 36], {36}, [0]);
            Good(l, 36) && SizeOf(l.blocks, 0) == 12 && Choice(l, FreeBytes(l.blocks, l.used), Needed(12)) == Null
  {
    BytesOfTwo(0, 36, {36});
    assert Find([0, 36], 0) == 0;
  }

  // ---------------------------------------------------------------- whole runs

  datatype Call = AllocCall(size: nat) | FreeCall(p: Pointer) | ReallocCall(p: Pointer, size: nat)

  /** The layout after one call; only live blocks are passed to free and realloc. */
  ghost function After(l: Layout, tail: int, c: Call): Layout {
    var available := FreeBytes(l.blocks, l.used);
    if !c.AllocCall? && c.p.At? && !Live(l, tail, c.p.block) then l
    else match c
      case AllocCall(size) =>
        (match Choice(l, available, Needed(size)) case Null => l case At(y) => CarvedAt(l, y, Needed(size)))
      case FreeCall(p) => if p.At? then FreedAt(l, p.block) else l
      case ReallocCall(p, size) => Reallocated(l, available, p, size).1
  }

  lemma ChoiceGood(l: Layout, tail: int, available: int, n: nat)
    requires Good(l, tail)
    ensures Choice(l, available, n).At? ==> Good(CarvedAt(l, Choice(l, available, n).block, n), tail)
  {
    hide Good, CarvedAt;
    NothingFits(l.blocks, l.frees, n);
    if Choice(l, available, n).At? {
      CarvedAtGood(l, tail, Choice(l, available, n).block, n);
    }
  }

  lemma FreedAtGood(l: Layout, tail: int, x: int)
    requires Good(l, tail) && Live(l, tail, x)
    ensures Good(FreedAt(l, x), tail)
  {
    hide Good, Freed;
    LiveIndex(l, tail, x);
    FreedGood(l, tail, Find(l.blocks, x));
  }

  lemma MovedAtGood(l: Layout, tail: int, x: int, cut: int)
    requires Good(l, tail) && Live(l, tail, x) && MoveFits(l, Find(l.blocks, x), cut)
    ensures Good(MovedAt(l, x, cut), tail)
  {
    hide Good, Moved, MoveFits;
    LiveIndex(l, tail, x);
    MovedGood(l, tail, Find(l.blocks, x), cut);
  }

  lemma ElsewhereGood(l: Layout, tail: int, available: int, x: int, n: nat)
    requires Good(l, tail) && Live(l, tail, x)
    ensures Good(Elsewhere(l, available, x, n).1, tail)
  {
    hide Good, CarvedAt, FreedAt;
    ChoiceGood(l, tail, available, Needed(n));
    var r := Choice(l, available, Needed(n));
    if r.At? {
      StillLive(l, tail, r.block, Needed(n), x);
      FreedAtGood(CarvedAt(l, r.block, Needed(n)), tail, x);
    }
  }

  /** Reallocating a live block keeps the lists in agreement exactly when no wrapped sum decides that it grows. */
  lemma ResizedGoodIff(l: Layout, tail: int, available: int, x: int, n: nat)
    requires Good(l, tail) && Live(l, tail, x) && n < WORD_LIMIT
    ensures Good(Resized(l, available, x, n).1, tail) <==> Sound(l, x, n)
  {
    hide Good, MovedAt, Elsewhere, MoveFits, Wrap;
    if n > SizeOf(l.blocks, x) {
      if !GrowsInPlace(l, x, n) {
        ElsewhereGood(l, tail, available, x, n);
      } else if TestExact(n) {
        GrowFits(l, tail, x, n);
        MovedAtGood(l, tail, x, CutAt(x, n));
      } else {
        WrappedAt(l, tail, x, n);
      }
    } else if n + ITEM + MINI_ALLOC < SizeOf(l.blocks, x) {
      LiveIndex(l, tail, x);
      ShrinkFits(l, tail, Find(l.blocks, x), x + ITEM + n);
      MovedAtGood(l, tail, x, x + ITEM + n);
    }
  }

  lemma WrappedAt(l: Layout, tail: int, x: int, n: nat)
    requires Good(l, tail) && Live(l, tail, x) && GrowsInPlace(l, x, n) && !TestExact(n) && n < WORD_LIMIT
    ensures !Good(MovedAt(l, x, CutAt(x, n)), tail)
  {
    hide Good, Wrap, GrowsInPlace;
    WrappedGrowth(l, tail, x, n);
  }

  /** The same in terms of a size that has been aligned, for a block that is to grow. */
  lemma GrowthSoundIff(l: Layout, tail: int, available: int, x: int, n: nat)
    requires Good(l, tail) && Live(l, tail, x) && n < WORD_LIMIT && n % 4 == 0 && n > SizeOf(l.blocks, x)
    ensures var k := Find(l.blocks, x);
            Good(Resized(l, available, x, n).1, tail) <==>
            || n <= WORD_LIMIT - 16
            || k + 2 >= |l.blocks| || !l.Free(k + 1)
            || l.Size(k + 1) + SizeOf(l.blocks, x) <= Wrap(n + MINI_ALLOC)
  {
    hide Good, Resized, Wrap;
    ResizedGoodIff(l, tail, available, x, n);
  }

  /** A live block of 12 bytes with a free one behind it, reallocated to 2^32 - 12 bytes, "grows" into its own header. */
  lemma GrowsIntoItself()
    ensures var l, n := Layout([0, 36, 72], {0, 72}, [36]), Needed(0xFFFF_FFF4);
            && Good(l, 72) && Live(l, 72, 0) && n == 0xFFFF_FFF4 && GrowsInPlace(l, 0, n)
            && Resized(l, 12, 0, n) == (At(0), Layout([0, 12, 72], {0, 72}, [12]))
    ensures !Good(Layout([0, 12, 72], {0, 72}, [12]), 72)
  {
    var l, n := Layout([0, 36, 72], {0, 72}, [36]), Needed(0xFFFF_FFF4);
    assert n == 0xFFFF_FFF4 && Wrap(n + MINI_ALLOC) == 0;
    assert Find(l.blocks, 0) == 0 && l.blocks[0] == 0;
    assert Find(l.frees, 36) == 0 && Drop(l.frees, 36) == [] && [12] + Drop(l.frees, 36) == [12];
    assert l.blocks[1 := 12] == [0, 12, 72];
    var grown := [0, 12, 72];
    assert grown[0] + ITEM > grown[1];
  }

  /** Only a reallocation of a live block can be unsound. */
  ghost predicate SoundCall(l: Layout, tail: int, c: Call) {
    c.ReallocCall? && c.p.At? && Live(l, tail, c.p.block) && c.size != 0 ==> Sound(l, c.p.block, Needed(c.size))
  }

  lemma AfterGoodIff(l: Layout, tail: int, c: Call)
    requires Good(l, tail)
    ensures Good(After(l, tail, c), tail) <==> SoundCall(l, tail, c)
  {
    hide Good, CarvedAt, FreedAt, Resized, Choice, Sound;
    var available := FreeBytes(l.blocks, l.used);
    match c {
      case AllocCall(size) => ChoiceGood(l, tail, available, Needed(size));
      case FreeCall(p) =>
        if p.At? && Live(l, tail, p.block) {
          FreedAtGood(l, tail, p.block);
        }
      case ReallocCall(p, size) =>
        if p.At? && Live(l, tail, p.block) {
          FreedAtGood(l, tail, p.block);
          NeededTwice(size);
          ResizedGoodIff(l, tail, available, p.block, Needed(size));
        } else {
          ChoiceGood(l, tail, available, Needed(Needed(size)));
        }
    }
  }

  ghost predicate Run(trace: seq<Layout>, calls: seq<Call>, tail: int) {
    && |trace| == |calls| + 1 && tail >= ITEM && trace[0] == Layout([0, tail], {tail}, [0])
    && forall i, j :: 0 <= i < |calls| && j == i + 1 ==> trace[j] == After(trace[i], tail, calls[i])
  }

  /** From initialisation on, the two lists agree after every run of sound calls. */
  lemma {:induction false} RunGood(trace: seq<Layout>, calls: seq<Call>, tail: int, k: nat)
    requires Run(trace, calls, tail) && k < |trace| && forall i :: 0 <= i < k ==> SoundCall(trace[i], tail, calls[i])
    ensures Good(trace[k], tail)
  {
    hide After, SoundCall;
    if k > 0 {
      RunGood(trace, calls, tail, k - 1);
      AfterGoodIff(trace[k - 1], tail, calls[k - 1]);
    }
  }

  /** They agree all along a run exactly if every call in it is sound. */
  lemma RunGoodIff(trace: seq<Layout>, calls: seq<Call>, tail: int)
    requires Run(trace, calls, tail)
    ensures (forall k :: 0 <= k < |trace| ==> Good(trace[k], tail)) <==>
            (forall i :: 0 <= i < |calls| ==> SoundCall(trace[i], tail, calls[i]))
  {
    hide After, SoundCall, Good;
    if forall i :: 0 <= i < |calls| ==> SoundCall(trace[i], tail, calls[i]) {
      forall k | 0 <= k < |trace| ensures Good(trace[k], tail) {
        RunGood(trace, calls, tail, k);
      }
    } else if forall k :: 0 <= k < |trace| ==> Good(trace[k], tail) {
      forall i | 0 <= i < |calls| ensures SoundCall(trace[i], tail, calls[i]) {
        assert Good(trace[i], tail) && Good(trace[i + 1], tail);
        AfterGoodIff(trace[i], tail, calls[i]);
      }
    }
  }
}
