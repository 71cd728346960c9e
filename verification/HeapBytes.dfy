/** What the operations of the small-memory heap do to the bytes of the blocks they are not about. */
module HeapBytes {
  import opened Machine
  import opened ByteMemory
  import opened Tiling
  import opened HeapLayout

  /** The payload of tile t is the same in both memories. */
  ghost predicate Intact(m: seq<Byte>, r: seq<Byte>, t: Tile) {
    && t.off + HEADER <= t.next <= |m| == |r|
    && m[t.off + HEADER..t.next] == r[t.off + HEADER..t.next]
  }

  /** The payload of every live tile, except possibly one at `off`, is the same in both memories. */
  ghost predicate OthersIntact(m: seq<Byte>, r: seq<Byte>, ts: seq<Tile>, off: nat) {
    forall t :: t in ts && t.used && t.off != off ==> Intact(m, r, t)
  }

  /** Bytes outside [lo, hi) and outside the word at x are the same in both memories. */
  ghost predicate BytesOutside(m: seq<Byte>, r: seq<Byte>, lo: nat, hi: nat, x: nat) {
    |m| == |r| && forall i :: 0 <= i < |m| && !(lo <= i < hi) && !(x <= i < x + 4) ==> r[i] == m[i]
  }

  /** Only the run of free tiles around tile k changed, and the prev word after it. */
  ghost predicate RunOnly(m: seq<Byte>, r: seq<Byte>, ts: seq<Tile>, k: nat)
    requires k < |ts|
  {
    var lo, hi := RunStart(ts, k), RunEnd(ts, k);
    BytesOutside(m, r, ts[lo].off, ts[hi - 1].next, ts[hi - 1].next + 8)
  }

  lemma RunOnlyMarked(m: seq<Byte>, m1: seq<Byte>, r: seq<Byte>, ts: seq<Tile>, k: nat)
    requires k < |ts| && Chained(ts)
    requires BytesOutside(m, m1, ts[k].off, ts[k].off + 4, ts[k].off)
    requires RunOnly(m1, r, MarkTiles(ts, k, false), k)
    ensures RunOnly(m, r, ts, k)
  {
    MarkedRun(ts, k);
  }

  /** The bytes in [lo, hi) are the same in both memories. */
  ghost predicate Kept(m: seq<Byte>, r: seq<Byte>, lo: nat, hi: nat) {
    |m| == |r| && forall i :: lo <= i < hi && i < |m| ==> r[i] == m[i]
  }

  /** Only tile k from `cut` on, its `next` word, its free successor and the prev word after that changed. */
  ghost predicate ShrinkOnly(m: seq<Byte>, r: seq<Byte>, ts: seq<Tile>, k: nat, cut: nat)
    requires k < |ts|
  {
    var end := ts[RunEnd(ts, k) - 1].next;
    BytesOutside(m, r, ts[k].off, end, end + 8) && Kept(m, r, ts[k].off + HEADER, cut)
  }

  lemma ShrinkFrame(m: seq<Byte>, m1: seq<Byte>, r: seq<Byte>, ts: seq<Tile>, k: nat, cut: nat)
    requires Chained(ts) && k < |ts| && ts[k].used
    requires ts[k].off + HEADER <= cut && cut + HEADER <= ts[k].next
    requires BytesOutside(m, m1, ts[k].off, ts[k].next, ts[k].next + 8)
    requires Kept(m, m1, ts[k].off + HEADER, cut)
    requires k + 1 < |SplitTiles(ts, k, cut)| && RunOnly(m1, r, SplitTiles(ts, k, cut), k + 1)
    ensures ShrinkOnly(m, r, ts, k, cut)
  {
    ShrinkBySteps(ts, k, cut - ts[k].off - HEADER, cut, SplitTiles(ts, k, cut));
    assert k + 1 < |ts| ==> ts[k].next == ts[k + 1].off;
  }

  /** Only tile k, a free successor and the prev word after that changed. */
  ghost predicate RightOnly(m: seq<Byte>, r: seq<Byte>, ts: seq<Tile>, k: nat)
    requires k < |ts|
  {
    var end := ts[RunEnd(ts, k) - 1].next;
    BytesOutside(m, r, ts[k].off, end, end + 8)
  }

  /** Only tile k, a free predecessor and the prev word after tile k changed. */
  ghost predicate LeftOnly(m: seq<Byte>, r: seq<Byte>, ts: seq<Tile>, k: nat)
    requires k < |ts|
  {
    BytesOutside(m, r, ts[RunStart(ts, k)].off, ts[k].next, ts[k].next + 8)
  }

  lemma JoinedOnly(m: seq<Byte>, m1: seq<Byte>, r: seq<Byte>, ts: seq<Tile>, k: nat, mem: nat)
    requires k < |ts| && Chained(ts) && ts[k].off == mem
    requires RightOnly(m, m1, ts, k) && LeftOnly(m1, r, JoinRight(ts, k), k)
    ensures RunOnly(m, r, ts, k)
  {
    JoinRightShape(ts, k);
  }

  /** A change confined to tiles [lo, hi) and one prev word leaves every other payload intact. */
  lemma IntactOutside(m: seq<Byte>, r: seq<Byte>, ts: seq<Tile>, e: nat, lo: nat, hi: nat, i: nat)
    requires Tiled(ts, e) && |m| == e + HEADER && lo < hi <= |ts| && (i < lo || hi <= i < |ts|)
    requires BytesOutside(m, r, ts[lo].off, ts[hi - 1].next, ts[hi - 1].next + 8)
    ensures Intact(m, r, ts[i])
  {
    OrderedAll(ts, e);
    var t := ts[i];
    assert i < lo ==> t.next <= ts[lo].off;
    assert hi <= i ==> ts[hi - 1].next <= t.off;
    assert ts[lo].off < ts[hi - 1].next;
  }

  /** Marking a block free and plugging the holes around it disturbs no other block. */
  lemma IntactFree(m: seq<Byte>, m1: seq<Byte>, r: seq<Byte>, ts: seq<Tile>, e: nat, k: nat, mem: nat)
    requires Tiled(ts, e) && |m| == e + HEADER && k < |ts| && ts[k].off == mem
    requires BytesOutside(m, m1, mem, mem + 4, mem)
    requires RunOnly(m1, r, MarkTiles(ts, k, false), k)
    ensures OthersIntact(m, r, ts, mem)
  {
    RunOnlyMarked(m, m1, r, ts, k);
    var lo, hi := RunStart(ts, k), RunEnd(ts, k);
    forall t | t in ts && t.used && t.off != mem ensures Intact(m, r, t) {
      var i := IndexIn(ts, t);
      IntactOutside(m, r, ts, e, lo, hi, i);
    }
  }

  /** The payload of every live tile is the same in both memories. */
  ghost predicate AllIntact(m: seq<Byte>, r: seq<Byte>, ts: seq<Tile>) {
    forall t :: t in ts && t.used ==> Intact(m, r, t)
  }

  lemma IntactCarve(m: seq<Byte>, r: seq<Byte>, ts: seq<Tile>, e: nat, k: nat)
    requires Tiled(ts, e) && |m| == e + HEADER && k < |ts| && !ts[k].used
    requires BytesOutside(m, r, ts[k].off, ts[k].next, ts[k].next + 8)
    ensures AllIntact(m, r, ts)
  {
    forall t | t in ts && t.used ensures Intact(m, r, t) {
      var i :| 0 <= i < |ts| && ts[i] == t;
      IntactOutside(m, r, ts, e, k, k + 1, i);
    }
  }

  lemma IntactUnchanged(m: seq<Byte>, ts: seq<Tile>, e: nat)
    requires Tiled(ts, e) && |m| == e + HEADER
    ensures AllIntact(m, m, ts)
  {
    OrderedAll(ts, e);
  }

  lemma WordsOutside(m: seq<Byte>, r: seq<Byte>, w: Words, v: Words, lo: nat, hi: nat)
    requires Represents(m, w) && |r| == |m| == |v|
    requires forall i :: 0 <= i < |m| && !(lo <= i < hi) ==> r[i] == m[i]
    requires forall q :: 0 <= q < |r| ==> v[q] == if q + 4 <= |r| then Word(r, q) else w[q]
    ensures Represents(r, v)
    ensures Confined(w, v, lo, hi)
  {
    forall q | 0 <= q < |m| && (q + 4 <= lo || hi <= q) ensures v[q] == w[q] {
      if q + 4 <= |r| {
        assert w[q] == Word(m, q);
      }
    }
  }

  /** Every live tile but the one at `off` is still there. */
  ghost predicate OthersSurvive(ts: seq<Tile>, us: seq<Tile>, off: nat) {
    forall t :: t in ts && t.used && t.off != off ==> t in us
  }

  /** A successful reallocation: the block is live, roomy enough, and starts with the old data. */
  ghost predicate Carried(us: seq<Tile>, r: seq<Byte>, ptr: nat, n: nat, m: seq<Byte>, from: nat, count: nat) {
    && IsLiveIn(us, ptr)
    && us[IndexOf(us, ptr - HEADER)].Room() >= n
    && ptr + count <= |r| && from + count <= |m|
    && r[ptr..ptr + count] == m[from..from + count]
  }

  /** ptr is the data address of a live block. */
  ghost predicate IsLiveIn(ts: seq<Tile>, ptr: nat) {
    && HEADER <= ptr
    && IndexOf(ts, ptr - HEADER) < |ts|
    && ts[IndexOf(ts, ptr - HEADER)].used
  }

  lemma CarriedShrink(m: seq<Byte>, r: seq<Byte>, ts: seq<Tile>, e: nat, k: nat, mem: nat, n: nat)
    requires WellTiled(ts, e) && |m| == e + HEADER && k < |ts| && ts[k].used && n + HEADER <= ts[k].Room()
    requires mem == ts[k].off && ShrinkOnly(m, r, ts, k, mem + HEADER + n)
    ensures Carried(ShrinkAt(ts, k, n), r, mem + HEADER, n, m, mem + HEADER, n)
  {
    Ends(ts, e, k);
    ShrinkCorrect(ts, e, k, n);
    assert ShrinkAt(ts, k, n)[k] == Tile(ts[k].off, ts[k].off + HEADER + n, true);
  }

  /** Tile i is the live block at mem with `size` bytes of data, tile j another one, at dst, with room for n. */
  ghost predicate Placed(us: seq<Tile>, j: nat, i: nat, dst: nat, mem: nat, n: nat, size: nat) {
    && j < |us| && us[j].used && us[j].off + HEADER == dst && n <= us[j].Room()
    && i < |us| && us[i].used && us[i].off == mem && size == us[i].Room()
    && us[j].off != mem
  }

  /** The blocks involved once another block has been allocated for the data of tile k. */
  lemma MoveSetup(ts: seq<Tile>, e: nat, n: nat, k: nat) returns (i: nat)
    requires WellTiled(ts, e) && k < |ts| && ts[k].used && FirstFit(ts, n) < |ts|
    ensures var j, us := FirstFit(ts, n), AllocTiles(ts, n);
            Placed(us, j, i, ts[j].off + HEADER, ts[k].off, n, ts[k].Room()) && us[i] == ts[k]
  {
    var j, us := FirstFit(ts, n), AllocTiles(ts, n);
    AllocSurvives(ts, n, ts[k]);
    i := IndexIn(us, ts[k]);
    assert us[j] == Carve(ts[j], n)[0];
    assert ts[j].off != ts[k].off by {
      OrderedAll(ts, e);
    }
  }

  /** Every live tile, except one at `off` and tile j, has kept its payload and its place. */
  ghost predicate BystandersSafe(m: seq<Byte>, r: seq<Byte>, us: seq<Tile>, vs: seq<Tile>, j: nat, off: nat)
    requires j < |us|
  {
    forall t :: t in us && t.used && t != us[j] && t.off != off ==> Intact(m, r, t) && t in vs
  }

  /** The effect of copying `count` bytes from src to dst. */
  ghost predicate Copied(m: seq<Byte>, r: seq<Byte>, dst: nat, src: nat, count: nat) {
    && dst + count <= |m| == |r| && src + count <= |m|
    && r[dst..dst + count] == m[src..src + count]
    && forall b :: 0 <= b < |m| && !(dst <= b < dst + count) ==> r[b] == m[b]
  }

  /** Copying into tile j and releasing tile i disturbs no other block. */
  lemma MoveBystanders(m1: seq<Byte>, m2: seq<Byte>, r: seq<Byte>, us: seq<Tile>, e: nat,
                       j: nat, i: nat, dst: nat, mem: nat, n: nat, size: nat, count: nat)
    requires Tiled(us, e) && Placed(us, j, i, dst, mem, n, size) && count <= n
    requires Copied(m1, m2, dst, mem + HEADER, count)
    requires OthersIntact(m2, r, us, mem)
    ensures BystandersSafe(m1, r, us, FreeAt(us, i), j, mem)
  {
    forall t | t in us && t.used && t != us[j] && t.off != mem ensures Intact(m1, r, t) && t in FreeAt(us, i) {
      TilesDisjoint(us, e, t, us[j]);
      FreeSurvives(us, i, t);
      assert Intact(m2, r, t);
      assert m1[t.off + HEADER..t.next] == m2[t.off + HEADER..t.next];
    }
  }

  /** The copied data is still in the new block after the old one has been released. */
  lemma MoveCarried(m1: seq<Byte>, m2: seq<Byte>, r: seq<Byte>, us: seq<Tile>, e: nat,
                    j: nat, i: nat, dst: nat, mem: nat, n: nat, size: nat, count: nat)
    requires WellTiled(us, e) && Placed(us, j, i, dst, mem, n, size) && count <= n
    requires Copied(m1, m2, dst, mem + HEADER, count)
    requires OthersIntact(m2, r, us, mem)
    ensures Carried(FreeAt(us, i), r, dst, n, m1, mem + HEADER, count)
  {
    assert us[j] in us && Intact(m2, r, us[j]);
    KeptData(m2, r, us[j], dst, count);
    MoveFound(us, e, j, i);
  }

  lemma KeptData(m: seq<Byte>, r: seq<Byte>, t: Tile, dst: nat, count: nat)
    requires Intact(m, r, t) && dst == t.off + HEADER && count <= t.Room()
    ensures r[dst..dst + count] == m[dst..dst + count]
  {
    FrontOf(r, dst, dst + count, t.next);
    FrontOf(m, dst, dst + count, t.next);
  }

  lemma FrontOf(m: seq<Byte>, lo: nat, mid: nat, hi: nat)
    requires lo <= mid <= hi <= |m|
    ensures m[lo..mid] == m[lo..hi][..mid - lo]
  {}

  lemma MoveFound(us: seq<Tile>, e: nat, j: nat, i: nat)
    requires WellTiled(us, e) && i < |us| && j < |us| && us[i].used && us[j].used && us[i] != us[j]
    ensures var vs, k := FreeAt(us, i), IndexOf(FreeAt(us, i), us[j].off); k < |vs| && vs[k] == us[j]
  {
    var vs := FreeAt(us, i);
    FreeSurvives(us, i, us[j]);
    FreeWellTiled(us, e, i);
    var l := IndexIn(vs, us[j]);
    IndexOfTile(vs, e, l);
  }

  lemma MoveDone(m1: seq<Byte>, m2: seq<Byte>, r: seq<Byte>, us: seq<Tile>, e: nat,
                 j: nat, i: nat, dst: nat, mem: nat, n: nat, size: nat, count: nat)
    requires WellTiled(us, e) && Placed(us, j, i, dst, mem, n, size) && count <= n
    requires Copied(m1, m2, dst, mem + HEADER, count)
    requires OthersIntact(m2, r, us, mem)
    ensures Carried(FreeAt(us, i), r, dst, n, m1, mem + HEADER, count)
    ensures BystandersSafe(m1, r, us, FreeAt(us, i), j, mem)
  {
    MoveBystanders(m1, m2, r, us, e, j, i, dst, mem, n, size, count);
    MoveCarried(m1, m2, r, us, e, j, i, dst, mem, n, size, count);
  }

  /** Data carried from a block that had itself been left intact. */
  lemma CarriedFrom(vs: seq<Tile>, r: seq<Byte>, dst: nat, n: nat, m: seq<Byte>, m1: seq<Byte>, u: Tile, mem: nat, count: nat)
    requires Carried(vs, r, dst, n, m1, mem + HEADER, count)
    requires Intact(m, m1, u) && u.off == mem && count <= u.Room()
    ensures Carried(vs, r, dst, n, m, mem + HEADER, count)
  {
    KeptData(m, m1, u, mem + HEADER, count);
  }

  lemma BystandersFrom(m: seq<Byte>, m1: seq<Byte>, r: seq<Byte>, ts: seq<Tile>, us: seq<Tile>, vs: seq<Tile>, e: nat, n: nat, mem: nat)
    requires Tiled(ts, e) && FirstFit(ts, n) < |ts| && us == AllocTiles(ts, n) && AllIntact(m, m1, ts)
    requires BystandersSafe(m1, r, us, vs, FirstFit(ts, n), mem)
    ensures OthersIntact(m, r, ts, mem) && OthersSurvive(ts, vs, mem)
  {
    var j := FirstFit(ts, n);
    OrderedAll(ts, e);
    assert us[j] == Carve(ts[j], n)[0];
    forall t | t in ts && t.used && t.off != mem ensures Intact(m, r, t) && t in vs {
      AllocSurvives(ts, n, t);
      assert t.off != ts[j].off;
      assert Intact(m, m1, t) && Intact(m1, r, t);
    }
  }

  lemma IntactShrink(m: seq<Byte>, r: seq<Byte>, ts: seq<Tile>, e: nat, k: nat, mem: nat, n: nat)
    requires Tiled(ts, e) && |m| == e + HEADER && k < |ts| && ts[k].used
    requires mem == ts[k].off && ShrinkOnly(m, r, ts, k, mem + HEADER + n)
    ensures OthersIntact(m, r, ts, mem)
    ensures OthersSurvive(ts, ShrinkAt(ts, k, n), mem)
  {
    var hi := RunEnd(ts, k);
    forall t | t in ts && t.used && t.off != ts[k].off ensures Intact(m, r, t) && t in ShrinkAt(ts, k, n) {
      var i := IndexIn(ts, t);
      IntactOutside(m, r, ts, e, k, hi, i);
      ShrinkSurvives(ts, k, n, t);
    }
  }

  /**
   * What a successful reallocation promises: the data, as far as it fits, is at dst in a live block
   * with room for n bytes, and every other live block is where it was, with the data it had.
   */
  ghost predicate Moved(ts: seq<Tile>, m: seq<Byte>, us: seq<Tile>, r: seq<Byte>, dst: nat, n: nat, mem: nat, count: nat) {
    && Carried(us, r, dst, n, m, mem + HEADER, count)
    && OthersIntact(m, r, ts, mem)
    && OthersSurvive(ts, us, mem)
  }

  /** Allocating, copying and releasing add up to a move. */
  lemma MoveComposed(m: seq<Byte>, m1: seq<Byte>, r: seq<Byte>, ts: seq<Tile>, us: seq<Tile>, vs: seq<Tile>, e: nat,
                     k: nat, dst: nat, n: nat, min: nat, mem: nat, count: nat)
    requires Tiled(ts, e) && k < |ts| && ts[k].used && ts[k].off == mem && count <= ts[k].Room()
    requires FirstFit(ts, min) < |ts| && us == AllocTiles(ts, min) && AllIntact(m, m1, ts)
    requires Carried(vs, r, dst, n, m1, mem + HEADER, count)
    requires BystandersSafe(m1, r, us, vs, FirstFit(ts, min), mem)
    ensures Moved(ts, m, vs, r, dst, n, mem, count)
  {
    BystandersFrom(m, m1, r, ts, us, vs, e, min, mem);
    assert Intact(m, m1, ts[k]);
    CarriedFrom(vs, r, dst, n, m, m1, ts[k], mem, count);
  }

  lemma ShrinkMoved(m: seq<Byte>, r: seq<Byte>, ts: seq<Tile>, e: nat, k: nat, mem: nat, n: nat)
    requires WellTiled(ts, e) && |m| == e + HEADER && k < |ts| && ts[k].used && n + HEADER <= ts[k].Room()
    requires mem == ts[k].off && ShrinkOnly(m, r, ts, k, mem + HEADER + n)
    ensures Moved(ts, m, ShrinkAt(ts, k, n), r, mem + HEADER, n, mem, n)
  {
    IntactShrink(m, r, ts, e, k, mem, n);
    CarriedShrink(m, r, ts, e, k, mem, n);
  }

  /** Leaving everything alone is a move of the block to its own place. */
  lemma KeepMoved(m: seq<Byte>, ts: seq<Tile>, e: nat, k: nat, mem: nat)
    requires Tiled(ts, e) && |m| == e + HEADER && k < |ts| && ts[k].used && ts[k].off == mem
    ensures Moved(ts, m, ts, m, mem + HEADER, ts[k].Room(), mem, ts[k].Room())
  {
    Ends(ts, e, k);
    IndexOfTile(ts, e, k);
    IntactUnchanged(m, ts, e);
  }
}
