/**
 * The abstract view of the small-memory heap: a sequence of tiles that covers the heap from
 * offset 0 to heap_end, and what allocation, release and shrinking do to it.
 */
module Tiling {

  const HEADER := 12    // SIZEOF_STRUCT_MEM
  const MIN_SIZE := 12  // MIN_SIZE and MIN_SIZE_ALIGNED

  /** A block: its header starts at `off`, its data ends at `next`. */
  datatype Tile = Tile(off: nat, next: nat, used: bool) {
    function Room(): int { next - off - HEADER }

    function Size(): nat { if off <= next then next - off else 0 }

    predicate Fits(n: nat) { !used && Room() >= n }
  }

  /** Each tile has room for a header, and each ends where the following one starts. */
  ghost predicate Chained(ts: seq<Tile>) {
    && (forall i :: 0 <= i < |ts| ==> ts[i].off + HEADER <= ts[i].next)
    && (forall i, j :: 0 <= i && j == i + 1 < |ts| ==> ts[i].next == ts[j].off)
  }

  /** The tiles cover exactly [0, e). */
  ghost predicate Tiled(ts: seq<Tile>, e: nat) {
    && |ts| > 0
    && ts[0].off == 0
    && ts[|ts| - 1].next == e
    && Chained(ts)
  }

  /** Every block starts at a multiple of RT_ALIGN_SIZE, which is 4. */
  ghost predicate Aligned(ts: seq<Tile>) {
    forall i :: 0 <= i < |ts| ==> ts[i].off % 4 == 0
  }

  /** No two adjacent tiles are free. */
  ghost predicate Spaced(ts: seq<Tile>) {
    forall i, j :: 0 <= i && j == i + 1 < |ts| ==> ts[i].used || ts[j].used
  }

  ghost predicate WellTiled(ts: seq<Tile>, e: nat) {
    Tiled(ts, e) && Spaced(ts)
  }

  /** Index of the first free tile, or |ts|. */
  function FirstFree(ts: seq<Tile>): (k: nat)
    ensures k <= |ts|
    ensures k < |ts| ==> !ts[k].used
    ensures forall i :: 0 <= i < k ==> ts[i].used
  {
    if ts == [] || !ts[0].used then 0 else 1 + FirstFree(ts[1..])
  }

  /** Offset of the lowest free tile, or the end of the heap. */
  function LowestFree(ts: seq<Tile>, e: nat): nat {
    var k := FirstFree(ts);
    if k < |ts| then ts[k].off else e
  }

  /** The live tiles, by address. */
  function Live(ts: seq<Tile>): seq<Tile> {
    if ts == [] then [] else (if ts[0].used then [ts[0]] else []) + Live(ts[1..])
  }

  /** The bytes a sequence of tiles takes, headers included. */
  function Bytes(ts: seq<Tile>): nat {
    if ts == [] then 0 else ts[0].Size() + Bytes(ts[1..])
  }

  /** The bytes in use: those of the live tiles. */
  function InUse(ts: seq<Tile>): nat {
    if ts == [] then 0 else InUse(ts[..|ts| - 1]) + if ts[|ts| - 1].used then ts[|ts| - 1].Size() else 0
  }

  /** Index of the first tile that is free and has room for n bytes, or |ts|. */
  function FirstFit(ts: seq<Tile>, n: nat): (k: nat)
    ensures k <= |ts|
    ensures k < |ts| ==> ts[k].Fits(n)
    ensures forall i :: 0 <= i < k ==> !ts[i].Fits(n)
  {
    if ts == [] || ts[0].Fits(n) then 0 else 1 + FirstFit(ts[1..], n)
  }

  /** Index of the tile whose header is at `off`, or |ts|. */
  function IndexOf(ts: seq<Tile>, off: nat): (k: nat)
    ensures k <= |ts|
    ensures k < |ts| ==> ts[k].off == off
    ensures forall i :: 0 <= i < k ==> ts[i].off != off
  {
    if ts == [] || ts[0].off == off then 0 else 1 + IndexOf(ts[1..], off)
  }

  /** The tiles with the part [lo, hi) replaced by `mid`. */
  function Replace(ts: seq<Tile>, lo: nat, hi: nat, mid: seq<Tile>): (r: seq<Tile>)
    requires lo <= hi <= |ts|
    ensures |r| == |ts| - (hi - lo) + |mid|
  {
    ts[..lo] + mid + ts[hi..]
  }

  /** Tile k split at `cut`, the rest being free. */
  function SplitTiles(ts: seq<Tile>, k: nat, cut: nat): seq<Tile>
    requires k < |ts|
  {
    Replace(ts, k, k + 1, [Tile(ts[k].off, cut, ts[k].used), Tile(cut, ts[k].next, false)])
  }

  /** Tiles k and k+1 made one. */
  function JoinTiles(ts: seq<Tile>, k: nat): seq<Tile>
    requires k + 1 < |ts|
  {
    Replace(ts, k, k + 2, [Tile(ts[k].off, ts[k + 1].next, ts[k].used)])
  }

  /** Tile k marked used or free. */
  function MarkTiles(ts: seq<Tile>, k: nat, used: bool): (r: seq<Tile>)
    requires k < |ts|
    ensures |r| == |ts| && r[k] == ts[k].(used := used)
  {
    ts[k := ts[k].(used := used)]
  }

  /** The tiles that take the place of the free tile t when n bytes are allocated from it. */
  function Carve(t: Tile, n: nat): seq<Tile> {
    if t.Room() >= n + HEADER + MIN_SIZE
    then [Tile(t.off, t.off + HEADER + n, true), Tile(t.off + HEADER + n, t.next, false)]
    else [t.(used := true)]
  }

  /** First tile of the run of free tiles that tile k belongs to once it is free. */
  function RunStart(ts: seq<Tile>, k: nat): (lo: nat)
    requires k < |ts|
    ensures lo <= k
  {
    if k > 0 && !ts[k - 1].used then k - 1 else k
  }

  /** One past the last tile of that run. */
  function RunEnd(ts: seq<Tile>, k: nat): (hi: nat)
    requires k < |ts|
    ensures k < hi <= |ts|
  {
    if k + 1 < |ts| && !ts[k + 1].used then k + 2 else k + 1
  }

  /** What allocating n bytes (already aligned and raised to the minimum) does to the tiles. */
  function AllocTiles(ts: seq<Tile>, n: nat): seq<Tile> {
    var k := FirstFit(ts, n);
    if k == |ts| then ts else Replace(ts, k, k + 1, Carve(ts[k], n))
  }

  /** What releasing tile k does: it and its free neighbours become one free tile. */
  function FreeAt(ts: seq<Tile>, k: nat): seq<Tile>
    requires k < |ts|
  {
    var lo, hi := RunStart(ts, k), RunEnd(ts, k);
    Replace(ts, lo, hi, [Tile(ts[lo].off, ts[hi - 1].next, false)])
  }

  /** What shrinking tile k to n bytes does: the rest joins a free successor. */
  function ShrinkAt(ts: seq<Tile>, k: nat, n: nat): seq<Tile>
    requires k < |ts|
  {
    var hi, cut := RunEnd(ts, k), ts[k].off + HEADER + n;
    Replace(ts, k, hi, [Tile(ts[k].off, cut, true), Tile(cut, ts[hi - 1].next, false)])
  }

  /** What reallocation does with live tile k: keep it, shrink it in place, or find another place. */
  datatype Plan = Keep | ShrinkInPlace | Move | Refuse

  function ReallocPlan(ts: seq<Tile>, k: nat, n: nat): Plan
    requires k < |ts|
  {
    if ts[k].Room() == n then Keep
    else if n + HEADER + MIN_SIZE < ts[k].Room() then ShrinkInPlace
    else if FirstFit(ts, AtLeastMin(n)) < |ts| then Move
    else Refuse
  }

  function AtLeastMin(n: nat): nat {
    if n < MIN_SIZE then MIN_SIZE else n
  }

  function ReallocTiles(ts: seq<Tile>, k: nat, n: nat): seq<Tile>
    requires k < |ts|
  {
    match ReallocPlan(ts, k, n)
    case Keep => ts
    case ShrinkInPlace => ShrinkAt(ts, k, n)
    case Move => FreeTiles(AllocTiles(ts, AtLeastMin(n)), ts[k].off)
    case Refuse => ts
  }

  /** Releasing the block whose header is at `off`, if there is one. */
  function FreeTiles(ts: seq<Tile>, off: nat): seq<Tile> {
    var k := IndexOf(ts, off);
    if k == |ts| then ts else FreeAt(ts, k)
  }

  // ---------------------------------------------------------------- order and membership

  /** Tiles are ordered by address: an earlier tile ends before a later one starts. */
  lemma {:induction false} Ordered(ts: seq<Tile>, i: nat, j: nat)
    requires Chained(ts) && i < j < |ts|
    ensures ts[i].next <= ts[j].off
    decreases j - i
  {
    if i + 1 < j {
      Ordered(ts, i + 1, j);
    }
  }

  lemma OrderedAll(ts: seq<Tile>, e: nat)
    requires Tiled(ts, e)
    ensures forall i, j :: 0 <= i < j < |ts| ==> ts[i].next <= ts[j].off
    ensures forall i :: 0 <= i < |ts| ==> ts[i].next <= e
  {
    forall i, j | 0 <= i < j < |ts| ensures ts[i].next <= ts[j].off {
      Ordered(ts, i, j);
    }
  }

  /** A tile ends at another tile or at the end of the heap. */
  lemma Ends(ts: seq<Tile>, e: nat, k: nat)
    requires Tiled(ts, e) && k < |ts|
    ensures ts[k].next <= e
    ensures k + 1 < |ts| ==> ts[k].next == ts[k + 1].off && ts[k].next < e
    ensures k + 1 == |ts| ==> ts[k].next == e
  {
    if k + 1 < |ts| {
      assert ts[k].next == ts[k + 1].off;
      Ordered(ts, k, |ts| - 1);
    }
  }

  /** A tile is found at its own offset. */
  lemma IndexOfTile(ts: seq<Tile>, e: nat, k: nat)
    requires Tiled(ts, e) && k < |ts|
    ensures IndexOf(ts, ts[k].off) == k
  {
    OrderedAll(ts, e);
  }

  /** The extents of two different tiles, headers and payloads, are disjoint. */
  lemma TilesDisjoint(ts: seq<Tile>, e: nat, t: Tile, u: Tile)
    requires Tiled(ts, e) && t in ts && u in ts && t != u
    ensures t.next <= u.off || u.next <= t.off
  {
    OrderedAll(ts, e);
  }

  lemma {:induction false} LiveConcat(a: seq<Tile>, b: seq<Tile>)
    ensures Live(a + b) == Live(a) + Live(b)
  {
    if a == [] {
      assert a + b == b;
    } else {
      assert (a + b)[1..] == a[1..] + b;
      LiveConcat(a[1..], b);
    }
  }

  lemma {:induction false} LiveIff(ts: seq<Tile>, t: Tile)
    ensures t in Live(ts) <==> t in ts && t.used
  {
    if ts != [] {
      LiveIff(ts[1..], t);
    }
  }

  lemma {:induction false} BytesConcat(a: seq<Tile>, b: seq<Tile>)
    ensures Bytes(a + b) == Bytes(a) + Bytes(b)
  {
    if a == [] {
      assert a + b == b;
    } else {
      assert (a + b)[1..] == a[1..] + b;
      BytesConcat(a[1..], b);
    }
  }

  // ---------------------------------------------------------------- replacing a part

  /** Replacing a part by tiles with the same outer bounds keeps the tiling. */
  lemma ReplaceTiled(ts: seq<Tile>, e: nat, lo: nat, hi: nat, mid: seq<Tile>)
    requires Tiled(ts, e) && lo < hi <= |ts|
    requires |mid| > 0 && Chained(mid)
    requires mid[0].off == ts[lo].off && mid[|mid| - 1].next == ts[hi - 1].next
    ensures Tiled(Replace(ts, lo, hi, mid), e)
  {}

  lemma ReplaceSpaced(ts: seq<Tile>, lo: nat, hi: nat, mid: seq<Tile>)
    requires Spaced(ts) && lo < hi <= |ts|
    requires |mid| > 0 && Spaced(mid)
    requires lo > 0 ==> ts[lo - 1].used || mid[0].used
    requires hi < |ts| ==> mid[|mid| - 1].used || ts[hi].used
    ensures Spaced(Replace(ts, lo, hi, mid))
  {}

  lemma ReplaceBack(ts: seq<Tile>, lo: nat, hi: nat, mid: seq<Tile>)
    requires lo <= hi <= |ts|
    ensures Replace(Replace(ts, lo, hi, mid), lo, lo + |mid|, ts[lo..hi]) == ts
  {}

  lemma ReplaceLive(ts: seq<Tile>, lo: nat, hi: nat, mid: seq<Tile>)
    requires lo <= hi <= |ts|
    ensures Live(ts) == Live(ts[..lo]) + Live(ts[lo..hi]) + Live(ts[hi..])
    ensures Live(Replace(ts, lo, hi, mid)) == Live(ts[..lo]) + Live(mid) + Live(ts[hi..])
  {
    assert ts == ts[..lo] + ts[lo..hi] + ts[hi..];
    LiveConcat(ts[..lo] + ts[lo..hi], ts[hi..]);
    LiveConcat(ts[..lo], ts[lo..hi]);
    LiveConcat(ts[..lo] + mid, ts[hi..]);
    LiveConcat(ts[..lo], mid);
  }

  // ---------------------------------------------------------------- the operations

  /** The run of free tiles around the live tile k holds no other live tile. */
  lemma RunLive(ts: seq<Tile>, lo: nat, k: nat, hi: nat)
    requires k < |ts| && ts[k].used
    requires lo == k || (lo + 1 == k && !ts[lo].used)
    requires hi == k + 1 || (hi == k + 2 <= |ts| && !ts[k + 1].used)
    ensures Live(ts[lo..hi]) == [ts[k]]
  {
    var left, right := ts[lo..k], ts[k + 1..hi];
    assert ts[lo..hi] == left + [ts[k]] + right;
    LiveConcat(left + [ts[k]], right);
    LiveConcat(left, [ts[k]]);
    assert left == [] || left == [ts[lo]];
    assert right == [] || right == [ts[k + 1]];
  }

  lemma LiveSmall(t: Tile, u: Tile)
    ensures Live([t]) == if t.used then [t] else []
    ensures Live([t, u]) == Live([t]) + Live([u])
  {
    LiveConcat([t], [u]);
    assert [t, u] == [t] + [u];
  }

  /** Carving a tile is splitting it when there is room for another block, then marking it used. */
  lemma CarveBySteps(ts: seq<Tile>, k: nat, n: nat, cut: nat, us: seq<Tile>)
    requires k < |ts| && cut == ts[k].off + HEADER + n
    requires us == if ts[k].Room() >= n + HEADER + MIN_SIZE then SplitTiles(ts, k, cut) else ts
    ensures k < |us| && us[k].off == ts[k].off
    ensures MarkTiles(us, k, true) == Replace(ts, k, k + 1, Carve(ts[k], n))
  {}

  /** Shrinking live tile k is splitting it and then releasing the rest. */
  lemma ShrinkBySteps(ts: seq<Tile>, k: nat, n: nat, cut: nat, us: seq<Tile>)
    requires k < |ts| && ts[k].used
    requires cut == ts[k].off + HEADER + n && us == SplitTiles(ts, k, cut)
    ensures k + 1 < |us| && us[k + 1] == Tile(cut, ts[k].next, false)
    ensures RunStart(us, k + 1) == k + 1
    ensures us[RunEnd(us, k + 1) - 1].next == ts[RunEnd(ts, k) - 1].next
    ensures FreeAt(us, k + 1) == ShrinkAt(ts, k, n)
  {
    assert us[k].used;
    assert k + 1 < |ts| ==> us[k + 2] == ts[k + 1];
    assert RunEnd(us, k + 1) == RunEnd(ts, k) + 1;
    assert us[RunEnd(us, k + 1)..] == ts[RunEnd(ts, k)..];
    assert us[..k + 1] == ts[..k] + [Tile(ts[k].off, cut, true)];
  }

  lemma CarveLive(t: Tile, n: nat)
    ensures Live(Carve(t, n)) == [Carve(t, n)[0]]
  {
    var mid := Carve(t, n);
    LiveSmall(mid[0], mid[|mid| - 1]);
    LiveSmall(mid[|mid| - 1], mid[0]);
  }

  /** Releasing a live tile keeps the heap well tiled. */
  lemma FreeWellTiled(ts: seq<Tile>, e: nat, k: nat)
    requires WellTiled(ts, e) && k < |ts| && ts[k].used
    ensures WellTiled(FreeAt(ts, k), e)
  {
    var lo, hi := RunStart(ts, k), RunEnd(ts, k);
    var mid := [Tile(ts[lo].off, ts[hi - 1].next, false)];
    OrderedAll(ts, e);
    ReplaceTiled(ts, e, lo, hi, mid);
    ReplaceSpaced(ts, lo, hi, mid);
  }

  /** Releasing a live tile removes exactly that tile from the live ones. */
  lemma FreeLive(ts: seq<Tile>, k: nat) returns (pre: seq<Tile>, post: seq<Tile>)
    requires k < |ts| && ts[k].used
    ensures Live(ts) == pre + [ts[k]] + post
    ensures Live(FreeAt(ts, k)) == pre + post
  {
    var lo, hi := RunStart(ts, k), RunEnd(ts, k);
    var hole := Tile(ts[lo].off, ts[hi - 1].next, false);
    ReplaceLive(ts, lo, hi, [hole]);
    RunLive(ts, lo, k, hi);
    LiveSmall(hole, hole);
    pre, post := Live(ts[..lo]), Live(ts[hi..]);
  }

  /** Allocation keeps the heap well tiled. */
  lemma AllocWellTiled(ts: seq<Tile>, e: nat, n: nat)
    requires WellTiled(ts, e)
    ensures WellTiled(AllocTiles(ts, n), e)
  {
    var k := FirstFit(ts, n);
    if k < |ts| {
      var mid := Carve(ts[k], n);
      assert Chained(mid);
      ReplaceTiled(ts, e, k, k + 1, mid);
      ReplaceSpaced(ts, k, k + 1, mid);
    }
  }

  /**
   * Allocation that finds room adds exactly one live tile, carved from the front of the lowest free
   * tile with room; it holds at least n bytes and wastes less than a header and a minimal block.
   */
  lemma AllocLive(ts: seq<Tile>, n: nat) returns (pre: seq<Tile>, t: Tile, post: seq<Tile>)
    requires FirstFit(ts, n) < |ts|
    ensures t.used && t.off == ts[FirstFit(ts, n)].off && n <= t.Room() < n + HEADER + MIN_SIZE
    ensures t == Carve(ts[FirstFit(ts, n)], n)[0]
    ensures Live(ts) == pre + post
    ensures Live(AllocTiles(ts, n)) == pre + [t] + post
  {
    var k := FirstFit(ts, n);
    var mid := Carve(ts[k], n);
    ReplaceLive(ts, k, k + 1, mid);
    assert ts[k..k + 1] == [ts[k]];
    pre, t, post := Live(ts[..k]), mid[0], Live(ts[k + 1..]);
    LiveSmall(ts[k], ts[k]);
    CarveLive(ts[k], n);
  }

  lemma ShrinkTiled(ts: seq<Tile>, e: nat, k: nat, n: nat)
    requires Tiled(ts, e) && k < |ts|
    requires n + HEADER <= ts[k].Room()
    ensures Tiled(ShrinkAt(ts, k, n), e)
  {
    var hi, cut := RunEnd(ts, k), ts[k].off + HEADER + n;
    assert hi == k + 2 ==> ts[k].next == ts[k + 1].off;
    var mid := [Tile(ts[k].off, cut, true), Tile(cut, ts[hi - 1].next, false)];
    assert Chained(mid);
    ReplaceTiled(ts, e, k, hi, mid);
  }

  lemma ShrinkSpaced(ts: seq<Tile>, k: nat, n: nat)
    requires Spaced(ts) && k < |ts| && ts[k].used
    ensures Spaced(ShrinkAt(ts, k, n))
  {
    var hi, cut := RunEnd(ts, k), ts[k].off + HEADER + n;
    assert hi < |ts| ==> ts[hi].used;
    ReplaceSpaced(ts, k, hi, [Tile(ts[k].off, cut, true), Tile(cut, ts[hi - 1].next, false)]);
  }

  /** Shrinking in place narrows exactly the one live tile. */
  lemma ShrinkLive(ts: seq<Tile>, k: nat, n: nat) returns (pre: seq<Tile>, post: seq<Tile>)
    requires k < |ts| && ts[k].used
    ensures Live(ts) == pre + [ts[k]] + post
    ensures Live(ShrinkAt(ts, k, n)) == pre + [Tile(ts[k].off, ts[k].off + HEADER + n, true)] + post
  {
    var hi, cut := RunEnd(ts, k), ts[k].off + HEADER + n;
    var kept, hole := Tile(ts[k].off, cut, true), Tile(cut, ts[hi - 1].next, false);
    ReplaceLive(ts, k, hi, [kept, hole]);
    RunLive(ts, k, k, hi);
    LiveSmall(kept, hole);
    LiveSmall(hole, kept);
    pre, post := Live(ts[..k]), Live(ts[hi..]);
  }

  // What the operations do to the number of bytes in use.

  lemma {:induction false} InUseIsLive(ts: seq<Tile>)
    ensures InUse(ts) == Bytes(Live(ts))
  {
    if ts != [] {
      var a, t := ts[..|ts| - 1], ts[|ts| - 1];
      assert ts == a + [t];
      InUseIsLive(a);
      LiveConcat(a, [t]);
      LiveSmall(t, t);
      BytesConcat(Live(a), Live([t]));
    }
  }

  lemma BytesAround(pre: seq<Tile>, t: Tile, post: seq<Tile>)
    ensures Bytes(pre + [t] + post) == Bytes(pre + post) + t.Size()
  {
    BytesConcat(pre + [t], post);
    BytesConcat(pre, [t]);
    BytesConcat(pre, post);
  }

  lemma FreeBytes(ts: seq<Tile>, k: nat)
    requires k < |ts| && ts[k].used
    ensures InUse(FreeAt(ts, k)) == InUse(ts) - ts[k].Size()
  {
    var pre, post := FreeLive(ts, k);
    BytesAround(pre, ts[k], post);
    InUseIsLive(ts);
    InUseIsLive(FreeAt(ts, k));
  }

  lemma AllocBytes(ts: seq<Tile>, n: nat)
    requires FirstFit(ts, n) < |ts|
    ensures InUse(AllocTiles(ts, n)) == InUse(ts) + Carve(ts[FirstFit(ts, n)], n)[0].Size()
  {
    var pre, t, post := AllocLive(ts, n);
    BytesAround(pre, t, post);
    InUseIsLive(ts);
    InUseIsLive(AllocTiles(ts, n));
  }

  lemma ShrinkBytes(ts: seq<Tile>, k: nat, n: nat)
    requires k < |ts| && ts[k].used && n <= ts[k].Room()
    ensures InUse(ShrinkAt(ts, k, n)) == InUse(ts) - (ts[k].Room() - n)
  {
    InUseIsLive(ts);
    InUseIsLive(ShrinkAt(ts, k, n));
    var pre, post := ShrinkLive(ts, k, n);
    BytesAround(pre, ts[k], post);
    BytesAround(pre, Tile(ts[k].off, ts[k].off + HEADER + n, true), post);
  }

  // What the operations do to the lowest free tile.

  lemma FirstFreeIs(ts: seq<Tile>, k: nat)
    requires k <= |ts| && forall i :: 0 <= i < k ==> ts[i].used
    requires k < |ts| ==> !ts[k].used
    ensures FirstFree(ts) == k
  {}

  /** Splitting live tile k makes the rest the lowest free tile if it lies below the old one. */
  lemma SplitLowest(ts: seq<Tile>, e: nat, k: nat, cut: nat)
    requires Tiled(ts, e) && k < |ts| && ts[k].used
    requires ts[k].off <= cut < ts[k].next
    ensures LowestFree(SplitTiles(ts, k, cut), e) == if cut < LowestFree(ts, e) then cut else LowestFree(ts, e)
  {
    var us := SplitTiles(ts, k, cut);
    var j := FirstFree(ts);
    OrderedAll(ts, e);
    if j < k {
      FirstFreeIs(us, j);
      assert ts[j].next <= ts[k].off;
    } else {
      FirstFreeIs(us, k + 1);
      assert j < |ts| ==> ts[k].next <= ts[j].off;
    }
  }

  /** Using up tile k matters to the lowest free tile only if it was the lowest. */
  lemma CarveLowest(ts: seq<Tile>, e: nat, k: nat, mid: seq<Tile>)
    requires k < |ts| && !ts[k].used && |mid| > 0 && mid[0].used
    requires FirstFree(ts) != k
    ensures LowestFree(Replace(ts, k, k + 1, mid), e) == LowestFree(ts, e)
  {
    FirstFreeIs(Replace(ts, k, k + 1, mid), FirstFree(ts));
  }

  /** The lowest free tile is tile k exactly when its offset says so. */
  lemma LowestIs(ts: seq<Tile>, e: nat, k: nat)
    requires Tiled(ts, e) && k < |ts| && !ts[k].used
    ensures LowestFree(ts, e) == ts[k].off <==> FirstFree(ts) == k
  {
    OrderedAll(ts, e);
  }

  /** No free tile holds more than lies between it and the end of the heap. */
  lemma NoFitBeyond(ts: seq<Tile>, e: nat, n: nat, j: nat)
    requires Tiled(ts, e) && j <= |ts|
    requires forall i :: 0 <= i < j ==> !ts[i].Fits(n)
    requires j < |ts| ==> e < ts[j].off + HEADER + n
    ensures FirstFit(ts, n) == |ts|
  {
    OrderedAll(ts, e);
    forall i | 0 <= i < |ts| ensures !ts[i].Fits(n) {
      assert j < i ==> ts[j].next <= ts[i].off;
    }
  }

  /** Widening a free tile over its successors moves no lowest free tile. */
  lemma JoinLowest(ts: seq<Tile>, e: nat, k: nat)
    requires Tiled(ts, e) && k + 1 < |ts| && !ts[k].used
    ensures LowestFree(JoinTiles(ts, k), e) == LowestFree(ts, e) < ts[k + 1].off
  {
    OrderedAll(ts, e);
    assert FirstFree(ts) <= k;
    FirstFreeIs(JoinTiles(ts, k), FirstFree(ts));
  }

  /** Freeing tile k makes it the lowest free one if it lies below the old one. */
  lemma MarkLowest(ts: seq<Tile>, e: nat, k: nat)
    requires Tiled(ts, e) && k < |ts|
    ensures LowestFree(MarkTiles(ts, k, false), e)
         == if ts[k].off < LowestFree(ts, e) then ts[k].off else LowestFree(ts, e)
  {
    OrderedAll(ts, e);
    var j := FirstFree(ts);
    FirstFreeIs(MarkTiles(ts, k, false), if k < j then k else j);
  }

  // Every operation keeps block offsets aligned.

  lemma ReplaceAligned(ts: seq<Tile>, lo: nat, hi: nat, mid: seq<Tile>)
    requires Aligned(ts) && lo <= hi <= |ts| && Aligned(mid)
    ensures Aligned(Replace(ts, lo, hi, mid))
  {}

  lemma AllocAligned(ts: seq<Tile>, n: nat)
    requires Aligned(ts) && n % 4 == 0
    ensures Aligned(AllocTiles(ts, n))
  {
    var k := FirstFit(ts, n);
    if k < |ts| {
      ReplaceAligned(ts, k, k + 1, Carve(ts[k], n));
    }
  }

  lemma FreeAligned(ts: seq<Tile>, k: nat)
    requires Aligned(ts) && k < |ts|
    ensures Aligned(FreeAt(ts, k))
  {
    var lo, hi := RunStart(ts, k), RunEnd(ts, k);
    ReplaceAligned(ts, lo, hi, [Tile(ts[lo].off, ts[hi - 1].next, false)]);
  }

  lemma ShrinkAligned(ts: seq<Tile>, n: nat, k: nat)
    requires Aligned(ts) && n % 4 == 0 && k < |ts|
    ensures Aligned(ShrinkAt(ts, k, n))
  {
    var hi, cut := RunEnd(ts, k), ts[k].off + HEADER + n;
    assert cut % 4 == 0;
    ReplaceAligned(ts, k, hi, [Tile(ts[k].off, cut, true), Tile(cut, ts[hi - 1].next, false)]);
  }

  lemma ReallocAligned(ts: seq<Tile>, k: nat, n: nat)
    requires Aligned(ts) && n % 4 == 0 && k < |ts|
    ensures Aligned(ReallocTiles(ts, k, n))
  {
    ShrinkAligned(ts, n, k);
    AllocAligned(ts, AtLeastMin(n));
    var us := AllocTiles(ts, AtLeastMin(n));
    var i := IndexOf(us, ts[k].off);
    if i < |us| {
      FreeAligned(us, i);
    }
  }

  /** The largest number of bytes in use while tile k is being reallocated. */
  function ReallocPeak(ts: seq<Tile>, k: nat, n: nat): nat
    requires k < |ts|
  {
    if ReallocPlan(ts, k, n).Move? then InUse(AllocTiles(ts, AtLeastMin(n))) else InUse(ts)
  }

  /** Tile k with a free successor joined to it. */
  function JoinRight(ts: seq<Tile>, k: nat): (r: seq<Tile>)
    requires k < |ts|
    ensures k < |r|
  {
    if RunEnd(ts, k) == k + 2 then JoinTiles(ts, k) else ts
  }

  /** Tile k joined to a free predecessor. */
  function JoinLeft(ts: seq<Tile>, k: nat): seq<Tile>
    requires k < |ts|
  {
    if RunStart(ts, k) < k then JoinTiles(ts, k - 1) else ts
  }

  lemma JoinRightShape(ts: seq<Tile>, k: nat)
    requires k < |ts| && Chained(ts)
    ensures ts[RunStart(ts, k)].off <= ts[k].off
    ensures var us, lo, hi := JoinRight(ts, k), RunStart(ts, k), RunEnd(ts, k);
            && RunStart(us, k) == lo
            && us[lo].off == ts[lo].off
            && us[k] == Tile(ts[k].off, ts[hi - 1].next, ts[k].used)
  {
    assert k > 0 ==> JoinRight(ts, k)[k - 1] == ts[k - 1];
  }

  /** Joining right, then left, is what releasing a tile amounts to. */
  lemma JoinBoth(ts: seq<Tile>, k: nat)
    requires k < |ts| && !ts[k].used
    ensures JoinLeft(JoinRight(ts, k), k) == FreeAt(ts, k)
  {
    var us := JoinRight(ts, k);
    var lo, hi := RunStart(ts, k), RunEnd(ts, k);
    assert k > 0 ==> us[k - 1] == ts[k - 1];
    assert us[k + 1..] == ts[hi..];
    assert us[..lo] == ts[..lo];
    if lo == k {
      assert us == us[..k] + [us[k]] + us[k + 1..];
    }
  }

  lemma MarkedRun(ts: seq<Tile>, k: nat)
    requires k < |ts| && Chained(ts)
    ensures var m, lo, hi := MarkTiles(ts, k, false), RunStart(ts, k), RunEnd(ts, k);
            && RunStart(m, k) == lo && RunEnd(m, k) == hi
            && m[lo].off == ts[lo].off && m[hi - 1].next == ts[hi - 1].next
            && ts[lo].off <= ts[k].off && ts[k].off + HEADER <= ts[hi - 1].next
  {
    assert k + 1 < |ts| ==> ts[k].next == ts[k + 1].off;
  }

  /** Releasing a tile is the same whether or not it has been marked free already. */
  lemma FreeMarked(ts: seq<Tile>, k: nat)
    requires k < |ts|
    ensures FreeAt(MarkTiles(ts, k, false), k) == FreeAt(ts, k)
  {
    var m := MarkTiles(ts, k, false);
    var lo, hi := RunStart(ts, k), RunEnd(ts, k);
    assert RunStart(m, k) == lo && RunEnd(m, k) == hi;
  }

  /** Releasing a live tile: well tiled, and its bytes leave the account. */
  lemma FreeCorrect(ts: seq<Tile>, e: nat, k: nat)
    requires WellTiled(ts, e) && k < |ts| && ts[k].used
    ensures Spaced(FreeAt(ts, k))
    ensures FreeAt(MarkTiles(ts, k, false), k) == FreeAt(ts, k)
    ensures InUse(FreeAt(ts, k)) == InUse(ts) - ts[k].Size()
    ensures FreeTiles(ts, ts[k].off) == FreeAt(ts, k)
  {
    FreeWellTiled(ts, e, k);
    FreeBytes(ts, k);
    FreeMarked(ts, k);
    IndexOfTile(ts, e, k);
  }

  /** Allocating: well tiled, and the new block enters the account. */
  lemma AllocCorrect(ts: seq<Tile>, e: nat, n: nat)
    requires WellTiled(ts, e) && FirstFit(ts, n) < |ts|
    ensures Spaced(AllocTiles(ts, n))
    ensures InUse(AllocTiles(ts, n)) == InUse(ts) + Carve(ts[FirstFit(ts, n)], n)[0].Size()
  {
    AllocWellTiled(ts, e, n);
    AllocBytes(ts, n);
  }

  /** The new block is found, live, at the offset of the tile it was carved from. */
  lemma AllocFound(ts: seq<Tile>, e: nat, n: nat)
    requires WellTiled(ts, e) && FirstFit(ts, n) < |ts|
    ensures var k, us := FirstFit(ts, n), AllocTiles(ts, n);
            k < |us| && IndexOf(us, ts[k].off) == k && us[k].used
  {
    AllocWellTiled(ts, e, n);
    IndexOfTile(AllocTiles(ts, n), e, FirstFit(ts, n));
  }

  /** Live blocks survive an allocation where they are. */
  lemma AllocSurvives(ts: seq<Tile>, n: nat, t: Tile)
    requires t in ts && t.used
    ensures t in AllocTiles(ts, n)
  {
    var k := FirstFit(ts, n);
    var i := IndexIn(ts, t);
    if k < |ts| {
      var us, mid := AllocTiles(ts, n), Carve(ts[k], n);
      assert i != k;
      assert i < k ==> us[i] == t;
      assert i > k ==> us[i - 1 + |mid|] == t;
    }
  }

  lemma IndexIn(ts: seq<Tile>, t: Tile) returns (i: nat)
    requires t in ts
    ensures i < |ts| && ts[i] == t
  {
    i :| 0 <= i < |ts| && ts[i] == t;
  }

  /** Live blocks survive the release of another block where they are. */
  lemma FreeSurvives(ts: seq<Tile>, k: nat, t: Tile)
    requires k < |ts| && t in ts && t.used && t != ts[k]
    ensures t in FreeAt(ts, k)
  {
    var lo, hi := RunStart(ts, k), RunEnd(ts, k);
    var i := IndexIn(ts, t);
    var us := FreeAt(ts, k);
    assert i < lo || hi <= i;
    assert i < lo ==> us[i] == t;
    assert hi <= i ==> us[i - (hi - lo) + 1] == t;
  }

  lemma FitsIff(ts: seq<Tile>, n: nat)
    ensures FirstFit(ts, n) == |ts| <==> forall t :: t in ts ==> !t.Fits(n)
  {
    if FirstFit(ts, n) < |ts| {
      assert ts[FirstFit(ts, n)] in ts;
    }
  }

  /** Shrinking: well tiled, the bytes cut off leave the account, the block stays and the others survive. */
  lemma ShrinkCorrect(ts: seq<Tile>, e: nat, k: nat, n: nat)
    requires WellTiled(ts, e) && k < |ts| && ts[k].used && n + HEADER <= ts[k].Room()
    ensures Spaced(ShrinkAt(ts, k, n))
    ensures InUse(ShrinkAt(ts, k, n)) == InUse(ts) - (ts[k].Room() - n)
    ensures IndexOf(ShrinkAt(ts, k, n), ts[k].off) == k
  {
    ShrinkSpaced(ts, k, n);
    ShrinkBytes(ts, k, n);
    ShrinkTiled(ts, e, k, n);
    IndexOfTile(ShrinkAt(ts, k, n), e, k);
  }

  lemma ShrinkSurvives(ts: seq<Tile>, k: nat, n: nat, t: Tile)
    requires k < |ts| && t in ts && t.used && t != ts[k]
    ensures t in ShrinkAt(ts, k, n)
  {
    var hi := RunEnd(ts, k);
    var us := ShrinkAt(ts, k, n);
    var i := IndexIn(ts, t);
    assert i < k || hi <= i;
    assert i < k ==> us[i] == t;
    assert hi <= i ==> us[i - (hi - k) + 2] == t;
  }

  // ---------------------------------------------------------------- recovery

  /** Releasing a block right after allocating it restores the tiles exactly (hence lfree too). */
  lemma AllocThenFree(ts: seq<Tile>, e: nat, n: nat)
    requires WellTiled(ts, e)
    requires FirstFit(ts, n) < |ts|
    ensures FreeTiles(AllocTiles(ts, n), ts[FirstFit(ts, n)].off) == ts
  {
    var k, r := FirstFit(ts, n), AllocTiles(ts, n);
    AllocWellTiled(ts, e, n);
    IndexOfTile(r, e, k);
    CarveThenFree(ts, k, n);
  }

  lemma CarveThenFree(ts: seq<Tile>, k: nat, n: nat)
    requires Spaced(ts) && k < |ts| && !ts[k].used
    ensures FreeAt(Replace(ts, k, k + 1, Carve(ts[k], n)), k) == ts
  {
    var mid := Carve(ts[k], n);
    var r := Replace(ts, k, k + 1, mid);
    assert k > 0 ==> ts[k - 1].used && r[k - 1] == ts[k - 1];
    assert k + 1 < |ts| ==> ts[k + 1].used && r[k + |mid|] == ts[k + 1];
    assert r[k] == mid[0] && r[k + |mid| - 1] == mid[|mid| - 1];
    ReplaceBack(ts, k, k + 1, mid);
    assert ts[k..k + 1] == [ts[k]];
  }

  /** A heap with no live block is one free tile, as after initialisation. */
  lemma NothingLive(ts: seq<Tile>, e: nat)
    requires WellTiled(ts, e) && Live(ts) == []
    ensures ts == [Tile(0, e, false)]
  {
    LiveIff(ts, ts[0]);
    if |ts| > 1 {
      LiveIff(ts, ts[1]);
    }
  }

  /** Releases the blocks at the given offsets, one after the other. */
  function FreeEach(ts: seq<Tile>, offs: seq<nat>): seq<Tile>
    decreases |offs|
  {
    if offs == [] then ts else FreeEach(FreeTiles(ts, offs[0]), offs[1..])
  }

  function Offsets(ts: seq<Tile>): (r: seq<nat>)
    ensures |r| == |ts|
  {
    seq(|ts|, i requires 0 <= i < |ts| => ts[i].off)
  }

  /** Releasing every live block once, in any order, leaves one free tile. */
  lemma {:induction false} FreeEverything(ts: seq<Tile>, e: nat, offs: seq<nat>)
    requires WellTiled(ts, e)
    requires multiset(offs) == multiset(Offsets(Live(ts)))
    ensures FreeEach(ts, offs) == [Tile(0, e, false)]
    decreases |offs|
  {
    if offs == [] {
      assert |multiset(Offsets(Live(ts)))| == 0;
      NothingLive(ts, e);
    } else {
      var k := LiveAt(ts, offs);
      IndexOfTile(ts, e, k);
      var pre, post := FreeLive(ts, k);
      FreeWellTiled(ts, e, k);
      RemoveOffset(pre, ts[k], post, offs);
      FreeEverything(FreeAt(ts, k), e, offs[1..]);
    }
  }

  lemma LiveAt(ts: seq<Tile>, offs: seq<nat>) returns (k: nat)
    requires offs != [] && multiset(offs) == multiset(Offsets(Live(ts)))
    ensures k < |ts| && ts[k].used && ts[k].off == offs[0]
  {
    assert offs[0] in multiset(offs);
    var i :| 0 <= i < |Live(ts)| && Live(ts)[i].off == offs[0];
    LiveIff(ts, Live(ts)[i]);
    k :| 0 <= k < |ts| && ts[k] == Live(ts)[i];
  }

  lemma RemoveOffset(pre: seq<Tile>, t: Tile, post: seq<Tile>, offs: seq<nat>)
    requires offs != [] && offs[0] == t.off
    requires multiset(offs) == multiset(Offsets(pre + [t] + post))
    ensures multiset(offs[1..]) == multiset(Offsets(pre + post))
  {
    assert Offsets(pre + [t] + post) == Offsets(pre) + [t.off] + Offsets(post);
    assert Offsets(pre + post) == Offsets(pre) + Offsets(post);
    assert offs == [t.off] + offs[1..];
    calc {
      multiset(offs[1..]);
      multiset(offs) - multiset{t.off};
      multiset(Offsets(pre) + [t.off] + Offsets(post)) - multiset{t.off};
      multiset(Offsets(pre) + Offsets(post));
    }
  }
}
