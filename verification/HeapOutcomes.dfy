/** What the operations of the small-memory allocator promise, as relations between heap states. */
module HeapOutcomes {
  import opened Machine
  import opened ByteMemory
  import opened Tiling
  import opened HeapBytes

  datatype Option<+T> = None | Some(value: T)

  /**
   * The outcome r of allocating n bytes: refused, with nothing changed, exactly when no free block
   * has room; otherwise the lowest one with room becomes, or yields, the live block at r.
   */
  ghost predicate Allocated(ts: seq<Tile>, us: seq<Tile>, r: Option<nat>, n: nat) {
    && (r == None <==> forall t :: t in ts ==> !t.Fits(n))
    && us == AllocTiles(ts, n)
    && (r == None ==> us == ts)
    && (r.Some? ==> HEADER <= r.value && IndexOf(ts, r.value - HEADER) == FirstFit(ts, n) && IsLiveIn(us, r.value))
  }

  lemma AllocatedAt(ts: seq<Tile>, e: nat, n: nat, ptr: nat)
    requires WellTiled(ts, e) && FirstFit(ts, n) < |ts| && ptr == ts[FirstFit(ts, n)].off
    ensures Allocated(ts, AllocTiles(ts, n), Some(ptr + HEADER), n)
  {
    FitsIff(ts, n);
    AllocFound(ts, e, n);
    IndexOfTile(ts, e, FirstFit(ts, n));
  }

  lemma AllocRefused(ts: seq<Tile>, n: nat)
    requires FirstFit(ts, n) == |ts|
    ensures Allocated(ts, ts, None, n)
  {
    FitsIff(ts, n);
  }

  /** How many bytes of the data of block t a reallocation to n bytes keeps. */
  function DataKept(t: Tile, n: nat): nat {
    if 0 <= t.Room() < n then t.Room() else n
  }

  /** Where the data of live tile k, at mem, is after a reallocation to n bytes. */
  function NewPlace(ts: seq<Tile>, mem: nat, k: nat, n: nat): nat
    requires k < |ts|
  {
    var j := FirstFit(ts, AtLeastMin(n));
    if ReallocPlan(ts, k, n).Move? && j < |ts| then ts[j].off + HEADER else mem + HEADER
  }

  /**
   * The outcome r of reallocating live tile k, at mem, to n bytes: refused exactly when neither the
   * block itself nor any free block will do; otherwise the tiles change as planned and the data moves.
   */
  ghost predicate Resized(ts: seq<Tile>, m: seq<Byte>, us: seq<Tile>, m': seq<Byte>, r: Option<nat>, mem: nat, k: nat, n: nat) {
    && k < |ts|
    && (r == None <==> ReallocPlan(ts, k, n) == Refuse)
    && us == ReallocTiles(ts, k, n)
    && (r.Some? ==> r.value == NewPlace(ts, mem, k, n))
    && (r.Some? ==> Moved(ts, m, us, m', r.value, n, mem, DataKept(ts[k], n)))
  }

  /** The same, for the block whose data address is ptr. */
  ghost predicate Reallocated(ts: seq<Tile>, m: seq<Byte>, us: seq<Tile>, m': seq<Byte>, r: Option<nat>, ptr: nat, n: nat) {
    HEADER <= ptr && Resized(ts, m, us, m', r, ptr - HEADER, IndexOf(ts, ptr - HEADER), n)
  }

  // The four outcomes of a reallocation, each from what its branch establishes.

  lemma ResizedByKeeping(ts: seq<Tile>, m: seq<Byte>, e: nat, mem: nat, k: nat, n: nat)
    requires Tiled(ts, e) && |m| == e + HEADER && k < |ts| && ts[k].used && ts[k].off == mem && ts[k].Room() == n
    ensures Resized(ts, m, ts, m, Some(mem + HEADER), mem, k, n)
    ensures ReallocPeak(ts, k, n) == InUse(ts)
  {
    KeepMoved(m, ts, e, k, mem);
  }

  lemma ResizedByShrinking(ts: seq<Tile>, m: seq<Byte>, us: seq<Tile>, m': seq<Byte>, mem: nat, k: nat, n: nat)
    requires k < |ts| && ts[k].off == mem && n + HEADER + MIN_SIZE < ts[k].Room()
    requires us == ShrinkAt(ts, k, n) && Moved(ts, m, us, m', mem + HEADER, n, mem, n)
    ensures Resized(ts, m, us, m', Some(mem + HEADER), mem, k, n)
    ensures ReallocPeak(ts, k, n) == InUse(ts)
  {}

  lemma ResizedByMoving(ts: seq<Tile>, m: seq<Byte>, us: seq<Tile>, m': seq<Byte>, r: nat, mem: nat, k: nat, n: nat, size: nat)
    requires k < |ts| && ts[k].off == mem && n != size == ts[k].Room() <= n + HEADER + MIN_SIZE
    requires FirstFit(ts, AtLeastMin(n)) < |ts| && us == FreeTiles(AllocTiles(ts, AtLeastMin(n)), mem)
    requires Moved(ts, m, us, m', r, n, mem, if size < n then size else n) && r == ts[FirstFit(ts, AtLeastMin(n))].off + HEADER
    ensures Resized(ts, m, us, m', Some(r), mem, k, n)
    ensures ReallocPeak(ts, k, n) == InUse(AllocTiles(ts, AtLeastMin(n)))
  {}

  lemma ResizeRefused(ts: seq<Tile>, m: seq<Byte>, mem: nat, k: nat, n: nat)
    requires k < |ts| && n != ts[k].Room() <= n + HEADER + MIN_SIZE && FirstFit(ts, AtLeastMin(n)) == |ts|
    ensures Resized(ts, m, ts, m, None, mem, k, n)
    ensures ReallocPeak(ts, k, n) == InUse(ts)
  {}

  // ---------------------------------------------------------------- the outcomes in numbers of bytes

  /** There is a live block whose data begins at ptr and has from lo to hi bytes. */
  ghost predicate BlockAt(ts: seq<Tile>, ptr: nat, lo: nat, hi: nat) {
    exists t :: t in ts && t.used && t.off + HEADER == ptr && lo <= t.next - ptr <= hi
  }

  /** Every free block has fewer than n data bytes. */
  ghost predicate NoRoom(ts: seq<Tile>, n: nat) {
    forall t :: t in ts && !t.used ==> t.next - t.off - HEADER < n
  }

  /**
   * n bytes are refused exactly when every free block is smaller; the block handed out is that large,
   * and what it is larger by would not make a block.
   */
  ghost predicate Served(ts: seq<Tile>, us: seq<Tile>, r: Option<nat>, n: nat) {
    && (r == None <==> NoRoom(ts, n))
    && (r.Some? ==> BlockAt(us, r.value, n, n + HEADER + MIN_SIZE - 1))
  }

  lemma BlockIsAt(ts: seq<Tile>, t: Tile, lo: nat, hi: nat)
    requires t in ts && t.used && lo <= t.Room() <= hi
    ensures BlockAt(ts, t.off + HEADER, lo, hi)
  {}

  lemma NoRoomIff(ts: seq<Tile>, n: nat)
    ensures NoRoom(ts, n) <==> forall t :: t in ts ==> !t.Fits(n)
  {
    if forall t :: t in ts ==> !t.Fits(n) {
      forall t | t in ts && !t.used ensures t.next - t.off - HEADER < n {
        assert !t.Fits(n);
      }
    }
  }

  lemma AllocatedServed(ts: seq<Tile>, us: seq<Tile>, r: Option<nat>, n: nat)
    requires Allocated(ts, us, r, n)
    ensures Served(ts, us, r, n)
  {
    hide AllocTiles, NoRoom;
    NoRoomIff(ts, n);
    FitsIff(ts, n);
    if r.Some? {
      var pre, t, post := AllocLive(ts, n);
      LiveIff(us, t);
      BlockIsAt(us, t, n, n + HEADER + MIN_SIZE - 1);
    }
  }

  /**
   * A reallocation of live block t to n bytes: a block of that size, or of more than a header and a
   * minimal block beyond it, stays where it is and is cut to size; any other is served as a request
   * for n bytes, at least the minimum.
   */
  ghost predicate Resettled(ts: seq<Tile>, us: seq<Tile>, r: Option<nat>, t: Tile, n: nat) {
    var ptr, room := t.off + HEADER, t.next - t.off - HEADER;
    if room == n || n + HEADER + MIN_SIZE < room then r == Some(ptr) && BlockAt(us, ptr, n, n)
    else r != Some(ptr) && Served(ts, us, r, if n < MIN_SIZE then MIN_SIZE else n)
  }

  /** The data at ptr is at r now, as far as there is room for it on both sides. */
  ghost predicate DataFollows(m: seq<Byte>, m': seq<Byte>, r: nat, ptr: nat, room: nat, n: nat) {
    var c := if room < n then room else n;
    r + c <= |m'| && ptr + c <= |m| && m'[r..r + c] == m[ptr..ptr + c]
  }

  ghost predicate Refitted(ts: seq<Tile>, m: seq<Byte>, us: seq<Tile>, m': seq<Byte>, r: Option<nat>, t: Tile, n: nat) {
    && Resettled(ts, us, r, t, n)
    && (r.Some? && t.Room() >= 0 ==> DataFollows(m, m', r.value, t.off + HEADER, t.Room(), n))
  }

  lemma MovedServed(ts: seq<Tile>, e: nat, k: nat, n: nat)
    requires WellTiled(ts, e) && k < |ts| && ts[k].used && FirstFit(ts, n) < |ts|
    ensures ts[FirstFit(ts, n)].off != ts[k].off
    ensures BlockAt(FreeTiles(AllocTiles(ts, n), ts[k].off), ts[FirstFit(ts, n)].off + HEADER, n, n + HEADER + MIN_SIZE - 1)
  {
    hide AllocTiles, FreeAt, WellTiled;
    var us := AllocTiles(ts, n);
    var i := MoveSetup(ts, e, n, k);
    AllocWellTiled(ts, e, n);
    IndexIsAt(us, e, i);
    var pre, t, post := AllocLive(ts, n);
    LiveIff(us, t);
    assert t != us[i];
    FreeSurvives(us, i, t);
    BlockIsAt(FreeAt(us, i), t, n, n + HEADER + MIN_SIZE - 1);
  }

  lemma IndexIsAt(ts: seq<Tile>, e: nat, i: nat)
    requires WellTiled(ts, e) && i < |ts|
    ensures FreeTiles(ts, ts[i].off) == FreeAt(ts, i)
  {
    IndexOfTile(ts, e, i);
  }

  lemma ShrunkBlock(ts: seq<Tile>, k: nat, n: nat)
    requires k < |ts| && n + HEADER + MIN_SIZE < ts[k].Room()
    ensures BlockAt(ShrinkAt(ts, k, n), ts[k].off + HEADER, n, n)
  {
    var t := Tile(ts[k].off, ts[k].off + HEADER + n, true);
    assert ShrinkAt(ts, k, n)[k] == t;
    BlockIsAt(ShrinkAt(ts, k, n), t, n, n);
  }

  lemma ResizedSettled(ts: seq<Tile>, us: seq<Tile>, r: Option<nat>, mem: nat, k: nat, n: nat, e: nat, plan: Plan)
    requires WellTiled(ts, e) && k < |ts| && ts[k].used && ts[k].off == mem && plan == ReallocPlan(ts, k, n)
    requires (r == None <==> plan == Refuse) && us == ReallocTiles(ts, k, n) && (r.Some? ==> r.value == NewPlace(ts, mem, k, n))
    ensures Resettled(ts, us, r, ts[k], n)
  {
    hide WellTiled, ShrinkAt, FreeTiles, AllocTiles, BlockAt, NoRoom;
    var need := AtLeastMin(n);
    NoRoomIff(ts, need);
    FitsIff(ts, need);
    match plan {
      case Keep => BlockIsAt(ts, ts[k], n, n);
      case ShrinkInPlace => ShrunkBlock(ts, k, n);
      case Move => MovedServed(ts, e, k, need);
      case Refuse =>
    }
  }

  lemma ResizedRefitted(ts: seq<Tile>, m: seq<Byte>, us: seq<Tile>, m': seq<Byte>, r: Option<nat>, mem: nat, k: nat, n: nat, e: nat)
    requires WellTiled(ts, e) && k < |ts| && ts[k].used && ts[k].off == mem && Resized(ts, m, us, m', r, mem, k, n)
    ensures Refitted(ts, m, us, m', r, ts[k], n)
  {
    hide WellTiled, ReallocTiles, ReallocPlan, NewPlace, Resettled, OthersIntact, OthersSurvive, IsLiveIn;
    ResizedSettled(ts, us, r, mem, k, n, e, ReallocPlan(ts, k, n));
  }
}
