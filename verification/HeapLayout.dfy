/**
 * How the tiles of the small-memory heap are laid out: every tile starts with the three words
 * pool_ptr, next and prev, and a used header with no data closes the heap. A memory is seen here
 * as the sequence that gives, for each byte offset, the 32-bit word stored there.
 */
module HeapLayout {
  import opened Tiling

  type Words = seq<nat>

  predicate Holds(w: Words, p: nat, v: nat) {
    p < |w| && w[p] == v
  }

  /** pool_ptr of a block: the address of the memory object, with bit 0 telling whether it is used. */
  function Tag(pool: nat, used: bool): nat {
    if used then pool + 1 else pool
  }

  /** The first two header words of t. */
  ghost predicate Stamped(w: Words, pool: nat, t: Tile) {
    Holds(w, t.off, Tag(pool, t.used)) && Holds(w, t.off + 4, t.next)
  }

  ghost predicate Stamps(w: Words, ts: seq<Tile>, pool: nat) {
    forall i :: 0 <= i < |ts| ==> Stamped(w, pool, ts[i])
  }

  /** The prev word of every tile but the first names the tile before it. */
  ghost predicate BackLinks(w: Words, ts: seq<Tile>) {
    forall i, j :: 0 <= i && j == i + 1 < |ts| ==> Holds(w, ts[j].off + 8, ts[i].off)
  }

  /** The words w hold the tiles ts: every header, but not the prev word of the closing one. */
  ghost predicate Linked(w: Words, ts: seq<Tile>, e: nat, pool: nat) {
    && Tiled(ts, e)
    && |w| == e + HEADER
    && Stamps(w, ts, pool)
    && BackLinks(w, ts)
    && Holds(w, 8, 0)
    && Holds(w, e, Tag(pool, true))
    && Holds(w, e + 4, e)
  }

  // ---------------------------------------------------------------- replacing headers

  /** The same word at p in both memories. */
  ghost predicate Same(w: Words, r: Words, p: nat) {
    p < |w| && p < |r| && r[p] == w[p]
  }

  lemma RestampReplaced(w: Words, r: Words, ts: seq<Tile>, pool: nat, lo: nat, hi: nat, mid: seq<Tile>)
    requires Stamps(w, ts, pool) && lo <= hi <= |ts|
    requires forall i :: 0 <= i < lo || hi <= i < |ts| ==> Same(w, r, ts[i].off) && Same(w, r, ts[i].off + 4)
    requires Stamps(r, mid, pool)
    ensures Stamps(r, Replace(ts, lo, hi, mid), pool)
  {
    var us := Replace(ts, lo, hi, mid);
    forall i | 0 <= i < |us| ensures Stamped(r, pool, us[i]) {
      if i < lo {
        assert Stamped(w, pool, ts[i]);
      } else if i >= lo + |mid| {
        assert Stamped(w, pool, ts[i - |mid| + (hi - lo)]);
      }
    }
  }

  lemma RelinkReplaced(w: Words, r: Words, ts: seq<Tile>, lo: nat, hi: nat, mid: seq<Tile>)
    requires BackLinks(w, ts) && lo < hi <= |ts| && |mid| > 0
    requires forall i :: 0 < i < lo || hi < i < |ts| ==> Same(w, r, ts[i].off + 8)
    requires BackLinks(r, mid)
    requires lo > 0 ==> Holds(r, mid[0].off + 8, ts[lo - 1].off)
    requires hi < |ts| ==> Holds(r, ts[hi].off + 8, mid[|mid| - 1].off)
    ensures BackLinks(r, Replace(ts, lo, hi, mid))
  {
    var us := Replace(ts, lo, hi, mid);
    forall i, j | 0 <= i && j == i + 1 < |us| ensures Holds(r, us[j].off + 8, us[i].off) {
      if j < lo {
        assert us[i] == ts[i] && us[j] == ts[j];
      } else if j > lo + |mid| {
        var d := |mid| - (hi - lo);
        assert us[j] == ts[j - d] && us[i] == ts[i - d];
      }
    }
  }

  /** Every word outside [lo, hi) that does not overlap the one at x is as before. */
  ghost predicate Outside(w: Words, r: Words, lo: nat, hi: nat, x: nat) {
    |w| == |r| && forall q :: 0 <= q < |w| && (q + 4 <= lo || hi <= q) && (q + 4 <= x || x + 4 <= q) ==> r[q] == w[q]
  }

  /** A change confined to the extent of tiles [lo, hi) and one more prev word leaves the other headers alone. */
  lemma HeadersOutside(w: Words, r: Words, ts: seq<Tile>, e: nat, lo: nat, hi: nat)
    requires Tiled(ts, e) && lo < hi <= |ts| && |w| == e + HEADER
    requires Outside(w, r, ts[lo].off, ts[hi - 1].next, ts[hi - 1].next + 8)
    ensures forall i :: 0 <= i < lo || hi <= i < |ts| ==> Same(w, r, ts[i].off) && Same(w, r, ts[i].off + 4)
    ensures forall i :: 0 < i < lo || hi < i < |ts| ==> Same(w, r, ts[i].off + 8)
    ensures Same(w, r, e) && Same(w, r, e + 4)
    ensures lo > 0 ==> Same(w, r, 8)
  {
    OrderedAll(ts, e);
    forall i | 0 <= i < lo || hi <= i < |ts|
      ensures Same(w, r, ts[i].off) && Same(w, r, ts[i].off + 4)
      ensures i != hi ==> Same(w, r, ts[i].off + 8)
    {
      if i < lo {
        assert ts[i].off + HEADER <= ts[i].next <= ts[lo].off;
      } else {
        assert ts[hi - 1].next <= ts[i].off;
        if i != hi { assert ts[hi].next <= ts[i].off; }
      }
    }
    assert lo > 0 ==> ts[0].next <= ts[lo].off;
  }

  lemma RewriteStamps(w: Words, r: Words, ts: seq<Tile>, e: nat, pool: nat, lo: nat, hi: nat, mid: seq<Tile>)
    requires Tiled(ts, e) && |w| == e + HEADER && Stamps(w, ts, pool) && lo < hi <= |ts|
    requires Outside(w, r, ts[lo].off, ts[hi - 1].next, ts[hi - 1].next + 8)
    requires Stamps(r, mid, pool)
    ensures Stamps(r, Replace(ts, lo, hi, mid), pool)
  {
    HeadersOutside(w, r, ts, e, lo, hi);
    RestampReplaced(w, r, ts, pool, lo, hi, mid);
  }

  lemma RewriteLinks(w: Words, r: Words, ts: seq<Tile>, e: nat, lo: nat, hi: nat, mid: seq<Tile>)
    requires Tiled(ts, e) && |w| == e + HEADER && BackLinks(w, ts) && lo < hi <= |ts| && |mid| > 0
    requires mid[0].off == ts[lo].off
    requires Outside(w, r, ts[lo].off, ts[hi - 1].next, ts[hi - 1].next + 8)
    requires BackLinks(r, mid)
    requires Same(w, r, mid[0].off + 8)
    requires hi < |ts| ==> Holds(r, ts[hi].off + 8, mid[|mid| - 1].off)
    ensures BackLinks(r, Replace(ts, lo, hi, mid))
  {
    HeadersOutside(w, r, ts, e, lo, hi);
    assert lo > 0 ==> Holds(w, ts[lo].off + 8, ts[lo - 1].off);
    RelinkReplaced(w, r, ts, lo, hi, mid);
  }

  /**
   * General form of a header update: the new headers are there, the successor points back to them,
   * and nothing outside their extent changed.
   */
  lemma Rewrite(w: Words, r: Words, ts: seq<Tile>, e: nat, pool: nat, lo: nat, hi: nat, mid: seq<Tile>)
    requires Linked(w, ts, e, pool) && lo < hi <= |ts| && |mid| > 0
    requires mid[0].off == ts[lo].off && mid[|mid| - 1].next == ts[hi - 1].next && Chained(mid)
    requires Outside(w, r, ts[lo].off, ts[hi - 1].next, ts[hi - 1].next + 8)
    requires Stamps(r, mid, pool) && BackLinks(r, mid)
    requires Same(w, r, mid[0].off + 8)
    requires hi < |ts| ==> Holds(r, ts[hi].off + 8, mid[|mid| - 1].off)
    ensures Linked(r, Replace(ts, lo, hi, mid), e, pool)
  {
    ReplaceTiled(ts, e, lo, hi, mid);
    RewriteStamps(w, r, ts, e, pool, lo, hi, mid);
    RewriteLinks(w, r, ts, e, lo, hi, mid);
    HeadersOutside(w, r, ts, e, lo, hi);
  }

  // ---------------------------------------------------------------- the three header updates

  /** The words after storing v at offset p; words that overlap it partly are unspecified. */
  ghost predicate Stored(w: Words, r: Words, p: nat, v: nat) {
    && p < |w| == |r|
    && r[p] == v
    && forall q :: 0 <= q < |w| && (q + 4 <= p || p + 4 <= q) ==> r[q] == w[q]
  }

  /** What the words hold about tile k and the one behind it. */
  lemma HeaderOf(w: Words, ts: seq<Tile>, e: nat, pool: nat, k: nat)
    requires Linked(w, ts, e, pool) && k < |ts|
    ensures Stamped(w, pool, ts[k]) && ts[k].off + HEADER <= ts[k].next <= e && |w| == e + HEADER
    ensures k + 1 < |ts| ==>
              && ts[k].next == ts[k + 1].off && ts[k + 1].off + HEADER <= ts[k + 1].next <= e
              && Holds(w, ts[k + 1].off + 8, ts[k].off)
    ensures k + 1 == |ts| ==> ts[k].next == e
    ensures k + 2 < |ts| ==> ts[k + 1].next == ts[k + 2].off
  {
    Ends(ts, e, k);
    if k + 1 < |ts| {
      Ends(ts, e, k + 1);
    }
  }

  lemma OneTile(w: Words, pool: nat, t: Tile)
    requires t.off + HEADER <= t.next && Stamped(w, pool, t)
    ensures Chained([t]) && Stamps(w, [t], pool) && BackLinks(w, [t])
  {}

  lemma TwoTiles(w: Words, pool: nat, t: Tile, u: Tile)
    requires t.off + HEADER <= t.next == u.off && u.off + HEADER <= u.next
    requires Stamped(w, pool, t) && Stamped(w, pool, u) && Holds(w, u.off + 8, t.off)
    ensures Chained([t, u]) && Stamps(w, [t, u], pool) && BackLinks(w, [t, u])
  {}

  lemma ReplaceOne(ts: seq<Tile>, k: nat, t: Tile)
    requires k < |ts|
    ensures Replace(ts, k, k + 1, [t]) == ts[k := t] && ts[k := ts[k]] == ts
  {}

  /** The writes that join tile k+1 to tile k. */
  lemma JoinLinked(w: Words, w1: Words, w2: Words, r: Words, ts: seq<Tile>, e: nat, pool: nat, k: nat)
    requires Linked(w, ts, e, pool) && k + 1 < |ts|
    requires Stored(w, w1, ts[k + 1].off, 0)
    requires Stored(w1, w2, ts[k].off + 4, ts[k + 1].next)
    requires Stored(w2, r, ts[k + 1].next + 8, ts[k].off)
    ensures Linked(r, JoinTiles(ts, k), e, pool)
  {
    hide Linked, Chained, Stamps, BackLinks, Replace;
    var p, after := ts[k].off, ts[k + 1].next;
    var t := Tile(p, after, ts[k].used);
    HeaderOf(w, ts, e, pool, k);
    assert Same(w, r, p) && Holds(r, p + 4, after) && Same(w, r, p + 8);
    OneTile(r, pool, t);
    Rewrite(w, r, ts, e, pool, k, k + 2, [t]);
  }

  /** The write that marks tile k used or free. */
  lemma MarkLinked(w: Words, r: Words, ts: seq<Tile>, e: nat, pool: nat, k: nat, used: bool)
    requires Linked(w, ts, e, pool) && k < |ts|
    requires Stored(w, r, ts[k].off, Tag(pool, used))
    ensures Linked(r, MarkTiles(ts, k, used), e, pool)
  {
    hide Linked, Chained, Stamps, BackLinks, Replace;
    var t := ts[k].(used := used);
    HeaderOf(w, ts, e, pool, k);
    assert Same(w, r, t.off + 8);
    OneTile(r, pool, t);
    ReplaceOne(ts, k, t);
    Rewrite(w, r, ts, e, pool, k, k + 1, [t]);
  }

  /** Every word outside [lo, hi) is as before. */
  ghost predicate Confined(w: Words, r: Words, lo: nat, hi: nat) {
    |w| == |r| && forall q :: 0 <= q < |w| && (q + 4 <= lo || hi <= q) ==> r[q] == w[q]
  }

  /** Three stores in a row write a whole header. */
  lemma HeaderStored(w: Words, w1: Words, w2: Words, r: Words, p: nat, tag: nat, next: nat, prev: nat)
    requires p + HEADER <= |w|
    requires Stored(w, w1, p, tag) && Stored(w1, w2, p + 4, next) && Stored(w2, r, p + 8, prev)
    ensures Confined(w, r, p, p + HEADER)
    ensures Holds(r, p, tag) && Holds(r, p + 4, next) && Holds(r, p + 8, prev)
  {}

  /**
   * The writes that split tile k at `cut`: a header for the free rest, the end of tile k, and the
   * prev word of the tile after it unless that is the closing header.
   */
  lemma SplitLinked(w: Words, w3: Words, w4: Words, r: Words, ts: seq<Tile>, e: nat, pool: nat, k: nat, cut: nat)
    requires Linked(w, ts, e, pool) && k < |ts|
    requires ts[k].off + HEADER <= cut && cut + HEADER <= ts[k].next
    requires Confined(w, w3, cut, cut + HEADER)
    requires Holds(w3, cut, pool) && Holds(w3, cut + 4, ts[k].next) && Holds(w3, cut + 8, ts[k].off)
    requires Stored(w3, w4, ts[k].off + 4, cut)
    requires if ts[k].next != e then Stored(w4, r, ts[k].next + 8, cut) else r == w4
    ensures Linked(r, SplitTiles(ts, k, cut), e, pool)
  {
    hide Linked, Chained, Stamps, BackLinks, Replace;
    var p, next := ts[k].off, ts[k].next;
    var t, u := Tile(p, cut, ts[k].used), Tile(cut, next, false);
    HeaderOf(w, ts, e, pool, k);
    assert Stamped(r, pool, t) && Stamped(r, pool, u);
    assert Same(w, r, p + 8) && Holds(r, cut + 8, p);
    assert Outside(w, r, p, next, next + 8);
    TwoTiles(r, pool, t, u);
    Rewrite(w, r, ts, e, pool, k, k + 1, [t, u]);
  }

  /** A change confined to the payload of tile k leaves the tiles as they are. */
  lemma PayloadLinked(w: Words, r: Words, ts: seq<Tile>, e: nat, pool: nat, k: nat)
    requires Linked(w, ts, e, pool) && k < |ts|
    requires Confined(w, r, ts[k].off + HEADER, ts[k].next)
    ensures Linked(r, ts, e, pool)
  {
    hide Linked, Chained, Stamps, BackLinks, Replace;
    HeaderOf(w, ts, e, pool, k);
    OneTile(r, pool, ts[k]);
    ReplaceOne(ts, k, ts[k]);
    Rewrite(w, r, ts, e, pool, k, k + 1, [ts[k]]);
  }

  // ---------------------------------------------------------------- walking the blocks

  /**
   * The layout as a walk from block i on: each header is right, starts where the one before ended
   * and leads to the following one, up to the closing header at e.
   */
  ghost predicate Walk(w: Words, ts: seq<Tile>, i: nat, e: nat, pool: nat)
    decreases |ts| - i
  {
    if i >= |ts| then
      0 < |ts| && |w| == e + HEADER && Holds(w, e, Tag(pool, true)) && Holds(w, e + 4, e)
    else
      && Stamped(w, pool, ts[i])
      && ts[i].off + HEADER <= ts[i].next
      && (if i == 0 then ts[0].off == 0 && Holds(w, 8, 0)
          else ts[i].off == ts[i - 1].next && Holds(w, ts[i].off + 8, ts[i - 1].off))
      && (i + 1 == |ts| ==> ts[i].next == e)
      && Walk(w, ts, i + 1, e, pool)
  }

  lemma {:induction false} WalkFrom(w: Words, ts: seq<Tile>, i: nat, e: nat, pool: nat)
    requires Walk(w, ts, 0, e, pool) && i <= |ts|
    ensures Walk(w, ts, i, e, pool)
  {
    if i > 0 {
      WalkFrom(w, ts, i - 1, e, pool);
    }
  }

  /** A walk meets every header. */
  lemma WalkLinked(w: Words, ts: seq<Tile>, e: nat, pool: nat)
    requires Walk(w, ts, 0, e, pool)
    ensures Linked(w, ts, e, pool)
  {
    WalkFrom(w, ts, |ts|, e, pool);
    WalkFrom(w, ts, |ts| - 1, e, pool);
    forall i | 0 <= i < |ts|
      ensures Stamped(w, pool, ts[i]) && ts[i].off + HEADER <= ts[i].next
    {
      WalkFrom(w, ts, i, e, pool);
    }
    forall i, j | 0 <= i && j == i + 1 < |ts|
      ensures ts[i].next == ts[j].off && Holds(w, ts[j].off + 8, ts[i].off)
    {
      WalkFrom(w, ts, j, e, pool);
    }
  }

  lemma {:induction false} LinkedWalk(w: Words, ts: seq<Tile>, i: nat, e: nat, pool: nat)
    requires Linked(w, ts, e, pool) && i <= |ts|
    ensures Walk(w, ts, i, e, pool)
    decreases |ts| - i
  {
    if i < |ts| {
      LinkedWalk(w, ts, i + 1, e, pool);
      assert i > 0 ==> ts[i - 1].next == ts[i].off && Holds(w, ts[i].off + 8, ts[i - 1].off);
    }
  }

  /** What a walk says about block k and its neighbours. */
  lemma WalkAt(w: Words, ts: seq<Tile>, e: nat, pool: nat, k: nat)
    requires Walk(w, ts, 0, e, pool) && k < |ts|
    ensures Stamped(w, pool, ts[k]) && Holds(w, ts[k].off + 8, if k == 0 then 0 else ts[k - 1].off)
    ensures ts[k].off + HEADER <= ts[k].next <= e && |w| == e + HEADER
    ensures k + 1 < |ts| ==> ts[k].next == ts[k + 1].off && ts[k].next < e
    ensures k + 1 == |ts| ==> ts[k].next == e
    ensures Holds(w, e, Tag(pool, true))
  {
    WalkLinked(w, ts, e, pool);
    WalkFrom(w, ts, k, e, pool);
    Ends(ts, e, k);
  }

  lemma WalkTiled(w: Words, ts: seq<Tile>, e: nat, pool: nat)
    requires Walk(w, ts, 0, e, pool)
    ensures Tiled(ts, e)
  {
    WalkLinked(w, ts, e, pool);
  }

  lemma JoinWalk(w: Words, w1: Words, w2: Words, r: Words, ts: seq<Tile>, e: nat, pool: nat, k: nat)
    requires Walk(w, ts, 0, e, pool) && k + 1 < |ts|
    requires Stored(w, w1, ts[k + 1].off, 0)
    requires Stored(w1, w2, ts[k].off + 4, ts[k + 1].next)
    requires Stored(w2, r, ts[k + 1].next + 8, ts[k].off)
    ensures Walk(r, JoinTiles(ts, k), 0, e, pool)
  {
    WalkLinked(w, ts, e, pool);
    JoinLinked(w, w1, w2, r, ts, e, pool, k);
    LinkedWalk(r, JoinTiles(ts, k), 0, e, pool);
  }

  lemma MarkWalk(w: Words, r: Words, ts: seq<Tile>, e: nat, pool: nat, k: nat, used: bool)
    requires Walk(w, ts, 0, e, pool) && k < |ts|
    requires Stored(w, r, ts[k].off, Tag(pool, used))
    ensures Walk(r, MarkTiles(ts, k, used), 0, e, pool)
  {
    WalkLinked(w, ts, e, pool);
    MarkLinked(w, r, ts, e, pool, k, used);
    LinkedWalk(r, MarkTiles(ts, k, used), 0, e, pool);
  }

  lemma SplitWalk(w: Words, w3: Words, w4: Words, r: Words, ts: seq<Tile>, e: nat, pool: nat, k: nat, cut: nat)
    requires Walk(w, ts, 0, e, pool) && k < |ts|
    requires ts[k].off + HEADER <= cut && cut + HEADER <= ts[k].next
    requires Confined(w, w3, cut, cut + HEADER)
    requires Holds(w3, cut, pool) && Holds(w3, cut + 4, ts[k].next) && Holds(w3, cut + 8, ts[k].off)
    requires Stored(w3, w4, ts[k].off + 4, cut)
    requires if ts[k].next != e then Stored(w4, r, ts[k].next + 8, cut) else r == w4
    ensures Walk(r, SplitTiles(ts, k, cut), 0, e, pool)
  {
    WalkLinked(w, ts, e, pool);
    SplitLinked(w, w3, w4, r, ts, e, pool, k, cut);
    LinkedWalk(r, SplitTiles(ts, k, cut), 0, e, pool);
  }

  lemma PayloadWalk(w: Words, r: Words, ts: seq<Tile>, e: nat, pool: nat, k: nat, lo: nat, hi: nat)
    requires Walk(w, ts, 0, e, pool) && k < |ts|
    requires ts[k].off + HEADER <= lo && hi <= ts[k].next && Confined(w, r, lo, hi)
    ensures Walk(r, ts, 0, e, pool)
  {
    WalkLinked(w, ts, e, pool);
    PayloadLinked(w, r, ts, e, pool, k);
    LinkedWalk(r, ts, 0, e, pool);
  }

  /** The two headers rt_smem_init writes are the layout of one free block. */
  lemma InitialWalk(w: Words, r: Words, e: nat, pool: nat)
    requires |w| == e + HEADER && HEADER <= e
    requires Holds(w, 0, pool) && Holds(w, 4, e) && Holds(w, 8, 0)
    requires Confined(w, r, e, e + HEADER) && Holds(r, e, pool + 1) && Holds(r, e + 4, e)
    ensures Walk(r, [Tile(0, e, false)], 0, e, pool)
  {
    assert Walk(r, [Tile(0, e, false)], 1, e, pool);
  }
}
