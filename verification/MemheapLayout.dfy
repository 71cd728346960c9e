/**
 * The two lists of a memheap and how they must agree: all blocks by address, the last one a used
 * block without data that nothing can merge across, and the free blocks in any order.
 */
module MemheapLayout {
  import opened LinkedRing

  const ITEM := 24      // RT_MEMHEAP_SIZE
  const MINI_ALLOC := 12

  /** Blocks by address, those marked used, and the free list without its header. */
  datatype Layout = Layout(blocks: seq<int>, used: set<int>, frees: seq<int>) {
    /** The data size of block k. */
    function Size(k: nat): int
      requires k + 1 < |blocks|
    {
      blocks[k + 1] - blocks[k] - ITEM
    }

    predicate Free(k: nat)
      requires k < |blocks|
    {
      blocks[k] !in used
    }
  }

  /** In the order of addresses, with room for the header of each. */
  ghost predicate Spread(blocks: seq<int>, tail: int) {
    && |blocks| >= 2 && blocks[0] == 0 && blocks[|blocks| - 1] == tail
    && forall i, j :: 0 <= i < j < |blocks| ==> blocks[i] + ITEM <= blocks[j]
  }

  /** The free list holds exactly the blocks not marked used, once each. */
  ghost predicate Listed(l: Layout) {
    && Distinct(l.frees) && (forall x :: x in l.used ==> x in l.blocks)
    && forall x :: x in l.frees <==> x in l.blocks && x !in l.used
  }

  ghost predicate Apart(blocks: seq<int>, used: set<int>) {
    forall i, j :: 0 <= i && j == i + 1 < |blocks| ==> blocks[i] in used || blocks[j] in used
  }

  ghost predicate Good(l: Layout, tail: int) {
    Spread(l.blocks, tail) && tail in l.used && Listed(l) && Apart(l.blocks, l.used)
  }

  /** The bytes in free blocks. */
  function FreeBytes(blocks: seq<int>, used: set<int>): int {
    if |blocks| < 2 then 0
    else (if blocks[0] in used then 0 else blocks[1] - blocks[0] - ITEM) + FreeBytes(blocks[1..], used)
  }

  // ---------------------------------------------------------------- the operations

  function Find(s: seq<int>, x: int): (k: nat)
    ensures k <= |s|
    ensures x in s ==> k < |s| && s[k] == x
  {
    if s == [] || s[0] == x then 0 else 1 + Find(s[1..], x)
  }

  function Drop(s: seq<int>, x: int): seq<int> {
    if x in s then Removed(s, Find(s, x)) else s
  }

  /** Free block k is taken as a whole. */
  function Taken(l: Layout, k: nat): Layout
    requires k < |l.blocks|
  {
    Layout(l.blocks, l.used + {l.blocks[k]}, Drop(l.frees, l.blocks[k]))
  }

  /** Free block k is taken up to x, where a new free block begins. */
  function Split(l: Layout, k: nat, x: int): Layout
    requires k < |l.blocks|
  {
    Layout(Inserted(l.blocks, k, x), l.used + {l.blocks[k]}, [x] + Drop(l.frees, l.blocks[k]))
  }

  /** Free block k is taken for n bytes; what is left over becomes a block if it is worth it. */
  function Carved(l: Layout, k: nat, n: nat): Layout
    requires k + 1 < |l.blocks|
  {
    if l.Size(k) >= n + ITEM + MINI_ALLOC then Split(l, k, l.blocks[k] + ITEM + n) else Taken(l, k)
  }

  /** Live block k is released and becomes part of a free block on its left, if there is one. */
  function GivenBack(l: Layout, k: nat): Layout
    requires k < |l.blocks|
  {
    var b := l.blocks[k];
    if k > 0 && l.Free(k - 1) then Layout(Removed(l.blocks, k), l.used - {b}, l.frees)
    else Layout(l.blocks, l.used - {b}, [b] + l.frees)
  }

  /** Free block k takes in its right neighbour. */
  function TakesNext(l: Layout, k: nat): Layout
    requires k + 1 < |l.blocks|
  {
    Layout(Removed(l.blocks, k + 1), l.used, Drop(l.frees, l.blocks[k + 1]))
  }

  function FreeIndex(l: Layout, k: nat): nat
    requires k < |l.blocks|
  {
    if k > 0 && l.Free(k - 1) then k - 1 else k
  }

  /** rt_memheap_free. */
  function Freed(l: Layout, k: nat): Layout
    requires k + 1 < |l.blocks|
  {
    var g, i := GivenBack(l, k), FreeIndex(l, k);
    if i + 1 < |g.blocks| && g.Free(i + 1) then TakesNext(g, i) else g
  }

  /** The end of live block k is moved to x; a free block begins there. */
  function Moved(l: Layout, k: nat, x: int): Layout
    requires k + 1 < |l.blocks|
  {
    if l.Free(k + 1) then Layout(l.blocks[k + 1 := x], l.used, [x] + Drop(l.frees, l.blocks[k + 1]))
    else Layout(Inserted(l.blocks, k, x), l.used, [x] + l.frees)
  }

  // ---------------------------------------------------------------- lists

  lemma DropElements(s: seq<int>, x: int)
    requires Distinct(s)
    ensures Distinct(Drop(s, x)) && forall y :: y in Drop(s, x) <==> y in s && y != x
  {
    if x in s {
      var k := Find(s, x);
      forall y ensures y in Drop(s, x) <==> y in s && y != x {
        RemovedElements(s, k, y);
      }
    }
  }

  lemma RemovedElements(s: seq<int>, k: nat, y: int)
    requires Distinct(s) && k < |s|
    ensures y in Removed(s, k) <==> y in s && y != s[k]
  {
    assert s == s[..k] + [s[k]] + s[k + 1..];
  }

  lemma InsertedElements(s: seq<int>, k: nat, x: int, y: int)
    requires k < |s|
    ensures y in Inserted(s, k, x) <==> y in s || y == x
  {
    assert s == s[..k + 1] + s[k + 1..];
  }

  lemma SpreadDistinct(blocks: seq<int>, tail: int)
    requires Spread(blocks, tail)
    ensures Distinct(blocks)
  {}

  lemma InsertSpread(blocks: seq<int>, tail: int, k: nat, x: int)
    requires Spread(blocks, tail) && k + 1 < |blocks| && blocks[k] + ITEM <= x && x + ITEM <= blocks[k + 1]
    ensures Spread(Inserted(blocks, k, x), tail) && x !in blocks
  {
    var r := Inserted(blocks, k, x);
    forall i, j | 0 <= i < j < |r| ensures r[i] + ITEM <= r[j] {
      var i', j' := if i <= k then i else i - 1, if j <= k then j else j - 1;
      assert i' < j' ==> blocks[i'] + ITEM <= blocks[j'];
    }
  }

  lemma RemoveSpread(blocks: seq<int>, tail: int, k: nat)
    requires Spread(blocks, tail) && 0 < k < |blocks| - 1
    ensures Spread(Removed(blocks, k), tail)
  {}

  lemma UpdateSpread(blocks: seq<int>, tail: int, k: nat, x: int)
    requires Spread(blocks, tail) && 0 < k < |blocks| - 1 && blocks[k - 1] + ITEM <= x && x + ITEM <= blocks[k + 1]
    ensures Spread(blocks[k := x], tail)
    ensures forall i :: 0 <= i < |blocks| && i != k ==> blocks[i] != x
  {
    var r := blocks[k := x];
    forall i, j | 0 <= i < j < |r| ensures r[i] + ITEM <= r[j] {
      assert j == k && i < k - 1 ==> blocks[i] + ITEM <= blocks[k - 1];
      assert i == k && j > k + 1 ==> blocks[k + 1] + ITEM <= blocks[j];
    }
    forall i | 0 <= i < |blocks| && i != k ensures blocks[i] != x {
      if i < k {
        assert r[i] + ITEM <= r[k];
      } else {
        assert r[k] + ITEM <= r[i];
      }
    }
  }

  // ---------------------------------------------------------------- agreement

  lemma InsertListed(l: Layout, used: set<int>, frees: seq<int>, k: nat, x: int)
    requires k < |l.blocks| && x !in l.blocks && Distinct(frees) && used <= l.used + {l.blocks[k]}
    requires Listed(l) && l.used <= used && forall y :: y in frees <==> y in l.blocks && y !in used
    ensures Listed(Layout(Inserted(l.blocks, k, x), used, [x] + frees))
  {
    forall y ensures y in Inserted(l.blocks, k, x) <==> y in l.blocks || y == x {
      InsertedElements(l.blocks, k, x, y);
    }
    assert l.blocks[k] in l.blocks;
  }

  lemma InsertApart(blocks: seq<int>, used: set<int>, used': set<int>, k: nat, x: int)
    requires Apart(blocks, used) && used <= used' && k + 1 < |blocks| && blocks[k] in used' && blocks[k + 1] in used'
    ensures Apart(Inserted(blocks, k, x), used')
  {
    var r := Inserted(blocks, k, x);
    forall i, j | 0 <= i && j == i + 1 < |r| ensures r[i] in used' || r[j] in used' {
      if j <= k {
        assert r[i] == blocks[i] && r[j] == blocks[j];
      } else if i > k + 1 {
        assert r[i] == blocks[i - 1] && r[j] == blocks[j - 1];
      }
    }
  }

  lemma SplitGood(l: Layout, tail: int, k: nat, x: int)
    requires Good(l, tail) && k + 1 < |l.blocks| && l.Free(k) && l.blocks[k] + ITEM <= x && x + ITEM <= l.blocks[k + 1]
    ensures Good(Split(l, k, x), tail)
  {
    var b := l.blocks[k];
    DropElements(l.frees, b);
    InsertSpread(l.blocks, tail, k, x);
    InsertListed(l, l.used + {b}, Drop(l.frees, b), k, x);
    InsertApart(l.blocks, l.used, l.used + {b}, k, x);
  }

  lemma TakenGood(l: Layout, tail: int, k: nat)
    requires Good(l, tail) && k + 1 < |l.blocks| && l.Free(k)
    ensures Good(Taken(l, k), tail)
  {
    DropElements(l.frees, l.blocks[k]);
    assert l.blocks[k] in l.blocks;
  }

  /** Agreement, except that block k and its right neighbour may both be free. */
  ghost predicate GoodBut(l: Layout, tail: int, k: nat) {
    && Spread(l.blocks, tail) && tail in l.used && Listed(l) && k + 1 < |l.blocks| && l.Free(k)
    && (forall i, j :: 0 <= i && j == i + 1 < |l.blocks| && i != k ==> l.blocks[i] in l.used || l.blocks[j] in l.used)
  }

  lemma RemoveListed(l: Layout, k: nat)
    requires k < |l.blocks| && Distinct(l.blocks) && Listed(l)
    ensures Listed(Layout(Removed(l.blocks, k), l.used - {l.blocks[k]}, Drop(l.frees, l.blocks[k])))
  {
    var b := l.blocks[k];
    DropElements(l.frees, b);
    forall y ensures y in Removed(l.blocks, k) <==> y in l.blocks && y != b {
      RemovedElements(l.blocks, k, y);
    }
  }

  lemma GivenBackGood(l: Layout, tail: int, k: nat)
    requires Good(l, tail) && k + 1 < |l.blocks| && !l.Free(k)
    ensures GoodBut(GivenBack(l, k), tail, FreeIndex(l, k))
  {
    var b, g := l.blocks[k], GivenBack(l, k);
    SpreadDistinct(l.blocks, tail);
    if k > 0 && l.Free(k - 1) {
      RemoveSpread(l.blocks, tail, k);
      RemoveListed(l, k);
      LeftMergeApart(l, tail, k);
    } else {
      assert b in l.blocks;
      AloneApart(l, tail, k);
    }
  }

  lemma LeftMergeApart(l: Layout, tail: int, k: nat)
    requires Good(l, tail) && 0 < k < |l.blocks| - 1 && !l.Free(k) && l.Free(k - 1)
    ensures var r, used := Removed(l.blocks, k), l.used - {l.blocks[k]};
            forall i, j :: 0 <= i && j == i + 1 < |r| && i != k - 1 ==> r[i] in used || r[j] in used
  {
    var r, used := Removed(l.blocks, k), l.used - {l.blocks[k]};
    forall i, j | 0 <= i && j == i + 1 < |r| && i != k - 1 ensures r[i] in used || r[j] in used {
      var i' := if i < k then i else i + 1;
      assert r[i] == l.blocks[i'] && r[j] == l.blocks[i' + 1];
    }
  }

  lemma AloneApart(l: Layout, tail: int, k: nat)
    requires Good(l, tail) && k + 1 < |l.blocks| && !l.Free(k) && (k > 0 ==> !l.Free(k - 1))
    ensures var used := l.used - {l.blocks[k]};
            forall i, j :: 0 <= i && j == i + 1 < |l.blocks| && i != k ==> l.blocks[i] in used || l.blocks[j] in used
  {
    var used := l.used - {l.blocks[k]};
    forall i, j | 0 <= i && j == i + 1 < |l.blocks| && i != k ensures l.blocks[i] in used || l.blocks[j] in used {
      assert l.blocks[i] in l.used || l.blocks[j] in l.used;
      assert i < k || k < i;
    }
  }

  lemma TakesNextApart(l: Layout, tail: int, k: nat)
    requires GoodBut(l, tail, k) && k + 2 < |l.blocks| && l.Free(k + 1)
    ensures Apart(Removed(l.blocks, k + 1), l.used)
  {
    var r := Removed(l.blocks, k + 1);
    forall i, j | 0 <= i && j == i + 1 < |r| ensures r[i] in l.used || r[j] in l.used {
      var i' := if i < k then i else i + 1;
      assert r[j] == l.blocks[i' + 1] && (i != k ==> r[i] == l.blocks[i']);
      assert l.blocks[i'] in l.used || l.blocks[i' + 1] in l.used;
    }
  }

  lemma TakesNextGood(l: Layout, tail: int, k: nat)
    requires GoodBut(l, tail, k) && l.Free(k + 1)
    ensures Good(TakesNext(l, k), tail)
  {
    SpreadDistinct(l.blocks, tail);
    RemoveSpread(l.blocks, tail, k + 1);
    RemoveListed(l, k + 1);
    assert l.used - {l.blocks[k + 1]} == l.used;
    TakesNextApart(l, tail, k);
  }

  lemma FreedGood(l: Layout, tail: int, k: nat)
    requires Good(l, tail) && k + 1 < |l.blocks| && !l.Free(k)
    ensures Good(Freed(l, k), tail)
  {
    var g, i := GivenBack(l, k), FreeIndex(l, k);
    GivenBackGood(l, tail, k);
    if g.Free(i + 1) {
      TakesNextGood(g, tail, i);
    }
  }

  /** The moved boundary stays between the headers of block k and of the block after the gap. */
  ghost predicate MoveFits(l: Layout, k: nat, x: int) {
    && k + 1 < |l.blocks|
    && l.blocks[k] + ITEM <= x
    && (if l.Free(k + 1) then k + 2 < |l.blocks| && x + ITEM <= l.blocks[k + 2] else x + ITEM <= l.blocks[k + 1])
  }

  lemma UpdateListed(l: Layout, k: nat, x: int)
    requires k < |l.blocks| && Distinct(l.blocks) && Listed(l) && l.Free(k)
    requires forall i :: 0 <= i < |l.blocks| && i != k ==> l.blocks[i] != x
    ensures Listed(Layout(l.blocks[k := x], l.used, [x] + Drop(l.frees, l.blocks[k])))
  {
    var b, r := l.blocks[k], l.blocks[k := x];
    DropElements(l.frees, b);
    forall y ensures y in r <==> (y in l.blocks && y != b) || y == x {
      UpdatedElements(l.blocks, k, x, y);
    }
    assert x !in l.used;
  }

  lemma UpdatedElements(s: seq<int>, k: nat, x: int, y: int)
    requires Distinct(s) && k < |s|
    ensures y in s[k := x] <==> (y in s && y != s[k]) || y == x
  {
    var r := s[k := x];
    if y in s && y != s[k] {
      var i :| 0 <= i < |s| && s[i] == y;
      assert r[i] == y;
    }
    assert r[k] == x;
  }

  lemma UpdateApart(blocks: seq<int>, used: set<int>, k: nat, x: int)
    requires Apart(blocks, used) && 0 < k < |blocks| - 1 && blocks[k - 1] in used && blocks[k] !in used
    ensures Apart(blocks[k := x], used)
  {
    var r := blocks[k := x];
    assert blocks[k] in used || blocks[k + 1] in used;
    forall i, j | 0 <= i && j == i + 1 < |r| ensures r[i] in used || r[j] in used {
      assert blocks[i] in used || blocks[j] in used;
    }
  }

  /** With a free block behind: the boundary between the two moves. */
  lemma MovedIntoGap(l: Layout, tail: int, k: nat, x: int)
    requires Good(l, tail) && k + 2 < |l.blocks| && !l.Free(k) && l.Free(k + 1)
    requires l.blocks[k] + ITEM <= x && x + ITEM <= l.blocks[k + 2]
    ensures Good(Layout(l.blocks[k + 1 := x], l.used, [x] + Drop(l.frees, l.blocks[k + 1])), tail)
  {
    SpreadDistinct(l.blocks, tail);
    UpdateSpread(l.blocks, tail, k + 1, x);
    UpdateListed(l, k + 1, x);
    UpdateApart(l.blocks, l.used, k + 1, x);
  }

  /** With a live block behind: the end of block k becomes a block of its own. */
  lemma MovedInward(l: Layout, tail: int, k: nat, x: int)
    requires Good(l, tail) && k + 1 < |l.blocks| && !l.Free(k) && !l.Free(k + 1)
    requires l.blocks[k] + ITEM <= x && x + ITEM <= l.blocks[k + 1]
    ensures Good(Layout(Inserted(l.blocks, k, x), l.used, [x] + l.frees), tail)
  {
    InsertSpread(l.blocks, tail, k, x);
    InsertListed(l, l.used, l.frees, k, x);
    InsertApart(l.blocks, l.used, l.used, k, x);
  }

  lemma MovedGood(l: Layout, tail: int, k: nat, x: int)
    requires Good(l, tail) && MoveFits(l, k, x) && !l.Free(k)
    ensures Good(Moved(l, k, x), tail)
  {
    if l.Free(k + 1) {
      MovedIntoGap(l, tail, k, x);
    } else {
      MovedInward(l, tail, k, x);
    }
  }

  // ---------------------------------------------------------------- the byte count

  lemma {:induction false} BytesSplit(bs: seq<int>, used: set<int>, k: nat)
    requires k < |bs|
    ensures FreeBytes(bs, used) == FreeBytes(bs[..k + 1], used) + FreeBytes(bs[k..], used)
  {
    if k == 0 {
      assert bs[0..] == bs;
    } else {
      BytesSplit(bs[1..], used, k - 1);
      assert bs[1..][..k] == bs[..k + 1][1..] && bs[1..][k - 1..] == bs[k..];
    }
  }

  lemma {:induction false} BytesFrame(bs: seq<int>, u: set<int>, v: set<int>)
    requires forall i :: 0 <= i < |bs| - 1 ==> (bs[i] in u <==> bs[i] in v)
    ensures FreeBytes(bs, u) == FreeBytes(bs, v)
  {
    if |bs| >= 2 {
      BytesFrame(bs[1..], u, v);
    }
  }

  lemma ThreeParts(bs: seq<int>, used: set<int>, lo: nat, hi: nat)
    requires lo <= hi < |bs|
    ensures FreeBytes(bs, used) == FreeBytes(bs[..lo + 1], used) + FreeBytes(bs[lo..hi + 1], used) + FreeBytes(bs[hi..], used)
  {
    BytesSplit(bs, used, hi);
    BytesSplit(bs[..hi + 1], used, lo);
    assert bs[..hi + 1][..lo + 1] == bs[..lo + 1] && bs[..hi + 1][lo..] == bs[lo..hi + 1];
  }

  lemma PartsAgree(bs: seq<int>, u: set<int>, v: set<int>, lo: nat, hi: nat)
    requires lo <= hi < |bs|
    requires forall i :: 0 <= i < lo || hi <= i < |bs| ==> (bs[i] in u <==> bs[i] in v)
    ensures FreeBytes(bs[..lo + 1], u) == FreeBytes(bs[..lo + 1], v)
    ensures FreeBytes(bs[hi..], u) == FreeBytes(bs[hi..], v)
  {
    BytesFrame(bs[..lo + 1], u, v);
    BytesFrame(bs[hi..], u, v);
  }

  /** Only what happens between two unchanged boundaries changes the count. */
  lemma WindowBytes(bs: seq<int>, cs: seq<int>, u: set<int>, v: set<int>, lo: nat, hi: nat, hi': nat)
    requires lo <= hi < |bs| && lo <= hi' < |cs| && bs[..lo + 1] == cs[..lo + 1] && bs[hi..] == cs[hi'..]
    requires forall i :: 0 <= i < lo || hi <= i < |bs| ==> (bs[i] in u <==> bs[i] in v)
    ensures FreeBytes(cs, v) - FreeBytes(bs, u) == FreeBytes(cs[lo..hi' + 1], v) - FreeBytes(bs[lo..hi + 1], u)
  {
    ThreeParts(bs, u, lo, hi);
    ThreeParts(cs, v, lo, hi');
    PartsAgree(bs, u, v, lo, hi);
  }

  lemma BytesOfTwo(a: int, b: int, used: set<int>)
    ensures FreeBytes([a, b], used) == if a in used then 0 else b - a - ITEM
  {
    assert [a, b][1..] == [b];
  }

  lemma BytesOfThree(a: int, b: int, c: int, used: set<int>)
    ensures FreeBytes([a, b, c], used) == (if a in used then 0 else b - a - ITEM) + (if b in used then 0 else c - b - ITEM)
  {
    assert [a, b, c][1..] == [b, c];
    BytesOfTwo(b, c, used);
  }

  /** What the parts of a list between neighbouring indices are. */
  lemma Windows(bs: seq<int>, k: nat)
    requires k + 1 < |bs|
    ensures bs[k..k + 2] == [bs[k], bs[k + 1]]
    ensures k + 2 < |bs| ==> bs[k..k + 3] == [bs[k], bs[k + 1], bs[k + 2]]
  {}

  /** Marking a free block used takes its data out of the count. */
  lemma MarkBytes(blocks: seq<int>, used: set<int>, k: nat)
    requires Distinct(blocks) && k + 1 < |blocks| && blocks[k] !in used
    ensures FreeBytes(blocks, used + {blocks[k]}) == FreeBytes(blocks, used) - (blocks[k + 1] - blocks[k] - ITEM)
  {
    var b, e := blocks[k], blocks[k + 1];
    Windows(blocks, k);
    BytesOfTwo(b, e, used);
    BytesOfTwo(b, e, used + {b});
    WindowBytes(blocks, blocks, used, used + {b}, k, k + 1, k + 1);
  }

  /** A free block that begins inside a live one. */
  lemma InsertBytes(blocks: seq<int>, used: set<int>, k: nat, x: int)
    requires k + 1 < |blocks| && blocks[k] in used && x !in used
    ensures FreeBytes(Inserted(blocks, k, x), used) == FreeBytes(blocks, used) + blocks[k + 1] - x - ITEM
  {
    var b, e, cs := blocks[k], blocks[k + 1], Inserted(blocks, k, x);
    Windows(blocks, k);
    Windows(cs, k);
    BytesOfTwo(b, e, used);
    BytesOfThree(b, x, e, used);
    WindowBytes(blocks, cs, used, used, k, k + 1, k + 2);
  }

  /** A free block that goes up in the one before it adds its header to the count. */
  lemma RemoveBytes(blocks: seq<int>, used: set<int>, k: nat)
    requires 0 < k < |blocks| - 1 && blocks[k - 1] !in used && blocks[k] !in used
    ensures FreeBytes(Removed(blocks, k), used) == FreeBytes(blocks, used) + ITEM
  {
    var a, b, e, cs := blocks[k - 1], blocks[k], blocks[k + 1], Removed(blocks, k);
    Windows(blocks, k - 1);
    Windows(cs, k - 1);
    BytesOfThree(a, b, e, used);
    BytesOfTwo(a, e, used);
    WindowBytes(blocks, cs, used, used, k - 1, k + 1, k);
  }

  /** A free block whose start moves. */
  lemma UpdateBytes(blocks: seq<int>, used: set<int>, k: nat, x: int)
    requires 0 < k < |blocks| - 1 && blocks[k - 1] in used && blocks[k] !in used && x !in used
    ensures FreeBytes(blocks[k := x], used) == FreeBytes(blocks, used) + blocks[k] - x
  {
    var a, b, e, cs := blocks[k - 1], blocks[k], blocks[k + 1], blocks[k := x];
    Windows(blocks, k - 1);
    Windows(cs, k - 1);
    BytesOfThree(a, b, e, used);
    BytesOfThree(a, x, e, used);
    WindowBytes(blocks, cs, used, used, k - 1, k + 1, k + 1);
  }

  lemma SplitBytes(l: Layout, tail: int, k: nat, x: int)
    requires Good(l, tail) && k + 1 < |l.blocks| && l.Free(k) && l.blocks[k] + ITEM <= x && x + ITEM <= l.blocks[k + 1]
    ensures FreeBytes(Split(l, k, x).blocks, Split(l, k, x).used) == FreeBytes(l.blocks, l.used) - (x - l.blocks[k])
  {
    SpreadDistinct(l.blocks, tail);
    MarkBytes(l.blocks, l.used, k);
    InsertSpread(l.blocks, tail, k, x);
    InsertBytes(l.blocks, l.used + {l.blocks[k]}, k, x);
  }

  lemma TakenBytes(l: Layout, tail: int, k: nat)
    requires Good(l, tail) && k + 1 < |l.blocks| && l.Free(k)
    ensures FreeBytes(Taken(l, k).blocks, Taken(l, k).used) == FreeBytes(l.blocks, l.used) - l.Size(k)
  {
    SpreadDistinct(l.blocks, tail);
    MarkBytes(l.blocks, l.used, k);
  }

  lemma GivenBackBytes(l: Layout, tail: int, k: nat)
    requires Good(l, tail) && k + 1 < |l.blocks| && !l.Free(k)
    ensures var g := GivenBack(l, k);
            FreeBytes(g.blocks, g.used) ==
            FreeBytes(l.blocks, l.used) + l.Size(k) + if k > 0 && l.Free(k - 1) then ITEM else 0
  {
    var b := l.blocks[k];
    var used := l.used - {b};
    SpreadDistinct(l.blocks, tail);
    MarkBytes(l.blocks, used, k);
    assert used + {b} == l.used;
    if k > 0 && l.Free(k - 1) {
      RemoveBytes(l.blocks, used, k);
    }
  }

  lemma TakesNextBytes(l: Layout, tail: int, k: nat)
    requires GoodBut(l, tail, k) && l.Free(k + 1)
    ensures var t := TakesNext(l, k); FreeBytes(t.blocks, t.used) == FreeBytes(l.blocks, l.used) + ITEM
  {
    RemoveBytes(l.blocks, l.used, k + 1);
  }

  lemma MovedBytes(l: Layout, tail: int, k: nat, x: int)
    requires Good(l, tail) && MoveFits(l, k, x) && !l.Free(k)
    ensures var m, e := Moved(l, k, x), l.blocks[k + 1];
            FreeBytes(m.blocks, m.used) == FreeBytes(l.blocks, l.used) + if l.Free(k + 1) then e - x else e - x - ITEM
  {
    if l.Free(k + 1) {
      UpdateSpread(l.blocks, tail, k + 1, x);
      assert x !in l.used;
      UpdateBytes(l.blocks, l.used, k + 1, x);
    } else {
      InsertSpread(l.blocks, tail, k, x);
      InsertBytes(l.blocks, l.used, k, x);
    }
  }

  /** A free block is never bigger than all free blocks together. */
  lemma OneOfMany(l: Layout, tail: int, k: nat)
    requires Good(l, tail) && k + 1 < |l.blocks| && l.Free(k)
    ensures l.Size(k) <= FreeBytes(l.blocks, l.used)
  {
    BytesNonNegative(l.blocks[..k + 1], l.used);
    BytesNonNegative(l.blocks[k + 1..], l.used);
    ThreeParts(l.blocks, l.used, k, k + 1);
    Windows(l.blocks, k);
    BytesOfTwo(l.blocks[k], l.blocks[k + 1], l.used);
  }

  lemma {:induction false} BytesNonNegative(bs: seq<int>, used: set<int>)
    requires forall i, j :: 0 <= i < j < |bs| ==> bs[i] + ITEM <= bs[j]
    ensures FreeBytes(bs, used) >= 0
  {
    if |bs| >= 2 {
      BytesNonNegative(bs[1..], used);
    }
  }

  lemma {:induction false} BytesAtMost(bs: seq<int>, used: set<int>)
    requires bs != [] && forall i, j :: 0 <= i < j < |bs| ==> bs[i] + ITEM <= bs[j]
    ensures FreeBytes(bs, used) <= bs[|bs| - 1] - bs[0]
  {
    if |bs| >= 2 {
      BytesAtMost(bs[1..], used);
    }
  }

  /** The count of free bytes lies within the pool. */
  lemma BytesInRange(l: Layout, tail: int)
    requires Good(l, tail)
    ensures 0 <= FreeBytes(l.blocks, l.used) <= tail
  {
    BytesNonNegative(l.blocks, l.used);
    BytesAtMost(l.blocks, l.used);
  }
}
