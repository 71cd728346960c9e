/**
 * The ring buffer shared between the target and the debug probe, as a value: a buffer, the offset
 * of the oldest unread byte and the offset of the next byte to be written. One cell stays free.
 */
module Ring {
  import opened Machine

  datatype Ring = Ring(buf: seq<Byte>, rd: nat, wr: nat) {
    predicate Valid() { rd < |buf| && wr < |buf| }
  }

  /** The offset n cells after p, wrapping around. */
  function Adv(size: nat, p: nat, n: nat): nat
    requires p < size && n <= size
  {
    if p + n < size then p + n else p + n - size
  }

  /** Number of unread bytes. */
  function Fill(r: Ring): nat
    requires r.Valid()
  {
    if r.rd <= r.wr then r.wr - r.rd else |r.buf| - r.rd + r.wr
  }

  /** Number of bytes that can be written. */
  function Avail(r: Ring): nat
    requires r.Valid()
  {
    |r.buf| - 1 - Fill(r)
  }

  /** The unread bytes, oldest first. */
  function Contents(r: Ring): (s: seq<Byte>)
    requires r.Valid()
    ensures |s| == Fill(r)
    ensures forall i :: 0 <= i < |s| ==> s[i] == r.buf[Adv(|r.buf|, r.rd, i)]
  {
    if r.rd <= r.wr then r.buf[r.rd..r.wr] else r.buf[r.rd..] + r.buf[..r.wr]
  }

  /** The buffer with data copied to offset p, where it must fit. */
  function Splice(buf: seq<Byte>, p: nat, data: seq<Byte>): (b: seq<Byte>)
    requires p + |data| <= |buf|
    ensures |b| == |buf|
  {
    buf[..p] + data + buf[p + |data|..]
  }

  /** The buffer with data stored from offset p on, wrapping around. */
  function Put(buf: seq<Byte>, p: nat, data: seq<Byte>): (b: seq<Byte>)
    requires p < |buf| && |data| <= |buf|
    ensures |b| == |buf|
  {
    if p + |data| <= |buf| then Splice(buf, p, data)
    else var k := |buf| - p; data[k..] + buf[|data| - k..p] + data[..k]
  }

  /** Storing in two chunks, up to the end of the buffer and from its start. */
  lemma PutInTwoChunks(buf: seq<Byte>, p: nat, data: seq<Byte>)
    requires p < |buf| && |buf| - p <= |data| <= |buf|
    ensures var k := |buf| - p; Splice(Splice(buf, p, data[..k]), 0, data[k..]) == Put(buf, p, data)
    ensures |buf| - p == |data| ==> Splice(buf, p, data) == Put(buf, p, data)
  {
    var k := |buf| - p;
    var b := Splice(buf, p, data[..k]);
    assert b[p..] == data[..k];
    if k < |data| {
      assert b[|data| - k..] == buf[|data| - k..p] + data[..k];
    } else {
      assert data[..k] == data && data[k..] == [];
    }
  }

  /** Each cell after Put, by its distance from p. */
  lemma PutCell(buf: seq<Byte>, p: nat, data: seq<Byte>, d: nat)
    requires p < |buf| && |data| <= |buf| && d < |buf|
    ensures Put(buf, p, data)[Adv(|buf|, p, d)] == if d < |data| then data[d] else buf[Adv(|buf|, p, d)]
  {}

  /** The ring after data has been stored and published. */
  function Written(r: Ring, data: seq<Byte>): (w: Ring)
    requires r.Valid() && |data| <= Avail(r)
    ensures w.Valid()
  {
    Ring(Put(r.buf, r.wr, data), r.rd, Adv(|r.buf|, r.wr, |data|))
  }

  /** The ring after n bytes have been read. */
  function Consumed(r: Ring, n: nat): (c: Ring)
    requires r.Valid() && n <= Fill(r)
    ensures c.Valid()
  {
    r.(rd := Adv(|r.buf|, r.rd, n))
  }

  /** Writing appends to the unread bytes. */
  lemma WrittenContents(r: Ring, data: seq<Byte>)
    requires r.Valid() && |data| <= Avail(r)
    ensures Contents(Written(r, data)) == Contents(r) + data
    ensures Avail(Written(r, data)) == Avail(r) - |data|
  {
    hide Put;
    var w, f := Written(r, data), Fill(r);
    forall i | 0 <= i < f + |data| ensures Contents(w)[i] == (Contents(r) + data)[i] {
      var d := if i < f then |r.buf| - f + i else i - f;
      PutCell(r.buf, r.wr, data, d);
    }
  }

  /** Reading removes from the front. */
  lemma ConsumedContents(r: Ring, n: nat)
    requires r.Valid() && n <= Fill(r)
    ensures Contents(Consumed(r, n)) == Contents(r)[n..]
    ensures Avail(Consumed(r, n)) == Avail(r) + n
  {}

  /** A read in two pieces: n bytes up to the end of the buffer, then k from where that leaves the reader. */
  lemma TwoPieces(r: Ring, n: nat, p: nat, k: nat)
    requires r.Valid() && n + k <= Fill(r) && r.rd + n <= |r.buf| && p == Consumed(r, n).rd
    requires p + k <= if k > 0 then r.wr else |r.buf|
    ensures r.buf[r.rd..r.rd + n] + r.buf[p..p + k] == Contents(r)[..n + k]
    ensures Consumed(r, n + k) == r.(rd := p + k)
  {
    PiecesInOrder(r, n, p, k);
  }

  lemma PiecesInOrder(r: Ring, n: nat, p: nat, k: nat)
    requires r.Valid() && n + k <= Fill(r) && r.rd + n <= |r.buf| && p == Adv(|r.buf|, r.rd, n) && p + k <= |r.buf|
    ensures r.buf[r.rd..r.rd + n] + r.buf[p..p + k] == Contents(r)[..n + k]
  {}

  /** How much one round of a blocking write stores. */
  function RoundSize(r: Ring, n: nat): nat
    requires r.Valid()
  {
    Min(Min(Avail(r), |r.buf| - r.wr), n)
  }

  function Min(a: nat, b: nat): nat { if a < b then a else b }

  /** A reader that takes h bytes and then a round that stores what it can lose and repeat nothing. */
  lemma RoundConserves(r: Ring, h: nat, data: seq<Byte>)
    requires r.Valid() && h <= Fill(r)
    ensures var m := Consumed(r, h); var n := RoundSize(m, |data|);
            Contents(r)[..h] + Contents(Written(m, data[..n])) == Contents(r) + data[..n]
  {
    var m := Consumed(r, h);
    var n := RoundSize(m, |data|);
    assert n <= |data| && n <= Avail(m);
    hide Contents, Consumed, Written, RoundSize;
    ConsumedContents(r, h);
    WrittenContents(m, data[..n]);
    SplitBefore(Contents(r), h, data[..n]);
  }

  lemma SplitBefore(s: seq<Byte>, h: nat, t: seq<Byte>)
    requires h <= |s|
    ensures s[..h] + (s[h..] + t) == s + t
  {}

  /** If the data fits, a round either stores all of it or wraps around and leaves what still fits. */
  lemma RoundProgress(r: Ring, h: nat, data: seq<Byte>)
    requires r.Valid() && h <= Fill(r) && |data| <= Avail(r)
    ensures var m := Consumed(r, h); var n := RoundSize(m, |data|); var w := Written(m, data[..n]);
            |data| - n <= Avail(w) && (n == |data| || (w.wr == 0 && r.wr > 0))
  {
    var m := Consumed(r, h);
    ConsumedContents(r, h);
    WrittenContents(m, data[..RoundSize(m, |data|)]);
  }
}
