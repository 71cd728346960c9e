/** Overwrite mode: what SEGGER_RTT_WriteWithOverwriteNoLock leaves in the ring, and when that is the newest data. */
module Overwrite {
  import opened Machine
  import opened Ring

  /** Reducing a read offset by whole buffer lengths. */
  function Reduce(x: nat, size: nat): (p: nat)
    requires size > 0
    ensures p < size
    decreases x
  {
    if x < size then x else Reduce(x - size, size)
  }

  /** The read offset, moved on so that n bytes find room. */
  function MovedRd(r: Ring, n: nat): (p: nat)
    requires r.Valid()
    ensures p < |r.buf|
  {
    if n > Avail(r) then Reduce(r.rd + (n - Avail(r)), |r.buf|) else r.rd
  }

  /**
   * The rounds after the first wrap-around. They take the buffer to be one cell shorter than it is,
   * which leaves nothing of a one-byte buffer.
   */
  function Later(buf: seq<Byte>, data: seq<Byte>): (r: (seq<Byte>, nat))
    requires |buf| >= 2 || (|buf| == 1 && data == [])
    ensures |r.0| == |buf| && r.1 == LaterWr(|buf|, |data|)
    decreases |data|
  {
    if data == [] || |data| < |buf| - 1 then (Splice(buf, 0, data), |data|)
    else Later(Splice(buf, 0, data[..|buf| - 1]), data[|buf| - 1..])
  }

  function LaterWr(size: nat, n: nat): (p: nat)
    requires size >= 2 || (size == 1 && n == 0)
    ensures p < size && p <= n && (size >= 2 ==> p < size - 1)
    decreases n
  {
    if n == 0 || n < size - 1 then n else LaterWr(size, n - (size - 1))
  }

  /** The later rounds come to an end within the given number of rounds, with n bytes left to write. */
  ghost predicate EndsWithin(size: nat, n: nat, rounds: nat)
    requires size > 0
    decreases rounds
  {
    n == 0 || n < size - 1 || (rounds > 0 && EndsWithin(size, n - (size - 1), rounds - 1))
  }

  lemma {:induction false} EndsIfRoom(size: nat, n: nat, rounds: nat)
    requires (size >= 2 || (size == 1 && n == 0)) && n <= rounds
    ensures EndsWithin(size, n, rounds)
  {
    if n >= size - 1 && n > 0 {
      EndsIfRoom(size, n - (size - 1), rounds - 1);
    }
  }

  lemma {:induction false} NeverEndsInOne(n: nat, rounds: nat)
    requires n > 0
    ensures !EndsWithin(1, n, rounds)
  {
    if rounds > 0 {
      NeverEndsInOne(n, rounds - 1);
    }
  }

  /** The write loop ends exactly if the buffer has two cells or nothing is left after the first round. */
  lemma LoopEndsIff(size: nat, n: nat)
    requires size > 0
    ensures size >= 2 || n == 0 ==> EndsWithin(size, n, n)
    ensures size == 1 && n > 0 ==> forall rounds: nat :: !EndsWithin(size, n, rounds)
  {
    if size >= 2 || n == 0 {
      EndsIfRoom(size, n, n);
    } else {
      forall rounds: nat ensures !EndsWithin(1, n, rounds) {
        NeverEndsInOne(n, rounds);
      }
    }
  }

  /** The ring after all data has been written over whatever was there, where that comes to an end. */
  function Overwritten(r: Ring, data: seq<Byte>): (w: Ring)
    requires r.Valid() && (|r.buf| >= 2 || |data| <= 1)
    ensures w.Valid() && |w.buf| == |r.buf|
  {
    var rem := |r.buf| - r.wr;
    var rd := MovedRd(r, |data|);
    if rem > |data| then Ring(Splice(r.buf, r.wr, data), rd, r.wr + |data|)
    else
      var (buf, wr) := Later(Splice(r.buf, r.wr, data[..rem]), data[rem..]);
      Ring(buf, rd, wr)
  }

  function Last(s: seq<Byte>, k: nat): (t: seq<Byte>)
    ensures |t| == if |s| <= k then |s| else k
  {
    if |s| <= k then s else s[|s| - k..]
  }

  /** The ring holds the newest bytes: all that fit of what was unread, followed by the data. */
  ghost predicate KeepsNewest(r: Ring, data: seq<Byte>)
    requires r.Valid() && |r.buf| >= 2
  {
    Contents(Overwritten(r, data)) == Last(Contents(r) + data, |r.buf| - 1)
  }

  /** The offset t cells before p. */
  function Back(size: nat, p: nat, t: nat): nat
    requires p < size && t <= size
  {
    if t <= p then p - t else p + size - t
  }

  // ---------------------------------------------------------------- when it works

  lemma ReduceTwice(x: nat, size: nat)
    requires 0 < size && x < 3 * size
    ensures Reduce(x, size) == if x < size then x else if x < 2 * size then x - size else x - 2 * size
  {}

  lemma WrRight(r: Ring, data: seq<Byte>)
    requires r.Valid() && |r.buf| >= 2 && |data| <= 2 * |r.buf| - r.wr - 2
    ensures Overwritten(r, data).wr == if r.wr + |data| < |r.buf| then r.wr + |data| else r.wr + |data| - |r.buf|
  {}

  /** Moving the read offset by as much as is missing leaves it one cell after the new write offset. */
  lemma RdRight(size: nat, rd: nat, wr: nat, fill: nat, n: nat, wr': nat)
    requires rd < size && wr < size && 2 <= size && n <= 2 * size - wr - 2
    requires fill == (if rd <= wr then wr - rd else size - rd + wr) && n > size - 1 - fill
    requires wr' == if wr + n < size then wr + n else wr + n - size
    ensures Reduce(rd + (n - (size - 1 - fill)), size) == if wr' + 1 < size then wr' + 1 else 0
  {
    ReduceTwice(rd + (n - (size - 1 - fill)), size);
  }

  lemma FillRight(r: Ring, data: seq<Byte>)
    requires r.Valid() && |r.buf| >= 2 && |data| <= 2 * |r.buf| - r.wr - 2
    ensures Fill(Overwritten(r, data)) == Min(|r.buf| - 1, Fill(r) + |data|)
  {
    var w := Overwritten(r, data);
    WrRight(r, data);
    assert w.rd == MovedRd(r, |data|);
    if |data| > Avail(r) {
      RdRight(|r.buf|, r.rd, r.wr, Fill(r), |data|, w.wr);
    }
  }

  /** The cells behind the new write offset hold the data, and behind that what was unread. */
  lemma CellsBehind(r: Ring, data: seq<Byte>, t: nat)
    requires r.Valid() && |r.buf| >= 2 && |data| <= 2 * |r.buf| - r.wr - 2
    requires 1 <= t < |r.buf| && t <= |data| + Fill(r)
    ensures var w, n := Overwritten(r, data), |data|;
            w.buf[Back(|r.buf|, w.wr, t)] == if t <= n then data[n - t] else r.buf[Back(|r.buf|, r.wr, t - n)]
  {}

  lemma ContentsBehind(r: Ring, i: nat)
    requires r.Valid() && i < Fill(r)
    ensures Contents(r)[i] == r.buf[Back(|r.buf|, r.wr, Fill(r) - i)]
  {}

  function FromEnd(s: seq<Byte>, t: nat): Byte
    requires 1 <= t <= |s|
  {
    s[|s| - t]
  }

  /** If the cell t behind the write offset of w holds what it should, so does the queue of w, t from its end. */
  lemma NewestAt(r: Ring, data: seq<Byte>, w: Ring, t: nat)
    requires r.Valid() && w.Valid() && |w.buf| == |r.buf| && 1 <= t <= Fill(w) <= Fill(r) + |data|
    requires w.buf[Back(|r.buf|, w.wr, t)] == if t <= |data| then data[|data| - t] else r.buf[Back(|r.buf|, r.wr, t - |data|)]
    ensures FromEnd(Contents(w), t) == FromEnd(Contents(r) + data, t)
  {
    ContentsBehind(w, Fill(w) - t);
    if t > |data| {
      ContentsBehind(r, Fill(r) - (t - |data|));
    }
  }

  /** A sequence that agrees with the end of s, counted from the back, is the last k of s. */
  lemma IsLast(c: seq<Byte>, s: seq<Byte>, k: nat)
    requires |c| == Min(k, |s|) && forall t :: 1 <= t <= |c| ==> FromEnd(c, t) == FromEnd(s, t)
    ensures c == Last(s, k)
  {
    forall i | 0 <= i < |c| ensures c[i] == Last(s, k)[i] {
      assert FromEnd(c, |c| - i) == FromEnd(s, |c| - i);
    }
  }

  /** The cell t behind the new write offset, seen from the end of the queue. */
  lemma NewestCell(r: Ring, data: seq<Byte>, w: Ring, t: nat)
    requires r.Valid() && |r.buf| >= 2 && |data| <= 2 * |r.buf| - r.wr - 2 && w == Overwritten(r, data)
    requires 1 <= t <= Fill(w) <= Fill(r) + |data|
    ensures FromEnd(Contents(w), t) == FromEnd(Contents(r) + data, t)
  {
    CellsBehind(r, data, t);
    NewestAt(r, data, w, t);
  }

  lemma NewestKept(r: Ring, data: seq<Byte>)
    requires r.Valid() && |r.buf| >= 2 && |data| <= 2 * |r.buf| - r.wr - 2
    ensures KeepsNewest(r, data)
  {
    FillRight(r, data);
    NewestInOrder(r, data, Overwritten(r, data));
  }

  lemma NewestInOrder(r: Ring, data: seq<Byte>, w: Ring)
    requires r.Valid() && |r.buf| >= 2 && |data| <= 2 * |r.buf| - r.wr - 2 && w == Overwritten(r, data)
    requires Fill(w) == Min(|r.buf| - 1, Fill(r) + |data|)
    ensures Contents(w) == Last(Contents(r) + data, |r.buf| - 1)
  {
    forall t | 1 <= t <= Fill(w) ensures FromEnd(Contents(w), t) == FromEnd(Contents(r) + data, t) {
      NewestCell(r, data, w, t);
    }
    IsLast(Contents(w), Contents(r) + data, |r.buf| - 1);
  }

  // ---------------------------------------------------------------- when it does not

  /** The later rounds never touch the last cell. */
  lemma {:induction false} LastCellStale(buf: seq<Byte>, data: seq<Byte>)
    requires |buf| >= 2
    ensures Later(buf, data).0[|buf| - 1] == buf[|buf| - 1]
    decreases |data|
  {
    if |data| >= |buf| - 1 {
      LastCellStale(Splice(buf, 0, data[..|buf| - 1]), data[|buf| - 1..]);
    }
  }

  /** Data of n bytes that are all 0 except for a 1 at index m. */
  function Probe(n: nat, m: nat): (d: seq<Byte>)
    ensures |d| == n && forall i :: 0 <= i < n ==> d[i] == if i == m then 1 else 0
  {
    seq(n, i => if i == m then 1 else 0)
  }

  /** A write that reaches the end of the buffer goes on with the later rounds. */
  lemma WrapsInto(r: Ring, data: seq<Byte>, first: seq<Byte>, rest: seq<Byte>)
    requires r.Valid() && |r.buf| >= 2 && |data| >= |r.buf| - r.wr
    requires first == Splice(r.buf, r.wr, data[..|r.buf| - r.wr]) && rest == data[|r.buf| - r.wr..]
    ensures Overwritten(r, data).buf == Later(first, rest).0 && Overwritten(r, data).wr == Later(first, rest).1
  {}

  lemma StaleByte(r: Ring, data: seq<Byte>)
    requires r.Valid() && |r.buf| >= 2 && |data| >= |r.buf| - r.wr
    ensures var rem, w := |r.buf| - r.wr, Overwritten(r, data);
            w.wr == LaterWr(|r.buf|, |data| - rem) && w.buf[|r.buf| - 1] == data[rem - 1]
  {
    hide Overwritten, Later, LaterWr, Splice;
    var rem := |r.buf| - r.wr;
    var first, rest := Splice(r.buf, r.wr, data[..rem]), data[rem..];
    LastCellStale(first, rest);
    WrapsInto(r, data, first, rest);
    LastOfSplice(r.buf, r.wr, data[..rem]);
  }

  lemma LastOfSplice(buf: seq<Byte>, p: nat, d: seq<Byte>)
    requires p < |buf| && p + |d| == |buf|
    ensures Splice(buf, p, d)[|buf| - 1] == d[|d| - 1]
  {}

  /** With a full ring that ends at wr, the last cell of the buffer is at queue index size - 2 - wr. */
  lemma LastCellIndex(o: Ring)
    requires o.Valid() && |o.buf| >= 2 && Fill(o) == |o.buf| - 1 && o.wr < |o.buf| - 1
    ensures Contents(o)[|o.buf| - 2 - o.wr] == o.buf[|o.buf| - 1]
  {
    assert o.rd == o.wr + 1;
  }

  lemma LastIndex(s: seq<Byte>, data: seq<Byte>, k: nat, w: nat)
    requires k <= |data| && w < k
    ensures Last(s + data, k)[k - 1 - w] == data[|data| - 1 - w]
  {}

  lemma NotNewest(o: Ring, last: seq<Byte>)
    requires o.Valid() && |o.buf| >= 2 && |last| == |o.buf| - 1 && o.wr < |o.buf| - 1
    requires last[|o.buf| - 2 - o.wr] != o.buf[|o.buf| - 1]
    ensures Contents(o) != last
  {
    if Fill(o) == |o.buf| - 1 {
      LastCellIndex(o);
    }
  }

  /** For longer writes there is data that is not kept: the last cell still has a byte of the first round. */
  lemma NewestLost(r: Ring, n: nat) returns (data: seq<Byte>)
    requires r.Valid() && |r.buf| >= 2 && n > 2 * |r.buf| - r.wr - 2
    ensures |data| == n && !KeepsNewest(r, data)
  {
    var size, rem := |r.buf|, |r.buf| - r.wr;
    var w := LaterWr(size, n - rem);
    data := Probe(n, n - 1 - w);
    StaleByte(r, data);
    LastIndex(Contents(r), data, size - 1, w);
    NotNewest(Overwritten(r, data), Last(Contents(r) + data, size - 1));
  }

  /**
   * Overwrite mode keeps the newest bytes, whatever they are, exactly when the write is no longer
   * than 2 * SizeOfBuffer - WrOff - 2.
   */
  lemma NewestKeptIff(r: Ring, n: nat)
    requires r.Valid() && |r.buf| >= 2
    ensures (forall data: seq<Byte> :: |data| == n ==> KeepsNewest(r, data)) <==> n <= 2 * |r.buf| - r.wr - 2
  {
    if n <= 2 * |r.buf| - r.wr - 2 {
      forall data: seq<Byte> | |data| == n ensures KeepsNewest(r, data) {
        NewestKept(r, data);
      }
    } else {
      var data := NewestLost(r, n);
    }
  }
}
