/** The up-buffer of SEGGER RTT and the functions that write to it and read from it. */
module RttBuffer {
  import opened Machine
  import opened Ring
  import opened Overwrite

  datatype Mode = Skip | Trim | Block | Other

  /** The mode a flags word selects, compared as a whole. */
  function ModeOf(flags: nat): Mode {
    if flags == 0 then Skip else if flags == 1 then Trim else if flags == 2 then Block else Other
  }

  /**
   * What SEGGER_RTT_GetBytesInBuffer computes. The wrapped case subtracts the offsets the wrong way
   * round, so the result is the fill level only if the unread bytes do not wrap, or by an accident
   * of unsigned arithmetic.
   */
  function BytesReported(size: nat, rd: nat, wr: nat): nat {
    if rd <= wr then wr - rd else Wrap(size - Wrap(wr - rd))
  }

  /** A ring of 8 bytes with 5 of them unread reports 11. */
  lemma BytesMisreported()
    ensures var r := Ring([0, 0, 0, 0, 0, 0, 0, 0], 5, 2);
            r.Valid() && Fill(r) == 5 && BytesReported(8, 5, 2) == 11
  {
    assert Wrap(2 - 5) == WORD_LIMIT - 3 && Wrap(8 - (WORD_LIMIT - 3)) == 11;
  }

  lemma Append(taken: seq<Byte>, bytes: seq<Byte>, before: seq<Byte>, after: seq<Byte>,
               start: seq<Byte>, data: seq<Byte>, written: nat, n: nat)
    requires written + n <= |data| && taken + before == start + data[..written]
    requires bytes + after == before + data[written..][..n]
    ensures taken + bytes + after == start + data[..written + n]
  {
    assert data[..written + n] == data[..written] + data[written..][..n];
    assert taken + bytes + after == taken + (bytes + after);
    assert taken + (before + data[written..][..n]) == taken + before + data[written..][..n];
  }

  /** A host that takes at least one byte before each of the n rounds. */
  ghost predicate Diligent(host: seq<nat>, n: nat) {
    |host| >= n && forall i :: 0 <= i < |host| ==> host[i] > 0
  }

  class UpBuffer {
    const buf: array<Byte>
    var rd: nat
    var wr: nat
    var flags: nat

    ghost predicate Valid()
      reads this
    {
      rd < buf.Length && wr < buf.Length < WORD_LIMIT
    }

    ghost function State(): (r: Ring)
      requires Valid()
      reads this, buf
      ensures r.Valid()
    {
      Ring(buf[..], rd, wr)
    }

    ghost function Unread(): seq<Byte>
      requires Valid()
      reads this, buf
    {
      Contents(State())
    }

    constructor (size: nat, flags: nat)
      requires 0 < size < WORD_LIMIT
      ensures Valid() && fresh(buf) && Unread() == [] && buf.Length == size && this.flags == flags
    {
      buf := new Byte[size];
      rd, wr := 0, 0;
      this.flags := flags;
    }

    /** memcpy into the buffer. */
    method CopyIn(p: nat, data: seq<Byte>)
      requires p + |data| <= buf.Length
      modifies buf
      ensures buf[..] == Splice(old(buf[..]), p, data)
    {
      forall i | 0 <= i < |data| {
        buf[p + i] := data[i];
      }
    }

    /** _GetAvailWriteSpace. */
    method GetAvailWriteSpace() returns (n: nat)
      requires Valid()
      ensures n == Avail(State())
    {
      if rd <= wr {
        n := buf.Length - 1 - wr + rd;
      } else {
        n := rd - wr - 1;
      }
    }

    /** SEGGER_RTT_GetBytesInBuffer. */
    method GetBytesInBuffer() returns (n: nat)
      requires Valid()
      ensures n == BytesReported(buf.Length, rd, wr)
      ensures n == Fill(State()) <==> rd <= wr || rd - wr == 0x8000_0000
    {
      if rd <= wr {
        n := wr - rd;
      } else {
        n := Wrap(buf.Length - Wrap(wr - rd));
      }
    }

    /** _WriteNoCheck: the caller has made sure that the data fits. */
    method WriteNoCheck(data: seq<Byte>)
      requires Valid() && |data| <= Avail(State())
      modifies `wr, buf
      ensures Valid() && State() == Written(old(State()), data)
    {
      var rem := buf.Length - wr;
      if rem > |data| {
        CopyIn(wr, data);
        wr := wr + |data|;
      } else {
        PutInTwoChunks(buf[..], wr, data);
        CopyIn(wr, data[..rem]);
        CopyIn(0, data[rem..]);
        wr := |data| - rem;
      }
    }

    /** SEGGER_RTT_WriteSkipNoLock: all of the data if it fits, with the common case first. */
    method WriteSkipNoLock(data: seq<Byte>) returns (stored: bool)
      requires Valid()
      modifies `wr, buf
      ensures Valid()
      ensures stored == (|data| <= Avail(old(State())))
      ensures State() == if stored then Written(old(State()), data) else old(State())
    {
      if rd <= wr {
        var avail := buf.Length - wr - 1;
        if avail >= |data| {
          CopyIn(wr, data);
          wr := wr + |data|;
          return true;
        }
        avail := avail + rd;
        if avail >= |data| {
          var rem := buf.Length - wr;
          PutInTwoChunks(buf[..], wr, data);
          CopyIn(wr, data[..rem]);
          var rest := |data| - rem;
          if rest > 0 {
            CopyIn(0, data[rem..]);
          }
          wr := rest;
          return true;
        }
      } else {
        var avail := rd - wr - 1;
        if avail >= |data| {
          CopyIn(wr, data);
          wr := wr + |data|;
          return true;
        }
      }
      return false;
    }

    /**
     * The two pieces of a read of up to `size` bytes: n bytes before the end of the buffer, if the
     * unread bytes wrap around, and k bytes from p on.
     */
    method ReadPieces(size: nat) returns (n: nat, p: nat, k: nat)
      requires Valid()
      ensures n + k == Min(size, Fill(State()))
      ensures rd + n <= buf.Length && p == Consumed(State(), n).rd
      ensures p + k <= if k > 0 then wr else buf.Length
    {
      n, p := 0, rd;
      if p > wr {
        n := Min(buf.Length - p, size);
        p := p + n;
        if p == buf.Length {
          p := 0;
        }
      }
      // the difference is unsigned: it wraps when the reader stopped short of the end of the buffer
      k := Min(Wrap(wr - p), size - n);
    }

    /** SEGGER_RTT_ReadUpBufferNoLock. */
    method ReadUpBufferNoLock(size: nat) returns (out: seq<Byte>)
      requires Valid()
      modifies `rd
      ensures Valid()
      ensures |out| == Min(size, Fill(old(State())))
      ensures out == old(Unread())[..|out|]
      ensures State() == Consumed(old(State()), |out|)
    {
      ghost var r := State();
      var n, p, k := ReadPieces(size);
      TwoPieces(r, n, p, k);
      out := buf[rd..rd + n] + buf[p..p + k];
      assert out == r.buf[rd..rd + n] + r.buf[p..p + k];
      if n + k > 0 {
        rd := p + k;
      }
    }

    /** One round of _WriteBlocking: as much as fits before the reader and before the end of the buffer. */
    method WriteRound(data: seq<Byte>) returns (n: nat)
      requires Valid()
      modifies `wr, buf
      ensures Valid() && n == RoundSize(old(State()), |data|)
      ensures State() == Written(old(State()), data[..n])
    {
      if rd > wr {
        n := rd - wr - 1;
      } else {
        n := buf.Length - (wr - rd + 1);
      }
      n := Min(n, buf.Length - wr);
      n := Min(n, |data|);
      CopyIn(wr, data[..n]);
      wr := if wr + n == buf.Length then 0 else wr + n;
    }

    /** The debug probe takes up to h unread bytes. */
    method HostReads(h: nat) returns (ghost bytes: seq<Byte>)
      requires Valid()
      modifies `rd
      ensures Valid() && |bytes| == Min(h, Fill(old(State())))
      ensures State() == Consumed(old(State()), |bytes|)
      ensures bytes == old(Unread())[..|bytes|]
    {
      var fill := if rd <= wr then wr - rd else buf.Length - rd + wr;
      var n := Min(h, fill);
      bytes := Unread()[..n];
      rd := if rd + n < buf.Length then rd + n else rd + n - buf.Length;
    }

    /** The debug probe takes up to h bytes, then _WriteBlocking goes through one round. */
    method BlockingRound(data: seq<Byte>, h: nat) returns (n: nat, ghost bytes: seq<Byte>)
      requires Valid()
      modifies `rd, `wr, buf
      ensures Valid() && n <= |data|
      ensures bytes + Unread() == old(Unread()) + data[..n]
      ensures |data| <= Avail(old(State())) ==>
                && |data| - n <= Avail(State())
                && (n == |data| || (wr == 0 && old(wr) > 0))
      ensures h > 0 && |data| > 0 && buf.Length >= 2 ==> n > 0
    {
      ghost var r := State();
      bytes := HostReads(h);
      n := WriteRound(data);
      RoundConserves(r, |bytes|, data);
      if |data| <= Avail(r) {
        RoundProgress(r, |bytes|, data);
      }
    }

    /**
     * _WriteBlocking. Before round i the debug probe takes up to host[i] bytes. The loop ends when
     * all data is written, or, still blocked, when no more rounds are given.
     */
    method WriteBlocking(data: seq<Byte>, host: seq<nat>) returns (written: nat, ghost taken: seq<Byte>)
      requires Valid()
      modifies `rd, `wr, buf
      ensures Valid() && written <= |data|
      ensures taken + Unread() == old(Unread()) + data[..written]
      ensures |data| <= Avail(old(State())) && |host| >= 2 ==> written == |data|
      ensures Diligent(host, |data|) && buf.Length >= 2 ==> written == |data|
    {
      written, taken := 0, [];
      var i := 0;
      while written < |data| && i < |host|
        invariant Valid() && written <= |data| && i <= |host|
        invariant taken + Unread() == old(Unread()) + data[..written]
        invariant |data| <= Avail(old(State())) ==> |data| - written <= Avail(State())
        invariant Diligent(host, |data|) && buf.Length >= 2 ==> i <= written
        invariant |data| <= Avail(old(State())) && i > 0 ==> written == |data| || (i == 1 && wr == 0)
      {
        ghost var before := Unread();
        ghost var bytes;
        var m;
        m, bytes := BlockingRound(data[written..], host[i]);
        Append(taken, bytes, before, Unread(), old(Unread()), data, written, m);
        taken := taken + bytes;
        written := written + m;
        i := i + 1;
      }
    }

    /** SEGGER_RTT_WriteNoLock, by the mode of the buffer; flags that are no mode store nothing. */
    method WriteNoLock(data: seq<Byte>, host: seq<nat>) returns (status: nat, ghost taken: seq<Byte>)
      requires Valid()
      modifies `rd, `wr, buf
      ensures Valid()
      ensures ModeOf(flags).Skip? ==> status == if |data| <= Avail(old(State())) then |data| else 0
      ensures ModeOf(flags).Trim? ==> status == Min(Avail(old(State())), |data|)
      ensures ModeOf(flags).Other? ==> status == 0
      ensures !ModeOf(flags).Block? ==> taken == [] && State() == Written(old(State()), data[..status])
      ensures status <= |data| && taken + Unread() == old(Unread()) + data[..status]
    {
      ghost var before := State();
      taken := [];
      match ModeOf(flags) {
        case Skip =>
          var avail := GetAvailWriteSpace();
          if avail < |data| {
            status := 0;
            assert Written(before, data[..0]) == before;
          } else {
            status := |data|;
            assert data[..status] == data;
            WriteNoCheck(data);
          }
          WrittenContents(before, data[..status]);
        case Trim =>
          var avail := GetAvailWriteSpace();
          status := Min(avail, |data|);
          WriteNoCheck(data[..status]);
          WrittenContents(before, data[..status]);
        case Block =>
          status, taken := WriteBlocking(data, host);
        case Other =>
          status := 0;
          assert Written(before, data[..0]) == before;
      }
    }

    /** The first part of SEGGER_RTT_WriteWithOverwriteNoLock: gives up unread bytes that are in the way. */
    method MoveReader(n: nat)
      requires Valid()
      modifies `rd
      ensures rd == MovedRd(old(State()), n)
    {
      var avail;
      if wr == rd {
        avail := buf.Length - 1;
      } else if wr < rd {
        avail := rd - wr - 1;
      } else {
        avail := rd - wr - 1 + buf.Length;
      }
      if n > avail {
        rd := rd + (n - avail);
        while rd >= buf.Length
          invariant Reduce(rd, buf.Length) == MovedRd(old(State()), n)
          decreases rd
        {
          rd := rd - buf.Length;
        }
      }
    }

    /** The rounds of the write loop from the first wrap-around on. */
    method WriteLater(data: seq<Byte>)
      requires wr == 0 && (buf.Length >= 2 || (buf.Length == 1 && data == []))
      modifies `wr, buf
      ensures (buf[..], wr) == Later(old(buf[..]), data)
    {
      var avail, left := buf.Length - 1, data;
      while left != [] && avail <= |left|
        invariant wr == 0 && (avail == 0 ==> left == [])
        invariant Later(buf[..], left) == Later(old(buf[..]), data)
        decreases |left|
      {
        CopyIn(wr, left[..avail]);
        left := left[avail..];
      }
      CopyIn(wr, left);
      wr := wr + |left|;
    }

    /** SEGGER_RTT_WriteWithOverwriteNoLock, where it comes to an end: two bytes never get into a one-byte buffer. */
    method WriteWithOverwriteNoLock(data: seq<Byte>)
      requires Valid() && (buf.Length >= 2 || |data| <= 1)
      modifies `rd, `wr, buf
      ensures Valid() && State() == Overwritten(old(State()), data)
    {
      MoveReader(|data|);
      var avail := buf.Length - wr;
      if avail > |data| {
        CopyIn(wr, data);
        wr := wr + |data|;
      } else {
        CopyIn(wr, data[..avail]);
        wr := 0;
        WriteLater(data[avail..]);
      }
    }
  }

  /** In skip mode, the fast path stores the data exactly when the simple path does, and leaves the same ring. */
  method SkipPathsAgree(a: UpBuffer, b: UpBuffer, data: seq<Byte>) returns (fast: bool, simple: nat)
    requires a.Valid() && b.Valid() && a.State() == b.State() && ModeOf(b.flags) == Skip
    requires a != b && a.buf != b.buf
    modifies a, b, a.buf, b.buf
    ensures a.Valid() && b.Valid() && a.State() == b.State()
    ensures simple == if fast then |data| else 0
    ensures a.Unread() == if fast then old(a.Unread()) + data else old(a.Unread())
  {
    ghost var r := a.State();
    ghost var taken;
    fast := a.WriteSkipNoLock(data);
    simple, taken := b.WriteNoLock(data, []);
    if fast {
      WrittenContents(r, data);
      assert data[..simple] == data;
    } else {
      assert Written(r, data[..0]) == r;
    }
  }
}
