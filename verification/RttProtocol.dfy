/**
 * The target and the debug probe share the up-buffer without a lock: the target alone moves WrOff,
 * the host alone moves RdOff, and each reads the other's offset once and then works for a while on
 * a value that may be out of date. This is the protocol as a transition system over single memory
 * accesses. The bytes of a chunk may be copied in any order, as memcpy is free to do.
 */
module RttProtocol {
  import opened Machine
  import opened Ring

  /** The target is between writes, or has seen room for `chunk` and has copied the bytes in `done`. */
  datatype Target = TargetIdle | TargetCopies(chunk: seq<Byte>, done: set<nat>)

  /** The host is between reads, or has seen n unread bytes and has fetched those in `got`. */
  datatype Host = HostIdle | HostCopies(n: nat, got: map<nat, Byte>)

  datatype State = State(ring: Ring, target: Target, host: Host, published: seq<Byte>, received: seq<Byte>)

  datatype Action =
    | TargetPolls(chunk: seq<Byte>)
    | TargetStores(i: nat)
    | TargetPublishes
    | HostPolls(n: nat)
    | HostFetches(j: nat)
    | HostPublishes

  ghost predicate Initial(s: State) {
    s.ring.Valid() && s.ring.rd == s.ring.wr && s.target == TargetIdle && s.host == HostIdle && s.published == [] && s.received == []
  }

  /** What each access does. A poll is the one place where a side looks at the other side's offset. */
  ghost predicate Next(s: State, a: Action, t: State)
    requires s.ring.Valid()
  {
    var r := s.ring;
    match a
    case TargetPolls(chunk) =>
      s.target.TargetIdle? && |chunk| <= Avail(r) && t == s.(target := TargetCopies(chunk, {}))
    case TargetStores(i) =>
      && s.target.TargetCopies? && i < |s.target.chunk| && i < |r.buf|
      && t == s.(ring := Stored(r, i, s.target.chunk[i]), target := s.target.(done := s.target.done + {i}))
    case TargetPublishes =>
      && s.target.TargetCopies? && |s.target.chunk| <= |r.buf| && (forall i: nat :: i < |s.target.chunk| ==> i in s.target.done)
      && t == s.(ring := r.(wr := Adv(|r.buf|, r.wr, |s.target.chunk|)), target := TargetIdle, published := s.published + s.target.chunk)
    case HostPolls(n) =>
      s.host.HostIdle? && n <= Fill(r) && t == s.(host := HostCopies(n, map[]))
    case HostFetches(j) =>
      && s.host.HostCopies? && j < s.host.n && j < |r.buf|
      && t == s.(host := s.host.(got := s.host.got[j := r.buf[Adv(|r.buf|, r.rd, j)]]))
    case HostPublishes =>
      && s.host.HostCopies? && s.host.n <= |r.buf| && (forall j: nat :: j < s.host.n ==> j in s.host.got)
      && t == s.(ring := r.(rd := Adv(|r.buf|, r.rd, s.host.n)), host := HostIdle, received := s.received + Fetched(s.host))
  }

  /** The ring with one byte stored, i cells after the published write offset. */
  function Stored(r: Ring, i: nat, b: Byte): (t: Ring)
    requires r.Valid() && i < |r.buf|
    ensures t.Valid()
  {
    r.(buf := r.buf[Adv(|r.buf|, r.wr, i) := b])
  }

  function Fetched(h: Host): (s: seq<Byte>)
    requires h.HostCopies? && forall j: nat :: j < h.n ==> j in h.got
    ensures |s| == h.n
  {
    seq(h.n, j requires 0 <= j < h.n => h.got[j])
  }

  /** Nothing is lost, repeated or reordered, whatever the two sides are in the middle of. */
  ghost predicate Safe(s: State) {
    && s.ring.Valid()
    && s.received + Contents(s.ring) == s.published
    && TargetSafe(s.ring, s.target)
    && HostSafe(s.ring, s.host)
  }

  ghost predicate TargetSafe(r: Ring, t: Target)
    requires r.Valid()
  {
    t.TargetCopies? ==>
      && |t.chunk| <= Avail(r)
      && forall i :: i in t.done ==> i < |t.chunk| && r.buf[Adv(|r.buf|, r.wr, i)] == t.chunk[i]
  }

  ghost predicate HostSafe(r: Ring, h: Host)
    requires r.Valid()
  {
    h.HostCopies? ==>
      && h.n <= Fill(r)
      && forall j :: j in h.got ==> j < h.n && h.got[j] == Contents(r)[j]
  }

  // ---------------------------------------------------------------- the target's steps

  /** A cell the target may write is not an unread cell. */
  lemma StoreMissesUnread(r: Ring, i: nat, j: nat)
    requires r.Valid() && i < Avail(r) && j < Fill(r)
    ensures Adv(|r.buf|, r.wr, i) != Adv(|r.buf|, r.rd, j)
  {}

  lemma StoreKeepsContents(r: Ring, i: nat, b: Byte)
    requires r.Valid() && i < Avail(r)
    ensures Contents(Stored(r, i, b)) == Contents(r)
  {
    forall j | 0 <= j < Fill(r) ensures Contents(Stored(r, i, b))[j] == Contents(r)[j] {
      StoreMissesUnread(r, i, j);
    }
  }

  lemma StoreKeepsTarget(r: Ring, i: nat, t: Target)
    requires r.Valid() && t.TargetCopies? && i < |t.chunk| && TargetSafe(r, t)
    ensures TargetSafe(Stored(r, i, t.chunk[i]), t.(done := t.done + {i}))
  {}

  lemma StoreSafe(s: State, i: nat, t: State)
    requires Safe(s) && Next(s, TargetStores(i), t)
    ensures Safe(t) && Contents(t.ring) == Contents(s.ring)
  {
    StoreKeepsContents(s.ring, i, s.target.chunk[i]);
    StoreKeepsTarget(s.ring, i, s.target);
  }

  /** A chunk that has been copied completely is just what Put would have stored. */
  lemma ChunkIsPut(r: Ring, t: Target)
    requires r.Valid() && t.TargetCopies? && TargetSafe(r, t) && forall i: nat :: i < |t.chunk| ==> i in t.done
    ensures Put(r.buf, r.wr, t.chunk) == r.buf
  {
    var put := Put(r.buf, r.wr, t.chunk);
    forall p | 0 <= p < |r.buf| ensures put[p] == r.buf[p] {
      CellOfChunk(r, t, p);
    }
  }

  lemma CellOfChunk(r: Ring, t: Target, p: nat)
    requires r.Valid() && t.TargetCopies? && TargetSafe(r, t) && forall i: nat :: i < |t.chunk| ==> i in t.done
    requires p < |r.buf|
    ensures Put(r.buf, r.wr, t.chunk)[p] == r.buf[p]
  {
    var d: nat := if r.wr <= p then p - r.wr else p + |r.buf| - r.wr;
    PutCell(r.buf, r.wr, t.chunk, d);
    assert d < |t.chunk| ==> d in t.done;
  }

  /** Publishing a complete chunk appends it. */
  lemma PublishAppends(r: Ring, t: Target, w: Ring)
    requires r.Valid() && t.TargetCopies? && TargetSafe(r, t) && forall i: nat :: i < |t.chunk| ==> i in t.done
    requires w == r.(wr := Adv(|r.buf|, r.wr, |t.chunk|))
    ensures w.Valid() && Contents(w) == Contents(r) + t.chunk
  {
    ChunkIsPut(r, t);
    WrittenContents(r, t.chunk);
  }

  /** The window of the host is a prefix of the queue, which only grows at the other end. */
  lemma AppendKeepsHost(r: Ring, w: Ring, chunk: seq<Byte>, h: Host)
    requires r.Valid() && w.Valid() && Contents(w) == Contents(r) + chunk && HostSafe(r, h)
    ensures HostSafe(w, h)
  {}

  lemma PublishSafe(s: State, t: State)
    requires Safe(s) && Next(s, TargetPublishes, t)
    ensures Safe(t) && t.published == s.published + s.target.chunk
  {
    PublishAppends(s.ring, s.target, t.ring);
    AppendKeepsHost(s.ring, t.ring, s.target.chunk, s.host);
    Associate(s.received, Contents(s.ring), s.target.chunk);
  }

  lemma Associate(a: seq<Byte>, b: seq<Byte>, c: seq<Byte>)
    ensures a + (b + c) == a + b + c
  {}

  // ---------------------------------------------------------------- the host's steps

  lemma FetchSafe(s: State, j: nat, t: State)
    requires Safe(s) && Next(s, HostFetches(j), t)
    ensures Safe(t)
  {}

  lemma FetchedIsPrefix(r: Ring, h: Host)
    requires r.Valid() && h.HostCopies? && HostSafe(r, h) && forall j: nat :: j < h.n ==> j in h.got
    ensures Fetched(h) == Contents(r)[..h.n]
  {
    forall j: nat | j < h.n ensures Fetched(h)[j] == Contents(r)[j] {
      assert j in h.got;
    }
  }

  /** Moving RdOff only gives the target more room. */
  lemma ConsumeKeepsTarget(r: Ring, n: nat, t: Target)
    requires r.Valid() && n <= Fill(r) && TargetSafe(r, t)
    ensures TargetSafe(Consumed(r, n), t)
  {
    ConsumedContents(r, n);
  }

  lemma ConsumeSplits(r: Ring, n: nat)
    requires r.Valid() && n <= Fill(r)
    ensures Contents(r) == Contents(r)[..n] + Contents(Consumed(r, n))
  {
    ConsumedContents(r, n);
  }

  lemma HostPublishSafe(s: State, t: State)
    requires Safe(s) && Next(s, HostPublishes, t)
    ensures Safe(t) && t.received == s.received + Contents(s.ring)[..s.host.n]
  {
    FetchedIsPrefix(s.ring, s.host);
    ConsumeKeepsTarget(s.ring, s.host.n, s.target);
    ConsumeSplits(s.ring, s.host.n);
    Associate(s.received, Contents(s.ring)[..s.host.n], Contents(t.ring));
  }

  // ---------------------------------------------------------------- whole runs

  lemma StepSafe(s: State, a: Action, t: State)
    requires Safe(s) && Next(s, a, t)
    ensures Safe(t) && s.published <= t.published && s.received <= t.received
  {
    match a {
      case TargetStores(i) => StoreSafe(s, i, t);
      case TargetPublishes => PublishSafe(s, t);
      case HostFetches(j) => FetchSafe(s, j, t);
      case HostPublishes => HostPublishSafe(s, t);
      case _ =>
    }
  }

  ghost predicate Run(trace: seq<State>, actions: seq<Action>) {
    && |trace| == |actions| + 1 && Initial(trace[0])
    && forall i, j :: 0 <= i < |actions| && j == i + 1 && trace[i].ring.Valid() ==> Next(trace[i], actions[i], trace[j])
  }

  /**
   * In every state of every interleaving, what the host has received followed by what is unread is
   * what the target has published: both sides see one queue, and no unread byte is ever overwritten.
   */
  lemma {:induction false} RunSafe(trace: seq<State>, actions: seq<Action>, k: nat)
    requires Run(trace, actions) && k < |trace|
    ensures Safe(trace[k])
    ensures trace[k].received <= trace[k].published
  {
    if k > 0 {
      RunSafe(trace, actions, k - 1);
      StepSafe(trace[k - 1], actions[k - 1], trace[k]);
    }
  }

  /** Once the host has caught up, it has received every published byte, in order. */
  lemma CaughtUp(trace: seq<State>, actions: seq<Action>, k: nat)
    requires Run(trace, actions) && k < |trace|
    ensures trace[k].ring.rd == trace[k].ring.wr <==> trace[k].received == trace[k].published
  {
    RunSafe(trace, actions, k);
    var s := trace[k];
    assert |s.published| == |s.received| + Fill(s.ring);
    assert Fill(s.ring) == 0 ==> Contents(s.ring) == [];
  }

  /** What a round of _WriteBlocking, or a write that was found to fit, takes on is always allowed. */
  lemma RoundMayStart(s: State, data: seq<Byte>)
    requires Safe(s) && s.target.TargetIdle?
    ensures var chunk := data[..RoundSize(s.ring, |data|)];
            && Next(s, TargetPolls(chunk), s.(target := TargetCopies(chunk, {})))
            && (chunk == [] <==> data == [] || Fill(s.ring) == |s.ring.buf| - 1)
  {}
}
