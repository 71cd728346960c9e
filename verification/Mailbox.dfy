/**
 * The mailbox of ipc.c. What runs between disabling and enabling interrupts is one step; a thread
 * that has to wait leaves its step suspended and, when woken, starts over with a new one.
 */
module Mailbox {
  import opened WaitList
  import opened Deque

  type Word = nat

  datatype Outcome = Done(value: Word) | Failed | Suspended

  /** A mailbox as a bounded deque with two sides on which threads wait. */
  datatype Box = Box(size: nat, fifo: bool, mails: seq<Word>, receivers: Side, senders: Side)

  // ---------------------------------------------------------------- the steps

  /** One pass of rt_mb_send_wait; `wait` says that the timeout is not zero. */
  function Sent(b: Box, t: Thread, value: Word, wait: bool, p: Priorities): (Outcome, Box) {
    var s := Enter(b.senders, t);
    if |b.mails| == b.size then
      if wait then (Suspended, b.(senders := Block(s, t, b.fifo, p))) else (Failed, b.(senders := s))
    else (Done(value), b.(mails := b.mails + [value], senders := s, receivers := Wake(b.receivers)))
  }

  function SentUrgently(b: Box, value: Word): (Outcome, Box) {
    if |b.mails| == b.size then (Failed, b)
    else (Done(value), b.(mails := [value] + b.mails, receivers := Wake(b.receivers)))
  }

  /** One pass of rt_mb_recv. */
  function Received(b: Box, t: Thread, wait: bool, p: Priorities): (Outcome, Box) {
    var s := Enter(b.receivers, t);
    if b.mails == [] then
      if wait then (Suspended, b.(receivers := Block(s, t, b.fifo, p))) else (Failed, b.(receivers := s))
    else (Done(b.mails[0]), b.(mails := b.mails[1..], receivers := s, senders := Wake(b.senders)))
  }

  function AfterReset(b: Box): Box {
    b.(mails := [], receivers := Flush(b.receivers), senders := Flush(b.senders))
  }

  datatype Step =
    | Send(t: Thread, value: Word, wait: bool, p: Priorities)
    | Urgent(value: Word)
    | Recv(t: Thread, wait: bool, p: Priorities)
    | SenderExpires(t: Thread)
    | ReceiverExpires(t: Thread)
    | Reset

  function Next(b: Box, step: Step): (Outcome, Box) {
    match step
    case Send(t, value, wait, p) => Sent(b, t, value, wait, p)
    case Urgent(value) => SentUrgently(b, value)
    case Recv(t, wait, p) => Received(b, t, wait, p)
    case SenderExpires(t) => (Failed, b.(senders := Expire(b.senders, t)))
    case ReceiverExpires(t) => (Failed, b.(receivers := Expire(b.receivers, t)))
    case Reset => (Failed, AfterReset(b))
  }

  /** A thread that is suspended on the mailbox does not run. */
  ghost predicate Enabled(b: Box, step: Step) {
    (step.Send? || step.Recv?) ==> step.t !in b.senders.waiting && step.t !in b.receivers.waiting
  }

  // ---------------------------------------------------------------- no lost wakeups

  /**
   * A suspended receiver implies that the mails do not outnumber the receivers already woken, and a
   * suspended sender that the free places do not outnumber the senders already woken.
   */
  ghost predicate Inv(b: Box) {
    |b.mails| <= b.size && SideInv(b.receivers, |b.mails|) && SideInv(b.senders, b.size - |b.mails|)
  }

  lemma StepInv(b: Box, step: Step)
    requires Inv(b) && Enabled(b, step)
    ensures Inv(Next(b, step).1)
  {
    match step {
      case Send(t, _, wait, p) =>
        if |b.mails| < b.size {
          TakeInv(b.senders, t, b.size - |b.mails|);
          WakeInv(b.receivers, |b.mails|);
        } else if wait {
          BlockInv(b.senders, t, b.fifo, p);
        }
      case Urgent(_) =>
        if |b.mails| < b.size {
          WakeInv(b.receivers, |b.mails|);
        }
      case Recv(t, wait, p) =>
        if b.mails != [] {
          TakeInv(b.receivers, t, |b.mails|);
          WakeInv(b.senders, b.size - |b.mails|);
        } else if wait {
          BlockInv(b.receivers, t, b.fifo, p);
        }
      case SenderExpires(t) => ExpireInv(b.senders, t, b.size - |b.mails|);
      case ReceiverExpires(t) => ExpireInv(b.receivers, t, |b.mails|);
      case Reset =>
    }
  }

  ghost predicate Run(trace: seq<Box>, steps: seq<Step>) {
    && |trace| == |steps| + 1
    && trace[0].mails == [] && trace[0].receivers == Side([], {}) && trace[0].senders == Side([], {})
    && forall i :: 0 <= i < |steps| ==> Enabled(trace[i], steps[i]) && trace[i + 1] == Next(trace[i], steps[i]).1
  }

  lemma {:induction false} RunInv(trace: seq<Box>, steps: seq<Step>, k: nat)
    requires Run(trace, steps) && k < |trace|
    ensures Inv(trace[k])
  {
    if k > 0 {
      RunInv(trace, steps, k - 1);
      StepInv(trace[k - 1], steps[k - 1]);
    }
  }

  /** In any run: once every woken thread has run, nobody waits for what is there. */
  lemma NobodyForgotten(trace: seq<Box>, steps: seq<Step>, k: nat)
    requires Run(trace, steps) && k < |trace|
    ensures trace[k].receivers.woken == {} && trace[k].receivers.waiting != [] ==> trace[k].mails == []
    ensures trace[k].senders.woken == {} && trace[k].senders.waiting != [] ==> |trace[k].mails| == trace[k].size
  {
    RunInv(trace, steps, k);
  }

  // ---------------------------------------------------------------- what becomes of the mails

  /** What a step does to the mails, told by its outcome. */
  function EventOf(b: Box, s: Step): Event<Word> {
    if s.Reset? then Cleared(b.mails)
    else match Next(b, s).0
      case Done(value) =>
        if s.Send? then Appended(s.value) else if s.Urgent? then Prepended(s.value) else Removed(value)
      case _ => Nothing
  }

  function Events(trace: seq<Box>, steps: seq<Step>): (e: seq<Event<Word>>)
    requires |trace| == |steps| + 1
    ensures |e| == |steps|
  {
    seq(|steps|, i requires 0 <= i < |steps| => EventOf(trace[i], steps[i]))
  }

  function Contents(trace: seq<Box>): (c: seq<seq<Word>>)
    ensures |c| == |trace|
  {
    seq(|trace|, i requires 0 <= i < |trace| => trace[i].mails)
  }

  /**
   * A send is accepted, at the back, exactly when there is room, and an urgent one, at the front,
   * likewise; a receive succeeds exactly when there is a mail, and takes the first. Without room or
   * mail, a step that may wait is suspended, and one that may not fails; no mail moves.
   */
  lemma StepLeads(b: Box, s: Step)
    ensures Leads(b.mails, EventOf(b, s), Next(b, s).1.mails)
    ensures (s.Send? || s.Urgent?) ==> (Next(b, s).0.Done? <==> |b.mails| != b.size)
    ensures s.Recv? ==> (Next(b, s).0.Done? <==> b.mails != [])
    ensures (s.Send? || s.Recv?) && !Next(b, s).0.Done? ==> (Next(b, s).0.Suspended? <==> s.wait)
  {
    if s.Recv? && b.mails != [] {
      assert b.mails == [b.mails[0]] + b.mails[1..];
    }
  }

  lemma RunHistory(trace: seq<Box>, steps: seq<Step>)
    requires Run(trace, steps)
    ensures History(Contents(trace), Events(trace, steps))
  {
    forall i, j | 0 <= i < |steps| && j == i + 1
      ensures Leads(Contents(trace)[i], Events(trace, steps)[i], Contents(trace)[j])
    {
      StepLeads(trace[i], steps[i]);
    }
  }

  /** Every mail is in the box, was received, or was thrown away by a reset, exactly as often as it was sent. */
  lemma MailsConserved(trace: seq<Box>, steps: seq<Step>, k: nat)
    requires Run(trace, steps) && k < |trace|
    ensures multiset(TakenOut(Events(trace, steps), k)) + multiset(trace[k].mails) == multiset(PutIn(Events(trace, steps), k))
  {
    RunHistory(trace, steps);
    AllAccounted(Contents(trace), Events(trace, steps), k);
  }

  /** Without urgent mails, they come out in the order in which they went in. */
  lemma FirstInFirstOut(trace: seq<Box>, steps: seq<Step>, k: nat)
    requires Run(trace, steps) && k < |trace| && forall i :: 0 <= i < k ==> !steps[i].Urgent?
    ensures TakenOut(Events(trace, steps), k) + trace[k].mails == PutIn(Events(trace, steps), k)
  {
    RunHistory(trace, steps);
    Deque.FirstInFirstOut(Contents(trace), Events(trace, steps), k);
  }

  /**
   * With urgent mails, a receive returns the one sent last of those still in the box, and only when
   * there is none the oldest of the others.
   */
  lemma UrgentFirst(trace: seq<Box>, steps: seq<Step>, k: nat)
    requires Run(trace, steps) && k < |steps| && steps[k].Recv? && Next(trace[k], steps[k]).0.Done?
    ensures var p, value := Remaining(Events(trace, steps), k), Next(trace[k], steps[k]).0.value;
            if p.urgent != [] then value == p.urgent[0] else p.ordinary != [] && value == p.ordinary[0]
  {
    RunHistory(trace, steps);
    LastUrgentFirst(Contents(trace), Events(trace, steps), k);
  }

  // ---------------------------------------------------------------- the ring of words

  /** The entry words from cell `out` on, wrapping around. */
  function Stored(cells: seq<Word>, out: nat, entry: nat): (m: seq<Word>)
    requires out <= |cells| && entry <= |cells|
    ensures |m| == entry
  {
    if out + entry <= |cells| then cells[out..out + entry] else cells[out..] + cells[..out + entry - |cells|]
  }

  function Wrap(size: nat, x: nat): nat {
    if x < size then x else x - size
  }

  lemma StoredAppend(cells: seq<Word>, out: nat, entry: nat, v: Word)
    requires out < |cells| && entry < |cells|
    ensures Stored(cells[Wrap(|cells|, out + entry) := v], out, entry + 1) == Stored(cells, out, entry) + [v]
  {}

  lemma StoredPrepend(cells: seq<Word>, out: nat, entry: nat, v: Word)
    requires out < |cells| && entry < |cells|
    ensures var o := if out > 0 then out - 1 else |cells| - 1;
            Stored(cells[o := v], o, entry + 1) == [v] + Stored(cells, out, entry)
  {}

  lemma StoredTail(cells: seq<Word>, out: nat, entry: nat)
    requires out < |cells| && 0 < entry <= |cells|
    ensures Stored(cells, out, entry)[0] == cells[out]
    ensures Stored(cells, Wrap(|cells|, out + 1), entry - 1) == Stored(cells, out, entry)[1..]
  {}

  // ---------------------------------------------------------------- the mailbox

  const ENTRY_MAX := 0xFFFF

  class MailboxObject {
    const pool: array<Word>
    const fifo: bool
    var entry: nat
    var inOff: nat
    var outOff: nat
    var receivers: seq<Thread>
    var senders: seq<Thread>
    ghost var wokenReceivers: set<Thread>
    ghost var wokenSenders: set<Thread>

    ghost predicate Valid()
      reads `entry, `inOff, `outOff
    {
      && entry <= pool.Length <= ENTRY_MAX
      && outOff <= pool.Length && (pool.Length > 0 ==> outOff < pool.Length && inOff == Wrap(pool.Length, outOff + entry))
    }

    ghost function Mails(): seq<Word>
      requires Valid()
      reads `entry, `inOff, `outOff, pool
    {
      Stored(pool[..], outOff, entry)
    }

    ghost function View(): Box
      requires Valid()
      reads this, pool
    {
      Box(pool.Length, fifo, Mails(), Side(receivers, wokenReceivers), Side(senders, wokenSenders))
    }

    /** rt_mb_init. The size of a mailbox is kept in 16 bits. */
    constructor (size: nat, fifo: bool)
      ensures Valid() && fresh(pool) && View() == Box(size % 0x1_0000, fifo, [], Side([], {}), Side([], {}))
    {
      pool := new Word[size % 0x1_0000];
      this.fifo := fifo;
      entry, inOff, outOff := 0, 0, 0;
      receivers, senders, wokenReceivers, wokenSenders := [], [], {}, {};
    }

    /** The resume at the end of a send. */
    method ResumeReceiver()
      modifies `receivers, `wokenReceivers
      ensures Side(receivers, wokenReceivers) == Wake(old(Side(receivers, wokenReceivers)))
    {
      if receivers != [] {
        wokenReceivers := wokenReceivers + {receivers[0]};
        receivers := receivers[1..];
      }
    }

    method ResumeSender()
      modifies `senders, `wokenSenders
      ensures Side(senders, wokenSenders) == Wake(old(Side(senders, wokenSenders)))
    {
      if senders != [] {
        wokenSenders := wokenSenders + {senders[0]};
        senders := senders[1..];
      }
    }

    /** The ring operation of a send. The check for the largest possible entry never fails. */
    method StoreLast(value: Word)
      requires Valid() && entry < pool.Length
      modifies `entry, `inOff, pool
      ensures Valid() && Mails() == old(Mails()) + [value]
    {
      StoredAppend(pool[..], outOff, entry, value);
      pool[inOff] := value;
      inOff := inOff + 1;
      if inOff >= pool.Length {
        inOff := 0;
      }
      if entry < ENTRY_MAX {
        entry := entry + 1;
      } else {
        assert false;
      }
    }

    method StoreFirst(value: Word)
      requires Valid() && entry < pool.Length
      modifies `entry, `outOff, pool
      ensures Valid() && Mails() == [value] + old(Mails())
    {
      StoredPrepend(pool[..], outOff, entry, value);
      if outOff > 0 {
        outOff := outOff - 1;
      } else {
        outOff := pool.Length - 1;
      }
      pool[outOff] := value;
      entry := entry + 1;
    }

    method Fetch() returns (value: Word)
      requires Valid() && entry > 0
      modifies `entry, `outOff
      ensures Valid() && old(Mails()) == [value] + Mails()
    {
      StoredTail(pool[..], outOff, entry);
      value := pool[outOff];
      outOff := outOff + 1;
      if outOff >= pool.Length {
        outOff := 0;
      }
      entry := entry - 1;
    }

    /** One pass of rt_mb_send_wait. */
    method Send(t: Thread, value: Word, wait: bool, p: Priorities) returns (outcome: Outcome)
      requires Valid()
      modifies this, pool
      ensures Valid() && (outcome, View()) == Sent(old(View()), t, value, wait, p)
      ensures outcome.Done? <==> |old(Mails())| < pool.Length
      ensures Mails() == old(Mails()) + if outcome.Done? then [value] else []
      ensures outcome.Done? && old(receivers) != [] ==>
                old(receivers) == [old(receivers)[0]] + receivers && wokenReceivers == old(wokenReceivers) + {old(receivers)[0]}
      ensures outcome.Suspended? ==> wait && (forall u :: u in senders <==> u == t || u in old(senders))
      ensures outcome.Failed? ==> !wait && senders == old(senders)
    {
      QueuedElements(senders, t, fifo, p);
      wokenSenders := wokenSenders - {t};
      if entry == pool.Length {
        if !wait {
          return Failed;
        }
        senders := ListSuspend(senders, t, fifo, p);
        return Suspended;
      }
      StoreLast(value);
      ResumeReceiver();
      outcome := Done(value);
    }

    /** rt_mb_urgent. */
    method Urgent(value: Word) returns (outcome: Outcome)
      requires Valid()
      modifies this, pool
      ensures Valid() && (outcome, View()) == SentUrgently(old(View()), value)
      ensures outcome.Done? ==> Mails() == [value] + old(Mails())
      ensures outcome.Failed? <==> |old(Mails())| == pool.Length
      ensures !outcome.Suspended? && (outcome.Failed? ==> View() == old(View()))
      ensures outcome.Done? && old(receivers) != [] ==>
                old(receivers) == [old(receivers)[0]] + receivers && wokenReceivers == old(wokenReceivers) + {old(receivers)[0]}
    {
      if entry == pool.Length {
        return Failed;
      }
      StoreFirst(value);
      ResumeReceiver();
      outcome := Done(value);
    }

    /** One pass of rt_mb_recv. */
    method Recv(t: Thread, wait: bool, p: Priorities) returns (outcome: Outcome)
      requires Valid()
      modifies this
      ensures Valid() && (outcome, View()) == Received(old(View()), t, wait, p)
      ensures outcome.Done? <==> old(Mails()) != []
      ensures old(Mails()) == (if outcome.Done? then [outcome.value] else []) + Mails()
      ensures outcome.Done? && old(senders) != [] ==>
                old(senders) == [old(senders)[0]] + senders && wokenSenders == old(wokenSenders) + {old(senders)[0]}
      ensures outcome.Suspended? ==> wait && (forall u :: u in receivers <==> u == t || u in old(receivers))
      ensures outcome.Failed? ==> !wait && receivers == old(receivers)
    {
      QueuedElements(receivers, t, fifo, p);
      wokenReceivers := wokenReceivers - {t};
      if entry == 0 {
        if !wait {
          return Failed;
        }
        receivers := ListSuspend(receivers, t, fifo, p);
        return Suspended;
      }
      var value := Fetch();
      ResumeSender();
      outcome := Done(value);
    }

    /** The timer of a suspended sender runs out. */
    method SenderTimesOut(t: Thread)
      requires Valid()
      modifies `senders
      ensures Valid() && View() == Next(old(View()), SenderExpires(t)).1
    {
      senders := Without(senders, t);
    }

    method ReceiverTimesOut(t: Thread)
      requires Valid()
      modifies `receivers
      ensures Valid() && View() == Next(old(View()), ReceiverExpires(t)).1
    {
      receivers := Without(receivers, t);
    }

    /** rt_mb_control with RT_IPC_CMD_RESET. */
    method Reset()
      requires Valid()
      modifies this
      ensures Valid() && View() == AfterReset(old(View()))
      ensures Mails() == [] && receivers == [] && senders == []
    {
      receivers := [];
      senders := [];
      entry, inOff, outOff := 0, 0, 0;
    }
  }
}
