/**
 * The message queue of ipc.c as a transition system. Sending and receiving take two critical
 * sections each; between them a message node is in neither list, and the thread that holds it
 * copies a message into it or out of it with interrupts enabled.
 */
module MessageQueue {
  import opened Machine
  import opened WaitList
  import opened Deque

  type Node = nat

  /** A node outside both lists: a sender fills it, or a receiver copies out the text it took. */
  datatype Flight = Filling(t: Thread) | Draining(t: Thread, taken: seq<Byte>)

  datatype Queue = Queue(
    fifo: bool,
    text: seq<seq<Byte>>,
    free: seq<Node>,
    queue: seq<Node>,
    flight: map<Node, Flight>,
    receivers: Side,
    senders: Side)

  datatype Outcome = Got(node: Node) | Failed | Suspended | Done

  // ---------------------------------------------------------------- the steps

  /** First section of a send: takes a free node, or waits for one. An urgent send never waits. */
  function FreeTaken(q: Queue, t: Thread, wait: bool, p: Priorities): (Outcome, Queue) {
    var s := Enter(q.senders, t);
    if q.free == [] then
      if wait then (Suspended, q.(senders := Block(s, t, q.fifo, p))) else (Failed, q.(senders := s))
    else (Got(q.free[0]), q.(free := q.free[1..], flight := q.flight[q.free[0] := Filling(t)], senders := s))
  }

  /** A message may be shorter than the cell: what was behind it stays. */
  function Overlay(cell: seq<Byte>, message: seq<Byte>): (c: seq<Byte>)
    requires |message| <= |cell|
    ensures |c| == |cell| && message <= c && c[|message|..] == cell[|message|..]
  {
    message + cell[|message|..]
  }

  function Text(q: Queue, n: Node): seq<Byte> {
    if n < |q.text| then q.text[n] else []
  }

  function Filled(q: Queue, n: Node, message: seq<Byte>): Queue {
    if |message| <= |Text(q, n)| && n < |q.text| then q.(text := q.text[n := Overlay(q.text[n], message)]) else q
  }

  /** Second section of a send. */
  function Linked(q: Queue, n: Node): Queue {
    q.(queue := q.queue + [n], flight := q.flight - {n}, receivers := Wake(q.receivers))
  }

  /** Second section of an urgent send. */
  function LinkedFirst(q: Queue, n: Node): Queue {
    q.(queue := [n] + q.queue, flight := q.flight - {n}, receivers := Wake(q.receivers))
  }

  /** First section of a receive. */
  function FirstTaken(q: Queue, t: Thread, wait: bool, p: Priorities): (Outcome, Queue) {
    var s := Enter(q.receivers, t);
    if q.queue == [] then
      if wait then (Suspended, q.(receivers := Block(s, t, q.fifo, p))) else (Failed, q.(receivers := s))
    else
      var n := q.queue[0];
      (Got(n), q.(queue := q.queue[1..], flight := q.flight[n := Draining(t, Text(q, n))], receivers := s))
  }

  /** Second section of a receive. */
  function Freed(q: Queue, n: Node): Queue {
    q.(free := [n] + q.free, flight := q.flight - {n}, senders := Wake(q.senders))
  }

  function Reversed(s: seq<Node>): (r: seq<Node>)
    ensures |r| == |s|
  {
    if s == [] then [] else Reversed(s[1..]) + [s[0]]
  }

  /** A reset puts the queued nodes on the free list, one after the other; nodes in flight stay with their threads. */
  function AfterReset(q: Queue): Queue {
    q.(free := Reversed(q.queue) + q.free, queue := [], receivers := Flush(q.receivers), senders := Flush(q.senders))
  }

  datatype Step =
    | TakeFree(t: Thread, wait: bool, p: Priorities)
    | Fill(n: Node, message: seq<Byte>)
    | Link(n: Node)
    | LinkFirst(n: Node)
    | TakeFirst(t: Thread, wait: bool, p: Priorities)
    | Free(n: Node)
    | SenderExpires(t: Thread)
    | ReceiverExpires(t: Thread)
    | Reset

  /** A thread in the middle of a call, suspended or holding a node, does not start another. */
  ghost predicate Idle(q: Queue, t: Thread) {
    t !in q.senders.waiting && t !in q.receivers.waiting && forall n: Node :: n in q.flight ==> q.flight[n].t != t
  }

  ghost predicate Enabled(q: Queue, step: Step) {
    match step
    case TakeFree(t, _, _) => Idle(q, t)
    case TakeFirst(t, _, _) => Idle(q, t)
    case Fill(n, message) => n in q.flight && q.flight[n].Filling? && |message| <= |Text(q, n)|
    case Link(n) => n in q.flight && q.flight[n].Filling?
    case LinkFirst(n) => n in q.flight && q.flight[n].Filling?
    case Free(n) => n in q.flight && q.flight[n].Draining?
    case _ => true
  }

  function Next(q: Queue, step: Step): (Outcome, Queue) {
    match step
    case TakeFree(t, wait, p) => FreeTaken(q, t, wait, p)
    case Fill(n, message) => (Done, Filled(q, n, message))
    case Link(n) => (Done, Linked(q, n))
    case LinkFirst(n) => (Done, LinkedFirst(q, n))
    case TakeFirst(t, wait, p) => FirstTaken(q, t, wait, p)
    case Free(n) => (Done, Freed(q, n))
    case SenderExpires(t) => (Failed, q.(senders := Expire(q.senders, t)))
    case ReceiverExpires(t) => (Failed, q.(receivers := Expire(q.receivers, t)))
    case Reset => (Done, AfterReset(q))
  }

  // ---------------------------------------------------------------- node conservation

  /** Every node is in exactly one place, and only once. */
  ghost predicate Conserved(max: nat, free: seq<Node>, queue: seq<Node>, flight: set<Node>) {
    && NoDup(free) && NoDup(queue)
    && forall n: Node ::
         && ((n in free || n in queue || n in flight) <==> n < max)
         && !(n in free && n in queue) && !(n in free && n in flight) && !(n in queue && n in flight)
  }

  /** No two nodes are held by one thread. */
  ghost predicate OneEach(flight: map<Node, Flight>) {
    forall m: Node, n: Node :: m in flight && n in flight && m != n ==> flight[m].t != flight[n].t
  }

  /** What a receiver still has to copy is what it took from the queue. */
  ghost predicate Untouched(text: seq<seq<Byte>>, flight: map<Node, Flight>) {
    forall n: Node :: n in flight && n < |text| && flight[n].Draining? ==> text[n] == flight[n].taken
  }

  ghost predicate Inv(q: Queue) {
    && Conserved(|q.text|, q.free, q.queue, q.flight.Keys)
    && OneEach(q.flight)
    && Untouched(q.text, q.flight)
    && SideInv(q.receivers, |q.queue|)
    && SideInv(q.senders, |q.free|)
  }

  lemma TakeConserved(max: nat, free: seq<Node>, queue: seq<Node>, flight: set<Node>)
    requires Conserved(max, free, queue, flight) && free != []
    ensures Conserved(max, free[1..], queue, flight + {free[0]})
  {
    assert forall n: Node :: n in free <==> n == free[0] || n in free[1..];
  }

  lemma TakeFirstConserved(max: nat, free: seq<Node>, queue: seq<Node>, flight: set<Node>)
    requires Conserved(max, free, queue, flight) && queue != []
    ensures Conserved(max, free, queue[1..], flight + {queue[0]})
  {
    assert forall n: Node :: n in queue <==> n == queue[0] || n in queue[1..];
  }

  lemma LinkConserved(max: nat, free: seq<Node>, queue: seq<Node>, flight: set<Node>, m: Node)
    requires Conserved(max, free, queue, flight) && m in flight
    ensures Conserved(max, free, queue + [m], flight - {m})
    ensures Conserved(max, free, [m] + queue, flight - {m})
    ensures Conserved(max, [m] + free, queue, flight - {m})
  {}

  lemma {:induction false} ReversedElements(s: seq<Node>)
    requires NoDup(s)
    ensures NoDup(Reversed(s)) && forall n: Node :: n in Reversed(s) <==> n in s
  {
    if s != [] {
      var rest := s[1..];
      ReversedElements(rest);
      assert s == [s[0]] + rest;
      assert s[0] !in rest;
    }
  }

  lemma ResetConserved(max: nat, free: seq<Node>, queue: seq<Node>, flight: set<Node>)
    requires Conserved(max, free, queue, flight)
    ensures Conserved(max, Reversed(queue) + free, [], flight)
  {
    ReversedElements(queue);
    var all := Reversed(queue) + free;
    assert NoDup(all) by {
      forall i, j | 0 <= i < j < |all| ensures all[i] != all[j] {
        assert i < |queue| <= j ==> all[i] in queue && all[j] in free;
      }
    }
  }

  /** No list is longer than there are nodes, so counting in 16 bits never overflows. */
  lemma {:induction false} Pigeonhole(s: seq<Node>, max: nat)
    requires NoDup(s) && forall n: Node :: n in s ==> n < max
    ensures |s| <= max
    decreases max
  {
    if s != [] {
      var top := max - 1;
      if top in s {
        WithoutElements(s, top);
        WithoutLength(s, top);
        Pigeonhole(Without(s, top), top);
      } else {
        assert s[0] in s;
        Pigeonhole(s, top);
      }
    }
  }

  lemma {:induction false} WithoutLength(s: seq<Node>, n: Node)
    requires n in s
    ensures |Without(s, n)| == |s| - 1
  {
    if s[0] != n {
      assert n in s[1..];
      WithoutLength(s[1..], n);
    }
  }

  lemma InFlightRoom(max: nat, free: seq<Node>, queue: seq<Node>, flight: set<Node>, m: Node)
    requires Conserved(max, free, queue, flight) && m in flight
    ensures |queue| < max
  {
    LinkConserved(max, free, queue, flight, m);
    var longer := queue + [m];
    assert forall n: Node :: n in longer ==> n < max;
    Pigeonhole(longer, max);
  }

  // ---------------------------------------------------------------- every step keeps it

  lemma TakeFreeInv(q: Queue, t: Thread, wait: bool, p: Priorities)
    requires Inv(q) && Idle(q, t)
    ensures Inv(FreeTaken(q, t, wait, p).1)
  {
    if q.free != [] {
      TakeConserved(|q.text|, q.free, q.queue, q.flight.Keys);
      assert q.flight[q.free[0] := Filling(t)].Keys == q.flight.Keys + {q.free[0]};
      TakeInv(q.senders, t, |q.free|);
    } else if wait {
      BlockInv(q.senders, t, q.fifo, p);
    }
  }

  lemma TakeFirstInv(q: Queue, t: Thread, wait: bool, p: Priorities)
    requires Inv(q) && Idle(q, t)
    ensures Inv(FirstTaken(q, t, wait, p).1)
  {
    if q.queue != [] {
      TakeFirstConserved(|q.text|, q.free, q.queue, q.flight.Keys);
      assert q.flight[q.queue[0] := Draining(t, Text(q, q.queue[0]))].Keys == q.flight.Keys + {q.queue[0]};
      TakeInv(q.receivers, t, |q.queue|);
    } else if wait {
      BlockInv(q.receivers, t, q.fifo, p);
    }
  }

  lemma LinkInv(q: Queue, n: Node)
    requires Inv(q) && n in q.flight
    ensures Inv(Linked(q, n)) && Inv(LinkedFirst(q, n)) && Inv(Freed(q, n))
  {
    LinkConserved(|q.text|, q.free, q.queue, q.flight.Keys, n);
    assert (q.flight - {n}).Keys == q.flight.Keys - {n};
    WakeInv(q.receivers, |q.queue|);
    WakeInv(q.senders, |q.free|);
  }

  lemma FillInv(q: Queue, n: Node, message: seq<Byte>)
    requires Inv(q) && Enabled(q, Fill(n, message))
    ensures Inv(Filled(q, n, message))
  {}

  lemma ResetInv(q: Queue)
    requires Inv(q)
    ensures Inv(AfterReset(q))
  {
    ResetConserved(|q.text|, q.free, q.queue, q.flight.Keys);
  }

  lemma StepInv(q: Queue, step: Step)
    requires Inv(q) && Enabled(q, step)
    ensures Inv(Next(q, step).1)
  {
    match step {
      case TakeFree(t, wait, p) => TakeFreeInv(q, t, wait, p);
      case Fill(n, message) => FillInv(q, n, message);
      case Link(n) => LinkInv(q, n);
      case LinkFirst(n) => LinkInv(q, n);
      case TakeFirst(t, wait, p) => TakeFirstInv(q, t, wait, p);
      case Free(n) => LinkInv(q, n);
      case SenderExpires(t) => ExpireInv(q.senders, t, |q.free|);
      case ReceiverExpires(t) => ExpireInv(q.receivers, t, |q.queue|);
      case Reset => ResetInv(q);
    }
  }

  ghost predicate Initial(q: Queue) {
    && q.queue == [] && q.flight == map[] && q.receivers == Side([], {}) && q.senders == Side([], {})
    && Conserved(|q.text|, q.free, [], {})
  }

  ghost predicate Run(trace: seq<Queue>, steps: seq<Step>) {
    && |trace| == |steps| + 1 && Initial(trace[0])
    && forall i :: 0 <= i < |steps| ==>
         Enabled(trace[i], steps[i]) && trace[i + 1] == Next(trace[i], steps[i]).1
  }

  /** Node conservation, integrity of the text and no lost wakeups, in every state of every run. */
  lemma {:induction false} RunInv(trace: seq<Queue>, steps: seq<Step>, k: nat)
    requires Run(trace, steps) && k < |trace|
    ensures Inv(trace[k])
  {
    if k > 0 {
      RunInv(trace, steps, k - 1);
      StepInv(trace[k - 1], steps[k - 1]);
    }
  }

  /** Once every woken thread has run, nobody waits for a message or a node that is there. */
  lemma NobodyForgotten(trace: seq<Queue>, steps: seq<Step>, k: nat)
    requires Run(trace, steps) && k < |trace|
    ensures trace[k].receivers.woken == {} && trace[k].receivers.waiting != [] ==> trace[k].queue == []
    ensures trace[k].senders.woken == {} && trace[k].senders.waiting != [] ==> trace[k].free == []
  {
    RunInv(trace, steps, k);
  }

  // ---------------------------------------------------------------- messages

  /** The queued messages, oldest first. */
  function Messages(q: Queue): (m: seq<seq<Byte>>)
    ensures |m| == |q.queue|
  {
    seq(|q.queue|, i requires 0 <= i < |q.queue| => Text(q, q.queue[i]))
  }

  /**
   * Seen through its messages the object is a deque: linking appends or prepends the text of the
   * node, taking removes the first, a reset empties it, and nothing else changes it.
   */
  lemma StepMessages(q: Queue, step: Step)
    requires Inv(q) && Enabled(q, step)
    ensures var m, m' := Messages(q), Messages(Next(q, step).1);
            match step
            case Link(n) => m' == m + [Text(q, n)]
            case LinkFirst(n) => m' == [Text(q, n)] + m
            case TakeFirst(t, _, _) => m' == if m == [] then [] else m[1..]
            case Reset => m' == []
            case _ => m' == m
  {
    match step {
      case Link(n) => LinkMessages(q, n);
      case LinkFirst(n) => LinkFirstMessages(q, n);
      case TakeFirst(t, wait, p) => TakeFirstMessages(q, t, wait, p);
      case Fill(n, message) => FillMessages(q, n, message);
      case _ => SameMessages(q, Next(q, step).1);
    }
  }

  lemma LinkMessages(q: Queue, n: Node)
    ensures Messages(Linked(q, n)) == Messages(q) + [Text(q, n)]
  {}

  lemma LinkFirstMessages(q: Queue, n: Node)
    ensures Messages(LinkedFirst(q, n)) == [Text(q, n)] + Messages(q)
  {}

  lemma TakeFirstMessages(q: Queue, t: Thread, wait: bool, p: Priorities)
    ensures Messages(FirstTaken(q, t, wait, p).1) == if q.queue == [] then [] else Messages(q)[1..]
  {}

  lemma SameMessages(q: Queue, q': Queue)
    ensures q'.queue == q.queue && q'.text == q.text ==> Messages(q') == Messages(q)
    ensures q'.queue == [] ==> Messages(q') == []
  {}

  /** Filling a node in flight changes no queued message. */
  lemma FillMessages(q: Queue, n: Node, message: seq<Byte>)
    requires n !in q.queue
    ensures Messages(Filled(q, n, message)) == Messages(q)
  {
    var q' := Filled(q, n, message);
    forall i | 0 <= i < |q.queue| ensures Messages(q')[i] == Messages(q)[i] {
      assert q.queue[i] in q.queue;
    }
  }

  /** Whatever happens in between, a receiver copies out the message that was first when it took it. */
  lemma {:induction false} CopiesWhatItTook(trace: seq<Queue>, steps: seq<Step>, i: nat, j: nat, n: Node)
    requires Run(trace, steps) && i < j < |trace|
    requires steps[i].TakeFirst? && Next(trace[i], steps[i]).0 == Got(n)
    requires forall k :: i < k < j ==> steps[k] != Free(n)
    ensures Messages(trace[i]) != [] && Text(trace[j], n) == Messages(trace[i])[0]
    ensures n in trace[j].flight && trace[j].flight[n] == Draining(steps[i].t, Messages(trace[i])[0])
  {
    RunInv(trace, steps, j - 1);
    if i < j - 1 {
      CopiesWhatItTook(trace, steps, i, j - 1, n);
      DrainingStays(trace[j - 1], steps[j - 1], n);
    }
  }

  lemma DrainingStays(q: Queue, step: Step, n: Node)
    requires Inv(q) && Enabled(q, step) && n in q.flight && q.flight[n].Draining? && step != Free(n)
    ensures var q' := Next(q, step).1; n in q'.flight && q'.flight[n] == q.flight[n] && Text(q', n) == Text(q, n)
  {}

  /** What a step does to the queued messages, told by its outcome. */
  function EventOf(q: Queue, step: Step): Event<seq<Byte>> {
    match step
    case Link(n) => Appended(Text(q, n))
    case LinkFirst(n) => Prepended(Text(q, n))
    case TakeFirst(_, _, _) => (match Next(q, step).0 case Got(n) => Removed(Text(q, n)) case _ => Nothing)
    case Reset => Cleared(Messages(q))
    case _ => Nothing
  }

  /** A node, or a message, is taken exactly when there is one; without one, a step that may wait is suspended, and one that may not fails. */
  lemma StepLeads(q: Queue, step: Step)
    requires Inv(q) && Enabled(q, step)
    ensures Leads(Messages(q), EventOf(q, step), Messages(Next(q, step).1))
    ensures step.TakeFree? ==> (Next(q, step).0.Got? <==> q.free != [])
    ensures step.TakeFirst? ==> (Next(q, step).0.Got? <==> Messages(q) != [])
    ensures (step.TakeFree? || step.TakeFirst?) && !Next(q, step).0.Got? ==> (Next(q, step).0.Suspended? <==> step.wait)
  {
    StepMessages(q, step);
    if step.TakeFirst? && q.queue != [] {
      assert Messages(q) == [Messages(q)[0]] + Messages(q)[1..];
    }
  }

  function Events(trace: seq<Queue>, steps: seq<Step>): (e: seq<Event<seq<Byte>>>)
    requires |trace| == |steps| + 1
    ensures |e| == |steps|
  {
    seq(|steps|, i requires 0 <= i < |steps| => EventOf(trace[i], steps[i]))
  }

  function Contents(trace: seq<Queue>): (c: seq<seq<seq<Byte>>>)
    ensures |c| == |trace|
  {
    seq(|trace|, i requires 0 <= i < |trace| => Messages(trace[i]))
  }

  lemma RunHistory(trace: seq<Queue>, steps: seq<Step>)
    requires Run(trace, steps)
    ensures History(Contents(trace), Events(trace, steps))
  {
    hide Inv, Enabled, Next, EventOf, Initial;
    assert Contents(trace)[0] == [] by {
      NoMessages(trace[0]);
    }
    forall i, j | 0 <= i < |steps| && j == i + 1
      ensures Leads(Contents(trace)[i], Events(trace, steps)[i], Contents(trace)[j])
    {
      RunInv(trace, steps, i);
      StepLeads(trace[i], steps[i]);
    }
  }

  lemma NoMessages(q: Queue)
    requires Initial(q)
    ensures Messages(q) == []
  {}

  /** Every message linked is queued, was taken by a receiver, or was thrown away by a reset, exactly as often as it was linked. */
  lemma MessagesConserved(trace: seq<Queue>, steps: seq<Step>, k: nat)
    requires Run(trace, steps) && k < |trace|
    ensures multiset(TakenOut(Events(trace, steps), k)) + multiset(Messages(trace[k])) == multiset(PutIn(Events(trace, steps), k))
  {
    RunHistory(trace, steps);
    AllAccounted(Contents(trace), Events(trace, steps), k);
  }

  /** Without urgent messages, they are taken in the order in which they were linked. */
  lemma FirstInFirstOut(trace: seq<Queue>, steps: seq<Step>, k: nat)
    requires Run(trace, steps) && k < |trace| && forall i :: 0 <= i < k ==> !steps[i].LinkFirst?
    ensures TakenOut(Events(trace, steps), k) + Messages(trace[k]) == PutIn(Events(trace, steps), k)
  {
    RunHistory(trace, steps);
    Deque.FirstInFirstOut(Contents(trace), Events(trace, steps), k);
  }

  /** With them, a receiver takes the urgent message linked last of those still queued, and only without one the oldest of the others. */
  lemma UrgentFirst(trace: seq<Queue>, steps: seq<Step>, k: nat)
    requires Run(trace, steps) && k < |steps| && steps[k].TakeFirst? && Next(trace[k], steps[k]).0.Got?
    ensures var p, m := Remaining(Events(trace, steps), k), Text(trace[k], Next(trace[k], steps[k]).0.node);
            if p.urgent != [] then m == p.urgent[0] else p.ordinary != [] && m == p.ordinary[0]
  {
    RunHistory(trace, steps);
    LastUrgentFirst(Contents(trace), Events(trace, steps), k);
  }

  // ---------------------------------------------------------------- from the sender to the receiver

  predicate Fills(step: Step, n: Node) {
    step.Fill? && step.n == n
  }

  lemma TextKept(q: Queue, step: Step, n: Node)
    requires !Fills(step, n)
    ensures Text(Next(q, step).1, n) == Text(q, n)
  {}

  lemma FilledText(q: Queue, step: Step)
    requires step.Fill? && Inv(q) && Enabled(q, step)
    ensures step.message <= Text(Next(q, step).1, step.n)
  {}

  /** From when a node has been filled until it is filled again, its text begins with the message. */
  lemma {:induction false} KeepsMessage(trace: seq<Queue>, steps: seq<Step>, i: nat, j: nat, n: Node)
    requires Run(trace, steps) && i < j < |trace| && Fills(steps[i], n)
    requires forall k :: i < k < j ==> !Fills(steps[k], n)
    ensures steps[i].message <= Text(trace[j], n)
  {
    hide Inv, Enabled, Next, Initial;
    RunInv(trace, steps, i);
    if i == j - 1 {
      FilledText(trace[i], steps[i]);
    } else {
      KeepsMessage(trace, steps, i, j - 1, n);
      TextKept(trace[j - 1], steps[j - 1], n);
    }
  }

  /** A queued node cannot be filled, nor can one that a receiver holds. */
  lemma NotFilled(q: Queue, step: Step, n: Node)
    requires Inv(q) && Enabled(q, step)
    requires n in q.queue || (n in q.flight && q.flight[n].Draining?)
    ensures !Fills(step, n)
  {}

  /**
   * What a sender copies into a node at step i and links at step l is what the receiver gets that
   * takes the node at step j, whatever other threads do in between: up to the moment it gives the
   * node back, the text it copies out begins with the message.
   */
  lemma SentIsReceived(trace: seq<Queue>, steps: seq<Step>, i: nat, l: nat, j: nat, m: nat, n: Node)
    requires Run(trace, steps) && i < l < j < m < |trace| && Fills(steps[i], n)
    requires (steps[l] == Link(n) || steps[l] == LinkFirst(n)) && forall k :: i < k < l ==> !Fills(steps[k], n)
    requires forall k :: l < k <= j ==> n in trace[k].queue
    requires steps[j].TakeFirst? && Next(trace[j], steps[j]).0 == Got(n) && forall k :: j < k < m ==> steps[k] != Free(n)
    ensures steps[i].message <= Text(trace[m], n) && Text(trace[m], n) == Messages(trace[j])[0]
  {
    hide Inv, Enabled, Next, Initial;
    CopiesWhatItTook(trace, steps, j, m, n);
    forall k | i < k < m ensures !Fills(steps[k], n) {
      RunInv(trace, steps, k);
      if l < k <= j {
        NotFilled(trace[k], steps[k], n);
      } else if j < k {
        CopiesWhatItTook(trace, steps, j, k, n);
        NotFilled(trace[k], steps[k], n);
      }
    }
    KeepsMessage(trace, steps, i, m, n);
  }
}
