/** The message queue object of ipc.c: linked nodes in a pool, two lists of them, and two wait lists. */
module MqObject {
  import opened Machine
  import opened WaitList
  import opened MessageQueue
  import opened NodeList

  const ENTRY_MAX := 0xFFFF

  function Last(nodes: seq<Node>): int {
    if nodes == [] then NULL else nodes[|nodes| - 1]
  }

  /** The shape of the two lists; a node that is ready to be linked ends a list. */
  ghost predicate Shaped(next: seq<int>, head: int, tail: int, free: int,
                         queueNodes: seq<Node>, freeNodes: seq<Node>, flight: map<Node, Flight>, ready: set<Node>)
  {
    && Chain(next, head, queueNodes) && Chain(next, free, freeNodes) && tail == Last(queueNodes)
    && Conserved(|next|, freeNodes, queueNodes, flight.Keys)
    && forall n: Node :: n in ready ==> n in flight && flight[n].Filling? && n < |next| && next[n] == NULL
  }

  lemma ShapedAfterTake(next: seq<int>, head: int, tail: int, free: int,
                        queueNodes: seq<Node>, freeNodes: seq<Node>, flight: map<Node, Flight>, ready: set<Node>, t: Thread)
    requires Shaped(next, head, tail, free, queueNodes, freeNodes, flight, ready) && freeNodes != []
    ensures 0 <= free < |next| && free == freeNodes[0]
    ensures Shaped(next, head, tail, next[free], queueNodes, freeNodes[1..], flight[freeNodes[0] := Filling(t)], ready)
  {
    TakeConserved(|next|, freeNodes, queueNodes, flight.Keys);
    assert flight[freeNodes[0] := Filling(t)].Keys == flight.Keys + {freeNodes[0]};
  }

  lemma ShapedAfterFirst(next: seq<int>, head: int, tail: int, free: int, queueNodes: seq<Node>, freeNodes: seq<Node>,
                         flight: map<Node, Flight>, ready: set<Node>, f: Flight)
    requires Shaped(next, head, tail, free, queueNodes, freeNodes, flight, ready) && queueNodes != []
    ensures 0 <= head < |next| && head == queueNodes[0]
    ensures Shaped(next, next[head], if tail == head then NULL else tail, free, queueNodes[1..], freeNodes,
                   flight[queueNodes[0] := f], ready)
  {
    TakeFirstConserved(|next|, freeNodes, queueNodes, flight.Keys);
    assert flight[queueNodes[0] := f].Keys == flight.Keys + {queueNodes[0]};
  }

  lemma ShapedAfterPrepare(next: seq<int>, head: int, tail: int, free: int,
                           queueNodes: seq<Node>, freeNodes: seq<Node>, flight: map<Node, Flight>, ready: set<Node>, n: Node)
    requires Shaped(next, head, tail, free, queueNodes, freeNodes, flight, ready)
    requires n in flight && flight[n].Filling?
    ensures n < |next| && Shaped(next[n := NULL], head, tail, free, queueNodes, freeNodes, flight, ready + {n})
  {
    ChainFrame(next, head, queueNodes, n, NULL);
    ChainFrame(next, free, freeNodes, n, NULL);
  }

  lemma ShapedAfterLink(next: seq<int>, head: int, tail: int, free: int,
                        queueNodes: seq<Node>, freeNodes: seq<Node>, flight: map<Node, Flight>, ready: set<Node>, n: Node)
    requires Shaped(next, head, tail, free, queueNodes, freeNodes, flight, ready) && n in ready
    ensures tail != NULL ==> 0 <= tail < |next|
    ensures head == NULL <==> tail == NULL
    ensures Shaped(if tail == NULL then next else next[tail := n], if head == NULL then n else head, n, free,
                   queueNodes + [n], freeNodes, flight - {n}, ready - {n})
    ensures |queueNodes| < |next|
  {
    InFlightRoom(|next|, freeNodes, queueNodes, flight.Keys, n);
    LinkConserved(|next|, freeNodes, queueNodes, flight.Keys, n);
    assert (flight - {n}).Keys == flight.Keys - {n};
    if queueNodes == [] {
      assert queueNodes + [n] == [n];
    } else {
      assert tail in queueNodes;
      ChainAppend(next, head, queueNodes, n);
      ChainFrame(next, free, freeNodes, tail, n);
    }
  }

  lemma ShapedAfterLinkFirst(next: seq<int>, head: int, tail: int, free: int,
                             queueNodes: seq<Node>, freeNodes: seq<Node>, flight: map<Node, Flight>, ready: set<Node>, n: Node)
    requires Shaped(next, head, tail, free, queueNodes, freeNodes, flight, ready) && n in flight
    ensures n < |next| && |queueNodes| < |next|
    ensures Shaped(next[n := head], n, if tail == NULL then n else tail, free,
                   [n] + queueNodes, freeNodes, flight - {n}, ready - {n})
  {
    InFlightRoom(|next|, freeNodes, queueNodes, flight.Keys, n);
    LinkConserved(|next|, freeNodes, queueNodes, flight.Keys, n);
    assert (flight - {n}).Keys == flight.Keys - {n};
    ChainPush(next, head, queueNodes, n);
    ChainFrame(next, free, freeNodes, n, head);
  }

  lemma ShapedAfterFree(next: seq<int>, head: int, tail: int, free: int,
                        queueNodes: seq<Node>, freeNodes: seq<Node>, flight: map<Node, Flight>, ready: set<Node>, n: Node)
    requires Shaped(next, head, tail, free, queueNodes, freeNodes, flight, ready) && n in flight
    ensures n < |next|
    ensures Shaped(next[n := free], head, tail, n, queueNodes, [n] + freeNodes, flight - {n}, ready - {n})
  {
    LinkConserved(|next|, freeNodes, queueNodes, flight.Keys, n);
    assert (flight - {n}).Keys == flight.Keys - {n};
    ChainPush(next, free, freeNodes, n);
    ChainFrame(next, head, queueNodes, n, free);
  }

  /** One round of the reset loop: the first queued node becomes the first free one. */
  lemma ShapedAfterReclaim(next: seq<int>, head: int, tail: int, free: int,
                           queueNodes: seq<Node>, freeNodes: seq<Node>, flight: map<Node, Flight>, ready: set<Node>)
    requires Shaped(next, head, tail, free, queueNodes, freeNodes, flight, ready) && queueNodes != []
    ensures 0 <= head < |next| && head == queueNodes[0]
    ensures Shaped(next[head := free], next[head], if tail == head then NULL else tail, head,
                   queueNodes[1..], [queueNodes[0]] + freeNodes, flight, ready)
  {
    var n := queueNodes[0];
    var f := flight[n := Draining(0, [])];
    ShapedAfterFirst(next, head, tail, free, queueNodes, freeNodes, flight, ready, Draining(0, []));
    ShapedAfterFree(next, next[head], if tail == head then NULL else tail, free, queueNodes[1..], freeNodes, f, ready, n);
    assert n in queueNodes && f - {n} == flight && ready - {n} == ready;
  }

  /** The free list as initialisation leaves it: the last node first. */
  function Descending(k: nat): (r: seq<Node>)
    ensures |r| == k && forall i :: 0 <= i < k ==> r[i] == k - 1 - i
  {
    if k == 0 then [] else [k - 1] + Descending(k - 1)
  }

  lemma DescendingElements(k: nat)
    ensures NoDup(Descending(k)) && forall n: Node :: n in Descending(k) <==> n < k
  {
    forall n: Node | n < k ensures n in Descending(k) {
      assert Descending(k)[k - 1 - n] == n;
    }
  }

  lemma AllFree(max: nat)
    ensures Conserved(max, Descending(max), [], {})
  {
    DescendingElements(max);
  }

  lemma DescendingPush(next: seq<int>, free: int, k: nat)
    requires k < |next| && Chain(next, free, Descending(k))
    ensures Chain(next[k := free], k, Descending(k + 1))
  {
    DescendingElements(k);
    ChainPush(next, free, Descending(k), k);
  }

  /** The aligned size, kept in the 16 bits of msg_size. */
  function MessageSize(size: nat): nat {
    AlignUp(size) % 0x1_0000
  }

  /** The number of messages, each with its link, in a pool; kept in the 16 bits of max_msgs. */
  function MessageCount(size: nat, poolSize: nat): nat {
    (poolSize / (MessageSize(size) + 4)) % 0x1_0000
  }

  /**
   * A cell has room for a message of the size asked for exactly if that size, aligned, is below
   * 2^16, and then wastes less than 4 bytes. As many messages with their links as fit into the
   * pool are counted, provided that the count is below 2^16.
   */
  lemma MessagesFit(size: nat, poolSize: nat)
    requires size < WORD_LIMIT
    ensures MessageSize(size) >= size <==> size <= 0xFFFC
    ensures size <= 0xFFFC ==> MessageSize(size) < size + 4
    ensures var each, n := MessageSize(size) + 4, MessageCount(size, poolSize);
            n * each <= poolSize && (poolSize < 0x1_0000 * each ==> poolSize < (n + 1) * each)
  {
    hide AlignUp;
    AlignsUpIff(size);
    Aligns(size);
    CellFits(size, AlignUp(size), MessageSize(size));
    hide MessageSize;
    CountFits(poolSize, MessageSize(size) + 4, poolSize / (MessageSize(size) + 4), MessageCount(size, poolSize));
  }

  lemma CellFits(size: nat, aligned: nat, cell: nat)
    requires cell == aligned % 0x1_0000 && aligned % 4 == 0 && (size <= WORD_LIMIT - 4 ==> size <= aligned < size + 4)
    ensures cell >= size <==> size <= 0xFFFC
    ensures size <= 0xFFFC ==> cell < size + 4
  {}

  lemma CountFits(pool: nat, each: nat, q: nat, n: nat)
    requires each > 0 && q == pool / each && n == q % 0x1_0000
    ensures n * each <= pool && (pool < 0x1_0000 * each ==> pool < (n + 1) * each)
  {
    assert pool == q * each + pool % each;
    Monotone(n, q, each);
    if pool < 0x1_0000 * each {
      assert q < 0x1_0000 by {
        if q >= 0x1_0000 {
          Monotone(0x1_0000, q, each);
        }
      }
    }
  }

  lemma Monotone(a: nat, b: nat, n: nat)
    requires a <= b
    ensures a * n <= b * n
  {}

  class MqObject {
    const next: array<int>
    const cells: array<seq<Byte>>
    const msgSize: nat
    const fifo: bool
    var head: int
    var tail: int
    var free: int
    var entry: nat
    var receivers: seq<Thread>
    var senders: seq<Thread>
    ghost var queueNodes: seq<Node>
    ghost var freeNodes: seq<Node>
    ghost var flight: map<Node, Flight>
    ghost var ready: set<Node>
    ghost var wokenReceivers: set<Thread>
    ghost var wokenSenders: set<Thread>

    ghost predicate Lists()
      reads `head, `tail, `free, `queueNodes, `freeNodes, `flight, `ready, next
    {
      Shaped(next[..], head, tail, free, queueNodes, freeNodes, flight, ready)
    }

    ghost predicate Valid()
      reads this, next, cells
    {
      && next.Length == cells.Length <= ENTRY_MAX
      && entry == |queueNodes|
      && (forall i :: 0 <= i < cells.Length ==> |cells[i]| == msgSize)
      && Lists()
    }

    ghost function View(): Queue
      reads this, cells
    {
      Queue(fifo, cells[..], freeNodes, queueNodes, flight, Side(receivers, wokenReceivers), Side(senders, wokenSenders))
    }

    /** rt_mq_init. */
    constructor (size: nat, poolSize: nat, fifo: bool)
      ensures Valid() && fresh(next) && fresh(cells)
      ensures msgSize == MessageSize(size) && cells.Length == MessageCount(size, poolSize)
      ensures Initial(View()) && View().fifo == fifo
    {
      msgSize := MessageSize(size);
      this.fifo := fifo;
      var max := MessageCount(size, poolSize);
      next := new int[max];
      cells := new seq<Byte>[max](_ => seq(MessageSize(size), _ => 0));
      head, tail, free, entry := NULL, NULL, NULL, 0;
      receivers, senders, wokenReceivers, wokenSenders := [], [], {}, {};
      queueNodes, freeNodes, flight, ready := [], [], map[], {};
      new;
      ThreadFree();
      freeNodes := Descending(max);
      AllFree(max);
    }

    /** The loop of rt_mq_init that puts every node on the free list. */
    method ThreadFree()
      requires free == NULL
      modifies `free, next
      ensures Chain(next[..], free, Descending(next.Length))
    {
      var temp := 0;
      while temp < next.Length
        invariant temp <= next.Length
        invariant Chain(next[..], free, Descending(temp))
      {
        DescendingPush(next[..], free, temp);
        next[temp] := free;
        free := temp;
        temp := temp + 1;
      }
    }

    method ResumeReceiver()
      modifies `receivers, `wokenReceivers
      ensures Side(receivers, wokenReceivers) == Wake(old(Side(receivers, wokenReceivers)))
    {
      if receivers != [] {
        wokenReceivers := wokenReceivers + {receivers[0]};
        receivers := receivers[1..];
      }
    }

    method ResumeSender()
      modifies `senders, `wokenSenders
      ensures Side(senders, wokenSenders) == Wake(old(Side(senders, wokenSenders)))
    {
      if senders != [] {
        wokenSenders := wokenSenders + {senders[0]};
        senders := senders[1..];
      }
    }

    // -------------------------------------------------------------- list operations

    method PopFree(ghost t: Thread) returns (msg: Node)
      requires Lists() && free != NULL
      modifies `free, `freeNodes, `flight
      ensures Lists() && old(freeNodes) == [msg] + freeNodes && flight == old(flight)[msg := Filling(t)]
    {
      ShapedAfterTake(next[..], head, tail, free, queueNodes, freeNodes, flight, ready, t);
      msg := free;
      free := next[msg];
      freeNodes := freeNodes[1..];
      flight := flight[msg := Filling(t)];
    }

    method PopQueue(ghost f: Flight) returns (msg: Node)
      requires Lists() && queueNodes != []
      requires entry > 0
      modifies `head, `tail, `entry, `queueNodes, `flight
      ensures Lists() && old(queueNodes) == [msg] + queueNodes && flight == old(flight)[msg := f] && entry == old(entry) - 1
    {
      ShapedAfterFirst(next[..], head, tail, free, queueNodes, freeNodes, flight, ready, f);
      msg := head;
      head := next[msg];
      if tail == msg {
        tail := NULL;
      }
      entry := entry - 1;
      queueNodes := queueNodes[1..];
      flight := flight[msg := f];
    }

    /** entry ++, guarded against overflow. It never overflows. */
    method CountUp()
      requires entry < next.Length <= ENTRY_MAX
      modifies `entry
      ensures entry == old(entry) + 1
    {
      if entry < ENTRY_MAX {
        entry := entry + 1;
      } else {
        assert false;
      }
    }

    method PushBack(msg: Node)
      requires Lists() && msg in ready && entry == |queueNodes| && next.Length <= ENTRY_MAX
      modifies `head, `tail, `entry, `queueNodes, `flight, `ready, next
      ensures Lists() && queueNodes == old(queueNodes) + [msg] && flight == old(flight) - {msg} && entry == old(entry) + 1
    {
      ShapedAfterLink(next[..], head, tail, free, queueNodes, freeNodes, flight, ready, msg);
      if tail != NULL {
        next[tail] := msg;
      }
      tail := msg;
      if head == NULL {
        head := msg;
      }
      CountUp();
      queueNodes, flight, ready := queueNodes + [msg], flight - {msg}, ready - {msg};
    }

    method PushFront(msg: Node)
      requires Lists() && msg in flight && entry == |queueNodes| && next.Length <= ENTRY_MAX
      modifies `head, `tail, `entry, `queueNodes, `flight, `ready, next
      ensures Lists() && queueNodes == [msg] + old(queueNodes) && flight == old(flight) - {msg} && entry == old(entry) + 1
    {
      ShapedAfterLinkFirst(next[..], head, tail, free, queueNodes, freeNodes, flight, ready, msg);
      next[msg] := head;
      head := msg;
      if tail == NULL {
        tail := msg;
      }
      CountUp();
      queueNodes, flight, ready := [msg] + queueNodes, flight - {msg}, ready - {msg};
    }

    method PushFree(msg: Node)
      requires Lists() && msg in flight
      modifies `free, `freeNodes, `flight, `ready, next
      ensures Lists() && freeNodes == [msg] + old(freeNodes) && flight == old(flight) - {msg}
    {
      ShapedAfterFree(next[..], head, tail, free, queueNodes, freeNodes, flight, ready, msg);
      next[msg] := free;
      free := msg;
      freeNodes, flight, ready := [msg] + freeNodes, flight - {msg}, ready - {msg};
    }

    // -------------------------------------------------------------- critical sections

    /** One pass of the first section of rt_mq_send_wait, and of rt_mq_urgent with wait false. */
    method TakeFree(t: Thread, wait: bool, p: Priorities) returns (outcome: Outcome)
      requires Valid()
      modifies `free, `freeNodes, `flight, `senders, `wokenSenders
      ensures Valid() && (outcome, View()) == FreeTaken(old(View()), t, wait, p)
      ensures outcome.Got? <==> old(freeNodes) != []
      ensures outcome.Got? ==> old(freeNodes) == [outcome.node] + freeNodes && flight == old(flight)[outcome.node := Filling(t)]
      ensures outcome.Suspended? ==> wait && senders == Queued(old(senders), t, fifo, p)
      ensures outcome.Failed? ==> !wait && senders == old(senders)
    {
      wokenSenders := wokenSenders - {t};
      if free != NULL {
        var msg := PopFree(t);
        outcome := Got(msg);
      } else if wait {
        senders := ListSuspend(senders, t, fifo, p);
        outcome := Suspended;
      } else {
        outcome := Failed;
      }
    }

    /** Between the sections of rt_mq_send_wait: the node is to be the last one; the message is copied in. */
    method Prepare(msg: Node, message: seq<Byte>)
      requires Valid() && msg in flight && flight[msg].Filling? && |message| <= msgSize
      modifies `ready, next, cells
      ensures Valid() && msg in ready && View() == Filled(old(View()), msg, message)
      ensures message <= cells[msg] && cells[msg][|message|..] == old(cells[msg])[|message|..]
      ensures forall n :: 0 <= n < cells.Length && n != msg ==> cells[n] == old(cells[n])
    {
      ShapedAfterPrepare(next[..], head, tail, free, queueNodes, freeNodes, flight, ready, msg);
      next[msg] := NULL;
      cells[msg] := Overlay(cells[msg], message);
      ready := ready + {msg};
    }

    /** Between the sections of rt_mq_urgent. */
    method CopyIn(msg: Node, message: seq<Byte>)
      requires Valid() && msg in flight && flight[msg].Filling? && |message| <= msgSize
      modifies cells
      ensures Valid() && View() == Filled(old(View()), msg, message)
      ensures message <= cells[msg] && cells[msg][|message|..] == old(cells[msg])[|message|..]
      ensures forall n :: 0 <= n < cells.Length && n != msg ==> cells[n] == old(cells[n])
    {
      cells[msg] := Overlay(cells[msg], message);
    }

    /** Second section of rt_mq_send_wait. */
    method Link(msg: Node)
      requires Valid() && msg in ready
      modifies `head, `tail, `queueNodes, `flight, `ready, `entry, `receivers, `wokenReceivers, next
      ensures Valid() && View() == Linked(old(View()), msg)
      ensures queueNodes == old(queueNodes) + [msg]
      ensures old(receivers) != [] ==>
                old(receivers) == [old(receivers)[0]] + receivers && wokenReceivers == old(wokenReceivers) + {old(receivers)[0]}
    {
      PushBack(msg);
      ResumeReceiver();
    }

    /** Second section of rt_mq_urgent. */
    method LinkFirst(msg: Node)
      requires Valid() && msg in flight && flight[msg].Filling?
      modifies `head, `tail, `queueNodes, `flight, `ready, `entry, `receivers, `wokenReceivers, next
      ensures Valid() && View() == LinkedFirst(old(View()), msg)
      ensures queueNodes == [msg] + old(queueNodes)
      ensures old(receivers) != [] ==>
                old(receivers) == [old(receivers)[0]] + receivers && wokenReceivers == old(wokenReceivers) + {old(receivers)[0]}
    {
      PushFront(msg);
      ResumeReceiver();
    }

    /** One pass of the first section of rt_mq_recv. */
    method TakeFirst(t: Thread, wait: bool, p: Priorities) returns (outcome: Outcome)
      requires Valid()
      modifies `head, `tail, `queueNodes, `flight, `entry, `receivers, `wokenReceivers
      ensures Valid() && (outcome, View()) == FirstTaken(old(View()), t, wait, p)
      ensures outcome.Got? <==> old(queueNodes) != []
      ensures outcome.Got? ==> old(queueNodes) == [outcome.node] + queueNodes && flight.Keys == old(flight).Keys + {outcome.node}
      ensures outcome.Suspended? ==> wait && receivers == Queued(old(receivers), t, fifo, p)
      ensures outcome.Failed? ==> !wait && receivers == old(receivers)
    {
      wokenReceivers := wokenReceivers - {t};
      if entry > 0 {
        var msg := PopQueue(Draining(t, cells[queueNodes[0]]));
        outcome := Got(msg);
      } else if wait {
        receivers := ListSuspend(receivers, t, fifo, p);
        outcome := Suspended;
      } else {
        outcome := Failed;
      }
    }

    /** Between the sections of rt_mq_recv: at most as much as the caller has room for is copied out. */
    method CopyOut(msg: Node, size: nat) returns (bytes: seq<Byte>)
      requires Valid() && msg in flight
      ensures bytes <= Text(View(), msg) && |bytes| == if size > msgSize then msgSize else size
    {
      assert msg < next.Length;
      bytes := cells[msg][..if size > msgSize then msgSize else size];
    }

    /** Second section of rt_mq_recv. */
    method Release(msg: Node)
      requires Valid() && msg in flight && flight[msg].Draining?
      modifies `free, `freeNodes, `flight, `ready, `senders, `wokenSenders, next
      ensures Valid() && View() == Freed(old(View()), msg)
      ensures msg in freeNodes && msg !in flight
      ensures old(senders) != [] ==>
                old(senders) == [old(senders)[0]] + senders && wokenSenders == old(wokenSenders) + {old(senders)[0]}
    {
      PushFree(msg);
      ResumeSender();
    }

    /** rt_mq_send, not interrupted: refuses a message that is too long or finds no node, else appends it. */
    method SendAtOnce(t: Thread, message: seq<Byte>, p: Priorities) returns (ok: bool)
      requires Valid()
      modifies this, next, cells
      ensures Valid() && ok == (|message| <= msgSize && old(freeNodes) != [])
      ensures ok ==> Messages(View()) == old(Messages(View())) + [Overlay(old(Text(View(), freeNodes[0])), message)]
      ensures ok ==> var m := Messages(View()); m != [] && message <= m[|m| - 1] && m[..|m| - 1] == old(Messages(View()))
      ensures !ok ==> Messages(View()) == old(Messages(View()))
    {
      hide Shaped, Conserved;
      ghost var q := View();
      ok := false;
      if |message| <= msgSize {
        FreeFirst();
        var outcome := TakeFree(t, false, p);
        SameMessages(q, View());
        if outcome.Got? {
          TakenAndFilled(q, t, p, message);
          Prepare(outcome.node, message);
          LinkMessages(View(), outcome.node);
          Link(outcome.node);
          ok := true;
        }
      }
    }

    /** The first free node has a cell of its own. */
    lemma FreeFirst()
      requires Valid()
      ensures Conserved(|View().text|, freeNodes, queueNodes, flight.Keys)
      ensures freeNodes != [] ==> freeNodes[0] < cells.Length && |Text(View(), freeNodes[0])| == msgSize
    {
      if freeNodes != [] {
        assert freeNodes[0] in freeNodes;
      }
    }

    /** rt_mq_urgent, not interrupted. */
    method UrgentAtOnce(t: Thread, message: seq<Byte>, p: Priorities) returns (ok: bool)
      requires Valid()
      modifies this, next, cells
      ensures Valid() && ok == (|message| <= msgSize && old(freeNodes) != [])
      ensures ok ==> Messages(View()) == [Overlay(old(Text(View(), freeNodes[0])), message)] + old(Messages(View()))
      ensures ok ==> var m := Messages(View()); m != [] && message <= m[0] && m[1..] == old(Messages(View()))
      ensures !ok ==> Messages(View()) == old(Messages(View()))
    {
      hide Shaped, Conserved;
      ghost var q := View();
      ok := false;
      if |message| <= msgSize {
        FreeFirst();
        var outcome := TakeFree(t, false, p);
        SameMessages(q, View());
        if outcome.Got? {
          TakenAndFilled(q, t, p, message);
          CopyIn(outcome.node, message);
          LinkFirstMessages(View(), outcome.node);
          LinkFirst(outcome.node);
          ok := true;
        }
      }
    }

    /** rt_mq_recv, not interrupted and without waiting: the first message, as far as there is room for it. */
    method RecvAtOnce(t: Thread, size: nat, p: Priorities) returns (ok: bool, bytes: seq<Byte>)
      requires Valid()
      modifies this, next
      ensures Valid() && ok == (old(Messages(View())) != [])
      ensures ok ==> bytes <= old(Messages(View()))[0] && |bytes| == if size > msgSize then msgSize else size
      ensures Messages(View()) == if ok then old(Messages(View()))[1..] else []
    {
      hide Shaped, Conserved;
      ghost var q := View();
      ok, bytes := false, [];
      TakeFirstMessages(q, t, false, p);
      var outcome := TakeFirst(t, false, p);
      if outcome.Got? {
        bytes := CopyOut(outcome.node, size);
        ghost var taken := View();
        Release(outcome.node);
        SameMessages(taken, View());
        ok := true;
      }
    }

    /** The reset loop. */
    method ReclaimAll()
      requires Lists()
      modifies `head, `tail, `free, `queueNodes, `freeNodes, next
      ensures Lists() && queueNodes == [] && freeNodes == Reversed(old(queueNodes)) + old(freeNodes)
    {
      while head != NULL
        invariant Lists() && flight == old(flight) && ready == old(ready)
        invariant Reversed(queueNodes) + freeNodes == Reversed(old(queueNodes)) + old(freeNodes)
        decreases |queueNodes|
      {
        ShapedAfterReclaim(next[..], head, tail, free, queueNodes, freeNodes, flight, ready);
        ReversedStep(queueNodes, freeNodes);
        var msg := head;
        head := next[msg];
        if tail == msg {
          tail := NULL;
        }
        next[msg] := free;
        free := msg;
        freeNodes, queueNodes := [msg] + freeNodes, queueNodes[1..];
      }
    }

    /** rt_mq_control with RT_IPC_CMD_RESET. */
    method Reset()
      requires Valid()
      modifies `head, `tail, `free, `queueNodes, `freeNodes, `entry, `receivers, `senders, next
      ensures Valid() && View() == AfterReset(old(View()))
    {
      hide Shaped, Conserved, Chain;
      receivers, senders := [], [];
      ReclaimAll();
      entry := 0;
    }

    method SenderTimesOut(t: Thread)
      requires Valid()
      modifies `senders
      ensures Valid() && View() == Next(old(View()), SenderExpires(t)).1
    {
      senders := Without(senders, t);
    }

    method ReceiverTimesOut(t: Thread)
      requires Valid()
      modifies `receivers
      ensures Valid() && View() == Next(old(View()), ReceiverExpires(t)).1
    {
      receivers := Without(receivers, t);
    }
  }

  /** Taking a free node and filling it changes no queued message. */
  lemma TakenAndFilled(q: Queue, t: Thread, p: Priorities, message: seq<Byte>)
    requires q.free != [] && Conserved(|q.text|, q.free, q.queue, q.flight.Keys)
    ensures var n, taken := q.free[0], FreeTaken(q, t, false, p).1;
            && Messages(Filled(taken, n, message)) == Messages(q) && Text(taken, n) == Text(q, n) && n < |q.text|
            && (|message| <= |Text(q, n)| ==> Text(Filled(taken, n, message), n) == Overlay(Text(q, n), message))
  {
    var n, taken := q.free[0], FreeTaken(q, t, false, p).1;
    assert n in q.free;
    FillMessages(taken, n, message);
    SameMessages(q, taken);
  }

  lemma ReversedStep(queue: seq<Node>, free: seq<Node>)
    requires queue != []
    ensures Reversed(queue[1..]) + ([queue[0]] + free) == Reversed(queue) + free
  {}
}
