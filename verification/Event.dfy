/**
 * The event object of ipc.c: a set of 32 flags, and threads that wait for all or for any of some
 * of them. What a thread waits for is kept in the thread (event_set, event_info); when it is
 * resumed, event_set becomes what it received.
 */
module Event {
  import opened WaitList

  /** A 32-bit word of flags, as the set of the bits that are one. */
  type Flag = n: nat | n < 32

  type Flags = set<Flag>

  /** RT_EVENT_FLAG_AND, RT_EVENT_FLAG_OR, RT_EVENT_FLAG_CLEAR; the first takes precedence over the second. */
  datatype Want = Want(mask: Flags, all: bool, any: bool, clear: bool)

  type Wants = map<Thread, Want>

  datatype EventState = EventState(flags: Flags, waiting: seq<Thread>, wants: Wants)

  predicate Satisfied(cur: Flags, w: Want) {
    if w.all then All(cur, w.mask) else w.any && Any(cur, w.mask)
  }

  /** One of the two conditions has to be chosen. */
  predicate Asks(w: Want) { w.all || w.any }

  /** What a waiting thread has asked for: a condition, and some flags. */
  predicate Waits(w: Want) { Asks(w) && w.mask != {} }

  predicate All(cur: Flags, mask: Flags) { mask <= cur }

  predicate Any(cur: Flags, mask: Flags) { cur * mask != {} }

  /** What rt_event_recv does when it need not wait: the flags received, and the flags left. */
  function Receive(cur: Flags, w: Want): (Flags, Flags) {
    (cur * w.mask, if w.clear then cur - w.mask else cur)
  }

  /** The waiting threads receive, in the order of the list, each from what the one before has left. */
  function Deliver(cur: Flags, waiting: seq<Thread>, wants: Wants): (e: EventState)
    requires forall t :: t in waiting ==> t in wants
    ensures e.wants.Keys == wants.Keys
  {
    if waiting == [] then EventState(cur, [], wants)
    else
      var t := waiting[0];
      if Satisfied(cur, wants[t]) then
        var (got, left) := Receive(cur, wants[t]);
        Deliver(left, waiting[1..], wants[t := wants[t].(mask := got)])
      else
        var e := Deliver(cur, waiting[1..], wants);
        e.(waiting := [t] + e.waiting)
  }

  /** No suspended thread has what it waits for, and each has asked for something. */
  ghost predicate Quiet(e: EventState) {
    && NoDup(e.waiting)
    && forall t :: t in e.waiting ==> t in e.wants && Waits(e.wants[t]) && !Satisfied(e.flags, e.wants[t])
  }

  /** In terms of the flags: for a thread that waits for all of some flags one is missing, for one that waits for any all are. */
  lemma QuietMeans(e: EventState)
    requires Quiet(e)
    ensures forall t :: t in e.waiting ==>
              && t in e.wants
              && if e.wants[t].all then exists f :: f in e.wants[t].mask && f !in e.flags else forall f :: f in e.wants[t].mask ==> f !in e.flags
  {
    forall t | t in e.waiting && !e.wants[t].all ensures forall f :: f in e.wants[t].mask ==> f !in e.flags {
      var mask := e.wants[t].mask;
      forall f | f in mask ensures f !in e.flags {
        assert f in e.flags ==> f in e.flags * mask;
      }
    }
  }

  // ---------------------------------------------------------------- flags

  /** rt_event_send clears the flags received, rt_event_recv those asked for: the same flags are left. */
  lemma SameLeft(cur: Flags, want: Flags)
    ensures cur - (want * cur) == cur - want
  {}

  lemma SameReceived(cur: Flags, want: Flags)
    ensures want * cur == cur * want && (want <= cur <==> want * cur == want)
  {}

  lemma ClearingSatisfiesNobody(cur: Flags, x: Flags, w: Want)
    requires !Satisfied(cur, w)
    ensures !Satisfied(cur - x, w)
  {
    Fewer(cur, x, w.mask);
  }

  lemma Fewer(cur: Flags, x: Flags, mask: Flags)
    ensures Any(cur - x, mask) ==> Any(cur, mask)
    ensures All(cur - x, mask) ==> All(cur, mask)
  {}

  lemma SatisfiedMeans(cur: Flags, w: Want)
    requires Asks(w)
    ensures Satisfied(cur, w) <==> if w.all then forall f :: f in w.mask ==> f in cur else exists f :: f in w.mask && f in cur
  {
    if !w.all {
      if cur * w.mask == {} {
        forall f | f in w.mask ensures f !in cur {
          assert f in cur ==> f in cur * w.mask;
        }
      } else {
        var f :| f in cur * w.mask;
        assert f in w.mask && f in cur;
      }
    }
  }

  /** What receiving means: something was asked for and got, and a clearing receiver leaves just the rest. */
  lemma ReceiveMeaning(cur: Flags, w: Want)
    requires Satisfied(cur, w) && w.mask != {}
    ensures var (got, left) := Receive(cur, w);
            && got != {} && got <= cur && got <= w.mask && (w.all ==> got == w.mask)
            && (if w.clear then got !! left && got + left == cur else left == cur)
  {
    var (got, left) := Receive(cur, w);
    if w.all {
      assert got == w.mask;
    }
  }

  // ---------------------------------------------------------------- delivery leaves nobody behind

  /** Flags are only ever cleared while delivering, so whoever is passed over stays unsatisfied. */
  lemma {:induction false} StaysUnsatisfied(cur: Flags, waiting: seq<Thread>, wants: Wants, w: Want)
    requires (forall t :: t in waiting ==> t in wants) && !Satisfied(cur, w)
    ensures !Satisfied(Deliver(cur, waiting, wants).flags, w)
    decreases |waiting|
  {
    if waiting != [] {
      var t, rest := waiting[0], waiting[1..];
      if Satisfied(cur, wants[t]) {
        var (got, left) := Receive(cur, wants[t]);
        if wants[t].clear {
          ClearingSatisfiesNobody(cur, wants[t].mask, w);
        }
        StaysUnsatisfied(left, rest, wants[t := wants[t].(mask := got)], w);
      } else {
        StaysUnsatisfied(cur, rest, wants, w);
      }
    }
  }

  /** Threads not in the list keep what they want; those left in it were in it, in the same order. */
  lemma {:induction false} DeliverFrame(cur: Flags, waiting: seq<Thread>, wants: Wants, u: Thread)
    requires (forall t :: t in waiting ==> t in wants) && NoDup(waiting) && u in wants
    ensures u !in waiting ==> Deliver(cur, waiting, wants).wants[u] == wants[u]
    ensures u in Deliver(cur, waiting, wants).waiting ==> u in waiting && Deliver(cur, waiting, wants).wants[u] == wants[u]
    decreases |waiting|
  {
    if waiting != [] {
      var t, rest := waiting[0], waiting[1..];
      assert t !in rest;
      if Satisfied(cur, wants[t]) {
        var (got, left) := Receive(cur, wants[t]);
        DeliverFrame(left, rest, wants[t := wants[t].(mask := got)], u);
      } else {
        DeliverFrame(cur, rest, wants, u);
      }
    }
  }

  lemma {:induction false} DeliverNoDup(cur: Flags, waiting: seq<Thread>, wants: Wants)
    requires (forall t :: t in waiting ==> t in wants) && NoDup(waiting)
    ensures NoDup(Deliver(cur, waiting, wants).waiting)
    decreases |waiting|
  {
    if waiting != [] {
      var t, rest := waiting[0], waiting[1..];
      assert t !in rest;
      if Satisfied(cur, wants[t]) {
        var (got, left) := Receive(cur, wants[t]);
        DeliverNoDup(left, rest, wants[t := wants[t].(mask := got)]);
      } else {
        DeliverNoDup(cur, rest, wants);
        DeliverFrame(cur, rest, wants, t);
      }
    }
  }

  lemma {:induction false} LeftUnsatisfied(cur: Flags, waiting: seq<Thread>, wants: Wants, u: Thread)
    requires (forall t :: t in waiting ==> t in wants) && NoDup(waiting)
    requires u in Deliver(cur, waiting, wants).waiting
    ensures u in wants && !Satisfied(Deliver(cur, waiting, wants).flags, wants[u])
    decreases |waiting|
  {
    var t, rest := waiting[0], waiting[1..];
    assert t !in rest;
    if Satisfied(cur, wants[t]) {
      var (got, left) := Receive(cur, wants[t]);
      var wants' := wants[t := wants[t].(mask := got)];
      LeftUnsatisfied(left, rest, wants', u);
      DeliverFrame(left, rest, wants', u);
    } else if u == t {
      StaysUnsatisfied(cur, rest, wants, wants[t]);
    } else {
      LeftUnsatisfied(cur, rest, wants, u);
    }
  }

  /**
   * After a send nobody waits for what is there: whoever waits for all of some flags lacks one, and
   * whoever waits for any of them lacks all.
   */
  lemma DeliverQuiet(cur: Flags, waiting: seq<Thread>, wants: Wants)
    requires (forall t :: t in waiting ==> t in wants && Waits(wants[t])) && NoDup(waiting)
    ensures var e := Deliver(cur, waiting, wants);
            Quiet(e) && forall t :: t in e.waiting ==>
              && t in e.wants && e.wants[t] == wants[t]
              && if wants[t].all then exists f :: f in wants[t].mask && f !in e.flags else forall f :: f in wants[t].mask ==> f !in e.flags
  {
    var e := Deliver(cur, waiting, wants);
    DeliverNoDup(cur, waiting, wants);
    forall t | t in e.waiting ensures t in e.wants && e.wants[t] == wants[t] && Waits(wants[t]) && !Satisfied(e.flags, e.wants[t]) {
      LeftUnsatisfied(cur, waiting, wants, t);
      DeliverFrame(cur, waiting, wants, t);
    }
    QuietMeans(e);
  }

  /**
   * Whoever is resumed had what it asked for: it gets some of these flags, all of them if it asked
   * for all, and only flags that were there.
   */
  lemma {:induction false} ResumedGot(cur: Flags, waiting: seq<Thread>, wants: Wants, u: Thread)
    requires (forall t :: t in waiting ==> t in wants && Waits(wants[t])) && NoDup(waiting)
    requires u in waiting && u !in Deliver(cur, waiting, wants).waiting
    ensures var got := Deliver(cur, waiting, wants).wants[u].mask;
            got != {} && got <= wants[u].mask && got <= cur && (wants[u].all ==> got == wants[u].mask)
    decreases |waiting|
  {
    var t, rest := waiting[0], waiting[1..];
    assert t !in rest;
    if Satisfied(cur, wants[t]) {
      var (got, left) := Receive(cur, wants[t]);
      var wants' := wants[t := wants[t].(mask := got)];
      if u == t {
        DeliverFrame(left, rest, wants', t);
        ReceiveMeaning(cur, wants[t]);
      } else {
        ResumedGot(left, rest, wants', u);
      }
    } else {
      assert u != t;
      ResumedGot(cur, rest, wants, u);
    }
  }

  /** A flag that is there before the delivery and not after it went to a thread that asked for clearing. */
  lemma {:induction false} WhoCleared(cur: Flags, waiting: seq<Thread>, wants: Wants, f: Flag) returns (u: Thread)
    requires (forall t :: t in waiting ==> t in wants) && NoDup(waiting)
    requires f in cur && f !in Deliver(cur, waiting, wants).flags
    ensures u in waiting && u !in Deliver(cur, waiting, wants).waiting && wants[u].clear
    ensures f in Deliver(cur, waiting, wants).wants[u].mask
    decreases |waiting|
  {
    var t, rest := waiting[0], waiting[1..];
    assert t !in rest;
    if Satisfied(cur, wants[t]) {
      var (got, left) := Receive(cur, wants[t]);
      var wants' := wants[t := wants[t].(mask := got)];
      DeliverFrame(left, rest, wants', t);
      if f in left {
        u := WhoCleared(left, rest, wants', f);
      } else {
        u := t;
      }
    } else {
      u := WhoCleared(cur, rest, wants, f);
      assert u in rest;
    }
  }

  /** What remains to be received only shrinks, and whoever is resumed later receives part of it. */
  lemma {:induction false} ReceivesFromWhatIsLeft(cur: Flags, waiting: seq<Thread>, wants: Wants, u: Thread)
    requires (forall t :: t in waiting ==> t in wants) && NoDup(waiting)
    requires u in waiting && u !in Deliver(cur, waiting, wants).waiting
    ensures Deliver(cur, waiting, wants).wants[u].mask <= cur
    decreases |waiting|
  {
    var t, rest := waiting[0], waiting[1..];
    assert t !in rest;
    if Satisfied(cur, wants[t]) {
      var (got, left) := Receive(cur, wants[t]);
      var wants' := wants[t := wants[t].(mask := got)];
      if u == t {
        DeliverFrame(left, rest, wants', t);
      } else {
        ReceivesFromWhatIsLeft(left, rest, wants', u);
      }
    } else {
      assert u != t;
      ReceivesFromWhatIsLeft(cur, rest, wants, u);
    }
  }

  lemma {:induction false} LeavesLess(cur: Flags, waiting: seq<Thread>, wants: Wants)
    requires forall t :: t in waiting ==> t in wants
    ensures Deliver(cur, waiting, wants).flags <= cur
    decreases |waiting|
  {
    if waiting != [] {
      var t, rest := waiting[0], waiting[1..];
      if Satisfied(cur, wants[t]) {
        var (got, left) := Receive(cur, wants[t]);
        LeavesLess(left, rest, wants[t := wants[t].(mask := got)]);
      } else {
        LeavesLess(cur, rest, wants);
      }
    }
  }

  /**
   * A flag that a clearing thread has received in a send is gone: it is not left in the event, and
   * no thread behind it in the list receives it too.
   */
  lemma {:induction false} ReceivedOnce(cur: Flags, waiting: seq<Thread>, wants: Wants, i: nat, u: Thread)
    requires (forall t :: t in waiting ==> t in wants) && NoDup(waiting) && i < |waiting|
    requires waiting[i] !in Deliver(cur, waiting, wants).waiting && wants[waiting[i]].clear
    ensures var e := Deliver(cur, waiting, wants);
            && e.wants[waiting[i]].mask !! e.flags
            && (u in waiting[i + 1..] && u !in e.waiting ==> u in e.wants && e.wants[waiting[i]].mask !! e.wants[u].mask)
    decreases |waiting|
  {
    var t, rest := waiting[0], waiting[1..];
    assert t !in rest && waiting[i + 1..] == rest[i..];
    if Satisfied(cur, wants[t]) {
      var (got, left) := Receive(cur, wants[t]);
      var wants' := wants[t := wants[t].(mask := got)];
      if i == 0 {
        DeliverFrame(left, rest, wants', t);
        LeavesLess(left, rest, wants');
        if u in rest && u !in Deliver(left, rest, wants').waiting {
          ReceivesFromWhatIsLeft(left, rest, wants', u);
        }
      } else {
        assert rest[i - 1] == waiting[i] && rest[i - 1] != t;
        ReceivedOnce(left, rest, wants', i - 1, u);
      }
    } else {
      assert i > 0 && rest[i - 1] == waiting[i];
      ReceivedOnce(cur, rest, wants, i - 1, u);
    }
  }

  // ---------------------------------------------------------------- every run

  datatype Step =
    | Send(bits: Flags)
    | Recv(t: Thread, w: Want, wait: bool, fifo: bool, p: Priorities)
    | Expires(t: Thread)
    | Reset

  /** A waiting thread must have asked for flags, for all or for any of them, and does not run. */
  ghost predicate Enabled(e: EventState, step: Step) {
    step.Recv? ==> step.t !in e.waiting && Asks(step.w)
  }

  function Sent(e: EventState, bits: Flags): EventState
    requires forall t :: t in e.waiting ==> t in e.wants
  {
    if bits == {} then e else Deliver(e.flags + bits, e.waiting, e.wants)
  }

  function Received(e: EventState, t: Thread, w: Want, wait: bool, fifo: bool, p: Priorities): EventState {
    if w.mask == {} then e
    else if Satisfied(e.flags, w) then
      var (got, left) := Receive(e.flags, w);
      e.(flags := left, wants := e.wants[t := w.(mask := got)])
    else if wait then e.(waiting := Queued(e.waiting, t, fifo, p), wants := e.wants[t := w])
    else e
  }

  function Next(e: EventState, step: Step): EventState
    requires forall t :: t in e.waiting ==> t in e.wants
  {
    match step
    case Send(bits) => Sent(e, bits)
    case Recv(t, w, wait, fifo, p) => Received(e, t, w, wait, fifo, p)
    case Expires(t) => e.(waiting := Without(e.waiting, t))
    case Reset => e.(flags := {}, waiting := [])
  }

  lemma RecvQuiet(e: EventState, t: Thread, w: Want, wait: bool, fifo: bool, p: Priorities)
    requires Quiet(e) && t !in e.waiting && Asks(w)
    ensures Quiet(Received(e, t, w, wait, fifo, p))
  {
    var e' := Received(e, t, w, wait, fifo, p);
    if w.mask != {} && Satisfied(e.flags, w) && w.clear {
      forall u | u in e.waiting ensures !Satisfied(e'.flags, e.wants[u]) {
        ClearingSatisfiesNobody(e.flags, w.mask, e.wants[u]);
      }
    }
    QueuedElements(e.waiting, t, fifo, p);
    QueuedNoDup(e.waiting, t, fifo, p);
  }

  /** What a receiver gets that asked for w when `cur` was there. */
  ghost predicate Got(cur: Flags, w: Want, got: Flags) {
    got != {} && got <= w.mask && got <= cur && (w.all ==> got == w.mask)
  }

  /** A send resumes threads that have what they wait for, leaves the others alone, and no flag disappears unreceived. */
  lemma SentOutcome(e: EventState, bits: Flags)
    requires Quiet(e)
    ensures var e' := Sent(e, bits);
            && (forall t :: t in e'.waiting ==> t in e.waiting && t in e'.wants && e'.wants[t] == e.wants[t])
            && (forall t :: t in e.waiting && t !in e'.waiting ==> t in e'.wants && Got(e.flags + bits, e.wants[t], e'.wants[t].mask))
            && forall f :: f in e.flags + bits && f !in e'.flags ==>
                 exists t :: t in e.waiting && t !in e'.waiting && t in e'.wants && e.wants[t].clear && f in e'.wants[t].mask
  {
    hide Deliver;
    var cur, e' := e.flags + bits, Sent(e, bits);
    if bits != {} {
      forall t | t in e'.waiting ensures t in e.waiting && t in e'.wants && e'.wants[t] == e.wants[t] {
        DeliverQuiet(cur, e.waiting, e.wants);
        DeliverFrame(cur, e.waiting, e.wants, t);
      }
      forall t | t in e.waiting && t !in e'.waiting ensures t in e'.wants && Got(cur, e.wants[t], e'.wants[t].mask) {
        ResumedGot(cur, e.waiting, e.wants, t);
      }
      forall f | f in cur && f !in e'.flags
        ensures exists t :: t in e.waiting && t !in e'.waiting && t in e'.wants && e.wants[t].clear && f in e'.wants[t].mask
      {
        var t := WhoCleared(cur, e.waiting, e.wants, f);
      }
    }
  }

  lemma StepQuiet(e: EventState, step: Step)
    requires Quiet(e) && Enabled(e, step)
    ensures Quiet(Next(e, step))
  {
    match step {
      case Send(bits) => DeliverQuiet(e.flags + bits, e.waiting, e.wants);
      case Recv(t, w, wait, fifo, p) => RecvQuiet(e, t, w, wait, fifo, p);
      case Expires(t) => WithoutElements(e.waiting, t);
      case Reset =>
    }
  }

  ghost predicate Run(trace: seq<EventState>, steps: seq<Step>) {
    && |trace| == |steps| + 1 && trace[0].waiting == []
    && forall i :: 0 <= i < |steps| ==>
         Enabled(trace[i], steps[i]) && (Quiet(trace[i]) ==> trace[i + 1] == Next(trace[i], steps[i]))
  }

  /**
   * Between operations, in every run, no suspended thread's condition holds: it lacks one of the
   * flags if it waits for all, and every one if it waits for any.
   */
  lemma {:induction false} RunQuiet(trace: seq<EventState>, steps: seq<Step>, k: nat)
    requires Run(trace, steps) && k < |trace|
    ensures var e := trace[k];
            Quiet(e) && forall t :: t in e.waiting ==>
              && t in e.wants
              && if e.wants[t].all then exists f :: f in e.wants[t].mask && f !in e.flags else forall f :: f in e.wants[t].mask ==> f !in e.flags
  {
    hide Next, Enabled, Quiet;
    assert trace[0].waiting == [] ==> Quiet(trace[0]) by {
      NobodyWaits(trace[0]);
    }
    if k > 0 {
      RunQuiet(trace, steps, k - 1);
      StepQuiet(trace[k - 1], steps[k - 1]);
    }
    QuietMeans(trace[k]);
  }

  lemma NobodyWaits(e: EventState)
    requires e.waiting == []
    ensures Quiet(e)
  {}

  // ---------------------------------------------------------------- the object

  /** Delivering to the threads from index n on, and keeping those before, gives `whole`. */
  ghost predicate Resumes(e: EventState, n: nat, whole: EventState) {
    && n <= |e.waiting| && (forall t :: t in e.waiting ==> t in e.wants)
    && var d := Deliver(e.flags, e.waiting[n..], e.wants);
       whole == d.(waiting := e.waiting[..n] + d.waiting)
  }

  function Visited(e: EventState, n: nat): (EventState, nat)
    requires n < |e.waiting| && e.waiting[n] in e.wants
  {
    var t, w := e.waiting[n], e.wants[e.waiting[n]];
    if Satisfied(e.flags, w) then
      (EventState(Receive(e.flags, w).1, e.waiting[..n] + e.waiting[n + 1..], e.wants[t := w.(mask := Receive(e.flags, w).0)]), n)
    else (e, n + 1)
  }

  lemma ResumeStart(e: EventState, whole: EventState)
    requires (forall t :: t in e.waiting ==> t in e.wants) && whole == Deliver(e.flags, e.waiting, e.wants)
    ensures Resumes(e, 0, whole)
  {
    assert e.waiting[0..] == e.waiting && e.waiting[..0] + whole.waiting == whole.waiting;
  }

  lemma ResumeEnd(e: EventState, whole: EventState)
    requires Resumes(e, |e.waiting|, whole)
    ensures e == whole
  {
    assert e.waiting[|e.waiting|..] == [] && e.waiting[..|e.waiting|] + [] == e.waiting;
  }

  lemma ResumeStep(e: EventState, n: nat, whole: EventState)
    requires Resumes(e, n, whole) && n < |e.waiting|
    ensures var (e', n') := Visited(e, n); Resumes(e', n', whole)
  {
    var (e', n') := Visited(e, n);
    assert e.waiting[n] in e.waiting && e.waiting[n..][1..] == e.waiting[n + 1..];
    assert forall t :: t in e'.waiting ==> t in e.waiting;
    if n' == n {
      assert e'.waiting[n..] == e.waiting[n + 1..] && e'.waiting[..n] == e.waiting[..n];
    } else {
      assert e.waiting[..n + 1] == e.waiting[..n] + [e.waiting[n]];
    }
  }

  datatype Outcome = Done(got: Flags) | Failed | Suspended

  /** The test of rt_event_send for one thread: what it receives, and the flags left when it is resumed. */
  method Check(cur: Flags, w: Want) returns (ok: bool, received: Flags, left: Flags)
    requires Asks(w)
    ensures ok == Satisfied(cur, w)
    ensures ok <==> if w.all then forall f :: f in w.mask ==> f in cur else exists f :: f in w.mask && f in cur
    ensures ok ==> (received, left) == Receive(cur, w)
  {
    ok, received, left := false, w.mask, cur;
    SameLeft(cur, w.mask);
    SameReceived(cur, w.mask);
    if w.all {
      if w.mask * cur == w.mask {
        ok := true;
      }
    } else {
      if w.mask * cur != {} {
        received := w.mask * cur;
        ok := true;
      }
    }
    if ok && w.clear {
      left := cur - received;
    }
    SatisfiedMeans(cur, w);
  }

  class EventObject {
    const fifo: bool
    var flags: Flags
    var waiting: seq<Thread>
    var wants: Wants

    /** Every waiting thread has said what it wants; rt_event_recv insists on that. */
    ghost predicate Asked()
      reads this
    {
      forall t :: t in waiting ==> t in wants && Waits(wants[t])
    }

    /** Between operations, none of them has what it waits for. */
    ghost predicate Valid()
      reads this
    {
      Asked() && Quiet(View())
    }

    ghost function View(): EventState
      reads this
    {
      EventState(flags, waiting, wants)
    }

    constructor (fifo: bool)
      ensures Valid() && View() == EventState({}, [], map[])
    {
      this.fifo := fifo;
      flags, waiting, wants := {}, [], map[];
    }

    /** Visits the thread at index n of the list: resumes it, or moves on. */
    method Visit(n: nat) returns (next: nat)
      requires Asked() && n < |waiting|
      modifies this
      ensures Asked() && (View(), next) == Visited(old(View()), n)
    {
      var thread := waiting[n];
      assert thread in waiting;
      var ok, received, left := Check(flags, wants[thread]);
      next := n + 1;
      if ok {
        wants := wants[thread := wants[thread].(mask := received)];
        flags := left;
        assert forall t :: t in waiting[..n] + waiting[n + 1..] ==> t in waiting;
        waiting := waiting[..n] + waiting[n + 1..];
        next := n;
      }
    }

    /** The loop of rt_event_send. */
    method ResumeSatisfied(ghost whole: EventState)
      requires Asked() && Resumes(View(), 0, whole)
      modifies this
      ensures Asked() && View() == whole
    {
      var n := 0;
      while n < |waiting|
        invariant 0 <= n <= |waiting| && Asked()
        invariant Resumes(View(), n, whole)
        decreases |waiting| - n
      {
        ResumeStep(View(), n, whole);
        n := Visit(n);
      }
      ResumeEnd(View(), whole);
    }

    /**
     * rt_event_send. Whoever still waits lacks one of its flags, if it waits for all, or every one,
     * if it waits for any. Whoever is resumed got flags that it asked for and that were there, all
     * of them if it asked for all. A flag is missing afterwards only if a clearing thread got it.
     */
    method Send(bits: Flags) returns (ok: bool)
      requires Valid()
      modifies this
      ensures Valid() && ok == (bits != {}) && View() == Sent(old(View()), bits)
      ensures forall t :: t in waiting ==>
                && t in wants
                && if wants[t].all then exists f :: f in wants[t].mask && f !in flags else forall f :: f in wants[t].mask ==> f !in flags
      ensures forall t :: t in waiting ==> t in old(waiting) && wants[t] == old(wants)[t]
      ensures forall t :: t in old(waiting) && t !in waiting ==>
                t in wants && Got(old(flags) + bits, old(wants)[t], wants[t].mask)
      ensures forall f :: f in old(flags) + bits && f !in flags ==>
                exists t :: t in old(waiting) && t !in waiting && t in wants && old(wants)[t].clear && f in wants[t].mask
    {
      hide Deliver, Quiet;
      ghost var e := View();
      StepQuiet(e, Step.Send(bits));
      SentOutcome(e, bits);
      ok := bits != {};
      if ok {
        ghost var whole := Sent(View(), bits);
        flags := flags + bits;
        ResumeStart(View(), whole);
        ResumeSatisfied(whole);
      }
      QuietMeans(View());
    }

    /**
     * One pass of rt_event_recv. A receiver gets some of the flags it asked for, all of them if it
     * asked for all, and with CLEAR just these disappear; otherwise it waits, or nothing happens.
     */
    method Recv(t: Thread, w: Want, wait: bool, p: Priorities) returns (outcome: Outcome)
      requires Valid() && t !in waiting && Asks(w)
      modifies this
      ensures Valid() && View() == Received(old(View()), t, w, wait, fifo, p)
      ensures outcome.Done? <==>
                && w.mask != {}
                && if w.all then forall f :: f in w.mask ==> f in old(flags) else exists f :: f in w.mask && f in old(flags)
      ensures outcome.Done? ==>
                && outcome.got != {} && outcome.got <= w.mask && (w.all ==> outcome.got == w.mask)
                && (if w.clear then outcome.got !! flags && outcome.got + flags == old(flags) else flags == old(flags))
      ensures outcome.Done? ==> forall f :: f in outcome.got <==> f in w.mask && f in old(flags)
      ensures outcome.Suspended? ==> wait && w.mask != {} && t in waiting && t in wants && wants[t] == w && flags == old(flags)
      ensures outcome.Failed? ==> View() == old(View()) && (w.mask == {} || !wait)
    {
      hide Quiet, Satisfied, Queued;
      StepQuiet(View(), Step.Recv(t, w, wait, fifo, p));
      SatisfiedMeans(flags, w);
      outcome := Failed;
      if w.mask != {} {
        if Satisfied(flags, w) {
          ReceiveMeaning(flags, w);
          outcome := Done(flags * w.mask);
          wants := wants[t := w.(mask := flags * w.mask)];
          if w.clear {
            flags := flags - w.mask;
          }
        } else if wait {
          QueuedElements(waiting, t, fifo, p);
          wants := wants[t := w];
          waiting := ListSuspend(waiting, t, fifo, p);
          outcome := Suspended;
        }
      }
    }

    method TimesOut(t: Thread)
      requires Valid()
      modifies `waiting
      ensures Valid() && View() == old(View()).(waiting := Without(old(waiting), t))
    {
      WithoutElements(waiting, t);
      waiting := Without(waiting, t);
    }

    /** rt_event_control with RT_IPC_CMD_RESET. */
    method Reset()
      modifies this
      ensures Valid() && View() == old(View()).(flags := {}, waiting := [])
    {
      waiting := [];
      flags := {};
    }
  }
}
