/** The counting semaphore of ipc.c. A release with threads waiting hands the unit to the first of them directly. */
module Semaphore {
  import opened WaitList

  const VALUE_MAX := 0xFFFF

  datatype Outcome = Done | TimedOut | Suspended | Full

  datatype Sem = Sem(fifo: bool, value: nat, waiting: seq<Thread>)

  datatype Step =
    | Take(t: Thread, wait: bool, p: Priorities)
    | Release
    | Expires(t: Thread)
    | Reset(value: nat)

  function Taken(s: Sem, t: Thread, wait: bool, p: Priorities): (Outcome, Sem) {
    if s.value > 0 then (Done, s.(value := s.value - 1))
    else if !wait then (TimedOut, s)
    else (Suspended, s.(waiting := Queued(s.waiting, t, s.fifo, p)))
  }

  function Released(s: Sem): (Outcome, Sem) {
    if s.waiting != [] then (Done, s.(waiting := s.waiting[1..]))
    else if s.value < VALUE_MAX then (Done, s.(value := s.value + 1))
    else (Full, s)
  }

  function Next(s: Sem, step: Step): (Outcome, Sem) {
    match step
    case Take(t, wait, p) => Taken(s, t, wait, p)
    case Release => Released(s)
    case Expires(t) => (TimedOut, s.(waiting := Without(s.waiting, t)))
    case Reset(value) => (Done, s.(value := value % 0x1_0000, waiting := []))
  }

  ghost predicate Enabled(s: Sem, step: Step) {
    step.Take? ==> step.t !in s.waiting
  }

  /** A unit is never left lying while a thread waits for one, and the count stays within 16 bits. */
  ghost predicate Inv(s: Sem) {
    s.value <= VALUE_MAX && NoDup(s.waiting) && (s.value > 0 ==> s.waiting == [])
  }

  /** The thread that a step gives a unit to: the taker, or the first waiting thread of a release. */
  function Granted(s: Sem, step: Step): seq<Thread> {
    if step.Take? && s.value > 0 then [step.t]
    else if step.Release? && s.waiting != [] then [s.waiting[0]]
    else []
  }

  function Supplied(s: Sem, step: Step): nat {
    if step.Release? && Next(s, step).0.Done? then 1 else 0
  }

  lemma StepInv(s: Sem, step: Step)
    requires Inv(s) && Enabled(s, step)
    ensures Inv(Next(s, step).1)
    ensures !step.Reset? ==> s.value + Supplied(s, step) == Next(s, step).1.value + |Granted(s, step)|
  {
    match step {
      case Take(t, wait, p) => QueuedNoDup(s.waiting, t, s.fifo, p);
      case Expires(t) => WithoutElements(s.waiting, t);
      case _ =>
    }
  }

  ghost predicate Run(trace: seq<Sem>, steps: seq<Step>) {
    && |trace| == |steps| + 1 && trace[0].value <= VALUE_MAX && trace[0].waiting == []
    && forall i :: 0 <= i < |steps| ==> Enabled(trace[i], steps[i]) && trace[i + 1] == Next(trace[i], steps[i]).1
  }

  ghost function Releases(trace: seq<Sem>, steps: seq<Step>, k: nat): nat
    requires k <= |steps| <= |trace|
  {
    if k == 0 then 0 else Releases(trace, steps, k - 1) + Supplied(trace[k - 1], steps[k - 1])
  }

  ghost function Grants(trace: seq<Sem>, steps: seq<Step>, k: nat): seq<Thread>
    requires k <= |steps| <= |trace|
  {
    if k == 0 then [] else Grants(trace, steps, k - 1) + Granted(trace[k - 1], steps[k - 1])
  }

  lemma {:induction false} RunInv(trace: seq<Sem>, steps: seq<Step>, k: nat)
    requires Run(trace, steps) && k < |trace|
    ensures Inv(trace[k])
  {
    if k > 0 {
      RunInv(trace, steps, k - 1);
      StepInv(trace[k - 1], steps[k - 1]);
    }
  }

  /** Without a reset, the initial value plus the successful releases is the value plus the takes granted. */
  lemma {:induction false} UnitsConserved(trace: seq<Sem>, steps: seq<Step>, k: nat)
    requires Run(trace, steps) && k < |trace| && forall i :: 0 <= i < k ==> !steps[i].Reset?
    ensures trace[0].value + Releases(trace, steps, k) == trace[k].value + |Grants(trace, steps, k)|
  {
    if k > 0 {
      UnitsConserved(trace, steps, k - 1);
      RunInv(trace, steps, k - 1);
      StepInv(trace[k - 1], steps[k - 1]);
    }
  }

  /** A thread that waits has been granted nothing since it started to, and its timing out takes nothing. */
  lemma {:induction false} WaiterGetsNothing(trace: seq<Sem>, steps: seq<Step>, i: nat, j: nat, t: Thread)
    requires Run(trace, steps) && i <= j < |trace| && forall k :: i <= k <= j ==> t in trace[k].waiting
    ensures multiset(Grants(trace, steps, j))[t] == multiset(Grants(trace, steps, i))[t]
  {
    hide Next, Enabled, Inv, Granted;
    if i < j {
      WaiterGetsNothing(trace, steps, i, j - 1, t);
      RunInv(trace, steps, j - 1);
      assert t in trace[j - 1].waiting && t in trace[j].waiting;
      StillWaiting(trace[j - 1], steps[j - 1], t);
    }
  }

  lemma StillWaiting(s: Sem, step: Step, t: Thread)
    requires Inv(s) && Enabled(s, step) && t in s.waiting && t in Next(s, step).1.waiting
    ensures t !in Granted(s, step)
  {
    if step.Release? && s.waiting != [] {
      assert t in s.waiting[1..];
    }
  }

  class SemaphoreObject {
    const fifo: bool
    var value: nat
    var waiting: seq<Thread>

    ghost function View(): Sem
      reads this
    {
      Sem(fifo, value, waiting)
    }

    ghost predicate Valid()
      reads this
    {
      Inv(View())
    }

    /** rt_sem_init. */
    constructor (value: nat, fifo: bool)
      requires value <= VALUE_MAX
      ensures Valid() && View() == Sem(fifo, value, [])
    {
      this.fifo, this.value, waiting := fifo, value, [];
    }

    /**
     * rt_sem_take, up to the point where the thread has the unit, fails or is suspended. A unit is
     * taken exactly if there is one; a suspended thread takes none and is in the list.
     */
    method Take(t: Thread, wait: bool, p: Priorities) returns (outcome: Outcome)
      requires Valid() && t !in waiting
      modifies this
      ensures Valid() && (outcome, View()) == Taken(old(View()), t, wait, p)
      ensures outcome == Done <==> old(value) > 0
      ensures value + (if outcome == Done then 1 else 0) == old(value)
      ensures outcome == Suspended ==> wait && value == 0 && forall u :: u in waiting <==> u == t || u in old(waiting)
      ensures outcome != Suspended ==> waiting == old(waiting) && (outcome == Done || (outcome == TimedOut && !wait))
    {
      StepInv(View(), Step.Take(t, wait, p));
      QueuedElements(waiting, t, fifo, p);
      if value > 0 {
        value := value - 1;
        outcome := Done;
      } else if !wait {
        outcome := TimedOut;
      } else {
        waiting := ListSuspend(waiting, t, fifo, p);
        outcome := Suspended;
      }
    }

    /**
     * rt_sem_release. The unit goes to the first waiting thread, or into the count; it is refused,
     * and nothing changes, exactly if the count is at its limit.
     */
    method Release() returns (outcome: Outcome)
      requires Valid()
      modifies this
      ensures Valid() && (outcome, View()) == Released(old(View()))
      ensures value + (|old(waiting)| - |waiting|) == old(value) + if outcome == Done then 1 else 0
      ensures old(waiting) != [] ==> old(waiting) == [old(waiting)[0]] + waiting && value == old(value) == 0
      ensures outcome == Full <==> old(waiting) == [] && old(value) == VALUE_MAX
      ensures outcome == Full ==> View() == old(View())
    {
      StepInv(View(), Step.Release);
      outcome := Done;
      if waiting != [] {
        waiting := waiting[1..];
      } else if value < VALUE_MAX {
        value := value + 1;
      } else {
        outcome := Full;
      }
    }

    /** rt_sem_control with RT_IPC_CMD_RESET; the new value is cut to 16 bits. */
    method Reset(v: nat)
      requires Valid()
      modifies this
      ensures Valid() && View() == Next(old(View()), Step.Reset(v)).1
    {
      waiting := [];
      value := v % 0x1_0000;
    }
  }
}
