/** The recursive mutex of ipc.c: ownership, nesting, and hand-over to the first waiting thread. */
module Mutex {
  import opened WaitList

  const HOLD_MAX := 0xFF
  const VALUE_MAX := 0xFFFF
  const NO_PRIORITY := 0xFF

  datatype Owner = Nobody | By(t: Thread)

  datatype Outcome = Done | TimedOut | Suspended | Full | Failed

  datatype Mutex = Mutex(value: nat, hold: nat, owner: Owner, saved: nat, waiting: seq<Thread>)

  const FREE := Mutex(1, 0, Nobody, NO_PRIORITY, [])

  /** The owner inherits the priority of a more urgent thread that is about to wait for it. */
  function Boosted(m: Mutex, p: Priorities, t: Thread): Priorities {
    if m.owner.By? && Priority(p, t) < Priority(p, m.owner.t) then p[m.owner.t := Priority(p, t)] else p
  }

  /** rt_mutex_take by thread t, up to the point where it has the mutex, fails or is suspended. */
  function Taken(m: Mutex, p: Priorities, t: Thread, wait: bool): (Outcome, Mutex, Priorities) {
    if m.owner == By(t) then
      if m.hold < HOLD_MAX then (Done, m.(hold := m.hold + 1), p) else (Full, m, p)
    else if m.value > 0 then
      var owned := m.(value := m.value - 1, owner := By(t), saved := Priority(p, t));
      if m.hold < HOLD_MAX then (Done, owned.(hold := m.hold + 1), p) else (Full, owned, p)
    else if !wait then (TimedOut, m, p)
    else
      var p' := Boosted(m, p, t);
      (Suspended, m.(waiting := Queued(m.waiting, t, false, p')), p')
  }

  /** The priority the owner gets back at its last release. */
  function Restored(m: Mutex, p: Priorities, t: Thread): Priorities {
    if m.saved != Priority(p, t) then p[t := m.saved] else p
  }

  /** The 8-bit counter counted down. */
  function OneLess(hold: nat): nat {
    if hold == 0 then 0xFF else hold - 1
  }

  /** rt_mutex_release by thread t. */
  function Released(m: Mutex, p: Priorities, t: Thread): (Outcome, Mutex, Priorities) {
    if m.owner != By(t) then (Failed, m, p)
    else
      var hold := OneLess(m.hold);
      if hold != 0 then (Done, m.(hold := hold), p)
      else
        var p' := Restored(m, p, t);
        if m.waiting != [] then
          (Done, m.(hold := 1, owner := By(m.waiting[0]), saved := Priority(p', m.waiting[0]), waiting := m.waiting[1..]), p')
        else if m.value < VALUE_MAX then (Done, FREE.(value := m.value + 1, waiting := []), p')
        else (Full, m.(hold := 0), p')
  }

  function Expired(m: Mutex, t: Thread): Mutex {
    m.(waiting := Without(m.waiting, t))
  }

  datatype Step = Take(t: Thread, wait: bool) | Release(t: Thread) | Expires(t: Thread)

  function Next(m: Mutex, p: Priorities, step: Step): (Outcome, Mutex, Priorities) {
    match step
    case Take(t, wait) => Taken(m, p, t, wait)
    case Release(t) => Released(m, p, t)
    case Expires(t) => (TimedOut, Expired(m, t), p)
  }

  ghost predicate Enabled(m: Mutex, step: Step) {
    !step.Expires? ==> step.t !in m.waiting
  }

  // ---------------------------------------------------------------- safety

  /** Free, with nobody waiting, or owned and held. */
  ghost predicate Safe(m: Mutex) {
    && NoDup(m.waiting)
    && (m.owner == Nobody ==> m.value == 1 && m.hold == 0 && m.waiting == [])
    && (m.owner.By? ==> m.value == 0 && 1 <= m.hold <= HOLD_MAX && m.owner.t !in m.waiting)
  }

  /** The owner is at least as urgent as every waiting thread. */
  ghost predicate Urgent(m: Mutex, p: Priorities) {
    m.owner.By? ==> forall w :: w in m.waiting ==> Priority(p, m.owner.t) <= Priority(p, w)
  }

  lemma StepSafe(m: Mutex, p: Priorities, step: Step)
    requires Safe(m) && Enabled(m, step)
    ensures Safe(Next(m, p, step).1)
  {
    match step {
      case Take(t, wait) =>
        QueuedNoDup(m.waiting, t, false, Boosted(m, p, t));
        QueuedElements(m.waiting, t, false, Boosted(m, p, t));
      case Release(t) =>
        if m.waiting != [] {
          assert m.waiting[0] !in m.waiting[1..];
        }
      case Expires(t) => WithoutElements(m.waiting, t);
    }
  }

  /** Only the 256th nested take overflows: the checks after a first take and a last release never fail. */
  lemma OverflowOnlyNested(m: Mutex, p: Priorities, step: Step)
    requires Safe(m)
    ensures Next(m, p, step).0 == Full <==> step.Take? && m.owner == By(step.t) && m.hold == HOLD_MAX
  {}

  /** A released mutex for which threads wait goes to the first of them in the same step; nobody else finds it free. */
  lemma DirectHandOver(m: Mutex, p: Priorities, t: Thread, u: Thread, wait: bool)
    requires Safe(m) && m.owner == By(t) && m.hold == 1 && m.waiting != [] && u != m.waiting[0]
    ensures var (_, m', p') := Released(m, p, t);
            m'.owner == By(m.waiting[0]) && m'.hold == 1 && Taken(m', p', u, wait).0 in {TimedOut, Suspended}
  {}

  ghost predicate Run(trace: seq<(Mutex, Priorities)>, steps: seq<Step>) {
    && |trace| == |steps| + 1 && trace[0].0 == FREE
    && forall i :: 0 <= i < |steps| ==>
         Enabled(trace[i].0, steps[i]) && (Next(trace[i].0, trace[i].1, steps[i]).1, Next(trace[i].0, trace[i].1, steps[i]).2) == trace[i + 1]
  }

  lemma {:induction false} RunSafe(trace: seq<(Mutex, Priorities)>, steps: seq<Step>, k: nat)
    requires Run(trace, steps) && k < |trace|
    ensures Safe(trace[k].0)
  {
    if k > 0 {
      RunSafe(trace, steps, k - 1);
      StepSafe(trace[k - 1].0, trace[k - 1].1, steps[k - 1]);
    }
  }

  // ---------------------------------------------------------------- holds are takes minus releases

  /** How often t holds the mutex. */
  function Holds(m: Mutex, t: Thread): int {
    if m.owner == By(t) then m.hold else 0
  }

  /** Takes granted to t by a step: its own, or the one it waited for. */
  function TakesOf(m: Mutex, p: Priorities, step: Step, t: Thread): int {
    if step.Take? && step.t == t && Next(m, p, step).0 == Done then 1
    else if step.Release? && m.owner == By(step.t) && m.hold == 1 && m.waiting != [] && m.waiting[0] == t then 1
    else 0
  }

  function ReleasesOf(m: Mutex, p: Priorities, step: Step, t: Thread): int {
    if step.Release? && step.t == t && Next(m, p, step).0 == Done then 1 else 0
  }

  lemma StepHolds(m: Mutex, p: Priorities, step: Step, t: Thread)
    requires Safe(m) && Enabled(m, step)
    ensures Holds(Next(m, p, step).1, t) == Holds(m, t) + TakesOf(m, p, step, t) - ReleasesOf(m, p, step, t)
  {
    if step.Release? && m.waiting != [] {
      assert m.waiting[0] in m.waiting;
    }
  }

  ghost function Balance(trace: seq<(Mutex, Priorities)>, steps: seq<Step>, t: Thread, k: nat): int
    requires k <= |steps| <= |trace|
  {
    if k == 0 then 0
    else
      var (m, p) := trace[k - 1];
      Balance(trace, steps, t, k - 1) + TakesOf(m, p, steps[k - 1], t) - ReleasesOf(m, p, steps[k - 1], t)
  }

  /** In every run: the owner's takes minus its releases are what it holds; everyone else's are equal. */
  lemma {:induction false} HoldsAreBalance(trace: seq<(Mutex, Priorities)>, steps: seq<Step>, t: Thread, k: nat)
    requires Run(trace, steps) && k < |trace|
    ensures Balance(trace, steps, t, k) == Holds(trace[k].0, t)
  {
    if k > 0 {
      HoldsAreBalance(trace, steps, t, k - 1);
      RunSafe(trace, steps, k - 1);
      StepHolds(trace[k - 1].0, trace[k - 1].1, steps[k - 1], t);
    }
  }

  // ---------------------------------------------------------------- the object

  /** The priorities of all threads, which mutexes change. */
  class Threads {
    var priority: Priorities

    constructor (p: Priorities)
      ensures priority == p
    {
      priority := p;
    }

    /** rt_thread_control with RT_THREAD_CTRL_CHANGE_PRIORITY. A suspended thread keeps its place in its wait list. */
    method ChangePriority(t: Thread, n: nat)
      modifies this
      ensures priority == old(priority)[t := n]
    {
      priority := priority[t := n];
    }
  }

  class MutexObject {
    var value: nat
    var hold: nat
    var owner: Owner
    var saved: nat
    var waiting: seq<Thread>

    ghost function View(): Mutex
      reads this
    {
      Mutex(value, hold, owner, saved, waiting)
    }

    ghost predicate Valid()
      reads this
    {
      Safe(View())
    }

    /** rt_mutex_init. */
    constructor ()
      ensures Valid() && View() == FREE
    {
      value, hold, owner, saved, waiting := 1, 0, Nobody, NO_PRIORITY, [];
    }

    /**
     * rt_mutex_take. The thread owns the mutex, once more, or waits behind an owner that is now as
     * urgent as the more urgent of the two; an owner that was as urgent as all waiting threads still is.
     */
    method Take(threads: Threads, t: Thread, wait: bool) returns (outcome: Outcome)
      requires Valid() && t !in waiting
      modifies this, threads
      ensures Valid() && (outcome, View(), threads.priority) == Taken(old(View()), old(threads.priority), t, wait)
      ensures outcome == Done ==> owner == By(t) && Holds(View(), t) == Holds(old(View()), t) + 1
      ensures outcome == Suspended ==>
                && wait && t in waiting && owner == old(owner) && owner.By?
                && var before, wants := Priority(old(threads.priority), owner.t), Priority(old(threads.priority), t);
                   Priority(threads.priority, owner.t) == if wants < before then wants else before
      ensures outcome == Done && old(owner) == Nobody ==> saved == Priority(threads.priority, t) && threads.priority == old(threads.priority)
      ensures outcome == TimedOut ==> !wait && View() == old(View()) && threads.priority == old(threads.priority)
      ensures outcome == Done <==> old(owner) == Nobody || (old(owner) == By(t) && old(hold) < HOLD_MAX)
      ensures outcome == Full <==> old(owner) == By(t) && old(hold) == HOLD_MAX
      ensures Urgent(old(View()), old(threads.priority)) ==> Urgent(View(), threads.priority)
      ensures forall u: Thread :: By(u) != old(owner) ==> Priority(threads.priority, u) == Priority(old(threads.priority), u)
    {
      TakeMeaning(View(), threads.priority, t, wait);
      outcome := Done;
      if owner == By(t) {
        if hold < HOLD_MAX {
          hold := hold + 1;
        } else {
          outcome := Full;
        }
      } else if value > 0 {
        value := value - 1;
        owner := By(t);
        saved := Priority(threads.priority, t);
        if hold < HOLD_MAX {
          hold := hold + 1;
        } else {
          outcome := Full;
        }
      } else if !wait {
        outcome := TimedOut;
      } else {
        if owner.By? && Priority(threads.priority, t) < Priority(threads.priority, owner.t) {
          threads.ChangePriority(owner.t, Priority(threads.priority, t));
        }
        waiting := ListSuspend(waiting, t, false, threads.priority);
        outcome := Suspended;
      }
    }

    /**
     * rt_mutex_release. Only the owner can release; its last release gives it back the priority it
     * had and hands the mutex, held once, to the first waiting thread, or frees it.
     */
    method Release(threads: Threads, t: Thread) returns (outcome: Outcome)
      requires Valid() && t !in waiting
      modifies this, threads
      ensures Valid() && (outcome, View(), threads.priority) == Released(old(View()), old(threads.priority), t)
      ensures outcome == if old(owner) == By(t) then Done else Failed
      ensures outcome == Failed ==> View() == old(View()) && threads.priority == old(threads.priority)
      ensures outcome == Done ==> Holds(View(), t) == Holds(old(View()), t) - 1
      ensures outcome == Done && old(hold) == 1 ==> Priority(threads.priority, t) == old(saved)
      ensures outcome == Done && old(hold) == 1 && old(waiting) != [] ==>
                owner == By(old(waiting)[0]) && hold == 1 && old(waiting) == [old(waiting)[0]] + waiting
      ensures outcome == Done && old(hold) == 1 && old(waiting) == [] ==> View() == FREE
    {
      ReleaseMeaning(View(), threads.priority, t);
      if owner != By(t) {
        return Failed;
      }
      outcome := Done;
      hold := OneLess(hold);
      if hold == 0 {
        if saved != Priority(threads.priority, t) {
          threads.ChangePriority(t, saved);
        }
        if waiting != [] {
          owner := By(waiting[0]);
          saved := Priority(threads.priority, waiting[0]);
          if hold < HOLD_MAX {
            hold := hold + 1;
          } else {
            assert false;
          }
          waiting := waiting[1..];
        } else if value < VALUE_MAX {
          value := value + 1;
          owner := Nobody;
          saved := NO_PRIORITY;
        } else {
          outcome := Full;
        }
      }
    }
  }

  /** What a take does for the taker, for the owner and for everyone else. */
  lemma TakeMeaning(m: Mutex, p: Priorities, t: Thread, wait: bool)
    requires Safe(m) && t !in m.waiting
    ensures var (outcome, m', p') := Taken(m, p, t, wait);
            && Safe(m')
            && (outcome == Done ==> m'.owner == By(t) && Holds(m', t) == Holds(m, t) + 1)
            && (outcome == Suspended ==>
                  && wait && t in m'.waiting && m'.owner == m.owner && m.owner.By?
                  && Priority(p', m.owner.t) == if Priority(p, t) < Priority(p, m.owner.t) then Priority(p, t) else Priority(p, m.owner.t))
            && (outcome == Done && m.owner == Nobody ==> m'.saved == Priority(p, t) && p' == p)
            && (outcome == TimedOut ==> !wait && m' == m && p' == p)
            && (outcome == Done <==> m.owner == Nobody || (m.owner == By(t) && m.hold < HOLD_MAX))
            && (outcome == Full <==> m.owner == By(t) && m.hold == HOLD_MAX)
            && (Urgent(m, p) ==> Urgent(m', p'))
            && forall u: Thread :: By(u) != m.owner ==> Priority(p', u) == Priority(p, u)
  {
    StepSafe(m, p, Step.Take(t, wait));
    QueuedElements(m.waiting, t, false, Boosted(m, p, t));
  }

  lemma ReleaseMeaning(m: Mutex, p: Priorities, t: Thread)
    requires Safe(m) && t !in m.waiting
    ensures var (outcome, m', p') := Released(m, p, t);
            && Safe(m')
            && outcome == (if m.owner == By(t) then Done else Failed)
            && (outcome == Done ==> Holds(m', t) == Holds(m, t) - 1)
            && (outcome == Done && m.hold == 1 ==> Priority(p', t) == m.saved)
            && (outcome == Done && m.hold == 1 && m.waiting == [] ==> m' == FREE)
  {
    StepSafe(m, p, Step.Release(t));
    StepHolds(m, p, Step.Release(t), t);
  }
}
