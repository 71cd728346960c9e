/**
 * Priority inheritance over any number of mutexes. The priority an owner had before is saved in
 * the mutex, not in the thread, so inheritance works as long as each thread holds at most one
 * mutex and waits only while it holds none. That is shown here for every run; and for a single
 * step without that discipline, exactly when the owner stays as urgent as those it blocks.
 */
module PriorityInheritance {
  import opened WaitList
  import opened Mutex

  type Id = nat

  /** All mutexes, the current priorities, and when each waiting thread came. */
  datatype Sys = Sys(mutexes: map<Id, Mutex>, prio: Priorities, came: map<Thread, nat>, clock: nat)

  function NextSys(s: Sys, id: Id, step: Step): Sys {
    if id !in s.mutexes then s
    else
      var (outcome, m, p) := Next(s.mutexes[id], s.prio, step);
      if outcome == Suspended then Sys(s.mutexes[id := m], p, s.came[step.t := s.clock], s.clock + 1)
      else Sys(s.mutexes[id := m], p, s.came, s.clock)
  }

  ghost predicate Waits(s: Sys, t: Thread, id: Id) {
    id in s.mutexes && t in s.mutexes[id].waiting
  }

  ghost predicate Owns(s: Sys, t: Thread, id: Id) {
    id in s.mutexes && s.mutexes[id].owner == By(t)
  }

  /** A waiting thread does not run; a thread takes a mutex only while it holds no other. */
  ghost predicate Disciplined(s: Sys, id: Id, step: Step) {
    && id in s.mutexes
    && (!step.Expires? ==> forall i :: !Waits(s, step.t, i))
    && (step.Take? ==> forall i :: Owns(s, step.t, i) ==> i == id)
  }

  // ---------------------------------------------------------------- the invariant

  ghost predicate GoodMutex(m: Mutex, p: Priorities, came: map<Thread, nat>, clock: nat, base: Priorities) {
    && Safe(m)
    && Urgent(m, p)
    && Ordered(m.waiting, p, came)
    && (forall w :: w in m.waiting && w in came ==> came[w] < clock)
    && (m.owner.By? ==> m.saved == Priority(base, m.owner.t))
  }

  /** Each thread owns at most one mutex, waits for at most one, and not both. */
  ghost predicate Exclusive(s: Sys) {
    && (forall t, i, j :: Owns(s, t, i) && Owns(s, t, j) ==> i == j)
    && (forall t, i, j :: Waits(s, t, i) && Waits(s, t, j) ==> i == j)
    && (forall t, i, j :: Waits(s, t, i) ==> !Owns(s, t, j))
  }

  /** A thread that owns no mutex runs at its own priority. */
  ghost predicate AtBase(s: Sys, base: Priorities) {
    forall t: Thread :: AtBaseOne(s, base, t)
  }

  ghost predicate AtBaseOne(s: Sys, base: Priorities, t: Thread) {
    Priority(s.prio, t) == Priority(base, t) || exists i :: Owns(s, t, i)
  }

  ghost predicate Inv(s: Sys, base: Priorities) {
    && (forall i :: i in s.mutexes ==> GoodMutex(s.mutexes[i], s.prio, s.came, s.clock, base))
    && Exclusive(s)
    && AtBase(s, base)
  }

  // ---------------------------------------------------------------- one mutex

  /** Changes to threads that have nothing to do with a mutex do not matter to it. */
  lemma MutexFrame(m: Mutex, p: Priorities, p': Priorities, came: map<Thread, nat>, came': map<Thread, nat>,
                   clock: nat, clock': nat, base: Priorities)
    requires GoodMutex(m, p, came, clock, base) && clock <= clock'
    requires m.owner.By? ==> Priority(p', m.owner.t) == Priority(p, m.owner.t)
    requires forall w :: w in m.waiting ==> Priority(p', w) == Priority(p, w) && w in came' && w in came && came'[w] == came[w]
    ensures GoodMutex(m, p', came', clock', base)
  {
    forall i, j | 0 <= i < j < |m.waiting|
      ensures m.waiting[i] in came' && m.waiting[j] in came' && Precedes(m.waiting[i], m.waiting[j], p', came')
    {
      assert m.waiting[i] in m.waiting && m.waiting[j] in m.waiting;
      assert Precedes(m.waiting[i], m.waiting[j], p, came);
    }
  }

  lemma BlockGood(m: Mutex, p: Priorities, came: map<Thread, nat>, clock: nat, base: Priorities, t: Thread)
    requires GoodMutex(m, p, came, clock, base) && m.owner.By? && m.owner != By(t) && t !in m.waiting
    ensures var p' := Boosted(m, p, t);
            GoodMutex(m.(waiting := Queued(m.waiting, t, false, p')), p', came[t := clock], clock + 1, base)
  {
    var p', came' := Boosted(m, p, t), came[t := clock];
    assert Ordered(m.waiting, p', came') by {
      OrderedFrame(m.waiting, p, p', came, came');
    }
    forall u | u in m.waiting ensures u in came' && came'[u] < clock {
      WaiterCame(m, p, came, u);
    }
    QueuedOrdered(m.waiting, t, p', came');
    QueuedElements(m.waiting, t, false, p');
    QueuedNoDup(m.waiting, t, false, p');
  }

  lemma WaiterCame(m: Mutex, p: Priorities, came: map<Thread, nat>, u: Thread)
    requires Ordered(m.waiting, p, came) && u in m.waiting
    ensures u in came
  {}

  lemma OrderedFrame(list: seq<Thread>, p: Priorities, p': Priorities, came: map<Thread, nat>, came': map<Thread, nat>)
    requires Ordered(list, p, came)
    requires forall w :: w in list && w in came ==> Priority(p', w) == Priority(p, w) && w in came' && came'[w] == came[w]
    ensures Ordered(list, p', came')
  {
    forall i | 0 <= i < |list| ensures list[i] in came' {
      assert list[i] in list;
    }
    forall i, j | 0 <= i < j < |list| ensures Precedes(list[i], list[j], p', came') {
      assert list[i] in list && list[j] in list;
      assert Precedes(list[i], list[j], p, came);
    }
  }

  /** The first waiting thread is the most urgent one, so it can become the owner as it is. */
  lemma HandOverGood(m: Mutex, p: Priorities, came: map<Thread, nat>, clock: nat, base: Priorities)
    requires Safe(m) && m.owner.By? && m.waiting != [] && Priority(p, m.waiting[0]) == Priority(base, m.waiting[0])
    requires Ordered(m.waiting, p, came) && forall w :: w in m.waiting && w in came ==> came[w] < clock
    ensures var h := m.waiting[0];
            GoodMutex(m.(hold := 1, owner := By(h), saved := Priority(p, h), waiting := m.waiting[1..]), p, came, clock, base)
  {
    var h, rest := m.waiting[0], m.waiting[1..];
    forall w | w in rest ensures w in m.waiting && w != h && w in came && Priority(p, h) <= Priority(p, w) {
      assert exists j :: 0 < j < |m.waiting| && m.waiting[j] == w;
    }
  }

  lemma ExpireGood(m: Mutex, p: Priorities, came: map<Thread, nat>, clock: nat, base: Priorities, t: Thread)
    requires GoodMutex(m, p, came, clock, base)
    ensures GoodMutex(Expired(m, t), p, came, clock, base)
  {
    WithoutElements(m.waiting, t);
    WithoutOrdered(m.waiting, t, p, came);
  }

  /** A step changes the priority of nobody but the owner of the mutex. */
  lemma OnlyOwnerChanges(m: Mutex, p: Priorities, step: Step, u: Thread)
    requires m.owner != By(u)
    ensures Priority(Next(m, p, step).2, u) == Priority(p, u)
  {}

  /** The mutex of a step stays good, if the taker and the first waiting thread run at their own priorities. */
  lemma StepGood(m: Mutex, p: Priorities, came: map<Thread, nat>, clock: nat, base: Priorities, step: Step)
    requires GoodMutex(m, p, came, clock, base) && Enabled(m, step)
    requires step.Take? && m.owner != By(step.t) ==> Priority(p, step.t) == Priority(base, step.t)
    requires m.waiting != [] ==> Priority(p, m.waiting[0]) == Priority(base, m.waiting[0])
    ensures var (outcome, m', p') := Next(m, p, step);
            if outcome == Suspended then GoodMutex(m', p', came[step.t := clock], clock + 1, base)
            else GoodMutex(m', p', came, clock, base)
  {
    match step {
      case Take(t, wait) =>
        if m.owner.By? && m.owner != By(t) && wait {
          BlockGood(m, p, came, clock, base, t);
        }
      case Release(t) =>
        if m.owner == By(t) && m.hold == 1 && m.waiting != [] {
          var p' := Restored(m, p, t);
          OrderedFrame(m.waiting, p, p', came, came);
          assert m.waiting[0] in m.waiting;
          HandOverGood(m, p', came, clock, base);
        }
      case Expires(t) => ExpireGood(m, p, came, clock, base, t);
    }
  }

  // ---------------------------------------------------------------- all mutexes

  /** The other mutexes do not notice. */
  lemma OthersGood(s: Sys, id: Id, step: Step, base: Priorities, i: Id)
    requires Inv(s, base) && Disciplined(s, id, step) && i in s.mutexes && i != id
    ensures var s' := NextSys(s, id, step); GoodMutex(s'.mutexes[i], s'.prio, s'.came, s'.clock, base)
  {
    var s', m, n := NextSys(s, id, step), s.mutexes[id], s.mutexes[i];
    if n.owner.By? {
      assert Owns(s, n.owner.t, i) && !Owns(s, n.owner.t, id);
      OnlyOwnerChanges(m, s.prio, step, n.owner.t);
    }
    forall w | w in n.waiting
      ensures Priority(s'.prio, w) == Priority(s.prio, w) && w in s.came && w in s'.came && s'.came[w] == s.came[w]
    {
      assert Waits(s, w, i) && !Owns(s, w, id);
      OnlyOwnerChanges(m, s.prio, step, w);
      WaiterCame(n, s.prio, s.came, w);
    }
    MutexFrame(n, s.prio, s'.prio, s.came, s'.came, s.clock, s'.clock, base);
  }

  lemma BasePriority(s: Sys, base: Priorities, t: Thread)
    requires Inv(s, base) && forall i :: !Owns(s, t, i)
    ensures Priority(s.prio, t) == Priority(base, t)
  {
    assert AtBaseOne(s, base, t);
  }

  lemma OwnGood(s: Sys, id: Id, step: Step, base: Priorities)
    requires Inv(s, base) && Disciplined(s, id, step)
    ensures var s' := NextSys(s, id, step); GoodMutex(s'.mutexes[id], s'.prio, s'.came, s'.clock, base)
  {
    var m := s.mutexes[id];
    if step.Take? && m.owner != By(step.t) {
      assert forall i :: Owns(s, step.t, i) ==> i == id && Owns(s, step.t, id);
      BasePriority(s, base, step.t);
    }
    if m.waiting != [] {
      assert Waits(s, m.waiting[0], id);
      BasePriority(s, base, m.waiting[0]);
    }
    assert !step.Expires? ==> !Waits(s, step.t, id);
    StepGood(m, s.prio, s.came, s.clock, base, step);
  }

  /** Who owns and who waits after a step. */
  lemma RolesAfter(m: Mutex, p: Priorities, step: Step)
    requires Safe(m) && Enabled(m, step)
    ensures var m' := Next(m, p, step).1;
            && (m'.owner == m.owner || m'.owner == Nobody || (step.Take? && m'.owner == By(step.t) && m.owner == Nobody)
                || (step.Release? && m.waiting != [] && m'.owner == By(m.waiting[0]) && m.owner == By(step.t)))
            && (forall u :: u in m'.waiting ==> u in m.waiting || (step.Take? && u == step.t && m.owner.By? && m.owner.t != step.t))
            && (m'.owner.By? ==> m'.owner.t !in m'.waiting)
  {
    StepSafe(m, p, step);
    match step {
      case Take(t, wait) => QueuedElements(m.waiting, t, false, Boosted(m, p, t));
      case Release(t) => assert forall u :: u in m.waiting[if m.waiting == [] then 0 else 1..] ==> u in m.waiting;
      case Expires(t) => WithoutElements(m.waiting, t);
    }
  }

  /** Whoever owns a mutex after a step owned it before, or had nothing and was not waiting elsewhere. */
  lemma OwnsAfter(s: Sys, id: Id, step: Step, base: Priorities, u: Thread, i: Id)
    requires Inv(s, base) && Disciplined(s, id, step) && Owns(NextSys(s, id, step), u, i)
    ensures Owns(s, u, i) || (i == id && (forall j :: !Owns(s, u, j)) && forall j :: Waits(s, u, j) ==> j == id)
    ensures !Waits(NextSys(s, id, step), u, id) || i != id
  {
    var m := s.mutexes[id];
    assert !step.Expires? ==> !Waits(s, step.t, id);
    RolesAfter(m, s.prio, step);
    if i == id && !Owns(s, u, id) {
      if step.Take? {
        assert forall j :: Owns(s, u, j) ==> j == id;
      } else {
        assert Waits(s, u, id);
      }
    }
  }

  lemma WaitsAfter(s: Sys, id: Id, step: Step, base: Priorities, u: Thread, i: Id)
    requires Inv(s, base) && Disciplined(s, id, step) && Waits(NextSys(s, id, step), u, i)
    ensures Waits(s, u, i) || (i == id && (forall j :: !Waits(s, u, j)) && forall j :: !Owns(s, u, j))
  {
    var m := s.mutexes[id];
    assert !step.Expires? ==> !Waits(s, step.t, id);
    RolesAfter(m, s.prio, step);
    if i == id && !Waits(s, u, id) {
      assert step.Take? && u == step.t;
      assert forall j :: Owns(s, u, j) ==> j == id;
    }
  }

  lemma StepExclusive(s: Sys, id: Id, step: Step, base: Priorities)
    requires Inv(s, base) && Disciplined(s, id, step)
    ensures Exclusive(NextSys(s, id, step))
  {
    var s' := NextSys(s, id, step);
    forall t, i, j | Owns(s', t, i) && Owns(s', t, j) ensures i == j {
      OwnsAfter(s, id, step, base, t, i);
      OwnsAfter(s, id, step, base, t, j);
    }
    forall t, i, j | Waits(s', t, i) && Waits(s', t, j) ensures i == j {
      WaitsAfter(s, id, step, base, t, i);
      WaitsAfter(s, id, step, base, t, j);
    }
    forall t, i, j | Waits(s', t, i) ensures !Owns(s', t, j) {
      if Owns(s', t, j) {
        WaitsAfter(s, id, step, base, t, i);
        OwnsAfter(s, id, step, base, t, j);
      }
    }
  }

  /** An owner that no longer owns its mutex after a step has got back what the mutex saved. */
  lemma GivenUp(m: Mutex, p: Priorities, step: Step, t: Thread)
    requires Safe(m) && m.owner == By(t) && Next(m, p, step).1.owner != By(t)
    ensures Priority(Next(m, p, step).2, t) == m.saved
  {}

  /** A thread that gives up its mutex is back at its own priority. */
  lemma StepAtBase(s: Sys, id: Id, step: Step, base: Priorities, t: Thread)
    requires Inv(s, base) && Disciplined(s, id, step)
    ensures AtBaseOne(NextSys(s, id, step), base, t)
  {
    hide Next, Safe, Ordered, Urgent;
    var s', m := NextSys(s, id, step), s.mutexes[id];
    assert GoodMutex(m, s.prio, s.came, s.clock, base) && AtBaseOne(s, base, t);
    if Owns(s, t, id) {
      if s'.mutexes[id].owner == By(t) {
        assert Owns(s', t, id);
      } else {
        GivenUp(m, s.prio, step, t);
      }
    } else {
      OnlyOwnerChanges(m, s.prio, step, t);
      if i :| Owns(s, t, i) {
        assert Owns(s', t, i);
      }
    }
  }

  lemma StepInv(s: Sys, id: Id, step: Step, base: Priorities)
    requires Inv(s, base) && Disciplined(s, id, step)
    ensures Inv(NextSys(s, id, step), base)
  {
    var s' := NextSys(s, id, step);
    forall i | i in s'.mutexes ensures GoodMutex(s'.mutexes[i], s'.prio, s'.came, s'.clock, base) {
      if i == id {
        OwnGood(s, id, step, base);
      } else {
        OthersGood(s, id, step, base, i);
      }
    }
    StepExclusive(s, id, step, base);
    forall t: Thread ensures AtBaseOne(s', base, t) {
      StepAtBase(s, id, step, base, t);
    }
  }

  ghost predicate Run(trace: seq<Sys>, ids: seq<Id>, steps: seq<Step>, base: Priorities) {
    && |trace| == |steps| + 1 && |ids| == |steps|
    && trace[0].prio == base && (forall i :: i in trace[0].mutexes ==> trace[0].mutexes[i] == FREE)
    && forall k :: 0 <= k < |steps| ==>
         Disciplined(trace[k], ids[k], steps[k]) && trace[k + 1] == NextSys(trace[k], ids[k], steps[k])
  }

  /**
   * In every disciplined run, over any number of mutexes: every owner is at least as urgent as each
   * thread it blocks, waiting threads are ordered by priority and then by arrival, and a thread that
   * owns nothing runs at its own priority.
   */
  lemma {:induction false} RunInv(trace: seq<Sys>, ids: seq<Id>, steps: seq<Step>, base: Priorities, k: nat)
    requires Run(trace, ids, steps, base) && k < |trace|
    ensures Inv(trace[k], base)
  {
    if k > 0 {
      RunInv(trace, ids, steps, base, k - 1);
      StepInv(trace[k - 1], ids[k - 1], steps[k - 1], base);
    }
  }

  // ---------------------------------------------------------------- without the discipline

  /** Every owner is at least as urgent as each thread it blocks. */
  ghost predicate AllUrgent(s: Sys) {
    forall i :: i in s.mutexes ==> Urgent(s.mutexes[i], s.prio)
  }

  /** The last release of a mutex by a running thread, whatever else that thread holds. */
  ghost predicate LastRelease(s: Sys, id: Id, t: Thread) {
    && id in s.mutexes && Safe(s.mutexes[id]) && s.mutexes[id].owner == By(t) && s.mutexes[id].hold == 1
    && forall i :: !Waits(s, t, i)
  }

  /** The saved priority suits another mutex of the same thread. */
  ghost predicate SavedSuits(s: Sys, saved: nat, t: Thread, i: Id) {
    Owns(s, t, i) ==> forall w :: Waits(s, w, i) ==> saved <= Priority(s.prio, w)
  }

  ghost predicate FirstMostUrgent(waiting: seq<Thread>, p: Priorities) {
    forall k :: 0 < k < |waiting| ==> Priority(p, waiting[0]) <= Priority(p, waiting[k])
  }

  lemma PriorityAfterRelease(s: Sys, id: Id, t: Thread, u: Thread)
    requires LastRelease(s, id, t)
    ensures Priority(NextSys(s, id, Release(t)).prio, u) == if u == t then s.mutexes[id].saved else Priority(s.prio, u)
  {}

  /** A last release brings a thread back to its own priority exactly if that is what the mutex saved. */
  lemma ReleaseRestoresBaseIff(s: Sys, id: Id, t: Thread, base: Priorities)
    requires LastRelease(s, id, t)
    ensures Priority(NextSys(s, id, Release(t)).prio, t) == Priority(base, t) <==> s.mutexes[id].saved == Priority(base, t)
  {
    PriorityAfterRelease(s, id, t, t);
  }

  lemma ReleaseOther(s: Sys, id: Id, t: Thread, i: Id)
    requires LastRelease(s, id, t) && AllUrgent(s) && i in s.mutexes && i != id
    ensures var s' := NextSys(s, id, Release(t));
            Urgent(s'.mutexes[i], s'.prio) <==> SavedSuits(s, s.mutexes[id].saved, t, i)
  {
    var s', n := NextSys(s, id, Release(t)), s.mutexes[i];
    forall w: Thread ensures w in n.waiting ==> w != t && Priority(s'.prio, w) == Priority(s.prio, w) && Waits(s, w, i) {
      assert !Waits(s, t, i);
      PriorityAfterRelease(s, id, t, w);
    }
    if n.owner.By? {
      PriorityAfterRelease(s, id, t, n.owner.t);
    }
  }

  lemma ReleaseOwn(s: Sys, id: Id, t: Thread)
    requires LastRelease(s, id, t) && AllUrgent(s)
    ensures var s' := NextSys(s, id, Release(t));
            Urgent(s'.mutexes[id], s'.prio) <==> FirstMostUrgent(s.mutexes[id].waiting, s.prio)
  {
    var s', waiting := NextSys(s, id, Release(t)), s.mutexes[id].waiting;
    forall w: Thread ensures w in waiting ==> Priority(s'.prio, w) == Priority(s.prio, w) {
      assert !Waits(s, t, id);
      PriorityAfterRelease(s, id, t, w);
    }
    if waiting != [] {
      assert waiting[0] in waiting;
      assert forall k :: 0 < k < |waiting| ==> waiting[k] == waiting[1..][k - 1] && waiting[k] in waiting;
    }
  }

  /**
   * A last release keeps every owner urgent exactly if the priority saved in the mutex suits all
   * other mutexes of the thread, and the first waiting thread is the most urgent one.
   */
  lemma ReleaseKeepsUrgentIff(s: Sys, id: Id, t: Thread)
    requires LastRelease(s, id, t) && AllUrgent(s)
    ensures AllUrgent(NextSys(s, id, Release(t))) <==>
            && FirstMostUrgent(s.mutexes[id].waiting, s.prio)
            && forall i :: i in s.mutexes && i != id ==> SavedSuits(s, s.mutexes[id].saved, t, i)
  {
    var s' := NextSys(s, id, Release(t));
    ReleaseOwn(s, id, t);
    forall i | i in s.mutexes && i != id
      ensures Urgent(s'.mutexes[i], s'.prio) <==> SavedSuits(s, s.mutexes[id].saved, t, i)
    {
      ReleaseOther(s, id, t, i);
    }
    assert s'.mutexes.Keys == s.mutexes.Keys;
    assert AllUrgent(s') <==> Urgent(s'.mutexes[id], s'.prio) && forall i :: i in s.mutexes && i != id ==> Urgent(s'.mutexes[i], s'.prio);
  }

  /** A running thread starts to wait for a mutex of another, whatever the two hold or wait for. */
  ghost predicate StartsToWait(s: Sys, id: Id, t: Thread, o: Thread) {
    && id in s.mutexes && (forall i :: i in s.mutexes ==> Safe(s.mutexes[i])) && s.mutexes[id].owner == By(o) && o != t
    && forall i :: !Waits(s, t, i)
  }

  /** If o waits itself, the owner it waits for is at least as urgent as n. */
  ghost predicate ChainSuits(s: Sys, o: Thread, n: nat, i: Id) {
    Waits(s, o, i) && s.mutexes[i].owner.By? ==> Priority(s.prio, s.mutexes[i].owner.t) <= n
  }

  lemma PriorityAfterBlock(s: Sys, id: Id, t: Thread, o: Thread, u: Thread)
    requires StartsToWait(s, id, t, o)
    ensures Priority(NextSys(s, id, Take(t, true)).prio, u) ==
            if u == o && Priority(s.prio, t) < Priority(s.prio, o) then Priority(s.prio, t) else Priority(s.prio, u)
  {}

  lemma BlockOther(s: Sys, id: Id, t: Thread, o: Thread, i: Id)
    requires StartsToWait(s, id, t, o) && AllUrgent(s) && i in s.mutexes && i != id
    ensures var s' := NextSys(s, id, Take(t, true));
            Urgent(s'.mutexes[i], s'.prio) <==>
            (Priority(s.prio, t) < Priority(s.prio, o) ==> ChainSuits(s, o, Priority(s.prio, t), i))
  {
    var s', n := NextSys(s, id, Take(t, true)), s.mutexes[i];
    if n.owner.By? {
      PriorityAfterBlock(s, id, t, o, n.owner.t);
      forall w: Thread ensures w != o ==> Priority(s'.prio, w) == Priority(s.prio, w) {
        PriorityAfterBlock(s, id, t, o, w);
      }
      PriorityAfterBlock(s, id, t, o, o);
    }
  }

  lemma BlockOwn(s: Sys, id: Id, t: Thread, o: Thread)
    requires StartsToWait(s, id, t, o) && AllUrgent(s)
    ensures var s' := NextSys(s, id, Take(t, true)); Urgent(s'.mutexes[id], s'.prio)
  {
    var s', m := NextSys(s, id, Take(t, true)), s.mutexes[id];
    QueuedElements(m.waiting, t, false, s'.prio);
    forall w: Thread ensures w != o ==> Priority(s'.prio, w) == Priority(s.prio, w) {
      PriorityAfterBlock(s, id, t, o, w);
    }
    PriorityAfterBlock(s, id, t, o, o);
  }

  /**
   * Inheritance is not passed on: when a thread starts to wait, every owner stays urgent exactly if
   * the owner need not be boosted, or waits for nobody less urgent than the newcomer.
   */
  lemma BlockKeepsUrgentIff(s: Sys, id: Id, t: Thread, o: Thread)
    requires StartsToWait(s, id, t, o) && AllUrgent(s)
    ensures AllUrgent(NextSys(s, id, Take(t, true))) <==>
            (Priority(s.prio, t) < Priority(s.prio, o) ==>
               forall i :: i in s.mutexes && i != id ==> ChainSuits(s, o, Priority(s.prio, t), i))
  {
    var s' := NextSys(s, id, Take(t, true));
    BlockOwn(s, id, t, o);
    forall i | i in s.mutexes && i != id
      ensures Urgent(s'.mutexes[i], s'.prio) <==>
              (Priority(s.prio, t) < Priority(s.prio, o) ==> ChainSuits(s, o, Priority(s.prio, t), i))
    {
      BlockOther(s, id, t, o, i);
    }
    assert s'.mutexes.Keys == s.mutexes.Keys;
    assert AllUrgent(s') <==> forall i :: i in s.mutexes && i != id ==> Urgent(s'.mutexes[i], s'.prio);
  }

  // ---------------------------------------------------------------- two runs that go wrong

  lemma TakeFree(s: Sys, id: Id, t: Thread)
    requires id in s.mutexes && s.mutexes[id] == FREE
    ensures NextSys(s, id, Take(t, true)) == s.(mutexes := s.mutexes[id := Mutex(0, 1, By(t), Priority(s.prio, t), [])])
  {}

  /** A more urgent thread is the first to wait for a mutex. */
  lemma FirstToWait(s: Sys, id: Id, o: Thread, saved: nat, t: Thread)
    requires id in s.mutexes && s.mutexes[id] == Mutex(0, 1, By(o), saved, []) && t != o
    requires Priority(s.prio, t) < Priority(s.prio, o)
    ensures NextSys(s, id, Take(t, true)) ==
            Sys(s.mutexes[id := Mutex(0, 1, By(o), saved, [t])], s.prio[o := Priority(s.prio, t)], s.came[t := s.clock], s.clock + 1)
  {
    var none: seq<Thread> := [];
    assert none[..0] + [t] + none[0..] == [t];
  }

  lemma GiveUp(s: Sys, id: Id, t: Thread, saved: nat)
    requires id in s.mutexes && s.mutexes[id] == Mutex(0, 1, By(t), saved, []) && Priority(s.prio, t) != saved
    ensures NextSys(s, id, Release(t)) == s.(mutexes := s.mutexes[id := FREE], prio := s.prio[t := saved])
  {}

  lemma HandTo(s: Sys, id: Id, t: Thread, saved: nat, u: Thread)
    requires id in s.mutexes && s.mutexes[id] == Mutex(0, 1, By(t), saved, [u]) && Priority(s.prio, t) != saved && u != t
    ensures NextSys(s, id, Release(t)) ==
            s.(mutexes := s.mutexes[id := Mutex(0, 1, By(u), Priority(s.prio, u), [])], prio := s.prio[t := saved])
  {
    assert [u][1..] == [];
  }

  /** Two free mutexes, thread 0 at priority 10 and thread 1 at priority 5. */
  const START := Sys(map[0 := FREE, 1 := FREE], map[0 := 10, 1 := 5], map[], 0)

  /**
   * Thread 0 takes both mutexes and thread 1 waits for mutex 0. Releasing mutex 1 takes the
   * inherited priority away while thread 1 is still blocked.
   */
  lemma InnerReleaseLosesInheritance()
    ensures var a := NextSys(START, 0, Take(0, true));
            var b := NextSys(a, 1, Take(0, true));
            var c := NextSys(b, 0, Take(1, true));
            AllUrgent(c) && !AllUrgent(NextSys(c, 1, Release(0)))
  {
    hide NextSys;
    var a := NextSys(START, 0, Take(0, true));
    var b := NextSys(a, 1, Take(0, true));
    var c := NextSys(b, 0, Take(1, true));
    var d := NextSys(c, 1, Release(0));
    TakeFree(START, 0, 0);
    TakeFree(a, 1, 0);
    FirstToWait(b, 0, 0, 10, 1);
    GiveUp(c, 1, 0, 10);
    assert d.mutexes[0] == Mutex(0, 1, By(0), 10, [1]) && 1 in d.mutexes[0].waiting && Priority(d.prio, 0) == 10;
    assert !Urgent(d.mutexes[0], d.prio);
  }

  /**
   * Thread 0 takes mutex 0, thread 1 waits for it, then thread 0 takes mutex 1. Releasing them in
   * the order in which they were taken leaves thread 0 with nothing, at a priority that is not its own.
   */
  lemma OuterReleaseKeepsBoost()
    ensures var a := NextSys(START, 0, Take(0, true));
            var b := NextSys(a, 0, Take(1, true));
            var c := NextSys(b, 1, Take(0, true));
            var e := NextSys(NextSys(c, 0, Release(0)), 1, Release(0));
            (forall i :: !Owns(e, 0, i)) && Priority(e.prio, 0) == 5 != Priority(START.prio, 0)
  {
    hide NextSys;
    var a := NextSys(START, 0, Take(0, true));
    var b := NextSys(a, 0, Take(1, true));
    var c := NextSys(b, 1, Take(0, true));
    var d := NextSys(c, 0, Release(0));
    TakeFree(START, 0, 0);
    FirstToWait(a, 0, 0, 10, 1);
    TakeFree(b, 1, 0);
    HandTo(c, 0, 0, 10, 1);
    GiveUp(d, 1, 0, 5);
  }
}
