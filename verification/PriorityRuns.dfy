/**
 * Priority inheritance over runs in which threads may hold several mutexes: exactly which runs keep
 * every owner as urgent as those it blocks, and an order of releasing that brings every thread back
 * to its own priority.
 */
module PriorityRuns {
  import opened WaitList
  import opened Mutex
  import opened PriorityInheritance

  /** A waiting thread does not run. Nothing else is asked of the threads. */
  ghost predicate Runnable(s: Sys, id: Id, step: Step) {
    id in s.mutexes && (!step.Expires? ==> forall i :: !Waits(s, step.t, i))
  }

  ghost predicate AllSafe(s: Sys) {
    forall i :: i in s.mutexes ==> Safe(s.mutexes[i])
  }

  ghost predicate Run(trace: seq<Sys>, ids: seq<Id>, steps: seq<Step>) {
    && |trace| == |steps| + 1 && |ids| == |steps|
    && (forall i :: i in trace[0].mutexes ==> trace[0].mutexes[i] == FREE)
    && forall k :: 0 <= k < |steps| ==>
         Runnable(trace[k], ids[k], steps[k]) && trace[k + 1] == NextSys(trace[k], ids[k], steps[k])
  }

  lemma StepAllSafe(s: Sys, id: Id, step: Step)
    requires AllSafe(s) && Runnable(s, id, step)
    ensures AllSafe(NextSys(s, id, step))
  {
    hide Safe;
    assert !step.Expires? ==> !Waits(s, step.t, id);
    StepSafe(s.mutexes[id], s.prio, step);
  }

  lemma {:induction false} RunAllSafe(trace: seq<Sys>, ids: seq<Id>, steps: seq<Step>, k: nat)
    requires Run(trace, ids, steps) && k < |trace|
    ensures AllSafe(trace[k])
  {
    hide NextSys;
    if k > 0 {
      RunAllSafe(trace, ids, steps, k - 1);
      StepAllSafe(trace[k - 1], ids[k - 1], steps[k - 1]);
    }
  }

  // ---------------------------------------------------------------- exactly when inheritance is lost

  /** The step makes a thread wait for the owner of the mutex. */
  predicate Blocks(m: Mutex, step: Step) {
    step.Take? && step.wait && m.owner.By? && m.owner.t != step.t
  }

  /** The step is the last release of the mutex by its owner. */
  predicate GivesUp(m: Mutex, step: Step) {
    step.Release? && m.owner == By(step.t) && m.hold == 1
  }

  /** What a blocking take or a last release has to find for every owner to stay urgent. */
  ghost predicate Suits(s: Sys, id: Id, step: Step)
    requires id in s.mutexes
  {
    var m := s.mutexes[id];
    if Blocks(m, step) then
      Priority(s.prio, step.t) < Priority(s.prio, m.owner.t) ==>
        forall i :: i in s.mutexes && i != id ==> ChainSuits(s, m.owner.t, Priority(s.prio, step.t), i)
    else GivesUp(m, step) ==>
        && FirstMostUrgent(m.waiting, s.prio)
        && forall i :: i in s.mutexes && i != id ==> SavedSuits(s, m.saved, step.t, i)
  }

  /** No other step makes an owner less urgent than a thread it blocks. */
  lemma OtherStepsKeepUrgent(s: Sys, id: Id, step: Step)
    requires AllSafe(s) && Runnable(s, id, step) && AllUrgent(s)
    requires !Blocks(s.mutexes[id], step) && !GivesUp(s.mutexes[id], step)
    ensures AllUrgent(NextSys(s, id, step))
  {
    var m, s' := s.mutexes[id], NextSys(s, id, step);
    WithoutElements(m.waiting, step.t);
    assert s'.prio == s.prio;
    forall i | i in s'.mutexes ensures Urgent(s'.mutexes[i], s'.prio) {
      assert i != id ==> s'.mutexes[i] == s.mutexes[i];
      assert Urgent(s.mutexes[i], s.prio);
    }
  }

  lemma StepUrgentIff(s: Sys, id: Id, step: Step)
    requires AllSafe(s) && Runnable(s, id, step) && AllUrgent(s)
    ensures AllUrgent(NextSys(s, id, step)) <==> Suits(s, id, step)
  {
    hide NextSys, AllUrgent, ChainSuits, SavedSuits, FirstMostUrgent;
    var m := s.mutexes[id];
    if Blocks(m, step) {
      BlockKeepsUrgentIff(s, id, step.t, m.owner.t);
    } else if GivesUp(m, step) {
      ReleaseKeepsUrgentIff(s, id, step.t);
    } else {
      OtherStepsKeepUrgent(s, id, step);
    }
  }

  lemma {:induction false} RunUrgent(trace: seq<Sys>, ids: seq<Id>, steps: seq<Step>, k: nat)
    requires Run(trace, ids, steps) && k < |trace|
    requires forall i :: 0 <= i < k ==> ids[i] in trace[i].mutexes && Suits(trace[i], ids[i], steps[i])
    ensures AllUrgent(trace[k])
  {
    hide NextSys, Suits;
    if k > 0 {
      var j := k - 1;
      RunUrgent(trace, ids, steps, j);
      RunAllSafe(trace, ids, steps, j);
      StepUrgentIff(trace[j], ids[j], steps[j]);
    }
  }

  /**
   * For any threads, holding any number of mutexes: every owner is as urgent as those it blocks all
   * along a run exactly if each blocking take and each last release in it finds what suits it.
   */
  lemma RunUrgentIff(trace: seq<Sys>, ids: seq<Id>, steps: seq<Step>)
    requires Run(trace, ids, steps)
    ensures (forall k :: 0 <= k < |trace| ==> AllUrgent(trace[k])) <==>
            (forall k :: 0 <= k < |steps| ==> ids[k] in trace[k].mutexes && Suits(trace[k], ids[k], steps[k]))
  {
    hide NextSys, Suits, AllUrgent;
    if forall k :: 0 <= k < |steps| ==> ids[k] in trace[k].mutexes && Suits(trace[k], ids[k], steps[k]) {
      forall k | 0 <= k < |trace| ensures AllUrgent(trace[k]) {
        RunUrgent(trace, ids, steps, k);
      }
    } else if forall k :: 0 <= k < |trace| ==> AllUrgent(trace[k]) {
      forall k | 0 <= k < |steps| ensures ids[k] in trace[k].mutexes && Suits(trace[k], ids[k], steps[k]) {
        RunAllSafe(trace, ids, steps, k);
        assert AllUrgent(trace[k]) && AllUrgent(trace[k + 1]);
        StepUrgentIff(trace[k], ids[k], steps[k]);
      }
    }
  }

  // ---------------------------------------------------------------- coming back to one's own priority

  /** The mutexes each thread holds, in the order in which it got them. */
  type Holdings = map<Thread, seq<Id>>

  function Held(h: Holdings, t: Thread): seq<Id> {
    if t in h then h[t] else []
  }

  function Gains(h: Holdings, t: Thread, id: Id): Holdings {
    h[t := Held(h, t) + [id]]
  }

  function Loses(h: Holdings, t: Thread, id: Id): Holdings {
    h[t := Without(Held(h, t), id)]
  }

  function NextHeld(s: Sys, h: Holdings, id: Id, step: Step): Holdings
    requires id in s.mutexes
  {
    var m := s.mutexes[id];
    if step.Take? && m.owner == Nobody then Gains(h, step.t, id)
    else if GivesUp(m, step) then
      if m.waiting == [] then Loses(h, step.t, id) else Gains(Loses(h, step.t, id), m.waiting[0], id)
    else h
  }

  /** The mutex a thread got first is the one it gives up last. */
  ghost predicate Orderly(s: Sys, h: Holdings, id: Id, step: Step) {
    id in s.mutexes && GivesUp(s.mutexes[id], step) ==>
      Held(h, step.t) != [] && (Held(h, step.t)[0] == id ==> |Held(h, step.t)| == 1)
  }

  /** Mutexes are given up in the reverse order of taking. */
  ghost predicate InReverse(s: Sys, h: Holdings, id: Id, step: Step) {
    id in s.mutexes && GivesUp(s.mutexes[id], step) ==>
      Held(h, step.t) != [] && Held(h, step.t)[|Held(h, step.t)| - 1] == id
  }

  /** A thread without mutexes is at its own priority; otherwise its first mutex has saved that. */
  ghost predicate Returns(s: Sys, h: Holdings, base: Priorities, t: Thread) {
    if Held(h, t) == [] then Priority(s.prio, t) == Priority(base, t)
    else Held(h, t)[0] in s.mutexes && s.mutexes[Held(h, t)[0]].saved == Priority(base, t)
  }

  ghost predicate Tracks(s: Sys, h: Holdings, t: Thread) {
    NoDup(Held(h, t)) && forall id: Id :: id in Held(h, t) <==> Owns(s, t, id)
  }

  ghost predicate NestInv(s: Sys, h: Holdings, base: Priorities) {
    AllSafe(s) && forall t: Thread :: Tracks(s, h, t) && Returns(s, h, base, t)
  }

  lemma ReverseIsOrderly(s: Sys, h: Holdings, base: Priorities, id: Id, step: Step)
    requires NestInv(s, h, base) && InReverse(s, h, id, step)
    ensures Orderly(s, h, id, step)
  {
    if id in s.mutexes && GivesUp(s.mutexes[id], step) {
      assert Tracks(s, h, step.t);
    }
  }

  lemma GainTracks(s: Sys, s': Sys, h: Holdings, t: Thread, id: Id, u: Thread)
    requires Tracks(s, h, u) && (u == t ==> id !in Held(h, u))
    requires forall i: Id :: Owns(s', u, i) <==> Owns(s, u, i) || (u == t && i == id)
    ensures Tracks(s', Gains(h, t, id), u)
  {}

  lemma LoseTracks(s: Sys, s': Sys, h: Holdings, t: Thread, id: Id, u: Thread)
    requires Tracks(s, h, u)
    requires forall i: Id :: Owns(s', u, i) <==> Owns(s, u, i) && !(u == t && i == id)
    ensures Tracks(s', Loses(h, t, id), u)
  {
    WithoutElements(Held(h, u), id);
  }

  /** Who owns what after a step. */
  lemma OwnersAfter(s: Sys, id: Id, step: Step, u: Thread, i: Id)
    requires AllSafe(s) && Runnable(s, id, step)
    ensures var m, s' := s.mutexes[id], NextSys(s, id, step);
            Owns(s', u, i) <==>
            if i == id && step.Take? && m.owner == Nobody then u == step.t
            else if i == id && GivesUp(m, step) then m.waiting != [] && u == m.waiting[0]
            else Owns(s, u, i)
  {}

  lemma StepTracks(s: Sys, h: Holdings, id: Id, step: Step, u: Thread)
    requires AllSafe(s) && Runnable(s, id, step) && forall t: Thread :: Tracks(s, h, t)
    ensures Tracks(NextSys(s, id, step), NextHeld(s, h, id, step), u)
  {
    hide NextSys, Tracks;
    var m, s' := s.mutexes[id], NextSys(s, id, step);
    forall i: Id ensures Owns(s', u, i) <==>
        if i == id && step.Take? && m.owner == Nobody then u == step.t
        else if i == id && GivesUp(m, step) then m.waiting != [] && u == m.waiting[0]
        else Owns(s, u, i)
    {
      OwnersAfter(s, id, step, u, i);
    }
    NotYetHeld(s, h, id, u);
    if step.Take? && m.owner == Nobody {
      GainTracks(s, s', h, step.t, id, u);
    } else if GivesUp(m, step) {
      var mid := s.(mutexes := s.mutexes[id := FREE]);
      LoseTracks(s, mid, h, step.t, id, u);
      if m.waiting == [] {
        SameOwners(mid, s', Loses(h, step.t, id), u);
      } else {
        NotYetHeld(mid, Loses(h, step.t, id), id, u);
        GainTracks(mid, s', Loses(h, step.t, id), m.waiting[0], id, u);
      }
    } else {
      SameOwners(s, s', h, u);
    }
  }

  /** A mutex that a thread does not own is not among those it holds. */
  lemma NotYetHeld(s: Sys, h: Holdings, id: Id, u: Thread)
    requires Tracks(s, h, u)
    ensures !Owns(s, u, id) ==> id !in Held(h, u)
  {}

  lemma SameOwners(s: Sys, s': Sys, h: Holdings, u: Thread)
    requires Tracks(s, h, u) && forall i: Id :: Owns(s', u, i) <==> Owns(s, u, i)
    ensures Tracks(s', h, u)
  {}

  /** A mutex that stays with its owner keeps the priority it saved. */
  lemma SavedAfter(s: Sys, id: Id, step: Step, i: Id)
    requires AllSafe(s) && Runnable(s, id, step) && i in s.mutexes
    ensures var m, s' := s.mutexes[id], NextSys(s, id, step);
            && i in s'.mutexes
            && (i != id || !((step.Take? && m.owner == Nobody) || GivesUp(m, step)) ==> s'.mutexes[i].saved == s.mutexes[i].saved)
  {
    SavedKept(s.mutexes[id], s.prio, step);
  }

  lemma SavedKept(m: Mutex, p: Priorities, step: Step)
    requires Safe(m)
    ensures (step.Take? && m.owner == Nobody) || GivesUp(m, step) || Next(m, p, step).1.saved == m.saved
  {}

  /** The thread that gets a mutex has its priority saved in it. */
  lemma SavedForNewOwner(s: Sys, id: Id, step: Step)
    requires AllSafe(s) && Runnable(s, id, step)
    ensures var m, s' := s.mutexes[id], NextSys(s, id, step);
            && id in s'.mutexes
            && (step.Take? && m.owner == Nobody ==> s'.mutexes[id].saved == Priority(s.prio, step.t))
            && (GivesUp(m, step) && m.waiting != [] ==>
                  m.waiting[0] != step.t && s'.mutexes[id].saved == Priority(s.prio, m.waiting[0]))
            && (GivesUp(m, step) ==> Priority(s'.prio, step.t) == m.saved)
  {
    var m := s.mutexes[id];
    assert Safe(m);
    if m.waiting != [] {
      assert m.waiting[0] in m.waiting;
    }
  }

  /** Nobody's first mutex but the one concerned changes hands, and only its owner's priority changes. */
  lemma StepReturns(s: Sys, h: Holdings, base: Priorities, id: Id, step: Step, u: Thread)
    requires NestInv(s, h, base) && Runnable(s, id, step) && Orderly(s, h, id, step)
    ensures Returns(NextSys(s, id, step), NextHeld(s, h, id, step), base, u)
  {
    hide NextSys;
    var m, s', h' := s.mutexes[id], NextSys(s, id, step), NextHeld(s, h, id, step);
    assert Tracks(s, h, u) && Returns(s, h, base, u);
    SavedForNewOwner(s, id, step);
    PriorityOfOthers(s, id, step, u);
    if Held(h, u) != [] {
      var first := Held(h, u)[0];
      assert first in Held(h, u) && Owns(s, u, first);
      SavedAfter(s, id, step, first);
      if GivesUp(m, step) && u == step.t {
        LosesFirst(h, u, id);
      }
    }
  }

  lemma PriorityOfOthers(s: Sys, id: Id, step: Step, u: Thread)
    requires id in s.mutexes
    ensures !Owns(s, u, id) ==> Priority(NextSys(s, id, step).prio, u) == Priority(s.prio, u)
  {
    if !Owns(s, u, id) {
      OnlyOwnerChanges(s.mutexes[id], s.prio, step, u);
    }
  }

  lemma LosesFirst(h: Holdings, t: Thread, id: Id)
    requires Held(h, t) != []
    ensures Held(h, t)[0] == id ==> Without(Held(h, t), id) == Held(h, t)[1..]
    ensures Held(h, t)[0] != id ==> Without(Held(h, t), id) != [] && Without(Held(h, t), id)[0] == Held(h, t)[0]
  {}

  lemma StepNest(s: Sys, h: Holdings, base: Priorities, id: Id, step: Step)
    requires NestInv(s, h, base) && Runnable(s, id, step) && Orderly(s, h, id, step)
    ensures NestInv(NextSys(s, id, step), NextHeld(s, h, id, step), base)
  {
    hide NextSys, NextHeld, Tracks, Returns;
    StepAllSafe(s, id, step);
    forall u: Thread ensures Tracks(NextSys(s, id, step), NextHeld(s, h, id, step), u)
                          && Returns(NextSys(s, id, step), NextHeld(s, h, id, step), base, u) {
      StepTracks(s, h, id, step, u);
      StepReturns(s, h, base, id, step, u);
    }
  }

  /** A run with a record of who holds what. */
  ghost predicate Recorded(trace: seq<Sys>, held: seq<Holdings>, ids: seq<Id>, steps: seq<Step>, base: Priorities) {
    && Run(trace, ids, steps) && |held| == |trace| && held[0] == map[] && trace[0].prio == base
    && forall k :: 0 <= k < |steps| ==>
         ids[k] in trace[k].mutexes && held[k + 1] == NextHeld(trace[k], held[k], ids[k], steps[k])
  }

  /**
   * With any nesting: if every thread gives up last the mutex it got first, then in every state of
   * the run a thread that owns nothing is at its own priority.
   */
  lemma {:induction false} RunAtBase(trace: seq<Sys>, held: seq<Holdings>, ids: seq<Id>, steps: seq<Step>, base: Priorities, k: nat)
    requires Recorded(trace, held, ids, steps, base) && k < |trace|
    requires forall j :: 0 <= j < k ==> Orderly(trace[j], held[j], ids[j], steps[j])
    ensures NestInv(trace[k], held[k], base) && AtBase(trace[k], base)
  {
    hide NextSys, NextHeld, Orderly;
    if k == 0 {
      assert forall t: Thread, i: Id :: !Owns(trace[0], t, i);
    } else {
      RunAtBase(trace, held, ids, steps, base, k - 1);
      StepNest(trace[k - 1], held[k - 1], base, ids[k - 1], steps[k - 1]);
    }
    NestAtBase(trace[k], held[k], base);
  }

  lemma NestAtBase(s: Sys, h: Holdings, base: Priorities)
    requires NestInv(s, h, base)
    ensures AtBase(s, base)
  {
    forall t: Thread ensures AtBaseOne(s, base, t) {
      assert Tracks(s, h, t) && Returns(s, h, base, t);
      if Held(h, t) != [] {
        assert Held(h, t)[0] in Held(h, t) && Owns(s, t, Held(h, t)[0]);
      }
    }
  }

  /** Threads that release in the reverse order of taking do so, and are at their own priority when they own nothing. */
  lemma {:induction false} ReverseRunAtBase(trace: seq<Sys>, held: seq<Holdings>, ids: seq<Id>, steps: seq<Step>, base: Priorities, k: nat)
    requires Recorded(trace, held, ids, steps, base) && k < |trace|
    requires forall j :: 0 <= j < k ==> InReverse(trace[j], held[j], ids[j], steps[j])
    ensures NestInv(trace[k], held[k], base) && AtBase(trace[k], base)
    ensures forall j :: 0 <= j < k ==> Orderly(trace[j], held[j], ids[j], steps[j])
  {
    hide NextSys, NextHeld, Orderly, InReverse, NestInv, AtBase;
    if k > 0 {
      ReverseRunAtBase(trace, held, ids, steps, base, k - 1);
      ReverseIsOrderly(trace[k - 1], held[k - 1], base, ids[k - 1], steps[k - 1]);
    }
    RunAtBase(trace, held, ids, steps, base, k);
  }

  // ---------------------------------------------------------------- exactly when a foreign priority is kept

  /** A release that leaves its thread without mutexes finds that thread's own priority saved. */
  ghost predicate BaseSuits(s: Sys, id: Id, step: Step, base: Priorities)
    requires id in s.mutexes
  {
    GivesUp(s.mutexes[id], step) && (forall i :: Owns(s, step.t, i) ==> i == id) ==>
      s.mutexes[id].saved == Priority(base, step.t)
  }

  /** Threads other than the one that gives up its last mutex are not affected. */
  lemma OthersAtBase(s: Sys, id: Id, step: Step, base: Priorities, u: Thread)
    requires AllSafe(s) && Runnable(s, id, step) && AtBaseOne(s, base, u)
    requires GivesUp(s.mutexes[id], step) && u == step.t ==> exists i :: Owns(s, u, i) && i != id
    ensures AtBaseOne(NextSys(s, id, step), base, u)
  {
    hide NextSys;
    var m, s' := s.mutexes[id], NextSys(s, id, step);
    PriorityOfOthers(s, id, step, u);
    if GivesUp(m, step) && u == step.t {
      var i :| Owns(s, u, i) && i != id;
      OwnersAfter(s, id, step, u, i);
      assert Owns(s', u, i);
    } else if i :| Owns(s, u, i) {
      OwnersAfter(s, id, step, u, i);
      assert Owns(s', u, i);
    }
  }

  lemma StepBaseIff(s: Sys, id: Id, step: Step, base: Priorities)
    requires AllSafe(s) && Runnable(s, id, step) && AtBase(s, base)
    ensures AtBase(NextSys(s, id, step), base) <==> BaseSuits(s, id, step, base)
  {
    hide NextSys;
    var m, t, s' := s.mutexes[id], step.t, NextSys(s, id, step);
    forall u: Thread | !(GivesUp(m, step) && u == t && forall i :: Owns(s, u, i) ==> i == id) ensures AtBaseOne(s', base, u) {
      assert AtBaseOne(s, base, u);
      OthersAtBase(s, id, step, base, u);
    }
    if GivesUp(m, step) && forall i :: Owns(s, t, i) ==> i == id {
      SavedForNewOwner(s, id, step);
      forall i: Id ensures !Owns(s', t, i) {
        OwnersAfter(s, id, step, t, i);
      }
      assert AtBaseOne(s', base, t) <==> m.saved == Priority(base, t);
    }
  }

  lemma {:induction false} RunBase(trace: seq<Sys>, ids: seq<Id>, steps: seq<Step>, base: Priorities, k: nat)
    requires Run(trace, ids, steps) && k < |trace| && trace[0].prio == base
    requires forall i :: 0 <= i < k ==> ids[i] in trace[i].mutexes && BaseSuits(trace[i], ids[i], steps[i], base)
    ensures AtBase(trace[k], base)
  {
    hide NextSys, BaseSuits;
    if k > 0 {
      var j := k - 1;
      RunBase(trace, ids, steps, base, j);
      RunAllSafe(trace, ids, steps, j);
      StepBaseIff(trace[j], ids[j], steps[j], base);
    }
  }

  /**
   * For any threads, holding any number of mutexes: all along a run every thread that owns nothing
   * is at its own priority exactly if each release that leaves a thread without mutexes finds that
   * thread's own priority saved.
   */
  lemma RunBaseIff(trace: seq<Sys>, ids: seq<Id>, steps: seq<Step>, base: Priorities)
    requires Run(trace, ids, steps) && trace[0].prio == base
    ensures (forall k :: 0 <= k < |trace| ==> AtBase(trace[k], base)) <==>
            (forall k :: 0 <= k < |steps| ==> ids[k] in trace[k].mutexes && BaseSuits(trace[k], ids[k], steps[k], base))
  {
    hide NextSys, BaseSuits, AtBase;
    if forall k :: 0 <= k < |steps| ==> ids[k] in trace[k].mutexes && BaseSuits(trace[k], ids[k], steps[k], base) {
      forall k | 0 <= k < |trace| ensures AtBase(trace[k], base) {
        RunBase(trace, ids, steps, base, k);
      }
    } else if forall k :: 0 <= k < |trace| ==> AtBase(trace[k], base) {
      forall k | 0 <= k < |steps| ensures ids[k] in trace[k].mutexes && BaseSuits(trace[k], ids[k], steps[k], base) {
        RunAllSafe(trace, ids, steps, k);
        assert AtBase(trace[k], base) && AtBase(trace[k + 1], base);
        StepBaseIff(trace[k], ids[k], steps[k], base);
      }
    }
  }
}
