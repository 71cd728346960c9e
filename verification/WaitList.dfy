/**
 * Wait lists: the order in which threads are suspended on a kernel object, and what the object
 * owes to threads that it has woken but that have not yet looked at its condition again.
 */
module WaitList {

  type Thread = nat

  /** Current priorities; a smaller number is more urgent. */
  type Priorities = map<Thread, nat>

  function Priority(p: Priorities, t: Thread): nat {
    if t in p then p[t] else 0
  }

  ghost predicate NoDup(s: seq<Thread>) {
    forall i, j :: 0 <= i < j < |s| ==> s[i] != s[j]
  }

  // ---------------------------------------------------------------- the order of a wait list

  /** Where a thread of priority n goes: before the first less urgent thread. */
  function Place(list: seq<Thread>, n: nat, p: Priorities): (k: nat)
    ensures k <= |list|
  {
    if list == [] || n < Priority(p, list[0]) then 0 else 1 + Place(list[1..], n, p)
  }

  function Queued(list: seq<Thread>, t: Thread, fifo: bool, p: Priorities): (r: seq<Thread>)
    ensures |r| == |list| + 1
  {
    var k := if fifo then |list| else Place(list, Priority(p, t), p);
    list[..k] + [t] + list[k..]
  }

  /** _ipc_list_suspend. */
  method ListSuspend(list: seq<Thread>, t: Thread, fifo: bool, p: Priorities) returns (r: seq<Thread>)
    ensures r == Queued(list, t, fifo, p)
    ensures fifo ==> r == list + [t]
  {
    if fifo {
      r := list + [t];
    } else {
      var n := 0;
      while n < |list| && !(Priority(p, t) < Priority(p, list[n]))
        invariant n <= |list|
        invariant Place(list, Priority(p, t), p) == n + Place(list[n..], Priority(p, t), p)
      {
        assert list[n..][1..] == list[n + 1..];
        n := n + 1;
      }
      r := list[..n] + [t] + list[n..];
    }
  }

  lemma {:induction false} PlaceIsFirst(list: seq<Thread>, n: nat, p: Priorities)
    ensures forall i :: 0 <= i < Place(list, n, p) ==> Priority(p, list[i]) <= n
    ensures Place(list, n, p) < |list| ==> n < Priority(p, list[Place(list, n, p)])
  {
    if list != [] && n >= Priority(p, list[0]) {
      PlaceIsFirst(list[1..], n, p);
      forall i | 0 <= i < Place(list, n, p) ensures Priority(p, list[i]) <= n {
        assert i > 0 ==> list[i] == list[1..][i - 1];
      }
    }
  }

  /** Most urgent first, and among equals the one that came first. */
  ghost predicate Ordered(list: seq<Thread>, p: Priorities, came: map<Thread, nat>) {
    && (forall i :: 0 <= i < |list| ==> list[i] in came)
    && forall i, j :: 0 <= i < j < |list| ==> Precedes(list[i], list[j], p, came)
  }

  ghost predicate Precedes(t: Thread, u: Thread, p: Priorities, came: map<Thread, nat>)
    requires t in came && u in came
  {
    Priority(p, t) < Priority(p, u) || (Priority(p, t) == Priority(p, u) && came[t] < came[u])
  }

  /** A thread that comes last is put where priority and order of arrival want it. */
  lemma QueuedOrdered(list: seq<Thread>, t: Thread, p: Priorities, came: map<Thread, nat>)
    requires Ordered(list, p, came) && t in came && forall u :: u in list ==> came[u] < came[t]
    ensures Ordered(Queued(list, t, false, p), p, came)
  {
    var r, k := Queued(list, t, false, p), Place(list, Priority(p, t), p);
    PlaceIsFirst(list, Priority(p, t), p);
    forall i | 0 <= i < |r| ensures r[i] in came {
      assert r[i] == t || r[i] in list;
    }
    forall i, j | 0 <= i < j < |r| ensures Precedes(r[i], r[j], p, came) {
      PairOrdered(list, t, p, came, k, i, j);
    }
  }

  lemma PairOrdered(list: seq<Thread>, t: Thread, p: Priorities, came: map<Thread, nat>, k: nat, i: nat, j: nat)
    requires Ordered(list, p, came) && t in came && (forall u :: u in list ==> came[u] < came[t])
    requires k <= |list| && (forall h :: 0 <= h < k ==> Priority(p, list[h]) <= Priority(p, t))
    requires k < |list| ==> Priority(p, t) < Priority(p, list[k])
    requires i < j <= |list|
    ensures var r := list[..k] + [t] + list[k..]; r[i] in came && r[j] in came && Precedes(r[i], r[j], p, came)
  {
    var i', j' := if i < k then i else i - 1, if j < k then j else j - 1;
    if j == k {
      assert list[i] in list;
    } else if i == k {
      assert j' == k || Precedes(list[k], list[j'], p, came);
    } else {
      assert Precedes(list[i'], list[j'], p, came);
    }
  }

  lemma QueuedElements(list: seq<Thread>, t: Thread, fifo: bool, p: Priorities)
    ensures forall u :: u in Queued(list, t, fifo, p) <==> u == t || u in list
  {
    var k := if fifo then |list| else Place(list, Priority(p, t), p);
    assert list == list[..k] + list[k..];
  }

  /**
   * In order of arrival a thread goes behind all others. In either order the others stay in theirs:
   * a thread that comes and leaves again leaves the list as it was.
   */
  lemma QueuedKeeps(list: seq<Thread>, t: Thread, fifo: bool, p: Priorities)
    requires t !in list
    ensures fifo ==> Queued(list, t, fifo, p) == list + [t]
    ensures Without(Queued(list, t, fifo, p), t) == list
  {
    var k := if fifo then |list| else Place(list, Priority(p, t), p);
    WithoutAt(list[..k], t, list[k..]);
    assert list == list[..k] + list[k..];
  }

  lemma {:induction false} WithoutAt(before: seq<Thread>, t: Thread, behind: seq<Thread>)
    requires t !in before
    ensures Without(before + [t] + behind, t) == before + behind
  {
    if before == [] {
      assert ([t] + behind)[1..] == behind && before + behind == behind && before + [t] + behind == [t] + behind;
    } else {
      WithoutAt(before[1..], t, behind);
      assert (before + [t] + behind)[1..] == before[1..] + [t] + behind;
      assert before + behind == [before[0]] + (before[1..] + behind);
    }
  }

  lemma QueuedNoDup(list: seq<Thread>, t: Thread, fifo: bool, p: Priorities)
    requires NoDup(list) && t !in list
    ensures NoDup(Queued(list, t, fifo, p))
  {}

  /** A thread whose timer runs out leaves the list. */
  function Without(list: seq<Thread>, t: Thread): (r: seq<Thread>)
    ensures |r| <= |list|
  {
    if list == [] then [] else if list[0] == t then list[1..] else [list[0]] + Without(list[1..], t)
  }

  lemma {:induction false} WithoutElements(list: seq<Thread>, t: Thread)
    requires NoDup(list)
    ensures forall u :: u in Without(list, t) <==> u in list && u != t
    ensures NoDup(Without(list, t))
  {
    if list != [] {
      var rest := list[1..];
      assert list == [list[0]] + rest;
      if list[0] != t {
        WithoutElements(rest, t);
        assert list[0] !in rest;
      }
    }
  }

  lemma {:induction false} WithoutOrdered(list: seq<Thread>, t: Thread, p: Priorities, came: map<Thread, nat>)
    requires NoDup(list) && Ordered(list, p, came)
    ensures Ordered(Without(list, t), p, came)
  {
    if list != [] && list[0] != t {
      var rest := list[1..];
      WithoutOrdered(rest, t, p, came);
      WithoutElements(rest, t);
      forall u | u in rest ensures u in came && Precedes(list[0], u, p, came) {
      }
      var w := Without(rest, t);
      forall j | 0 <= j < |w| ensures w[j] in came && Precedes(list[0], w[j], p, came) {
        assert w[j] in rest;
      }
    }
  }

  // ---------------------------------------------------------------- woken threads

  /** One side of an object: the suspended threads, and those woken that have not run yet. */
  datatype Side = Side(waiting: seq<Thread>, woken: set<Thread>)

  ghost predicate SideOk(s: Side) {
    NoDup(s.waiting) && forall t :: t in s.waiting ==> t !in s.woken
  }

  /** While threads wait, everything that is available is due to threads that have been woken for it. */
  ghost predicate NoLostWakeup(s: Side, available: nat) {
    s.waiting != [] ==> available <= |s.woken|
  }

  ghost predicate SideInv(s: Side, available: nat) {
    SideOk(s) && NoLostWakeup(s, available)
  }

  /** _ipc_list_resume, if anyone waits. */
  function Wake(s: Side): Side {
    if s.waiting == [] then s else Side(s.waiting[1..], s.woken + {s.waiting[0]})
  }

  /** A thread enters a critical section: if it was woken, it is accounted for now. */
  function Enter(s: Side, t: Thread): Side {
    s.(woken := s.woken - {t})
  }

  function Block(s: Side, t: Thread, fifo: bool, p: Priorities): Side {
    s.(waiting := Queued(s.waiting, t, fifo, p))
  }

  /** Memory pools put the newest waiter first. */
  function BlockFirst(s: Side, t: Thread): Side {
    s.(waiting := [t] + s.waiting)
  }

  function Expire(s: Side, t: Thread): Side {
    s.(waiting := Without(s.waiting, t))
  }

  /** _ipc_list_resume_all: all waiting threads leave with an error. */
  function Flush(s: Side): Side {
    s.(waiting := [])
  }

  lemma WakeInv(s: Side, available: nat)
    requires SideInv(s, available)
    ensures SideInv(Wake(s), available + 1)
  {
    if s.waiting != [] {
      assert s.waiting[0] in s.waiting;
      var rest := s.waiting[1..];
      forall t | t in rest ensures t != s.waiting[0] && t !in s.woken {
        assert t in s.waiting;
      }
    }
  }

  /** A thread that takes something for itself, woken or not, leaves enough for those still due. */
  lemma TakeInv(s: Side, t: Thread, available: nat)
    requires SideInv(s, available) && available > 0
    ensures SideInv(Enter(s, t), available - 1)
  {}

  lemma BlockInv(s: Side, t: Thread, fifo: bool, p: Priorities)
    requires SideInv(s, 0) && t !in s.waiting
    ensures SideInv(Block(Enter(s, t), t, fifo, p), 0)
  {
    QueuedElements(s.waiting, t, fifo, p);
    QueuedNoDup(s.waiting, t, fifo, p);
  }

  lemma BlockFirstInv(s: Side, t: Thread)
    requires SideInv(s, 0) && t !in s.waiting
    ensures SideInv(BlockFirst(Enter(s, t), t), 0)
  {}

  lemma ExpireInv(s: Side, t: Thread, available: nat)
    requires SideInv(s, available)
    ensures SideInv(Expire(s, t), available)
  {
    WithoutElements(s.waiting, t);
  }
}
