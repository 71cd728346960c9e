/**
 * What becomes of the values in a container that is filled at both ends and emptied at the front:
 * laws about its whole history, told by what was put in and taken out alone.
 */
module Deque {

  datatype Event<T> = Appended(value: T) | Prepended(value: T) | Removed(value: T) | Cleared(lost: seq<T>) | Nothing

  /** From contents `a`, the event leads to contents `b`. */
  ghost predicate Leads<T>(a: seq<T>, e: Event<T>, b: seq<T>) {
    match e
    case Appended(v) => b == a + [v]
    case Prepended(v) => b == [v] + a
    case Removed(v) => a == [v] + b
    case Cleared(lost) => a == lost && b == []
    case Nothing => b == a
  }

  /** Contents after each of a number of events; nothing is there at first. */
  ghost predicate History<T>(contents: seq<seq<T>>, events: seq<Event<T>>) {
    && |contents| == |events| + 1 && contents[0] == []
    && forall i, j :: 0 <= i < |events| && j == i + 1 ==> Leads(contents[i], events[i], contents[j])
  }

  /** All that was put in by the first k events, in order. */
  function PutIn<T>(events: seq<Event<T>>, k: nat): seq<T>
    requires k <= |events|
  {
    if k == 0 then []
    else
      var e := events[k - 1];
      PutIn(events, k - 1) + if e.Appended? || e.Prepended? then [e.value] else []
  }

  /** All that was taken out, or thrown away, by the first k events, in order. */
  function TakenOut<T>(events: seq<Event<T>>, k: nat): seq<T>
    requires k <= |events|
  {
    if k == 0 then []
    else
      var e := events[k - 1];
      TakenOut(events, k - 1) + if e.Removed? then [e.value] else if e.Cleared? then e.lost else []
  }

  /** What came in at the front is a stack, what came in at the back a queue. */
  datatype Parts<T> = Parts(urgent: seq<T>, ordinary: seq<T>)

  /** A removal takes the value that came in at the front last, and only without one the value that came in at the back first. */
  function After<T>(p: Parts<T>, e: Event<T>): Parts<T> {
    match e
    case Appended(v) => p.(ordinary := p.ordinary + [v])
    case Prepended(v) => p.(urgent := [v] + p.urgent)
    case Removed(_) =>
      if p.urgent != [] then p.(urgent := p.urgent[1..])
      else if p.ordinary != [] then p.(ordinary := p.ordinary[1..])
      else p
    case Cleared(_) => Parts([], [])
    case Nothing => p
  }

  /** The values still there after k events. */
  function Remaining<T>(events: seq<Event<T>>, k: nat): Parts<T>
    requires k <= |events|
  {
    if k == 0 then Parts([], []) else After(Remaining(events, k - 1), events[k - 1])
  }

  // ---------------------------------------------------------------- nothing is lost or made up

  lemma {:induction false} AllAccounted<T>(contents: seq<seq<T>>, events: seq<Event<T>>, k: nat)
    requires History(contents, events) && k <= |events|
    ensures multiset(TakenOut(events, k)) + multiset(contents[k]) == multiset(PutIn(events, k))
  {
    if k > 0 {
      AllAccounted(contents, events, k - 1);
      var a, e, b := contents[k - 1], events[k - 1], contents[k];
      assert Leads(a, e, b);
    }
  }

  /** With nothing coming in at the front, the values come out in the order in which they went in. */
  lemma {:induction false} FirstInFirstOut<T>(contents: seq<seq<T>>, events: seq<Event<T>>, k: nat)
    requires History(contents, events) && k <= |events| && forall i :: 0 <= i < k ==> !events[i].Prepended?
    ensures TakenOut(events, k) + contents[k] == PutIn(events, k)
  {
    if k > 0 {
      FirstInFirstOut(contents, events, k - 1);
      var a, e, b := contents[k - 1], events[k - 1], contents[k];
      assert Leads(a, e, b);
      var taken, put := TakenOut(events, k - 1), PutIn(events, k - 1);
      match e {
        case Appended(v) => assert taken + (a + [v]) == taken + a + [v];
        case Removed(v) => assert taken + [v] + b == taken + ([v] + b);
        case _ =>
      }
    }
  }

  // ---------------------------------------------------------------- who comes first

  lemma {:induction false} FrontThenBack<T>(contents: seq<seq<T>>, events: seq<Event<T>>, k: nat)
    requires History(contents, events) && k <= |events|
    ensures contents[k] == Remaining(events, k).urgent + Remaining(events, k).ordinary
  {
    if k > 0 {
      FrontThenBack(contents, events, k - 1);
      assert Leads(contents[k - 1], events[k - 1], contents[k]);
      PartsLead(contents[k - 1], events[k - 1], contents[k], Remaining(events, k - 1));
    }
  }

  lemma PartsLead<T>(a: seq<T>, e: Event<T>, b: seq<T>, p: Parts<T>)
    requires Leads(a, e, b) && a == p.urgent + p.ordinary
    ensures b == After(p, e).urgent + After(p, e).ordinary
  {
    match e {
      case Appended(v) => assert p.urgent + p.ordinary + [v] == p.urgent + (p.ordinary + [v]);
      case Prepended(v) => assert [v] + (p.urgent + p.ordinary) == [v] + p.urgent + p.ordinary;
      case Removed(v) => assert b == a[1..];
      case _ =>
    }
  }

  /** The value removed is the last that came in at the front of those still there, or else the first that came in at the back. */
  lemma LastUrgentFirst<T>(contents: seq<seq<T>>, events: seq<Event<T>>, k: nat)
    requires History(contents, events) && k < |events| && events[k].Removed?
    ensures var p := Remaining(events, k);
            if p.urgent != [] then events[k].value == p.urgent[0]
            else p.ordinary != [] && events[k].value == p.ordinary[0]
  {
    FrontThenBack(contents, events, k);
    assert Leads(contents[k], events[k], contents[k + 1]);
    assert contents[k][0] == events[k].value;
  }
}
