/** Circular doubly linked lists kept in two maps of links, and what relinking does to them. */
module LinkedRing {

  type Links = map<int, int>

  ghost predicate Distinct(s: seq<int>) {
    forall i, j :: 0 <= i < j < |s| ==> s[i] != s[j]
  }

  /** b follows a, and both know. */
  ghost predicate Joined(next: Links, prev: Links, a: int, b: int) {
    a in next && b in prev && next[a] == b && prev[b] == a
  }

  /** The links visit s in order and come back to its start; going backwards undoes going forwards. */
  ghost predicate Circle(next: Links, prev: Links, s: seq<int>) {
    && s != [] && Distinct(s)
    && (forall i, j :: 0 <= i && j == i + 1 < |s| ==> Joined(next, prev, s[i], s[j]))
    && Joined(next, prev, s[|s| - 1], s[0])
  }

  function After(s: seq<int>, k: nat): int
    requires k < |s|
  {
    if k + 1 < |s| then s[k + 1] else s[0]
  }

  function Before(s: seq<int>, k: nat): int
    requires k < |s|
  {
    if k > 0 then s[k - 1] else s[|s| - 1]
  }

  function Inserted(s: seq<int>, k: nat, x: int): (r: seq<int>)
    requires k < |s|
    ensures |r| == |s| + 1
  {
    s[..k + 1] + [x] + s[k + 1..]
  }

  function Removed(s: seq<int>, k: nat): (r: seq<int>)
    requires k < |s|
    ensures |r| == |s| - 1
  {
    s[..k] + s[k + 1..]
  }

  lemma Neighbours(next: Links, prev: Links, s: seq<int>, k: nat)
    requires Circle(next, prev, s) && k < |s|
    ensures Joined(next, prev, s[k], After(s, k)) && Joined(next, prev, Before(s, k), s[k])
  {}

  lemma InsertAfter(next: Links, prev: Links, s: seq<int>, k: nat, x: int)
    requires Circle(next, prev, s) && k < |s| && x !in s
    ensures var a, b := s[k], After(s, k);
            Circle(next[x := b][a := x], prev[x := a][b := x], Inserted(s, k, x))
  {
    var a, b, r := s[k], After(s, k), Inserted(s, k, x);
    var next', prev' := next[x := b][a := x], prev[x := a][b := x];
    forall i, j | 0 <= i && j == i + 1 < |r| ensures Joined(next', prev', r[i], r[j]) {
      InsertedLink(next, prev, s, k, x, i, j);
    }
    assert Joined(next', prev', r[|r| - 1], r[0]);
  }

  lemma InsertedLink(next: Links, prev: Links, s: seq<int>, k: nat, x: int, i: nat, j: nat)
    requires Circle(next, prev, s) && k < |s| && x !in s && j == i + 1 <= |s|
    ensures var a, b, r := s[k], After(s, k), Inserted(s, k, x);
            Joined(next[x := b][a := x], prev[x := a][b := x], r[i], r[j])
  {
    if j <= k {
      assert Joined(next, prev, s[i], s[j]);
    } else if i > k + 1 {
      assert Joined(next, prev, s[i - 1], s[i]);
    }
  }

  lemma RemoveAt(next: Links, prev: Links, s: seq<int>, k: nat)
    requires Circle(next, prev, s) && k < |s| && |s| >= 2
    ensures var a, b := Before(s, k), After(s, k); Circle(next[a := b], prev[b := a], Removed(s, k))
  {
    var a, b, r := Before(s, k), After(s, k), Removed(s, k);
    forall i, j | 0 <= i && j == i + 1 < |r| ensures Joined(next[a := b], prev[b := a], r[i], r[j]) {
      RemovedLink(next, prev, s, k, i, j);
    }
    assert Joined(next[a := b], prev[b := a], r[|r| - 1], r[0]);
  }

  lemma RemovedLink(next: Links, prev: Links, s: seq<int>, k: nat, i: nat, j: nat)
    requires Circle(next, prev, s) && k < |s| && |s| >= 2 && j == i + 1 < |s| - 1
    ensures var a, b, r := Before(s, k), After(s, k), Removed(s, k); Joined(next[a := b], prev[b := a], r[i], r[j])
  {
    if j < k {
      assert Joined(next, prev, s[i], s[j]);
    } else if i >= k {
      assert Joined(next, prev, s[i + 1], s[j + 1]);
    }
  }
}
