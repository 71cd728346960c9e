/** Singly linked lists threaded through an array of next indices, as the kernel keeps message nodes and pool blocks. */
module NodeList {
  import opened WaitList

  const NULL := -1

  /** Following next from h visits exactly the given nodes and then ends. */
  ghost predicate Chain(next: seq<int>, h: int, nodes: seq<nat>)
    decreases |nodes|
  {
    if nodes == [] then h == NULL
    else h == nodes[0] < |next| && Chain(next, next[h], nodes[1..])
  }

  /** A node that is not in the list can be relinked freely. */
  lemma {:induction false} ChainFrame(next: seq<int>, h: int, nodes: seq<nat>, m: nat, x: int)
    requires Chain(next, h, nodes) && m !in nodes && m < |next|
    ensures Chain(next[m := x], h, nodes)
    decreases |nodes|
  {
    if nodes != [] {
      assert nodes[0] in nodes;
      ChainFrame(next, next[h], nodes[1..], m, x);
    }
  }

  lemma ChainPush(next: seq<int>, h: int, nodes: seq<nat>, m: nat)
    requires Chain(next, h, nodes) && m !in nodes && m < |next|
    ensures Chain(next[m := h], m, [m] + nodes)
  {
    ChainFrame(next, h, nodes, m, h);
    assert ([m] + nodes)[1..] == nodes;
  }

  /** Hanging a node that ends a list behind the last node of another. */
  lemma {:induction false} ChainAppend(next: seq<int>, h: int, nodes: seq<nat>, m: nat)
    requires Chain(next, h, nodes) && nodes != [] && NoDup(nodes) && m !in nodes && m < |next| && next[m] == NULL
    ensures nodes[|nodes| - 1] < |next| && Chain(next[nodes[|nodes| - 1] := m], h, nodes + [m])
    decreases |nodes|
  {
    var rest := nodes[1..];
    if rest == [] {
      assert nodes + [m] == [h, m] && [h, m][1..] == [m];
      assert Chain(next[h := m], m, [m]);
    } else {
      ChainAppend(next, next[h], rest, m);
      assert (nodes + [m])[1..] == rest + [m] && nodes[|nodes| - 1] == rest[|rest| - 1];
    }
  }
}
