/** Memory pools: a list of equal blocks threaded through the blocks themselves, and threads waiting for one. */
module Mempool {
  import opened Machine
  import opened WaitList
  import opened NodeList

  type Block = nat

  datatype Outcome = Got(block: Block) | Failed | Suspended

  datatype Pool = Pool(total: nat, free: seq<Block>, used: set<Block>, side: Side)

  /** One pass of rt_mp_alloc. */
  function Allocated(m: Pool, t: Thread, wait: bool): (Outcome, Pool) {
    var s := Enter(m.side, t);
    if m.free == [] then
      if wait then (Suspended, m.(side := BlockFirst(s, t))) else (Failed, m.(side := s))
    else (Got(m.free[0]), m.(free := m.free[1..], used := m.used + {m.free[0]}, side := s))
  }

  /** rt_mp_free. */
  function Freed(m: Pool, b: Block): Pool {
    m.(free := [b] + m.free, used := m.used - {b}, side := Wake(m.side))
  }

  datatype Step = Alloc(t: Thread, wait: bool) | Free(b: Block) | Expires(t: Thread)

  function Next(m: Pool, step: Step): (Outcome, Pool) {
    match step
    case Alloc(t, wait) => Allocated(m, t, wait)
    case Free(b) => (Failed, Freed(m, b))
    case Expires(t) => (Failed, m.(side := Expire(m.side, t)))
  }

  ghost predicate Enabled(m: Pool, step: Step) {
    match step
    case Alloc(t, _) => t !in m.side.waiting
    case Free(b) => b in m.used
    case Expires(_) => true
  }

  /** Every block is either free, once, or with a user. */
  ghost predicate Partitioned(total: nat, free: seq<Block>, used: set<Block>) {
    NoDup(free) && forall b: Block :: ((b in free || b in used) <==> b < total) && !(b in free && b in used)
  }

  ghost predicate Inv(m: Pool) {
    Partitioned(m.total, m.free, m.used) && SideInv(m.side, |m.free|)
  }

  lemma TakePartitioned(total: nat, free: seq<Block>, used: set<Block>)
    requires Partitioned(total, free, used) && free != []
    ensures Partitioned(total, free[1..], used + {free[0]})
  {
    assert forall b: Block :: b in free <==> b == free[0] || b in free[1..];
  }

  lemma GivePartitioned(total: nat, free: seq<Block>, used: set<Block>, b: Block)
    requires Partitioned(total, free, used) && b in used
    ensures Partitioned(total, [b] + free, used - {b})
  {}

  lemma StepInv(m: Pool, step: Step)
    requires Inv(m) && Enabled(m, step)
    ensures Inv(Next(m, step).1)
  {
    match step {
      case Alloc(t, wait) =>
        if m.free != [] {
          TakePartitioned(m.total, m.free, m.used);
          TakeInv(m.side, t, |m.free|);
        } else if wait {
          BlockFirstInv(m.side, t);
        }
      case Free(b) =>
        GivePartitioned(m.total, m.free, m.used, b);
        WakeInv(m.side, |m.free|);
      case Expires(t) => ExpireInv(m.side, t, |m.free|);
    }
  }

  ghost predicate Initial(m: Pool) {
    m.used == {} && m.side == Side([], {}) && Partitioned(m.total, m.free, {})
  }

  ghost predicate Run(trace: seq<Pool>, steps: seq<Step>) {
    && |trace| == |steps| + 1 && Initial(trace[0])
    && forall i :: 0 <= i < |steps| ==> Enabled(trace[i], steps[i]) && trace[i + 1] == Next(trace[i], steps[i]).1
  }

  /** In every run, a block has one holder at most, and no thread waits for a block that nobody is on the way to take. */
  lemma {:induction false} RunInv(trace: seq<Pool>, steps: seq<Step>, k: nat)
    requires Run(trace, steps) && k < |trace|
    ensures Inv(trace[k])
    ensures trace[k].side.woken == {} && trace[k].side.waiting != [] ==> trace[k].free == []
  {
    if k > 0 {
      RunInv(trace, steps, k - 1);
      StepInv(trace[k - 1], steps[k - 1]);
    }
  }

  // ---------------------------------------------------------------- the pool in memory

  /** What the link of a block holds while the block is in use: the pool it belongs to. */
  const OWNER := -2

  /** The distance between blocks: the aligned size and the link, as a 32-bit number. */
  function Stride(blockSize: nat): nat {
    Wrap(AlignUp(blockSize) + 4)
  }

  /** How many blocks fit into a pool. Where the stride wraps to zero, the division of the code is undefined. */
  function BlockCount(size: nat, blockSize: nat): nat {
    if Stride(blockSize) == 0 then 0 else Quotient(AlignDown(size), Stride(blockSize))
  }

  function Quotient(a: nat, b: nat): nat
    requires b > 0
  {
    a / b
  }

  function BlockOffset(b: Block, blockSize: nat): nat {
    b * Stride(blockSize)
  }

  /**
   * The blocks lie inside the pool, one after the other. Each has room for its link and the size
   * asked for exactly when that size can be aligned, and the link added, without wrapping around;
   * then it wastes less than 4 bytes, and behind the last block no other would fit.
   */
  lemma BlocksFit(size: nat, blockSize: nat, b: Block)
    requires blockSize < WORD_LIMIT && b < BlockCount(size, blockSize)
    ensures BlockOffset(b + 1, blockSize) <= size
    ensures BlockOffset(b, blockSize) + 4 + blockSize <= BlockOffset(b + 1, blockSize) <==> blockSize <= WORD_LIMIT - 8
    ensures blockSize <= WORD_LIMIT - 8 ==> BlockOffset(b + 1, blockSize) < BlockOffset(b, blockSize) + 8 + blockSize
    ensures size < BlockOffset(BlockCount(size, blockSize), blockSize) + Stride(blockSize) + 4
  {
    hide Stride, AlignDown, Quotient;
    OffsetsFit(AlignDown(size), Stride(blockSize), b);
    StrideRoom(blockSize);
    NoneBehind(size, Stride(blockSize));
  }

  lemma NoneBehind(size: nat, stride: nat)
    requires stride > 0
    ensures size < Quotient(AlignDown(size), stride) * stride + stride + 4
  {
    var room := AlignDown(size);
    assert room == room / stride * stride + room % stride;
  }

  lemma OffsetsFit(room: nat, stride: nat, b: nat)
    requires stride > 0 && b < Quotient(room, stride)
    ensures (b + 1) * stride == b * stride + stride <= room
  {
    Monotonic(b + 1, room / stride, stride);
    assert room / stride * stride <= room;
  }

  lemma StrideRoom(blockSize: nat)
    requires blockSize < WORD_LIMIT
    ensures Stride(blockSize) >= 4 + blockSize <==> blockSize <= WORD_LIMIT - 8
    ensures blockSize <= WORD_LIMIT - 8 ==> Stride(blockSize) < 8 + blockSize
  {
    AlignsUpIff(blockSize);
    Aligns(blockSize);
  }

  lemma Monotonic(a: nat, b: nat, n: nat)
    requires a <= b
    ensures a * n <= b * n
  {}

  /** The free list as initialisation leaves it: blocks from k on, in order of their addresses. */
  function Ascending(k: nat, total: nat): (r: seq<Block>)
    requires k <= total
    ensures |r| == total - k && forall i :: 0 <= i < |r| ==> r[i] == k + i
    decreases total - k
  {
    if k == total then [] else [k] + Ascending(k + 1, total)
  }

  lemma AllFree(total: nat)
    ensures Partitioned(total, Ascending(0, total), {})
  {
    forall b: Block | b < total ensures b in Ascending(0, total) {
      assert Ascending(0, total)[b] == b;
    }
  }

  lemma {:induction false} AscendingChain(next: seq<int>, k: nat, total: nat)
    requires k < total == |next| && next[total - 1] == NULL
    requires forall i :: k <= i < total - 1 ==> next[i] == i + 1
    ensures Chain(next, k, Ascending(k, total))
    decreases total - k
  {
    assert Ascending(k, total)[1..] == Ascending(k + 1, total);
    if k + 1 < total {
      AscendingChain(next, k + 1, total);
    }
  }

  class MempoolObject {
    const next: array<int>
    var blockList: int
    var freeCount: nat
    var waiting: seq<Thread>
    var wroteBefore: bool  // whether initialisation wrote outside the pool
    ghost var freeBlocks: seq<Block>
    ghost var used: set<Block>
    ghost var woken: set<Thread>

    ghost predicate Valid()
      reads this, next
    {
      && freeCount == |freeBlocks|
      && Chain(next[..], blockList, freeBlocks)
      && Partitioned(next.Length, freeBlocks, used)
      && forall b :: b in used ==> b < next.Length && next[b] == OWNER
    }

    ghost function View(): Pool
      reads this
    {
      Pool(next.Length, freeBlocks, used, Side(waiting, woken))
    }

    /**
     * rt_mp_init. It ends the list at the last block; if there is none, that write goes to the link
     * of a block before the pool, and the list is left pointing at the start of the pool.
     */
    constructor (size: nat, blockSize: nat)
      ensures fresh(next) && next.Length == BlockCount(size, blockSize)
      ensures wroteBefore <==> BlockCount(size, blockSize) == 0
      ensures Valid() <==> BlockCount(size, blockSize) > 0
      ensures Valid() ==> Initial(View())
    {
      var total := BlockCount(size, blockSize);
      next := new int[total];
      blockList, freeCount, waiting := 0, total, [];
      wroteBefore := total == 0;
      freeBlocks, used, woken := Ascending(0, total), {}, {};
      new;
      if total > 0 {
        ThreadBlocks();
      }
      AllFree(total);
    }

    method ThreadBlocks()
      requires next.Length > 0
      modifies next
      ensures Chain(next[..], 0, Ascending(0, next.Length))
    {
      var offset := 0;
      while offset < next.Length
        invariant offset <= next.Length
        invariant forall i :: 0 <= i < offset ==> next[i] == i + 1
      {
        next[offset] := offset + 1;
        offset := offset + 1;
      }
      next[offset - 1] := NULL;
      AscendingChain(next[..], 0, next.Length);
    }

    method Pop() returns (b: Block)
      requires Valid() && freeCount > 0
      modifies `blockList, `freeCount, `freeBlocks, `used, next
      ensures Valid() && old(freeBlocks) == [b] + freeBlocks && used == old(used) + {b}
    {
      TakePartitioned(next.Length, freeBlocks, used);
      freeCount := freeCount - 1;
      b := blockList;
      blockList := next[b];
      assert b in freeBlocks && b !in freeBlocks[1..];
      ChainFrame(next[..], blockList, freeBlocks[1..], b, OWNER);
      next[b] := OWNER;
      freeBlocks, used := freeBlocks[1..], used + {b};
    }

    method Push(b: Block)
      requires Valid() && b in used
      modifies `blockList, `freeCount, `freeBlocks, `used, next
      ensures Valid() && freeBlocks == [b] + old(freeBlocks) && used == old(used) - {b}
    {
      GivePartitioned(next.Length, freeBlocks, used, b);
      ChainPush(next[..], blockList, freeBlocks, b);
      freeCount := freeCount + 1;
      next[b] := blockList;
      blockList := b;
      freeBlocks, used := [b] + freeBlocks, used - {b};
    }

    /**
     * One pass of rt_mp_alloc. The thread gets a block that was free and now is its own, as long as
     * there is one; otherwise it waits in front of the others, or fails, and no block changes hands.
     */
    method Alloc(t: Thread, wait: bool) returns (outcome: Outcome)
      requires Valid()
      modifies this, next
      ensures Valid() && (outcome, View()) == Allocated(old(View()), t, wait)
      ensures outcome.Got? <==> old(freeCount) > 0
      ensures outcome.Got? ==>
                && old(freeBlocks) == [outcome.block] + freeBlocks
                && outcome.block !in old(used) && used == old(used) + {outcome.block} && waiting == old(waiting)
      ensures !outcome.Got? ==> freeBlocks == old(freeBlocks) && used == old(used)
      ensures outcome.Suspended? ==> wait && waiting == [t] + old(waiting)
      ensures outcome.Failed? ==> !wait && waiting == old(waiting)
    {
      woken := woken - {t};
      if freeCount > 0 {
        var b := Pop();
        outcome := Got(b);
      } else if wait {
        waiting := [t] + waiting;
        outcome := Suspended;
      } else {
        outcome := Failed;
      }
    }

    /** rt_mp_free of a block in use. The block is free again, and the thread at the front of the list is woken. */
    method Free(b: Block)
      requires Valid() && b in used
      modifies this, next
      ensures Valid() && View() == Freed(old(View()), b)
      ensures used == old(used) - {b} && multiset(freeBlocks) == multiset(old(freeBlocks)) + multiset{b}
      ensures old(waiting) != [] ==> old(waiting) == [old(waiting)[0]] + waiting && woken == old(woken) + {old(waiting)[0]}
    {
      Push(b);
      if waiting != [] {
        woken := woken + {waiting[0]};
        waiting := waiting[1..];
      }
    }

    method TimesOut(t: Thread)
      requires Valid()
      modifies `waiting
      ensures Valid() && View() == Next(old(View()), Expires(t)).1
    {
      waiting := Without(waiting, t);
    }
  }
}
