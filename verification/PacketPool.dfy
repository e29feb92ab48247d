/** The per-thread packet pool: three buckets of equal blocks carved from one
    region, each with a free list threaded through the free blocks themselves.
    Memory is explicit, so a caller may write anything into a block it holds. */
module PacketPools {
  import opened Counting

  const NULL: int := 0
  const BUCKETS: nat := 3

  /** Block size, block count and first byte (relative to the region) per bucket. */
  function Size(b: nat): nat
    requires b < BUCKETS
  {
    if b == 0 then 64 else if b == 1 then 256 else 1024
  }

  function Capacity(b: nat): nat
    requires b < BUCKETS
  {
    if b == 2 then 512 else 256
  }

  function Start(b: nat): nat
    requires b < BUCKETS
  {
    if b == 0 then 0 else if b == 1 then 16384 else 81920
  }

  const REGION: nat := 606208    // end of the last bucket

  function BlockAt(base: int, b: nat, k: nat): int
    requires b < BUCKETS
  {
    base + Start(b) + k * Size(b)
  }

  ghost predicate IsBlock(base: int, b: nat, a: int)
    requires b < BUCKETS
  {
    exists k: nat :: k < Capacity(b) && a == BlockAt(base, b, k)
  }

  /** The smallest bucket that fits, if any. */
  function BucketFor(size: nat): (b: nat)
    ensures b < BUCKETS <==> size <= 1024
    ensures b < BUCKETS ==> size <= Size(b) && forall c :: 0 <= c < b ==> size > Size(c)
  {
    if size <= 64 then 0 else if size <= 256 then 1 else if size <= 1024 then 2 else 3
  }

  // ---- geometry

  lemma BlockInRegion(base: int, b: nat, k: nat)
    requires b < BUCKETS && k < Capacity(b)
    ensures base + Start(b) <= BlockAt(base, b, k)
    ensures BlockAt(base, b, k) + Size(b) <= base + Start(b) + Capacity(b) * Size(b) <= base + REGION
  {
  }

  /** The buckets fill the region from end to end. */
  lemma RegionIsCarved()
    ensures Start(0) == 0 && Start(0) + Capacity(0) * Size(0) == Start(1) == 256 * 64
    ensures Start(1) + Capacity(1) * Size(1) == Start(2) == Start(1) + 256 * 256
    ensures Start(2) + Capacity(2) * Size(2) == REGION == Start(2) + 512 * 1024
  {
  }

  /** Different blocks, of the same or of different buckets, never overlap. */
  lemma BlocksDisjoint(base: int, b: nat, k: nat, c: nat, j: nat)
    requires b < BUCKETS && c < BUCKETS && k < Capacity(b) && j < Capacity(c) && (b, k) != (c, j)
    ensures BlockAt(base, b, k) + Size(b) <= BlockAt(base, c, j) || BlockAt(base, c, j) + Size(c) <= BlockAt(base, b, k)
  {
  }

  // ---- one bucket

  /** The free list as the blocks store it: acyclic, ending in null. */
  ghost predicate Threaded(mem: map<int, int>, list: seq<int>, head: int) {
    && head == Head(list, NULL) && NoDup(list)
    && forall i: nat :: i < |list| ==> LinkAt(mem, list, i)
  }

  ghost predicate LinkAt(mem: map<int, int>, list: seq<int>, i: nat)
    requires i < |list|
  {
    list[i] != NULL && list[i] in mem && mem[list[i]] == if i + 1 < |list| then list[i + 1] else NULL
  }

  /** Free and held blocks partition the bucket, and the counters agree. */
  ghost predicate Partition(base: int, b: nat, free: seq<int>, held: set<int>, inUse: nat)
    requires b < BUCKETS
  {
    && (forall a :: a in free ==> a !in held)
    && (forall a :: a in free || a in held ==> IsBlock(base, b, a))
    && (forall k: nat :: k < Capacity(b) ==> BlockAt(base, b, k) in free || BlockAt(base, b, k) in held)
    && inUse == |held| && |free| + inUse == Capacity(b)
  }

  lemma ThreadPop(mem: map<int, int>, list: seq<int>, head: int)
    requires Threaded(mem, list, head) && list != []
    ensures head in mem && Threaded(mem, list[1..], mem[head]) && head !in list[1..]
  {
    var l := list[1..];
    assert LinkAt(mem, list, 0);
    forall i: nat | i < |l|
      ensures LinkAt(mem, l, i)
    {
      assert LinkAt(mem, list, i + 1);
    }
  }

  lemma ThreadPush(mem: map<int, int>, list: seq<int>, head: int, a: int)
    requires Threaded(mem, list, head) && a != NULL && a !in list
    ensures Threaded(mem[a := head], [a] + list, a)
  {
    var l := [a] + list;
    var mem' := mem[a := head];
    forall i: nat | i < |l|
      ensures LinkAt(mem', l, i)
    {
      assert i == 0 || LinkAt(mem, list, i - 1);
    }
  }

  /** Writing outside the listed blocks leaves a free list alone. */
  lemma ThreadFrame(mem: map<int, int>, list: seq<int>, head: int, x: int, v: int)
    requires Threaded(mem, list, head) && x !in list
    ensures Threaded(mem[x := v], list, head)
  {
    var mem' := mem[x := v];
    forall i: nat | i < |list|
      ensures LinkAt(mem', list, i)
    {
      assert LinkAt(mem, list, i) && list[i] in list;
    }
  }

  datatype Outcome = Block(addr: int) | Fatal

  class PacketPool {
    const base: int
    var mem: map<int, int>             // the word at the start of each block, and whatever callers store
    var heads: seq<int>
    var inUse: seq<nat>
    var prewarmed: bool
    ghost var free: seq<seq<int>>
    ghost var held: seq<set<int>>

    ghost predicate Shape()
      reads this
    {
      base > 0 && |heads| == |inUse| == |free| == |held| == BUCKETS
    }

    ghost predicate Valid()
      reads this
    {
      && Shape()
      && (forall b :: 0 <= b < BUCKETS ==> Threaded(mem, free[b], heads[b]))
      && (prewarmed ==> forall b :: 0 <= b < BUCKETS ==> Partition(base, b, free[b], held[b], inUse[b]))
      && (!prewarmed ==> forall b :: 0 <= b < BUCKETS ==> free[b] == [] && held[b] == {} && inUse[b] == 0)
    }

    constructor (base: int)
      requires base > 0
      ensures Valid() && !prewarmed && this.base == base
    {
      this.base := base;
      mem, heads, inUse, prewarmed := map[], [NULL, NULL, NULL], [0, 0, 0], false;
      free, held := [[], [], []], [{}, {}, {}];
    }

    /** Threads every block of every bucket, so that the first acquire returns the
        lowest address. A second call does nothing. */
    method Prewarm()
      requires Valid()
      modifies `mem, `heads, `free, `prewarmed
      ensures Valid() && prewarmed
      ensures old(prewarmed) ==> mem == old(mem) && heads == old(heads) && free == old(free)
      ensures !old(prewarmed) ==> forall b :: 0 <= b < BUCKETS ==> free[b] == BlocksFrom(base, b, 0)
    {
      if prewarmed {
        return;
      }
      for b := 0 to BUCKETS
        invariant Shape() && forall c :: 0 <= c < BUCKETS ==> Threaded(mem, free[c], heads[c])
        invariant forall c :: 0 <= c < BUCKETS ==> free[c] == if c < b then BlocksFrom(base, c, 0) else []
      {
        var m, head := ThreadBucket(base, b, mem);
        forall c | 0 <= c < b
          ensures Threaded(m, free[c], heads[c])
        {
          OtherBucketKept(base, b, c, mem, m, heads[c]);
        }
        mem, heads, free := m, heads[b := head], free[b := BlocksFrom(base, b, 0)];
      }
      prewarmed := true;
      forall b | 0 <= b < BUCKETS
        ensures Partition(base, b, free[b], held[b], inUse[b])
      {
        AllFree(base, b);
      }
    }

    /** A free block of any bucket never overlaps a held one. */
    lemma HeldIsApart(b: nat, a: int, c: nat, e: int)
      requires Valid() && prewarmed && b < BUCKETS && c < BUCKETS && a in held[b] && e in free[c]
      ensures a + Size(b) <= e || e + Size(c) <= a
    {
    }

    /** Outstanding blocks are pairwise disjoint and inside the region. */
    lemma HeldAreDisjoint(b: nat, a: int, c: nat, e: int)
      requires Valid() && prewarmed && b < BUCKETS && c < BUCKETS && a in held[b] && e in held[c]
      ensures (b == c && a == e) || a + Size(b) <= e || e + Size(c) <= a
      ensures base <= a && a + Size(b) <= base + REGION
    {
    }

    /** Pops the head of the right bucket. Size over 1024, no prewarm and an empty
        bucket are fatal. */
    method Acquire(size: nat) returns (r: Outcome)
      requires Valid()
      modifies `heads, `inUse, `free, `held
      ensures Valid()
      ensures r.Fatal? <==> size > 1024 || !prewarmed || old(free)[BucketFor(size)] == []
      ensures r.Fatal? ==> heads == old(heads) && inUse == old(inUse)
      ensures r.Block? ==>
                var b := BucketFor(size);
                && size <= Size(b) && r.addr !in old(held)[b] && r.addr == Head(old(free)[b], NULL)
                && held == old(held)[b := old(held)[b] + {r.addr}] && free == old(free)[b := old(free)[b][1..]]
                && inUse == old(inUse)[b := old(inUse)[b] + 1]
    {
      var b := BucketFor(size);
      if b >= BUCKETS || !prewarmed || heads[b] == NULL {
        assert b < BUCKETS ==> Threaded(mem, free[b], heads[b]);
        assert b < BUCKETS && free[b] != [] ==> LinkAt(mem, free[b], 0);
        return Fatal;
      }
      assert Threaded(mem, free[b], heads[b]);
      var a := heads[b];
      TakeBlock(b, a);
      return Block(a);
    }

    method TakeBlock(b: nat, a: int)
      requires Valid() && prewarmed && b < BUCKETS && free[b] != [] && a == heads[b]
      modifies `heads, `inUse, `free, `held
      ensures Valid() && a !in old(held)[b]
      ensures held == old(held)[b := old(held)[b] + {a}] && free == old(free)[b := old(free)[b][1..]]
      ensures inUse == old(inUse)[b := old(inUse)[b] + 1]
    {
      ThreadPop(mem, free[b], a);
      PartitionTake(base, b, free[b], held[b], inUse[b]);
      heads, inUse := heads[b := mem[a]], inUse[b := inUse[b] + 1];
      free, held := free[b := free[b][1..]], held[b := held[b] + {a}];
    }

    /** The checks of release(): a fitting bucket, an address in its region, and a
        block out. They do not tell a held block from any other address there. */
    predicate Accepts(a: int, size: nat)
      requires Shape()
      reads this
    {
      && BucketFor(size) < BUCKETS && a != NULL && inUse[BucketFor(size)] > 0
      && var b := BucketFor(size);
         base + Start(b) <= a < base + Start(b) + Capacity(b) * Size(b)
    }

    /** Pushes a block back, or traps: a held block is always taken, and so is any other
        address in the region of a bucket that has a block out. The pool is a pool again, the word its holder
        overwrote being a link, exactly when the block was held: otherwise no reading
        of the bucket's list as free and held blocks is left. */
    method Release(a: int, size: nat) returns (ok: bool)
      requires Valid()
      modifies this
      ensures ok == old(Accepts(a, size)) && prewarmed == old(prewarmed)
      ensures ok <==>
                && size <= 1024
                && var b := BucketFor(size);
                && old(inUse)[b] > 0 && base + Start(b) <= a < base + Start(b) + Capacity(b) * Size(b)
      ensures size <= 1024 && a in old(held)[BucketFor(size)] ==> ok
      ensures !ok ==> Valid() && heads == old(heads) && inUse == old(inUse) && mem == old(mem)
      ensures !ok ==> free == old(free) && held == old(held)
      ensures ok ==>
                var b := BucketFor(size);
                && |heads| == |inUse| == BUCKETS && heads == old(heads)[b := a] && mem == old(mem)[a := old(heads)[b]]
                && inUse == old(inUse)[b := old(inUse)[b] - 1]
      ensures ok && a in old(held)[BucketFor(size)] ==>
                var b := BucketFor(size);
                Valid() && free == old(free)[b := [a] + old(free)[b]] && held == old(held)[b := old(held)[b] - {a}]
      ensures ok && a !in old(held)[BucketFor(size)] ==>
                var b := BucketFor(size);
                forall f, h :: !ReadsAs(mem, heads[b], base, b, inUse[b], f, h)
    {
      ok := Accepts(a, size);
      if !ok {
        NotHeld(a, size);
        return;
      }
      var b := BucketFor(size);
      ghost var legal := a in held[b];
      if legal {
        GiveBack(b, a);
      } else {
        InUseMeansWarm(b);
        NeverHeld(base, b, mem, free[b], held[b], heads[b], inUse[b], a, mem[a := heads[b]], inUse[b] - 1);
      }
      mem, heads, inUse := mem[a := heads[b]], heads[b := a], inUse[b := inUse[b] - 1];
      if legal {
        free, held := free[b := [a] + free[b]], held[b := held[b] - {a}];
      }
    }

    lemma NotHeld(a: int, size: nat)
      requires Valid() && !Accepts(a, size)
      ensures size <= 1024 ==> a !in held[BucketFor(size)]
    {
      if size <= 1024 && a in held[BucketFor(size)] {
        HeldInRange(BucketFor(size), a);
        assert false;
      }
    }

    lemma InUseMeansWarm(b: nat)
      requires Valid() && b < BUCKETS && inUse[b] > 0
      ensures ReadsAs(mem, heads[b], base, b, inUse[b], free[b], held[b])
    {
    }

    /** Pushing a held block keeps every list and moves it to the free ones. */
    lemma GiveBack(b: nat, a: int)
      requires Valid() && b < BUCKETS && a in held[b]
      ensures prewarmed && inUse[b] > 0
      ensures var mem', free', heads' := mem[a := heads[b]], free[b := [a] + free[b]], heads[b := a];
              forall c :: 0 <= c < BUCKETS ==> Threaded(mem', free'[c], heads'[c])
      ensures Partition(base, b, [a] + free[b], held[b] - {a}, inUse[b] - 1)
    {
      HeldInRange(b, a);
      PartitionGive(base, b, free[b], held[b], inUse[b], a);
      forall c | 0 <= c < BUCKETS
        ensures a !in free[c] && Threaded(mem[a := heads[b]], free[c], heads[c])
      {
        assert Threaded(mem, free[c], heads[c]);
        NotFree(b, a, c);
        ThreadFrame(mem, free[c], heads[c], a, heads[b]);
      }
      ThreadPush(mem, free[b], heads[b], a);
    }

    lemma NotFree(b: nat, a: int, c: nat)
      requires Valid() && b < BUCKETS && c < BUCKETS && a in held[b]
      ensures a !in free[c]
    {
    }

    lemma HeldInRange(b: nat, a: int)
      requires Valid() && b < BUCKETS && a in held[b]
      ensures prewarmed && inUse[b] > 0 && a > 0
      ensures base + Start(b) <= a < base + Start(b) + Capacity(b) * Size(b)
    {
    }

    /** The holder of a block writes any value anywhere inside it. */
    method Scribble(b: nat, a: int, x: int, v: int)
      requires Valid() && b < BUCKETS && a in held[b] && a <= x < a + Size(b)
      modifies `mem
      ensures Valid() && mem == old(mem)[x := v]
    {
      HeldInRange(b, a);
      forall c | 0 <= c < BUCKETS
        ensures Threaded(mem[x := v], free[c], heads[c])
      {
        assert Threaded(mem, free[c], heads[c]);
        if x in free[c] {
          HeldIsApart(b, a, c, x);
        }
        ThreadFrame(mem, free[c], heads[c], x, v);
      }
      mem := mem[x := v];
    }
  }

  /** A block released twice while another is out: the second release passes every
      check, and the bucket is no list of free blocks any more. */
  method ReleaseTwice(base: int) returns (pool: PacketPool, twice: bool)
    requires base > 0
    ensures twice && |pool.heads| == |pool.inUse| == BUCKETS
    ensures forall f, h :: !ReadsAs(pool.mem, pool.heads[0], base, 0, pool.inUse[0], f, h)
  {
    pool := new PacketPool(base);
    pool.Prewarm();
    assert |BlocksFrom(base, 0, 0)| == 256;
    var first := pool.Acquire(64);
    var second := pool.Acquire(64);
    pool.HeldInRange(0, first.addr);
    var once := pool.Release(first.addr, 64);
    twice := pool.Release(first.addr, 64);
  }

  /** Following links from a free block that was pushed again leads back to it. */
  lemma {:induction false} PushedTwice(mem: map<int, int>, free: seq<int>, head: int, a: int, f: seq<int>, i: nat,
                                       k: nat)
    requires Threaded(mem, free, head) && i < |free| && free[i] == a && k <= i
    requires f != [] && f[0] == a && Threaded(mem[a := head], f, a)
    ensures k + 1 < |f| && f[k + 1] == free[k]
    decreases k
  {
    var mem' := mem[a := head];
    assert LinkAt(mem, free, 0) && LinkAt(mem', f, 0);
    if k > 0 {
      PushedTwice(mem, free, head, a, f, i, k - 1);
      assert LinkAt(mem, free, k - 1) && LinkAt(mem', f, k) && LinkAt(mem, free, k);
      assert free[k - 1] != a;
    }
  }

  /** A bucket's list and counter read as free blocks `f` and held blocks `h`. */
  ghost predicate ReadsAs(mem: map<int, int>, head: int, base: int, b: nat, inUse: nat, f: seq<int>, h: set<int>)
    requires b < BUCKETS
  {
    Threaded(mem, f, head) && Partition(base, b, f, h, inUse)
  }

  /** An address that was not held cannot be pushed: it is no block, or it is free. */
  lemma NeverHeld(base: int, b: nat, mem: map<int, int>, free: seq<int>, held: set<int>, head: int, inUse: nat, a: int,
                  mem': map<int, int>, left: nat)
    requires b < BUCKETS && ReadsAs(mem, head, base, b, inUse, free, held) && a !in held && a != NULL
    requires mem' == mem[a := head]
    ensures forall f, h :: !ReadsAs(mem', a, base, b, left, f, h)
  {
    forall f, h
      ensures !ReadsAs(mem', a, base, b, left, f, h)
    {
      if ReadsAs(mem', a, base, b, left, f, h) {
        assert f != [] && f[0] == a && a in f;
        assert IsBlock(base, b, a) && a in free;
        var i :| 0 <= i < |free| && free[i] == a;
        PushedTwice(mem, free, head, a, f, i, i);
        assert false;
      }
    }
  }

  lemma PartitionTake(base: int, b: nat, free: seq<int>, held: set<int>, inUse: nat)
    requires b < BUCKETS && Partition(base, b, free, held, inUse) && free != [] && NoDup(free)
    ensures Partition(base, b, free[1..], held + {free[0]}, inUse + 1)
  {
  }

  lemma PartitionGive(base: int, b: nat, free: seq<int>, held: set<int>, inUse: nat, a: int)
    requires b < BUCKETS && Partition(base, b, free, held, inUse) && a in held && inUse > 0
    ensures Partition(base, b, [a] + free, held - {a}, inUse - 1)
  {
  }

  // ---- prewarm

  /** The blocks of a bucket from index `i` on, in address order. */
  ghost function BlocksFrom(base: int, b: nat, i: nat): (s: seq<int>)
    requires b < BUCKETS && i <= Capacity(b)
    ensures |s| == Capacity(b) - i && forall j :: 0 <= j < |s| ==> s[j] == BlockAt(base, b, i + j)
  {
    seq(Capacity(b) - i, j requires 0 <= j => BlockAt(base, b, i + j))
  }

  /** The inner loop of prewarm: pushes the blocks of one bucket, last one first. */
  method ThreadBucket(base: int, b: nat, mem0: map<int, int>) returns (mem: map<int, int>, head: int)
    requires base > 0 && b < BUCKETS
    ensures Threaded(mem, BlocksFrom(base, b, 0), head)
    ensures forall x :: x in mem0 && x !in BlocksFrom(base, b, 0) ==> x in mem && mem[x] == mem0[x]
  {
    mem, head := mem0, NULL;
    var i: nat := Capacity(b);
    assert BlocksFrom(base, b, i) == [];
    while i > 0
      invariant i <= Capacity(b) && Threaded(mem, BlocksFrom(base, b, i), head)
      invariant forall x :: x in mem0 && x !in BlocksFrom(base, b, 0) ==> x in mem && mem[x] == mem0[x]
    {
      ghost var list := BlocksFrom(base, b, i);
      i := i - 1;
      var a := BlockAt(base, b, i);
      NextBlock(base, b, i);
      ThreadPush(mem, list, head, a);
      mem, head := mem[a := head], a;
    }
  }

  lemma NextBlock(base: int, b: nat, i: nat)
    requires base > 0 && b < BUCKETS && i < Capacity(b)
    ensures var a, list := BlockAt(base, b, i), BlocksFrom(base, b, i + 1);
            a > 0 && a !in list && BlocksFrom(base, b, i) == [a] + list && a in BlocksFrom(base, b, 0)
  {
    var a, list := BlockAt(base, b, i), BlocksFrom(base, b, i + 1);
    BlockInRegion(base, b, i);
    if a in list {
      var j :| 0 <= j < |list| && list[j] == a;
      BlocksDisjoint(base, b, i, b, i + 1 + j);
    }
    assert BlocksFrom(base, b, 0)[i] == a;
  }

  /** Threading one bucket writes nothing into the blocks of another. */
  lemma OtherBucketKept(base: int, b: nat, c: nat, mem: map<int, int>, m: map<int, int>, head: int)
    requires b < BUCKETS && c < BUCKETS && b != c && Threaded(mem, BlocksFrom(base, c, 0), head)
    requires forall x :: x in mem && x !in BlocksFrom(base, b, 0) ==> x in m && m[x] == mem[x]
    ensures Threaded(m, BlocksFrom(base, c, 0), head)
  {
    var list := BlocksFrom(base, c, 0);
    forall i: nat | i < |list|
      ensures LinkAt(m, list, i)
    {
      assert LinkAt(mem, list, i);
      if list[i] in BlocksFrom(base, b, 0) {
        var j :| 0 <= j < Capacity(b) && BlocksFrom(base, b, 0)[j] == list[i];
        BlocksDisjoint(base, b, j, c, i);
      }
    }
  }

  lemma AllFree(base: int, b: nat)
    requires b < BUCKETS
    ensures Partition(base, b, BlocksFrom(base, b, 0), {}, 0)
  {
    var list := BlocksFrom(base, b, 0);
    forall a | a in list
      ensures IsBlock(base, b, a)
    {
      var j :| 0 <= j < |list| && list[j] == a;
      assert j < Capacity(b) && a == BlockAt(base, b, j);
    }
    forall k: nat | k < Capacity(b)
      ensures BlockAt(base, b, k) in list
    {
      assert list[k] == BlockAt(base, b, k);
    }
  }
}
