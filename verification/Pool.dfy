/** Memory pools (elegance/memory/mempool.cpp). Addresses are integers; what `new char[n]`
    returns is a parameter, constrained only by not overlapping memory still owned. */
module Pools {
  import opened Bytes

  type Addr = int

  // ----- one pool -----

  datatype Pool = Pool(itemLen: int, increaseNum: int, free: seq<Addr>, chunks: seq<Addr>) {
    function ChunkLen(): int {
      increaseNum * itemLen
    }
  }

  function Slot(p: Pool, base: Addr, i: int): Addr {
    base + i * p.itemLen
  }

  function Carve(p: Pool, base: Addr): (s: seq<Addr>)
    requires p.increaseNum > 0
    ensures |s| == p.increaseNum
  {
    seq(p.increaseNum, i requires 0 <= i < p.increaseNum => Slot(p, base, i))
  }

  function Grown(p: Pool, base: Addr): (q: Pool)
    requires p.free == [] ==> p.increaseNum > 0
    ensures q.free != []
  {
    if p.free == [] then p.(free := Carve(p, base), chunks := p.chunks + [base]) else p
  }

  /** The free list is a stack; its top is the last element. */
  function AllocStep(p: Pool, base: Addr): (r: (Pool, Addr))
    requires p.free == [] ==> p.increaseNum > 0
  {
    var q := Grown(p, base);
    (q.(free := q.free[..|q.free| - 1]), q.free[|q.free| - 1])
  }

  function FreeStep(p: Pool, a: Addr): Pool {
    p.(free := p.free + [a])
  }

  predicate IsSlot(p: Pool, a: Addr) {
    exists c, i :: 0 <= c < |p.chunks| && 0 <= i < p.increaseNum && a == Slot(p, p.chunks[c], i)
  }

  predicate Overlap(a: Addr, n: int, b: Addr, m: int) {
    a < b + m && b < a + n
  }

  predicate ChunksApart(p: Pool) {
    forall c, d :: 0 <= c < d < |p.chunks| ==> !Overlap(p.chunks[c], p.ChunkLen(), p.chunks[d], p.ChunkLen())
  }

  /** `live` is the set of addresses handed out and not given back. */
  ghost predicate PoolInv(p: Pool, live: set<Addr>) {
    && p.itemLen > 0 && p.increaseNum > 0
    && ChunksApart(p)
    && NoRepeats(p.free)
    && (forall a :: a in p.free ==> a !in live && IsSlot(p, a))
    && (forall a :: a in live ==> IsSlot(p, a))
    && |p.free| + |live| == |p.chunks| * p.increaseNum
  }

  lemma SlotInside(base: int, i: int, n: int, len: int)
    requires 0 <= i < n && len > 0
    ensures base <= base + i * len && base + i * len + len <= base + n * len
  {
    assert (n - i - 1) * len >= 0;
    assert n * len == i * len + len + (n - i - 1) * len;
  }

  lemma SlotsSpread(i: int, j: int, len: int)
    requires i < j && len > 0
    ensures i * len + len <= j * len
  {
    assert (j - i - 1) * len >= 0;
    assert j * len == i * len + len + (j - i - 1) * len;
  }

  /** Two different slots of a pool never share a byte. */
  lemma SlotsApart(p: Pool, a: Addr, b: Addr)
    requires p.itemLen > 0 && p.increaseNum > 0 && ChunksApart(p)
    requires IsSlot(p, a) && IsSlot(p, b) && a != b
    ensures !Overlap(a, p.itemLen, b, p.itemLen)
  {
    var c, i :| 0 <= c < |p.chunks| && 0 <= i < p.increaseNum && a == Slot(p, p.chunks[c], i);
    var d, j :| 0 <= d < |p.chunks| && 0 <= j < p.increaseNum && b == Slot(p, p.chunks[d], j);
    if c == d {
      if i < j { SlotsSpread(i, j, p.itemLen); }
      if j < i { SlotsSpread(j, i, p.itemLen); }
    } else {
      SlotInside(p.chunks[c], i, p.increaseNum, p.itemLen);
      SlotInside(p.chunks[d], j, p.increaseNum, p.itemLen);
      assert !Overlap(p.chunks[c], p.ChunkLen(), p.chunks[d], p.ChunkLen()) by {
        if c < d { assert !Overlap(p.chunks[c], p.ChunkLen(), p.chunks[d], p.ChunkLen()); }
        else { assert !Overlap(p.chunks[d], p.ChunkLen(), p.chunks[c], p.ChunkLen()); }
      }
    }
  }

  /** The memory that `new` returns for a chunk does not overlap the chunks it has. */
  predicate NewChunkOk(p: Pool, base: Addr) {
    p.free == [] ==> forall c :: 0 <= c < |p.chunks| ==> !Overlap(p.chunks[c], p.ChunkLen(), base, p.ChunkLen())
  }

  lemma SlotsRemain(p: Pool, base: Addr, a: Addr)
    requires p.increaseNum > 0 && IsSlot(p, a)
    ensures IsSlot(Grown(p, base), a)
  {
    var c, i :| 0 <= c < |p.chunks| && 0 <= i < p.increaseNum && a == Slot(p, p.chunks[c], i);
    var q := Grown(p, base);
    assert q.chunks[c] == p.chunks[c] && a == Slot(q, q.chunks[c], i);
  }

  lemma GrowKeepsInv(p: Pool, live: set<Addr>, base: Addr)
    requires PoolInv(p, live) && NewChunkOk(p, base)
    ensures PoolInv(Grown(p, base), live)
  {
    if p.free == [] {
      var q := Grown(p, base);
      forall a | a in live ensures IsSlot(q, a) { SlotsRemain(p, base, a); }
      CarvedSlots(p, live, base);
      assert |q.chunks| * q.increaseNum == |p.chunks| * p.increaseNum + p.increaseNum;
    }
  }

  lemma CarvedSlots(p: Pool, live: set<Addr>, base: Addr)
    requires PoolInv(p, live) && NewChunkOk(p, base) && p.free == []
    ensures var q := Grown(p, base); NoRepeats(q.free) && forall a :: a in q.free ==> a !in live && IsSlot(q, a)
  {
    var q := Grown(p, base);
    forall i, j | 0 <= i < j < |q.free| ensures q.free[i] != q.free[j] {
      SlotsSpread(i, j, p.itemLen);
    }
    forall i | 0 <= i < |q.free| ensures q.free[i] !in live && IsSlot(q, q.free[i]) {
      var last := |p.chunks|;
      assert q.chunks[last] == base && q.free[i] == Slot(q, q.chunks[last], i);
      if q.free[i] in live {
        SlotInOwnChunk(p, q.free[i], base, i);
      }
    }
  }

  /** A slot of a pool is not a slot of a chunk that overlaps none of its own. */
  lemma SlotInOwnChunk(p: Pool, a: Addr, base: Addr, i: int)
    requires p.itemLen > 0 && IsSlot(p, a) && 0 <= i < p.increaseNum
    requires forall c :: 0 <= c < |p.chunks| ==> !Overlap(p.chunks[c], p.ChunkLen(), base, p.ChunkLen())
    ensures a != Slot(p, base, i)
  {
    var c, j :| 0 <= c < |p.chunks| && 0 <= j < p.increaseNum && a == Slot(p, p.chunks[c], j);
    SlotInside(p.chunks[c], j, p.increaseNum, p.itemLen);
    SlotInside(base, i, p.increaseNum, p.itemLen);
    assert !Overlap(p.chunks[c], p.ChunkLen(), base, p.ChunkLen());
  }

  lemma AllocKeepsInv(p: Pool, live: set<Addr>, base: Addr)
    requires PoolInv(p, live) && NewChunkOk(p, base)
    ensures var (q, a) := AllocStep(p, base);
            a !in live && IsSlot(q, a) && PoolInv(q, live + {a})
  {
    GrowKeepsInv(p, live, base);
    var g := Grown(p, base);
    var (q, a) := AllocStep(p, base);
    assert a in g.free;
    SameSlots(g, q);
    forall b | b in q.free ensures b in g.free && b != a {
      var i :| 0 <= i < |q.free| && q.free[i] == b;
      assert g.free[i] == b;
    }
  }

  lemma SameSlots(p: Pool, q: Pool)
    requires p.itemLen == q.itemLen && p.increaseNum == q.increaseNum && p.chunks == q.chunks
    ensures forall a :: IsSlot(p, a) <==> IsSlot(q, a)
  {
    forall a ensures IsSlot(p, a) <==> IsSlot(q, a) {
      if IsSlot(p, a) {
        var c, i :| 0 <= c < |p.chunks| && 0 <= i < p.increaseNum && a == Slot(p, p.chunks[c], i);
        assert a == Slot(q, q.chunks[c], i);
      }
      if IsSlot(q, a) {
        var c, i :| 0 <= c < |q.chunks| && 0 <= i < q.increaseNum && a == Slot(q, q.chunks[c], i);
        assert a == Slot(p, p.chunks[c], i);
      }
    }
  }

  /** A new chunk is handed out from its last block to its first. */
  lemma NewChunkFromTheTop(p: Pool, base: Addr)
    requires p.free == [] && p.increaseNum > 0
    ensures var (q, a) := AllocStep(p, base);
            && a == base + (p.increaseNum - 1) * p.itemLen && q.chunks == p.chunks + [base]
            && |q.free| == p.increaseNum - 1
            && forall i :: 0 <= i < |q.free| ==> q.free[i] == base + i * p.itemLen
  {
  }

  /** And later the block given back last goes first. */
  lemma LastFreedIsNext(p: Pool, a: Addr, base: Addr)
    ensures AllocStep(FreeStep(p, a), base) == (p, a)
  {
  }

  /** `Free` checks nothing. It keeps the pool consistent exactly when the caller gives
      back a block that is live. */
  lemma FreeKeepsInvIffLive(p: Pool, live: set<Addr>, a: Addr)
    requires PoolInv(p, live)
    ensures PoolInv(FreeStep(p, a), live - {a}) <==> a in live
  {
    var q := FreeStep(p, a);
    SameSlots(p, q);
    if a !in live {
      assert live - {a} == live;
      assert |q.free| + |live| == |p.chunks| * p.increaseNum + 1;
    }
  }

  /** A block given back twice is handed to the next two callers, whatever the pool. */
  lemma DoubleFreeHandsOutTwice(p: Pool, a: Addr, base: Addr)
    ensures var r := AllocStep(FreeStep(FreeStep(p, a), a), base);
            r.1 == a && AllocStep(r.0, base).1 == a
  {
    var q := FreeStep(p, a);
    assert FreeStep(q, a).free[..|q.free|] == q.free;
  }

  // ----- runs of one pool -----

  datatype Op = Alloc(base: Addr) | Free(a: Addr)
  datatype Use = Use(pool: Pool, live: set<Addr>, peak: nat)

  predicate Legal(u: Use, op: Op) {
    match op
    case Alloc(base) => NewChunkOk(u.pool, base)
    case Free(a) => a in u.live
  }

  function Step(u: Use, op: Op): Use
    requires u.pool.increaseNum > 0
  {
    match op
    case Alloc(base) =>
      var (q, a) := AllocStep(u.pool, base);
      var live := u.live + {a};
      Use(q, live, if |live| > u.peak then |live| else u.peak)
    case Free(a) => Use(FreeStep(u.pool, a), u.live - {a}, u.peak)
  }

  function After(u: Use, ops: seq<Op>): (r: Option<Use>)
    requires u.pool.increaseNum > 0
    decreases |ops|
  {
    if ops == [] then Some(u)
    else if !Legal(u, ops[0]) then None
    else After(Step(u, ops[0]), ops[1..])
  }

  /** The last chunk was needed: more blocks were once live than the other chunks hold. */
  ghost predicate UseInv(u: Use) {
    && PoolInv(u.pool, u.live)
    && |u.live| <= u.peak <= |u.pool.chunks| * u.pool.increaseNum
    && (|u.pool.chunks| - 1) * u.pool.increaseNum < u.peak + (if u.pool.chunks == [] then 1 else 0)
  }

  lemma StepKeepsInv(u: Use, op: Op)
    requires UseInv(u) && Legal(u, op)
    ensures UseInv(Step(u, op))
  {
    match op {
      case Alloc(base) =>
        AllocKeepsInv(u.pool, u.live, base);
        var k, n := |u.pool.chunks|, u.pool.increaseNum;
        var u' := Step(u, op);
        assert |u'.live| == |u.live| + 1;
        if u.pool.free == [] {
          assert |u'.pool.chunks| == k + 1;
          assert |u.live| == k * n;
          assert (k + 1) * n == k * n + n;
          assert u'.peak == k * n + 1;
        }
      case Free(a) =>
        FreeKeepsInvIffLive(u.pool, u.live, a);
    }
  }

  /** Over every legal run: free and live blocks together are all the blocks carved, no
      two live blocks share a byte, each block lies in one chunk, and the pool has grown
      exactly to the peak demand, rounded up to whole chunks. */
  lemma {:induction false} PoolRuns(u: Use, ops: seq<Op>)
    requires UseInv(u) && After(u, ops).Some?
    ensures UseInv(After(u, ops).value)
    decreases |ops|
  {
    if ops != [] {
      StepKeepsInv(u, ops[0]);
      PoolRuns(Step(u, ops[0]), ops[1..]);
    }
  }

  lemma NewPoolInv(itemLen: int, increaseNum: int)
    requires itemLen > 0 && increaseNum > 0
    ensures UseInv(Use(Pool(itemLen, increaseNum, [], []), {}, 0))
  {
  }

  /** Chunk count and peak, as an exact quotient. */
  lemma ChunksArePeakRoundedUp(itemLen: int, increaseNum: int, ops: seq<Op>)
    requires itemLen > 0 && increaseNum > 0
    requires After(Use(Pool(itemLen, increaseNum, [], []), {}, 0), ops).Some?
    ensures var u := After(Use(Pool(itemLen, increaseNum, [], []), {}, 0), ops).value;
            && |u.pool.chunks| == (u.peak + increaseNum - 1) / increaseNum
            && |u.pool.free| + |u.live| == |u.pool.chunks| * increaseNum
            && NoRepeats(u.pool.free) && (forall a :: a in u.pool.free ==> a !in u.live)
            && (forall a, b :: a in u.live && b in u.live && a != b ==> !Overlap(a, itemLen, b, itemLen))
            && (forall a :: a in u.live ==> IsSlot(u.pool, a))
  {
    var u0 := Use(Pool(itemLen, increaseNum, [], []), {}, 0);
    NewPoolInv(itemLen, increaseNum);
    PoolRuns(u0, ops);
    SizesFixed(u0, ops);
    var u := After(u0, ops).value;
    forall a, b | a in u.live && b in u.live && a != b ensures !Overlap(a, itemLen, b, itemLen) {
      SlotsApart(u.pool, a, b);
    }
    RoundUp(|u.pool.chunks|, u.peak, increaseNum);
  }

  lemma {:induction false} SizesFixed(u: Use, ops: seq<Op>)
    requires u.pool.increaseNum > 0 && After(u, ops).Some?
    ensures After(u, ops).value.pool.itemLen == u.pool.itemLen
    ensures After(u, ops).value.pool.increaseNum == u.pool.increaseNum
    decreases |ops|
  {
    if ops != [] { SizesFixed(Step(u, ops[0]), ops[1..]); }
  }

  lemma RoundUp(k: nat, peak: nat, n: int)
    requires n > 0 && peak <= k * n && (k - 1) * n < peak + (if k == 0 then 1 else 0)
    ensures k == (peak + n - 1) / n
  {
    var x := peak + n - 1;
    assert (k - 1) * n == k * n - n;
    if k == 0 {
      assert peak == 0;
      assert x == n - 1;
      assert (n - 1) / n == 0;
    } else {
      assert k * n <= x < k * n + n;
      QuotientUnique(x, n, k);
    }
  }

  lemma QuotientUnique(x: int, n: int, k: int)
    requires n > 0 && k * n <= x < k * n + n
    ensures x / n == k
  {
    var q := x / n;
    assert q * n <= x < q * n + n;
    if q < k { SlotsSpread(q, k, n); }
    if k < q { SlotsSpread(k, q, n); }
  }

  class MemoryPool {
    const itemLen: int
    const increaseNum: int
    var freeBuffers: seq<Addr>
    var realBufferPtrs: seq<Addr>

    constructor (itemLen: int, increaseNum: int)
      ensures State() == Pool(itemLen, increaseNum, [], [])
    {
      this.itemLen, this.increaseNum := itemLen, increaseNum;
      freeBuffers, realBufferPtrs := [], [];
    }

    function State(): Pool
      reads this
    {
      Pool(itemLen, increaseNum, freeBuffers, realBufferPtrs)
    }

    method Alloc(newChunk: Addr) returns (mem: Addr)
      requires freeBuffers == [] ==> increaseNum > 0
      modifies this
      ensures (State(), mem) == AllocStep(old(State()), newChunk)
    {
      if freeBuffers == [] {
        realBufferPtrs := realBufferPtrs + [newChunk];
        var i := 0;
        while i < increaseNum
          invariant 0 <= i <= increaseNum
          invariant realBufferPtrs == old(realBufferPtrs) + [newChunk]
          invariant freeBuffers == Carve(old(State()), newChunk)[..i]
        {
          freeBuffers := freeBuffers + [newChunk + i * itemLen];
          i := i + 1;
        }
        assert freeBuffers == Carve(old(State()), newChunk);
      }
      mem := freeBuffers[|freeBuffers| - 1];
      freeBuffers := freeBuffers[..|freeBuffers| - 1];
    }

    method Free(memory: Addr) returns (ok: bool)
      modifies this
      ensures ok && State() == FreeStep(old(State()), memory)
    {
      freeBuffers := freeBuffers + [memory];
      ok := true;
    }
  }
}
