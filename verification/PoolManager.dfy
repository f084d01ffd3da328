/** The size-class allocator over the pools (`MemoryPoolManager` in
    elegance/memory/mempool.cpp). */
module PoolManager {
  import opened Bytes
  import opened Pools

  const ALIGN := 8
  const DEFAULT_INCREASE := 10

  /** `size % align` in C++ has the sign of the dividend. */
  function Remainder(size: int): (r: int)
    ensures -ALIGN < r < ALIGN && (size - r) % ALIGN == 0 && (size >= 0 ==> r >= 0) && (size < 0 ==> r <= 0)
  {
    if size >= 0 then size % ALIGN else -((-size) % ALIGN)
  }

  /** Rounds up to a multiple of the alignment, never staying on a non-negative one. */
  function FixSize(size: int): (n: int)
    ensures n % 8 == 0
    ensures 0 <= size ==> size < n <= size + 8
    ensures size < 0 ==> size + 8 <= n < size + 16
    ensures n > 0 <==> size > -8
  {
    size + ALIGN - Remainder(size)
  }

  /** `sizes` is `memory_to_size_map_`, which is never erased from. */
  datatype Manager = Manager(pools: map<int, Pool>, sizes: map<Addr, int>, live: set<Addr>)

  function PoolFor(m: Manager, fix: int): Pool {
    if fix in m.pools then m.pools[fix] else Pool(fix, DEFAULT_INCREASE, [], [])
  }

  function Allocate(m: Manager, size: int, base: Addr): (r: (Manager, Addr))
    requires PoolFor(m, FixSize(size)).increaseNum > 0
  {
    var fix := FixSize(size);
    var (q, a) := AllocStep(PoolFor(m, fix), base);
    (Manager(m.pools[fix := q], m.sizes[a := fix], m.live + {a}), a)
  }

  function Release(m: Manager, a: Addr): (r: (Manager, bool))
    requires a in m.sizes ==> m.sizes[a] in m.pools
  {
    if a !in m.sizes then (m, false)
    else
      var s := m.sizes[a];
      (Manager(m.pools[s := FreeStep(m.pools[s], a)], m.sizes, m.live - {a}), true)
  }

  ghost function LiveOf(m: Manager, s: int): set<Addr> {
    set a | a in m.live && a in m.sizes && m.sizes[a] == s
  }

  predicate PoolsApart(p: Pool, q: Pool) {
    forall c, d :: 0 <= c < |p.chunks| && 0 <= d < |q.chunks| ==>
      !Overlap(p.chunks[c], p.ChunkLen(), q.chunks[d], q.ChunkLen())
  }

  ghost predicate PoolOk(m: Manager, s: int)
    requires s in m.pools
  {
    var p := m.pools[s];
    p.itemLen == s && p.increaseNum == DEFAULT_INCREASE && PoolInv(p, LiveOf(m, s))
  }

  ghost predicate Inv(m: Manager) {
    && (forall s :: s in m.pools ==> PoolOk(m, s))
    && (forall s, t :: s in m.pools && t in m.pools && s != t ==> PoolsApart(m.pools[s], m.pools[t]))
    && (forall a :: a in m.sizes ==> m.sizes[a] in m.pools && IsSlot(m.pools[m.sizes[a]], a))
    && m.live <= m.sizes.Keys
  }

  /** A slot of one size class is a slot of no other, and shares no byte with one. */
  lemma ClassesApart(p: Pool, q: Pool, a: Addr, b: Addr)
    requires p.itemLen > 0 && q.itemLen > 0 && PoolsApart(p, q) && IsSlot(p, a) && IsSlot(q, b)
    ensures !Overlap(a, p.itemLen, b, q.itemLen) && a != b
  {
    var c, i :| 0 <= c < |p.chunks| && 0 <= i < p.increaseNum && a == Slot(p, p.chunks[c], i);
    var d, j :| 0 <= d < |q.chunks| && 0 <= j < q.increaseNum && b == Slot(q, q.chunks[d], j);
    SlotInside(p.chunks[c], i, p.increaseNum, p.itemLen);
    SlotInside(q.chunks[d], j, q.increaseNum, q.itemLen);
    assert !Overlap(p.chunks[c], p.ChunkLen(), q.chunks[d], q.ChunkLen());
  }

  /** What `new` promises when the pool has to grow: memory that no pool owns. */
  predicate NewMemoryOk(m: Manager, fix: int, base: Addr) {
    var p := PoolFor(m, fix);
    p.free == [] ==> forall s, c :: s in m.pools && 0 <= c < |m.pools[s].chunks| ==>
      !Overlap(m.pools[s].chunks[c], m.pools[s].ChunkLen(), base, p.ChunkLen())
  }

  lemma AllocatingPool(m: Manager, size: int, base: Addr)
    requires Inv(m) && FixSize(size) > 0 && NewMemoryOk(m, FixSize(size), base)
    ensures var fix := FixSize(size);
            var p := PoolFor(m, fix);
            && PoolInv(p, LiveOf(m, fix)) && p.itemLen == fix && p.increaseNum == DEFAULT_INCREASE
            && NewChunkOk(p, base)
            && (forall t :: t in m.pools && t != fix ==> PoolsApart(m.pools[t], Grown(p, base)))
  {
    var fix := FixSize(size);
    var p := PoolFor(m, fix);
    if fix in m.pools {
      assert PoolOk(m, fix);
    } else {
      assert forall a :: a in m.sizes ==> m.sizes[a] != fix;
      assert LiveOf(m, fix) == {};
    }
    var g := Grown(p, base);
    forall t | t in m.pools && t != fix ensures PoolsApart(m.pools[t], g) {
      var o := m.pools[t];
      forall c, d | 0 <= c < |o.chunks| && 0 <= d < |g.chunks|
        ensures !Overlap(o.chunks[c], o.ChunkLen(), g.chunks[d], g.ChunkLen())
      {
        if d < |p.chunks| {
          assert g.chunks[d] == p.chunks[d];
          assert PoolsApart(m.pools[t], m.pools[fix]);
        }
      }
    }
  }

  /** The block handed out is a slot of its own class only. */
  lemma AllocatedSlot(m: Manager, size: int, base: Addr)
    requires Inv(m) && FixSize(size) > 0 && NewMemoryOk(m, FixSize(size), base)
    ensures var fix := FixSize(size);
            && PoolFor(m, fix).increaseNum > 0
            && var (q, a) := AllocStep(PoolFor(m, fix), base);
            && q.itemLen == fix && q.increaseNum == DEFAULT_INCREASE
            && PoolInv(q, LiveOf(m, fix) + {a}) && IsSlot(q, a) && a !in LiveOf(m, fix)
            && (forall t :: t in m.pools && t != fix ==>
                  PoolsApart(m.pools[t], q) && PoolsApart(q, m.pools[t]) && !IsSlot(m.pools[t], a))
  {
    var fix := FixSize(size);
    var p := PoolFor(m, fix);
    AllocatingPool(m, size, base);
    AllocKeepsInv(p, LiveOf(m, fix), base);
    var (q, a) := AllocStep(p, base);
    forall t | t in m.pools && t != fix
      ensures PoolsApart(m.pools[t], q) && PoolsApart(q, m.pools[t]) && !IsSlot(m.pools[t], a)
    {
      assert PoolOk(m, t) && PoolsApart(m.pools[t], Grown(p, base));
      if IsSlot(m.pools[t], a) {
        ClassesApart(m.pools[t], q, a, a);
      }
    }
  }

  lemma AllocatedLive(m: Manager, m': Manager, a: Addr, fix: int)
    requires m'.live == m.live + {a} && m'.sizes == m.sizes[a := fix]
    requires a in m.sizes ==> m.sizes[a] == fix
    ensures LiveOf(m', fix) == LiveOf(m, fix) + {a}
    ensures forall s :: s != fix ==> LiveOf(m', s) == LiveOf(m, s)
  {
    forall s | s != fix ensures LiveOf(m', s) == LiveOf(m, s) {
      assert forall b :: b in LiveOf(m', s) <==> b in LiveOf(m, s);
    }
  }

  lemma AllocatedSizes(m: Manager, size: int, base: Addr, b: Addr)
    requires Inv(m) && FixSize(size) > 0 && NewMemoryOk(m, FixSize(size), base)
    requires b in m.sizes
    ensures PoolFor(m, FixSize(size)).increaseNum > 0
    ensures var q := AllocStep(PoolFor(m, FixSize(size)), base).0;
            IsSlot(m.pools[FixSize(size) := q][m.sizes[b]], b)
  {
    var fix := FixSize(size);
    AllocatedSlot(m, size, base);
    var p := PoolFor(m, fix);
    if m.sizes[b] == fix {
      SlotsRemain(p, base, b);
      SameSlots(Grown(p, base), AllocStep(p, base).0);
    }
  }

  lemma AllocateKeepsInv(m: Manager, size: int, base: Addr)
    requires Inv(m) && FixSize(size) > 0 && NewMemoryOk(m, FixSize(size), base)
    ensures PoolFor(m, FixSize(size)).increaseNum > 0
    ensures var (m', a) := Allocate(m, size, base);
            Inv(m') && a !in m.live && a in m'.live && m'.sizes[a] == FixSize(size)
  {
    var fix := FixSize(size);
    AllocatedSlot(m, size, base);
    var (q, a) := AllocStep(PoolFor(m, fix), base);
    var (m', _) := Allocate(m, size, base);
    assert a in m.sizes ==> m.sizes[a] == fix;
    AllocatedLive(m, m', a, fix);
    forall s | s in m'.pools ensures PoolOk(m', s) {
      if s != fix { assert PoolOk(m, s); }
    }
    ReplacedApart(m, fix, q);
    AllocatedRecords(m, size, base);
  }

  lemma ReplacedApart(m: Manager, fix: int, q: Pool)
    requires Inv(m) && forall t :: t in m.pools && t != fix ==> PoolsApart(m.pools[t], q) && PoolsApart(q, m.pools[t])
    ensures var pools := m.pools[fix := q];
            forall s, t :: s in pools && t in pools && s != t ==> PoolsApart(pools[s], pools[t])
  {
  }

  lemma AllocatedRecords(m: Manager, size: int, base: Addr)
    requires Inv(m) && FixSize(size) > 0 && NewMemoryOk(m, FixSize(size), base)
    requires PoolFor(m, FixSize(size)).increaseNum > 0
    ensures var m' := Allocate(m, size, base).0;
            forall b :: b in m'.sizes ==> m'.sizes[b] in m'.pools && IsSlot(m'.pools[m'.sizes[b]], b)
  {
    var (m', a) := Allocate(m, size, base);
    AllocatedSlot(m, size, base);
    forall b | b in m'.sizes ensures m'.sizes[b] in m'.pools && IsSlot(m'.pools[m'.sizes[b]], b) {
      if b != a { AllocatedSizes(m, size, base, b); }
    }
  }

  /** `Free` refuses what `Alloc` never returned and accepts everything else, so it keeps
      the classes consistent exactly on the blocks that are live and those it refuses. */
  lemma ReleaseKeepsInvIff(m: Manager, a: Addr)
    requires Inv(m)
    ensures Inv(Release(m, a).0) <==> a in m.live || a !in m.sizes
    ensures Release(m, a).1 <==> a in m.sizes
  {
    if a in m.live {
      ReleaseLive(m, a);
    } else if a in m.sizes {
      var s, m' := m.sizes[a], Release(m, a).0;
      assert PoolOk(m, s);
      assert LiveOf(m', s) == LiveOf(m, s) - {a};
      FreeKeepsInvIffLive(m.pools[s], LiveOf(m, s), a);
      assert !PoolOk(m', s);
    }
  }

  lemma ReleaseLive(m: Manager, a: Addr)
    requires Inv(m) && a in m.live
    ensures Inv(Release(m, a).0)
  {
    var s := m.sizes[a];
    assert PoolOk(m, s);
    FreeKeepsInvIffLive(m.pools[s], LiveOf(m, s), a);
    var (m', _) := Release(m, a);
    SameSlots(m.pools[s], m'.pools[s]);
    forall t | t in m'.pools ensures PoolOk(m', t) {
      assert PoolOk(m, t);
      assert LiveOf(m', t) == LiveOf(m, t) - {a};
      if t != s { assert LiveOf(m', t) == LiveOf(m, t); }
    }
    forall t | t in m.pools && t != s
      ensures PoolsApart(m'.pools[s], m.pools[t]) && PoolsApart(m.pools[t], m'.pools[s])
    {
      assert PoolsApart(m.pools[s], m.pools[t]) && PoolsApart(m.pools[t], m.pools[s]);
    }
    ReplacedApart(m, s, m'.pools[s]);
  }

  /** The record of a block is never erased, so a second `Free` of it is accepted, and the
      next two requests of its size class get the same block. */
  lemma SecondFreeIsAccepted(m: Manager, a: Addr, size: int, base: Addr)
    requires Inv(m) && a in m.live && m.sizes[a] == FixSize(size)
    ensures var (once, ok) := Release(m, a);
            && ok && Inv(once) && a !in once.live
            && var (twice, okAgain) := Release(once, a);
            && okAgain && !Inv(twice)
            && PoolFor(twice, FixSize(size)).increaseNum > 0
            && var (first, b) := Allocate(twice, size, base);
            b == a && PoolFor(first, FixSize(size)).increaseNum > 0 && Allocate(first, size, base).1 == a
  {
    ReleaseKeepsInvIff(m, a);
    var once := Release(m, a).0;
    ReleaseKeepsInvIff(once, a);
    var s := m.sizes[a];
    assert PoolOk(m, s);
    DoubleFreeHandsOutTwice(m.pools[s], a, base);
  }

  /** The first block of a new size class is the last of the ten in its chunk. */
  lemma FirstOfItsSize(m: Manager, size: int, base: Addr)
    requires FixSize(size) !in m.pools
    ensures var (m', a) := Allocate(m, size, base);
            && a == base + 9 * FixSize(size) && m'.sizes[a] == FixSize(size)
            && m'.pools[FixSize(size)].chunks == [base] && |m'.pools[FixSize(size)].free| == 9
  {
    NewChunkFromTheTop(PoolFor(m, FixSize(size)), base);
  }

  // ----- every run -----

  datatype Op = Alloc(size: int, base: Addr) | Free(a: Addr)

  predicate Legal(m: Manager, op: Op) {
    match op
    case Alloc(size, base) => FixSize(size) > 0 && NewMemoryOk(m, FixSize(size), base)
    case Free(a) => a in m.live
  }

  /** The states reached from the empty manager by calls that keep the caller's promise. */
  ghost predicate Reached(m: Manager, ops: seq<Op>)
    decreases |ops|
  {
    if ops == [] then m == Manager(map[], map[], {})
    else
      var last := ops[|ops| - 1];
      exists m0 :: Reached(m0, ops[..|ops| - 1]) && Legal(m0, last) && Stepped(m0, last, m)
  }

  ghost predicate Stepped(m: Manager, op: Op, m': Manager) {
    match op
    case Alloc(size, base) => PoolFor(m, FixSize(size)).increaseNum > 0 && m' == Allocate(m, size, base).0
    case Free(a) => (a in m.sizes ==> m.sizes[a] in m.pools) && m' == Release(m, a).0
  }

  lemma {:induction false} ReachedInv(m: Manager, ops: seq<Op>)
    requires Reached(m, ops)
    ensures Inv(m)
    decreases |ops|
  {
    if ops != [] {
      var last := ops[|ops| - 1];
      var m0 :| Reached(m0, ops[..|ops| - 1]) && Legal(m0, last) && Stepped(m0, last, m);
      ReachedInv(m0, ops[..|ops| - 1]);
      match last {
        case Alloc(size, base) => AllocateKeepsInv(m0, size, base);
        case Free(a) => ReleaseKeepsInvIff(m0, a);
      }
    }
  }

  /** In every run: no two live blocks, of whatever sizes, share a byte; each lies in a
      chunk carved by the pool of its size class and by no other pool, so that is where
      `Free` puts it; and the next `Alloc` hands out a block no caller holds, of the class
      that its size calls for. */
  lemma LiveBlocksAreSafe(m: Manager, ops: seq<Op>, size: int, base: Addr)
    requires Reached(m, ops)
    ensures forall a, b :: a in m.live && b in m.live && a != b ==>
              a in m.sizes && b in m.sizes && !Overlap(a, m.sizes[a], b, m.sizes[b])
    ensures forall a :: a in m.live ==>
              a in m.sizes && m.sizes[a] in m.pools && m.pools[m.sizes[a]].itemLen == m.sizes[a]
    ensures forall a, s :: a in m.live && s in m.pools ==> a in m.sizes && (IsSlot(m.pools[s], a) <==> s == m.sizes[a])
    ensures FixSize(size) > 0 && NewMemoryOk(m, FixSize(size), base) ==>
              && PoolFor(m, FixSize(size)).increaseNum > 0
              && Allocate(m, size, base).1 !in m.live
              && Allocate(m, size, base).0.sizes[Allocate(m, size, base).1] == FixSize(size)
  {
    ReachedInv(m, ops);
    forall a, s | a in m.live && s in m.pools ensures IsSlot(m.pools[s], a) <==> s == m.sizes[a] {
      var t := m.sizes[a];
      assert PoolOk(m, s) && PoolOk(m, t);
      if s != t && IsSlot(m.pools[s], a) {
        ClassesApart(m.pools[s], m.pools[t], a, a);
      }
    }
    forall a, b | a in m.live && b in m.live && a != b ensures !Overlap(a, m.sizes[a], b, m.sizes[b]) {
      var s, t := m.sizes[a], m.sizes[b];
      assert PoolOk(m, s) && PoolOk(m, t);
      if s == t { SlotsApart(m.pools[s], a, b); } else { ClassesApart(m.pools[s], m.pools[t], a, b); }
    }
    if FixSize(size) > 0 && NewMemoryOk(m, FixSize(size), base) {
      AllocateKeepsInv(m, size, base);
    }
  }

  // ----- the code -----

  /** The calls of the two recursive locks, that of the size map and that of the pools. */
  datatype MapLock = SizeMap | PoolMap
  datatype LockCall = Lock(which: MapLock) | Unlock(which: MapLock)

  /** How often a lock is held after the calls. */
  function Held(calls: seq<LockCall>, which: MapLock): int {
    if calls == [] then 0
    else
      var last := calls[|calls| - 1];
      Held(calls[..|calls| - 1], which) + if last.which != which then 0 else if last.Lock? then 1 else -1
  }

  lemma {:induction false} HeldAfter(a: seq<LockCall>, b: seq<LockCall>, which: MapLock)
    ensures Held(a + b, which) == Held(a, which) + Held(b, which)
  {
    if b == [] {
      assert a + b == a;
    } else {
      var init := b[..|b| - 1];
      HeldAfter(a, init, which);
      assert (a + b)[..|a + b| - 1] == a + init;
    }
  }

  /** The calls of `Alloc` and of an accepted `Free` give back both locks; those of a refused
      `Free` keep the lock of the size map. */
  lemma LocksLeftHeld(calls: seq<LockCall>, which: MapLock)
    ensures Held(calls + ALLOC_CALLS, which) == Held(calls, which) == Held(calls + FREE_CALLS, which)
    ensures Held(calls + [Lock(SizeMap)], which) == Held(calls, which) + if which == SizeMap then 1 else 0
  {
    HeldAfter(calls, ALLOC_CALLS, which);
    HeldAfter(calls, FREE_CALLS, which);
    HeldAfter(calls, [Lock(SizeMap)], which);
    HeldPair(PoolMap, SizeMap, which);
    HeldPair(SizeMap, PoolMap, which);
    assert [Lock(SizeMap)][..0] == [];
  }

  lemma HeldPair(a: MapLock, b: MapLock, which: MapLock)
    ensures Held([Lock(a), Unlock(a), Lock(b), Unlock(b)], which) == 0
  {
    HeldOnce(a, which);
    HeldOnce(b, which);
    HeldAfter([Lock(a), Unlock(a)], [Lock(b), Unlock(b)], which);
    assert [Lock(a), Unlock(a)] + [Lock(b), Unlock(b)] == [Lock(a), Unlock(a), Lock(b), Unlock(b)];
  }

  lemma HeldOnce(a: MapLock, which: MapLock)
    ensures Held([Lock(a), Unlock(a)], which) == 0
  {
    assert [Lock(a), Unlock(a)][..1] == [Lock(a)] && [Lock(a)][..0] == [];
    assert Held([Lock(a)], which) == Held([], which) + if a == which then 1 else 0;
  }

  const ALLOC_CALLS := [Lock(PoolMap), Unlock(PoolMap), Lock(SizeMap), Unlock(SizeMap)]
  const FREE_CALLS := [Lock(SizeMap), Unlock(SizeMap), Lock(PoolMap), Unlock(PoolMap)]

  class MemoryPoolManager {
    var memoryToSize: map<Addr, int>
    var memorySizeToPool: map<int, MemoryPool>
    var locks: seq<LockCall>
    ghost var live: set<Addr>
    ghost var pools: map<int, Pool>

    ghost predicate Valid()
      reads this`memoryToSize, this`memorySizeToPool, this`pools, memorySizeToPool.Values
    {
      && (forall s, t :: s in memorySizeToPool && t in memorySizeToPool && s != t ==>
            memorySizeToPool[s] != memorySizeToPool[t])
      && pools.Keys == memorySizeToPool.Keys
      && (forall s :: s in memorySizeToPool ==>
            memorySizeToPool[s].State() == pools[s] && pools[s].increaseNum == DEFAULT_INCREASE)
      && (forall a :: a in memoryToSize ==> memoryToSize[a] in memorySizeToPool)
    }

    ghost function State(): Manager
      reads this`pools, this`memoryToSize, this`live
    {
      Manager(pools, memoryToSize, live)
    }

    constructor ()
      ensures Valid() && State() == Manager(map[], map[], {})
      ensures locks == []
    {
      memoryToSize, memorySizeToPool, live, pools := map[], map[], {}, map[];
      locks := [];
    }

    /** The part under the lock of the pools: find the size class or create it, allocate. */
    method FromPool(fixSize: int, newChunk: Addr) returns (mem: Addr)
      requires Valid() && locks != [] && locks[|locks| - 1] == Lock(PoolMap)
      modifies this`memorySizeToPool, this`pools, memorySizeToPool.Values
      ensures Valid() && PoolFor(old(State()), fixSize).increaseNum > 0 && fixSize in memorySizeToPool
      ensures var r := AllocStep(PoolFor(old(State()), fixSize), newChunk);
              mem == r.1 && pools == old(pools)[fixSize := r.0]
    {
      ghost var p := PoolFor(State(), fixSize);
      if fixSize !in memorySizeToPool {
        var pool := new MemoryPool(fixSize, DEFAULT_INCREASE);
        memorySizeToPool := memorySizeToPool[fixSize := pool];
        mem := pool.Alloc(newChunk);
      } else {
        mem := memorySizeToPool[fixSize].Alloc(newChunk);
      }
      pools := pools[fixSize := AllocStep(p, newChunk).0];
    }

    /** `newChunk` is where `new` would place a chunk; it is never null. A negative chunk
        size makes `new` throw. */
    method Alloc(size: int, newChunk: Addr) returns (mem: Addr)
      requires Valid() && FixSize(size) >= 0
      modifies this, memorySizeToPool.Values
      ensures Valid() && PoolFor(old(State()), FixSize(size)).increaseNum > 0
      ensures (State(), mem) == Allocate(old(State()), size, newChunk)
      ensures locks == old(locks) + ALLOC_CALLS
    {
      var fixSize := FixSize(size);
      mem := TakeBlock(fixSize, newChunk);
      Record(mem, fixSize);
    }

    method TakeBlock(fixSize: int, newChunk: Addr) returns (mem: Addr)
      requires Valid()
      modifies this`memorySizeToPool, this`pools, this`locks, memorySizeToPool.Values
      ensures Valid() && PoolFor(old(State()), fixSize).increaseNum > 0 && fixSize in memorySizeToPool
      ensures var r := AllocStep(PoolFor(old(State()), fixSize), newChunk);
              mem == r.1 && pools == old(pools)[fixSize := r.0]
      ensures locks == old(locks) + [Lock(PoolMap)] + [Unlock(PoolMap)]
    {
      locks := locks + [Lock(PoolMap)];
      mem := FromPool(fixSize, newChunk);
      locks := locks + [Unlock(PoolMap)];
    }

    method Record(mem: Addr, fixSize: int)
      requires Valid() && fixSize in memorySizeToPool
      modifies this`memoryToSize, this`locks, this`live
      ensures Valid() && locks == old(locks) + [Lock(SizeMap)] + [Unlock(SizeMap)]
      ensures memoryToSize == old(memoryToSize)[mem := fixSize] && live == old(live) + {mem}
    {
      locks := locks + [Lock(SizeMap)];
      memoryToSize := memoryToSize[mem := fixSize];
      locks := locks + [Unlock(SizeMap)];
      live := live + {mem};
    }

    /** A pointer that never came from `Alloc` is refused, but the refusal leaves the
        lock of the size map held. */
    method Free(memory: Addr) returns (ok: bool)
      requires Valid()
      modifies this, memorySizeToPool.Values
      ensures Valid() && old(memory in State().sizes ==> State().sizes[memory] in State().pools)
      ensures (State(), ok) == Release(old(State()), memory)
      ensures ok <==> memory in old(memoryToSize)
      ensures locks == old(locks) + if ok then FREE_CALLS else [Lock(SizeMap)]
    {
      locks := locks + [Lock(SizeMap)];
      if memory !in memoryToSize { return false; }
      locks := locks + [Unlock(SizeMap)];
      var size := LookUp(memory);
      ok := ToPool(size, memory);
    }

    method LookUp(memory: Addr) returns (size: int)
      requires memory in memoryToSize
      modifies this`locks
      ensures size == memoryToSize[memory] && locks == old(locks) + [Lock(PoolMap), Unlock(PoolMap)]
    {
      locks := locks + [Lock(PoolMap)];
      size := memoryToSize[memory];
      locks := locks + [Unlock(PoolMap)];
    }

    method ToPool(size: int, memory: Addr) returns (ok: bool)
      requires Valid() && size in memorySizeToPool
      modifies this`pools, this`live, memorySizeToPool[size]
      ensures ok && Valid() && size in old(pools)
      ensures State() ==
              Manager(old(pools)[size := FreeStep(old(pools)[size], memory)], memoryToSize, old(live) - {memory})
    {
      ok := memorySizeToPool[size].Free(memory);
      pools := pools[size := FreeStep(pools[size], memory)];
      live := live - {memory};
    }
  }
}
