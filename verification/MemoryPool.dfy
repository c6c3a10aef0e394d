/**
 * The size-class memory pool with per-thread caches. A step is an allocation, a release or one round
 * of a drain: an access to the thread's own cache, which no other thread sees, and at most one
 * lock-held section. A run is any interleaving of them by threads. Block addresses are numbers.
 */
module MemoryPool {
  import opened Sequences
  import opened Arith

  type Addr = nat

  const CACHE_SIZE: nat := 32

  /** Classes 0, 1, 2 are small, medium and large; 3 means too large for the pool. */
  function BlockSize(c: nat): nat {
    if c == 0 then 64 else if c == 1 then 256 else 1024
  }

  function Total(c: nat): nat {
    if c == 0 then 10000 else if c == 1 then 5000 else 2000
  }

  function ClassOf(size: nat): (c: nat)
    ensures c <= 3
    ensures c < 3 ==> size <= BlockSize(c)
    ensures c > 0 ==> size > BlockSize(c - 1)
  {
    if size <= 64 then 0 else if size <= 256 then 1 else if size <= 1024 then 2 else 3
  }

  function Extent(c: nat): nat {
    BlockSize(c) * Total(c)
  }

  /** Where the three static arrays lie. */
  type Layout = l: seq<Addr> | |l| == 3 && Apart(l) witness [1, 640001, 1920001]

  predicate Apart(l: seq<Addr>)
    requires |l| == 3
  {
    && (forall c :: 0 <= c < 3 ==> l[c] > 0)
    && (forall c, d :: 0 <= c < 3 && 0 <= d < 3 && c != d ==> l[c] + Extent(c) <= l[d] || l[d] + Extent(d) <= l[c])
  }

  predicate InRange(l: Layout, c: nat, a: Addr)
    requires c < 3
  {
    l[c] <= a < l[c] + Extent(c)
  }

  predicate IsBlock(l: Layout, c: nat, a: Addr)
    requires c < 3
  {
    InRange(l, c, a) && (a - l[c]) % BlockSize(c) == 0
  }

  predicate InAnyPool(l: Layout, a: Addr) {
    InRange(l, 0, a) || InRange(l, 1, a) || InRange(l, 2, a)
  }

  /** One thread's caches, a stack per class. */
  type Caches = s: seq<seq<Addr>> | |s| == 3 witness [[], [], []]

  /** live maps each allocated address to the size asked for. */
  datatype Pool = Pool(layout: Layout, free: Caches, freeBlocks: seq<int>, caches: seq<Caches>, live: map<Addr, nat>)

  // ---------------------------------------------------------------------------
  // Operations
  // ---------------------------------------------------------------------------

  function BlockAt(start: Addr, size: nat, i: nat): Addr {
    start + i * size
  }

  /** The first n blocks of an array, in address order. */
  function Blocks(start: Addr, size: nat, n: nat): (r: seq<Addr>)
    ensures |r| == n
  {
    if n == 0 then [] else Blocks(start, size, n - 1) + [BlockAt(start, size, n - 1)]
  }

  function AllBlocks(l: Layout, c: nat): seq<Addr>
    requires c < 3
  {
    Blocks(l[c], BlockSize(c), Total(c))
  }

  function NoCaches(threads: nat): (r: seq<Caches>)
    ensures |r| == threads
  {
    seq(threads, i => [[], [], []])
  }

  function Init(l: Layout, threads: nat): Pool {
    Pool(l, [AllBlocks(l, 0), AllBlocks(l, 1), AllBlocks(l, 2)], [Total(0), Total(1), Total(2)],
         NoCaches(threads), map[])
  }

  predicate Wf(m: Pool) {
    |m.freeBlocks| == 3
  }

  function SetCache(m: Pool, t: nat, c: nat, s: seq<Addr>): Pool
    requires t < |m.caches| && c < 3
  {
    m.(caches := m.caches[t := m.caches[t][c := s]])
  }

  /** Pushes a block on the free list of class c. */
  function PushFree(m: Pool, c: nat, a: Addr): Pool
    requires Wf(m) && c < 3
  {
    m.(free := m.free[c := [a] + m.free[c]], freeBlocks := m.freeBlocks[c := m.freeBlocks[c] + 1])
  }

  function PopFree(m: Pool, c: nat): Pool
    requires Wf(m) && c < 3 && m.free[c] != []
  {
    m.(free := m.free[c := m.free[c][1..]], freeBlocks := m.freeBlocks[c := m.freeBlocks[c] - 1])
  }

  /** Where an allocation is served from: the thread's cache, the class free list, or the system. */
  datatype Source = FromCache | FromPool | FromSystem

  function SourceOf(m: Pool, t: nat, size: nat): Source
    requires t < |m.caches|
  {
    var c := ClassOf(size);
    if c == 3 then FromSystem
    else if m.caches[t][c] != [] then FromCache
    else if m.free[c] != [] then FromPool
    else FromSystem
  }

  function AllocAddr(m: Pool, t: nat, size: nat, sys: Addr): Addr
    requires t < |m.caches|
  {
    var c := ClassOf(size);
    match SourceOf(m, t, size)
    case FromCache => m.caches[t][c][|m.caches[t][c]| - 1]
    case FromPool => m.free[c][0]
    case FromSystem => sys
  }

  /** memory_pool_alloc; sys is what malloc would return. */
  function Alloc(m: Pool, t: nat, size: nat, sys: Addr): Pool
    requires Wf(m) && t < |m.caches|
  {
    var c := ClassOf(size);
    var taken := match SourceOf(m, t, size)
      case FromCache => SetCache(m, t, c, m.caches[t][c][..|m.caches[t][c]| - 1])
      case FromPool => PopFree(m, c)
      case FromSystem => m;
    taken.(live := m.live[AllocAddr(m, t, size, sys) := size])
  }

  /** The class whose range holds the address, or 3. */
  function ClassAt(l: Layout, a: Addr): (c: nat)
    ensures c <= 3
    ensures c < 3 ==> InRange(l, c, a)
  {
    if InRange(l, 0, a) then 0 else if InRange(l, 1, a) then 1 else if InRange(l, 2, a) then 2 else 3
  }

  /** memory_pool_free: the cache of the size's class, then the pool the address lies in, then the system. */
  function Free(m: Pool, t: nat, a: Addr, size: nat): Pool
    requires Wf(m) && t < |m.caches|
  {
    var gone := m.(live := m.live - {a});
    var c := ClassOf(size);
    if !InAnyPool(m.layout, a) then gone
    else if c < 3 && |m.caches[t][c]| < CACHE_SIZE then SetCache(gone, t, c, m.caches[t][c] + [a])
    else PushFree(gone, ClassAt(m.layout, a), a)
  }

  /** One round of the drain loop. */
  function DrainOne(m: Pool, t: nat, c: nat): Pool
    requires Wf(m) && t < |m.caches| && c < 3
  {
    var s := m.caches[t][c];
    if s == [] then m
    else
      var a := s[|s| - 1];
      var popped := SetCache(m, t, c, s[..|s| - 1]);
      if InRange(m.layout, c, a) then PushFree(popped, c, a) else popped
  }

  datatype Step =
    | DoAlloc(thread: nat, size: nat, sys: Addr)
    | DoFree(thread: nat, addr: Addr)
    | DoDrain(thread: nat, class_: nat)

  /** Two allocations do not touch; a zero-size one still has an address of its own. */
  predicate Disjoint(a: Addr, size: nat, b: Addr, bsize: nat) {
    a != b && (a + size <= b || b + bsize <= a)
  }

  /** What malloc guarantees: an address outside the pools, clear of everything live. */
  predicate SystemOk(m: Pool, sys: Addr, size: nat) {
    && sys > 0 && !InAnyPool(m.layout, sys)
    && (forall c :: 0 <= c < 3 ==> sys + size <= m.layout[c] || m.layout[c] + Extent(c) <= sys)
    && (forall b :: b in m.live && !InAnyPool(m.layout, b) ==> Disjoint(sys, size, b, m.live[b]))
  }

  /** Threads exist, malloc keeps its promise, and a caller frees what is live. */
  predicate Allowed(m: Pool, s: Step) {
    match s
    case DoAlloc(t, size, sys) => t < |m.caches| && (SourceOf(m, t, size) == FromSystem ==> SystemOk(m, sys, size))
    case DoFree(t, a) => t < |m.caches| && a in m.live
    case DoDrain(t, c) => t < |m.caches| && c < 3
  }

  /** Blocks are freed with the size they were allocated with. */
  function Apply(m: Pool, s: Step): (r: Pool)
    requires Wf(m) && Allowed(m, s)
    ensures Wf(r)
  {
    match s
    case DoAlloc(t, size, sys) => Alloc(m, t, size, sys)
    case DoFree(t, a) => Free(m, t, a, m.live[a])
    case DoDrain(t, c) => DrainOne(m, t, c)
  }

  predicate AllowedRun(m: Pool, steps: seq<Step>)
    requires Wf(m)
    decreases |steps|
  {
    steps == [] || (Allowed(m, steps[0]) && AllowedRun(Apply(m, steps[0]), steps[1..]))
  }

  function Run(m: Pool, steps: seq<Step>): Pool
    requires Wf(m) && AllowedRun(m, steps)
    decreases |steps|
  {
    if steps == [] then m else Run(Apply(m, steps[0]), steps[1..])
  }

  // ---------------------------------------------------------------------------
  // The invariant
  // ---------------------------------------------------------------------------

  function CacheCount(cs: seq<Caches>, c: nat, a: Addr): nat
    requires c < 3
  {
    if cs == [] then 0 else CacheCount(cs[..|cs| - 1], c, a) + CountIn(cs[|cs| - 1][c], a)
  }

  /** How many lists and caches of class c hold the address. */
  function Held(m: Pool, c: nat, a: Addr): nat
    requires c < 3
  {
    CountIn(m.free[c], a) + CacheCount(m.caches, c, a)
  }

  /** Each block is in exactly one place: the free list, one cache, or live. Nothing else is in a list. */
  predicate Placed(m: Pool, c: nat, a: Addr)
    requires c < 3
  {
    Held(m, c, a) + B(IsBlock(m.layout, c, a) && a in m.live) == B(IsBlock(m.layout, c, a))
  }

  /** A live address in a pool is a block of the class of its size. */
  predicate LiveOk(m: Pool, a: Addr) {
    a in m.live ==>
      && (InAnyPool(m.layout, a) ==> ClassOf(m.live[a]) < 3 && IsBlock(m.layout, ClassOf(m.live[a]), a))
      && (!InAnyPool(m.layout, a) ==>
            forall c :: 0 <= c < 3 ==> a + m.live[a] <= m.layout[c] || m.layout[c] + Extent(c) <= a)
  }

  predicate SystemApart(m: Pool, a: Addr, b: Addr) {
    a in m.live && b in m.live && a != b && !InAnyPool(m.layout, a) && !InAnyPool(m.layout, b) ==>
      Disjoint(a, m.live[a], b, m.live[b])
  }

  predicate Counted(m: Pool) {
    && Wf(m)
    && (forall c :: 0 <= c < 3 ==> m.freeBlocks[c] == |m.free[c]|)
    && (forall t, c :: 0 <= t < |m.caches| && 0 <= c < 3 ==> |m.caches[t][c]| <= CACHE_SIZE)
  }

  ghost predicate Inv(m: Pool) {
    && Counted(m)
    && (forall c, a :: 0 <= c < 3 && 0 <= a ==> Placed(m, c, a))
    && (forall a: Addr :: LiveOk(m, a))
    && (forall a: Addr, b: Addr :: SystemApart(m, a, b))
  }

  // ---------------------------------------------------------------------------
  // Geometry
  // ---------------------------------------------------------------------------

  /** Two different blocks of a class are a block apart. */
  lemma BlocksApart(x: nat, y: nat, size: nat)
    requires size > 0 && x % size == 0 && y % size == 0 && x < y
    ensures x + size <= y
  {
    var p, q := x / size, y / size;
    assert x == p * size && y == q * size;
    if p >= q {
      MulMonotone(q, p, size, size);
    } else {
      MulMonotone(p + 1, q, size, size);
      assert (p + 1) * size == p * size + size;
    }
  }

  /** A block ends within its class's array. */
  lemma BlockFits(l: Layout, c: nat, a: Addr)
    requires c < 3 && IsBlock(l, c, a)
    ensures a + BlockSize(c) <= l[c] + Extent(c)
  {
    var size := BlockSize(c);
    DivModUnique(Extent(c), size, Total(c), 0);
    BlocksApart(a - l[c], Extent(c), size);
  }

  lemma OneClass(l: Layout, c: nat, d: nat, a: Addr)
    requires c < 3 && d < 3 && InRange(l, c, a) && InRange(l, d, a)
    ensures c == d
  {
  }

  lemma BlockDisjoint(m: Pool, a: Addr, b: Addr)
    requires LiveOk(m, a) && LiveOk(m, b) && a in m.live && b in m.live && a != b
    requires InAnyPool(m.layout, a)
    ensures Disjoint(a, m.live[a], b, m.live[b])
  {
    var l := m.layout;
    var c := ClassOf(m.live[a]);
    BlockFits(l, c, a);
    if InAnyPool(l, b) {
      var d := ClassOf(m.live[b]);
      BlockFits(l, d, b);
      if c == d {
        if a < b {
          BlocksApart(a - l[c], b - l[c], BlockSize(c));
        } else {
          BlocksApart(b - l[c], a - l[c], BlockSize(c));
        }
      }
    }
  }

  /** No two live allocations overlap, in any state that satisfies the invariant. */
  lemma NoOverlap(m: Pool, a: Addr, b: Addr)
    requires Inv(m) && a in m.live && b in m.live && a != b
    ensures Disjoint(a, m.live[a], b, m.live[b])
  {
    assert LiveOk(m, a) && LiveOk(m, b) && SystemApart(m, a, b);
    if InAnyPool(m.layout, a) {
      BlockDisjoint(m, a, b);
    } else if InAnyPool(m.layout, b) {
      BlockDisjoint(m, b, a);
    }
  }

  // ---------------------------------------------------------------------------
  // Counting
  // ---------------------------------------------------------------------------

  lemma {:induction false} CacheCountUpdate(cs: seq<Caches>, t: nat, x: Caches, c: nat, a: Addr)
    requires t < |cs| && c < 3
    ensures CacheCount(cs[t := x], c, a) + CountIn(cs[t][c], a) == CacheCount(cs, c, a) + CountIn(x[c], a)
  {
    var n := |cs| - 1;
    if t == n {
      assert cs[t := x][..n] == cs[..n];
    } else {
      CacheCountUpdate(cs[..n], t, x, c, a);
      assert cs[t := x][..n] == cs[..n][t := x];
    }
  }

  lemma SetCacheHeld(m: Pool, t: nat, c: nat, s: seq<Addr>, d: nat, a: Addr)
    requires t < |m.caches| && c < 3 && d < 3
    ensures Held(SetCache(m, t, c, s), d, a) + B(c == d) * CountIn(m.caches[t][c], a)
         == Held(m, d, a) + B(c == d) * CountIn(s, a)
  {
    CacheCountUpdate(m.caches, t, m.caches[t][c := s], d, a);
  }

  lemma SnocCount(s: seq<Addr>, x: Addr, a: Addr)
    ensures CountIn(s + [x], a) == CountIn(s, a) + B(x == a)
  {
  }

  lemma ConsCount(s: seq<Addr>, x: Addr, a: Addr)
    ensures CountIn([x] + s, a) == CountIn(s, a) + B(x == a)
  {
  }

  lemma PushHeld(m: Pool, c: nat, x: Addr, d: nat, a: Addr)
    requires Wf(m) && c < 3 && d < 3
    ensures Held(PushFree(m, c, x), d, a) == Held(m, d, a) + B(c == d && x == a)
  {
    ConsCount(m.free[c], x, a);
  }

  lemma PopHeld(m: Pool, c: nat, d: nat, a: Addr)
    requires Wf(m) && c < 3 && d < 3 && m.free[c] != []
    ensures Held(PopFree(m, c), d, a) + B(c == d && m.free[c][0] == a) == Held(m, d, a)
  {
    assert m.free[c] == [m.free[c][0]] + m.free[c][1..];
    ConsCount(m.free[c][1..], m.free[c][0], a);
  }

  lemma CachePopHeld(m: Pool, t: nat, c: nat, d: nat, a: Addr)
    requires t < |m.caches| && c < 3 && d < 3 && m.caches[t][c] != []
    ensures var s := m.caches[t][c];
            Held(SetCache(m, t, c, s[..|s| - 1]), d, a) + B(c == d && s[|s| - 1] == a) == Held(m, d, a)
  {
    var s := m.caches[t][c];
    assert s == s[..|s| - 1] + [s[|s| - 1]];
    SnocCount(s[..|s| - 1], s[|s| - 1], a);
    SetCacheHeld(m, t, c, s[..|s| - 1], d, a);
  }

  lemma CachePushHeld(m: Pool, t: nat, c: nat, x: Addr, d: nat, a: Addr)
    requires t < |m.caches| && c < 3 && d < 3
    ensures Held(SetCache(m, t, c, m.caches[t][c] + [x]), d, a) == Held(m, d, a) + B(c == d && x == a)
  {
    SnocCount(m.caches[t][c], x, a);
    SetCacheHeld(m, t, c, m.caches[t][c] + [x], d, a);
  }

  // ---------------------------------------------------------------------------
  // Steps
  // ---------------------------------------------------------------------------

  /** The address handed out was in a list of its class, so it was a block and not live. */
  lemma AllocFromList(m: Pool, t: nat, size: nat, sys: Addr)
    requires Inv(m) && t < |m.caches| && SourceOf(m, t, size) != FromSystem
    ensures var a := AllocAddr(m, t, size, sys);
            ClassOf(size) < 3 && IsBlock(m.layout, ClassOf(size), a) && a !in m.live
  {
    var c, a := ClassOf(size), AllocAddr(m, t, size, sys);
    assert Placed(m, c, a);
    if m.caches[t][c] != [] {
      CachePopHeld(m, t, c, c, a);
    } else {
      PopHeld(m, c, c, a);
    }
  }

  lemma AllocPlaced(m: Pool, t: nat, size: nat, sys: Addr, c: nat, a: Addr)
    requires Inv(m) && Allowed(m, DoAlloc(t, size, sys)) && c < 3
    ensures Placed(Alloc(m, t, size, sys), c, a)
  {
    var k, x := ClassOf(size), AllocAddr(m, t, size, sys);
    assert Placed(m, c, a);
    match SourceOf(m, t, size)
    case FromCache =>
      AllocFromList(m, t, size, sys);
      CachePopHeld(m, t, k, c, a);
      if IsBlock(m.layout, c, x) { OneClass(m.layout, c, k, x); }
    case FromPool =>
      AllocFromList(m, t, size, sys);
      PopHeld(m, k, c, a);
      if IsBlock(m.layout, c, x) { OneClass(m.layout, c, k, x); }
    case FromSystem =>
      assert SystemOk(m, sys, size);
  }

  lemma FreePlaced(m: Pool, t: nat, x: Addr, c: nat, a: Addr)
    requires Inv(m) && Allowed(m, DoFree(t, x)) && c < 3
    ensures Placed(Free(m, t, x, m.live[x]), c, a)
  {
    assert Placed(m, c, a) && LiveOk(m, x);
    var gone := m.(live := m.live - {x});
    var k := ClassOf(m.live[x]);
    if InAnyPool(m.layout, x) {
      OneClass(m.layout, k, ClassAt(m.layout, x), x);
      if IsBlock(m.layout, c, x) { OneClass(m.layout, c, k, x); }
      CachePushHeld(gone, t, k, x, c, a);
      PushHeld(gone, k, x, c, a);
    }
  }

  lemma DrainPlaced(m: Pool, t: nat, k: nat, c: nat, a: Addr)
    requires Inv(m) && t < |m.caches| && k < 3 && c < 3
    ensures Placed(DrainOne(m, t, k), c, a)
  {
    assert Placed(m, c, a);
    var s := m.caches[t][k];
    if s != [] {
      var x := s[|s| - 1];
      var popped := SetCache(m, t, k, s[..|s| - 1]);
      assert Placed(m, k, x);
      CachePopHeld(m, t, k, c, a);
      CachePopHeld(m, t, k, k, x);
      PushHeld(popped, k, x, c, a);
    }
  }

  lemma AllocLiveOk(m: Pool, t: nat, size: nat, sys: Addr, a: Addr)
    requires Inv(m) && Allowed(m, DoAlloc(t, size, sys))
    ensures LiveOk(Alloc(m, t, size, sys), a)
  {
    assert LiveOk(m, a);
    var x := AllocAddr(m, t, size, sys);
    if SourceOf(m, t, size) != FromSystem {
      AllocFromList(m, t, size, sys);
    }
    if a == x {
      assert Alloc(m, t, size, sys).live[a] == size;
    } else {
      assert a in m.live <==> a in Alloc(m, t, size, sys).live;
    }
  }

  lemma AllocApart(m: Pool, t: nat, size: nat, sys: Addr, a: Addr, b: Addr)
    requires Inv(m) && Allowed(m, DoAlloc(t, size, sys))
    ensures SystemApart(Alloc(m, t, size, sys), a, b)
  {
    assert SystemApart(m, a, b);
    if SourceOf(m, t, size) != FromSystem {
      AllocFromList(m, t, size, sys);
    }
  }

  lemma StepCounted(m: Pool, s: Step)
    requires Counted(m) && Allowed(m, s)
    ensures Counted(Apply(m, s))
  {
  }

  lemma StepPlaced(m: Pool, s: Step, c: nat, a: Addr)
    requires Inv(m) && Allowed(m, s) && c < 3
    ensures Placed(Apply(m, s), c, a)
  {
    match s
    case DoAlloc(t, size, sys) => AllocPlaced(m, t, size, sys, c, a);
    case DoFree(t, x) => FreePlaced(m, t, x, c, a);
    case DoDrain(t, k) => DrainPlaced(m, t, k, c, a);
  }

  /** Every step keeps the invariant. */
  lemma StepInv(m: Pool, s: Step)
    requires Inv(m) && Allowed(m, s)
    ensures Inv(Apply(m, s))
  {
    StepCounted(m, s);
    var r := Apply(m, s);
    forall c, a | 0 <= c < 3 && 0 <= a ensures Placed(r, c, a) { StepPlaced(m, s, c, a); }
    forall a: Addr ensures LiveOk(r, a) { StepLiveOk(m, s, a); }
    forall a: Addr, b: Addr ensures SystemApart(r, a, b) { StepApart(m, s, a, b); }
  }

  lemma StepLiveOk(m: Pool, s: Step, a: Addr)
    requires Inv(m) && Allowed(m, s)
    ensures LiveOk(Apply(m, s), a)
  {
    if s.DoAlloc? {
      AllocLiveOk(m, s.thread, s.size, s.sys, a);
    } else {
      OthersKeepLive(m, s);
      FewerLive(m, Apply(m, s), a);
    }
  }

  lemma OthersKeepLive(m: Pool, s: Step)
    requires Wf(m) && Allowed(m, s) && !s.DoAlloc?
    ensures var r := Apply(m, s);
            r.layout == m.layout && (r.live == m.live || (s.DoFree? && r.live == m.live - {s.addr}))
  {
  }

  lemma FewerLive(m: Pool, r: Pool, a: Addr)
    requires LiveOk(m, a) && r.layout == m.layout && (a in r.live ==> a in m.live && r.live[a] == m.live[a])
    ensures LiveOk(r, a)
  {
  }

  lemma StepApart(m: Pool, s: Step, a: Addr, b: Addr)
    requires Inv(m) && Allowed(m, s)
    ensures SystemApart(Apply(m, s), a, b)
  {
    assert SystemApart(m, a, b);
    if s.DoAlloc? { AllocApart(m, s.thread, s.size, s.sys, a, b); }
  }

  // ---------------------------------------------------------------------------
  // Runs
  // ---------------------------------------------------------------------------

  /** The address is one of the first n block starts. */
  predicate Among(a: Addr, start: Addr, size: nat, n: nat)
    requires size > 0
  {
    a >= start && (a - start) % size == 0 && a - start < n * size
  }

  lemma AmongStep(a: Addr, start: Addr, size: nat, n: nat)
    requires size > 0
    ensures B(Among(a, start, size, n + 1)) == B(Among(a, start, size, n)) + B(BlockAt(start, size, n) == a)
  {
    var top := n * size;
    assert (n + 1) * size == top + size;
    DivModUnique(top, size, n, 0);
    if a >= start && (a - start) % size == 0 && top < a - start {
      BlocksApart(top, a - start, size);
    }
  }

  /** Each of the first n blocks is listed once, and nothing else. */
  lemma {:induction false} BlocksCount(start: Addr, size: nat, n: nat, a: Addr)
    requires size > 0
    ensures CountIn(Blocks(start, size, n), a) == B(Among(a, start, size, n))
  {
    if n == 0 {
      assert n * size == 0;
    } else {
      var front, last := Blocks(start, size, n - 1), BlockAt(start, size, n - 1);
      assert Blocks(start, size, n) == front + [last];
      BlocksCount(start, size, n - 1, a);
      SnocCount(front, last, a);
      AmongStep(a, start, size, n - 1);
      assert CountIn(front, a) == B(Among(a, start, size, n - 1));
    }
  }

  lemma {:induction false} EmptyCaches(threads: nat, c: nat, a: Addr)
    requires c < 3
    ensures CacheCount(NoCaches(threads), c, a) == 0
  {
    if threads == 0 {
    } else {
      EmptyCaches(threads - 1, c, a);
      assert NoCaches(threads)[..threads - 1] == NoCaches(threads - 1);
    }
  }

  lemma InitInv(l: Layout, threads: nat)
    ensures Inv(Init(l, threads))
  {
    var m := Init(l, threads);
    forall c, a | 0 <= c < 3 && 0 <= a ensures Placed(m, c, a) { InitPlaced(l, threads, c, a); }
  }

  lemma InitPlaced(l: Layout, threads: nat, c: nat, a: Addr)
    requires c < 3
    ensures Placed(Init(l, threads), c, a)
  {
    assert Init(l, threads).free[c] == AllBlocks(l, c);
    BlocksCount(l[c], BlockSize(c), Total(c), a);
    assert Among(a, l[c], BlockSize(c), Total(c)) <==> IsBlock(l, c, a);
    EmptyCaches(threads, c, a);
  }

  lemma {:induction false} RunInv(m: Pool, steps: seq<Step>)
    requires Inv(m) && AllowedRun(m, steps)
    ensures Inv(Run(m, steps))
    decreases |steps|
  {
    if steps == [] {
    } else {
      StepInv(m, steps[0]);
      RunInv(Apply(m, steps[0]), steps[1..]);
    }
  }

  /**
   * After any interleaving, every block of every class is in exactly one of the class free list, one
   * thread's cache and the live set; free_blocks is the length of its list; and no two live
   * allocations overlap.
   */
  lemma Conservation(l: Layout, threads: nat, steps: seq<Step>)
    requires AllowedRun(Init(l, threads), steps)
    ensures var m := Run(Init(l, threads), steps);
            && Counted(m)
            && (forall c, a :: 0 <= c < 3 && 0 <= a ==> Placed(m, c, a))
            && (forall a: Addr, b: Addr :: a in m.live && b in m.live && a != b ==>
                  Disjoint(a, m.live[a], b, m.live[b]))
  {
    InitInv(l, threads);
    RunInv(Init(l, threads), steps);
    var m := Run(Init(l, threads), steps);
    forall a: Addr, b: Addr | a in m.live && b in m.live && a != b
      ensures Disjoint(a, m.live[a], b, m.live[b])
    {
      NoOverlap(m, a, b);
    }
  }

  // ---------------------------------------------------------------------------
  // In place
  // ---------------------------------------------------------------------------

  /** memory_pool_class_init: links the blocks of the array into a list, in order. */
  method LinkBlocks(start: Addr, size: nat, total: nat) returns (list: seq<Addr>)
    requires total > 0
    ensures list == Blocks(start, size, total)
  {
    list := [start];
    assert Blocks(start, size, 0) + [BlockAt(start, size, 0)] == [start];
    var i := 0;
    while i < total - 1
      invariant 0 <= i <= total - 1 && list == Blocks(start, size, i + 1)
    {
      list := list + [BlockAt(start, size, i + 1)];
      i := i + 1;
    }
  }

  class Allocator {
    const layout: Layout
    var free: Caches
    var freeBlocks: seq<int>
    var caches: seq<Caches>
    ghost var live: map<Addr, nat>

    ghost function State(): Pool
      reads this
    {
      Pool(layout, free, freeBlocks, caches, live)
    }

    constructor (l: Layout, threads: nat)
      ensures State() == Init(l, threads) && Inv(State())
    {
      layout := l;
      var small := LinkBlocks(l[0], BlockSize(0), Total(0));
      var medium := LinkBlocks(l[1], BlockSize(1), Total(1));
      var large := LinkBlocks(l[2], BlockSize(2), Total(2));
      free, freeBlocks := [small, medium, large], [Total(0), Total(1), Total(2)];
      caches, live := NoCaches(threads), map[];
      new;
      InitInv(l, threads);
    }

    method ClassAlloc(c: nat) returns (a: Addr)
      requires Wf(State()) && c < 3
      modifies this`free, this`freeBlocks
      ensures old(free[c]) == [] ==> a == 0 && State() == old(State())
      ensures old(free[c]) != [] ==> a == old(free[c][0]) && State() == PopFree(old(State()), c)
    {
      if free[c] == [] { return 0; }
      a := free[c][0];
      free := free[c := free[c][1..]];
      freeBlocks := freeBlocks[c := freeBlocks[c] - 1];
    }

    method ClassFree(c: nat, a: Addr) returns (done: bool)
      requires Wf(State()) && c < 3
      modifies this`free, this`freeBlocks
      ensures done == InRange(layout, c, a)
      ensures State() == if done then PushFree(old(State()), c, a) else old(State())
    {
      if a < layout[c] || a >= layout[c] + BlockSize(c) * Total(c) { return false; }
      free := free[c := [a] + free[c]];
      freeBlocks := freeBlocks[c := freeBlocks[c] + 1];
      return true;
    }

    /** memory_pool_alloc for thread t. */
    method Allocate(t: nat, size: nat, sys: Addr) returns (a: Addr)
      requires Inv(State()) && Allowed(State(), DoAlloc(t, size, sys))
      modifies this
      ensures State() == Alloc(old(State()), t, size, sys) && Inv(State())
      ensures a == AllocAddr(old(State()), t, size, sys) && a > 0 && a !in old(live)
    {
      ghost var m := State();
      StepInv(m, DoAlloc(t, size, sys));
      FreshAddress(m, t, size, sys);
      var c := ClassOf(size);
      if c == 3 {
        a := sys;
      } else if |caches[t][c]| > 0 {
        var n := |caches[t][c]| - 1;
        a := caches[t][c][n];
        caches := caches[t := caches[t][c := caches[t][c][..n]]];
      } else {
        a := ClassAlloc(c);
        if a == 0 { a := sys; }
      }
      live := live[a := size];
    }

    /** memory_pool_free with the size the block was allocated with. */
    method Release(t: nat, a: Addr, size: nat)
      requires Inv(State()) && Allowed(State(), DoFree(t, a)) && live[a] == size
      modifies this
      ensures State() == Free(old(State()), t, a, size) && Inv(State())
    {
      ghost var m := State();
      StepInv(m, DoFree(t, a));
      live := live - {a};
      var c := ClassOf(size);
      if !InAnyPool(layout, a) { return; }
      if c < 3 && |caches[t][c]| < CACHE_SIZE {
        caches := caches[t := caches[t][c := caches[t][c] + [a]]];
        return;
      }
      var i := 0;
      while i < 3
        invariant 0 <= i < 3 && i <= ClassAt(layout, a) && State() == m.(live := m.live - {a})
      {
        var done := ClassFree(i, a);
        if done { return; }
        i := i + 1;
      }
    }

    /** memory_pool_tls_drain: the thread's caches end up empty, the other threads' stay as they are. */
    method Drain(t: nat)
      requires Inv(State()) && t < |caches|
      modifies this`free, this`freeBlocks, this`caches
      ensures Inv(State()) && caches == old(caches)[t := [[], [], []]]
    {
      DrainClass(t, 0);
      DrainClass(t, 1);
      DrainClass(t, 2);
      assert caches[t] == [[], [], []];
    }

    method DrainClass(t: nat, c: nat)
      requires Inv(State()) && t < |caches| && c < 3
      modifies this`free, this`freeBlocks, this`caches
      ensures Inv(State()) && |caches| == old(|caches|) && caches[t][c] == []
      ensures forall i :: 0 <= i < |caches| && i != t ==> caches[i] == old(caches[i])
      ensures forall d :: 0 <= d < 3 && d != c ==> caches[t][d] == old(caches[t][d])
    {
      while caches[t][c] != []
        invariant Inv(State()) && |caches| == old(|caches|)
        invariant forall i :: 0 <= i < |caches| && i != t ==> caches[i] == old(caches[i])
        invariant forall d :: 0 <= d < 3 && d != c ==> caches[t][d] == old(caches[t][d])
        decreases |caches[t][c]|
      {
        StepInv(State(), DoDrain(t, c));
        var n := |caches[t][c]| - 1;
        var a := caches[t][c][n];
        caches := caches[t := caches[t][c := caches[t][c][..n]]];
        var _ := ClassFree(c, a);
      }
    }
  }

  /** What is handed out is a real address that nobody holds. */
  lemma FreshAddress(m: Pool, t: nat, size: nat, sys: Addr)
    requires Inv(m) && Allowed(m, DoAlloc(t, size, sys))
    ensures AllocAddr(m, t, size, sys) > 0 && AllocAddr(m, t, size, sys) !in m.live
    ensures SourceOf(m, t, size) != FromSystem ==>
              ClassOf(size) < 3 && InRange(m.layout, ClassOf(size), AllocAddr(m, t, size, sys))
  {
    if SourceOf(m, t, size) != FromSystem {
      AllocFromList(m, t, size, sys);
    } else if sys in m.live {
      assert LiveOk(m, sys);
    }
  }
}
