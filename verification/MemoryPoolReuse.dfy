/** Where the pool's blocks come from and go to: reuse, overflow of a cache, exhaustion. */
module MemoryPoolReuse {
  import opened Sequences
  import opened MemoryPool

  /** 10000 blocks of 64 bytes, 5000 of 256 and 2000 of 1024, each array in address order. */
  lemma InitialBlocks(l: Layout, threads: nat, i: nat)
    ensures var m := Init(l, threads);
            && |m.free[0]| == 10000 && |m.free[1]| == 5000 && |m.free[2]| == 2000
            && (i < 10000 ==> m.free[0][i] == l[0] + 64 * i)
            && (i < 5000 ==> m.free[1][i] == l[1] + 256 * i)
            && (i < 2000 ==> m.free[2][i] == l[2] + 1024 * i)
  {
    if i < 10000 { BlocksAt(l[0], 64, 10000, i); }
    if i < 5000 { BlocksAt(l[1], 256, 5000, i); }
    if i < 2000 { BlocksAt(l[2], 1024, 2000, i); }
  }

  lemma {:induction false} BlocksAt(start: Addr, size: nat, n: nat, i: nat)
    requires i < n
    ensures Blocks(start, size, n)[i] == start + i * size
  {
    if i < n - 1 { BlocksAt(start, size, n - 1, i); }
  }

  /** A released block goes to the thread's cache while that holds fewer than 32, and is the next one given out. */
  lemma ReleaseThenAllocate(m: Pool, t: nat, a: Addr, size: nat, next: nat, sys: Addr)
    requires Wf(m) && t < |m.caches| && InAnyPool(m.layout, a)
    requires ClassOf(size) < 3 && ClassOf(next) == ClassOf(size) && |m.caches[t][ClassOf(size)]| < 32
    ensures var r := Free(m, t, a, size);
            && AllocAddr(r, t, next, sys) == a
            && Alloc(r, t, next, sys).(live := m.live) == m
  {
    var c, r := ClassOf(size), Free(m, t, a, size);
    assert r.caches[t][c][..|m.caches[t][c]|] == m.caches[t][c];
    var back := Alloc(r, t, next, sys);
    assert back.caches[t] == m.caches[t];
    assert back.caches == m.caches;
  }

  /** The 33rd goes to the class list, and is the next one given to a thread whose cache is empty. */
  lemma OverflowThenAllocate(m: Pool, t: nat, a: Addr, size: nat, u: nat, sys: Addr)
    requires Inv(m) && t < |m.caches| && u < |m.caches| && a in m.live && InAnyPool(m.layout, a)
    requires m.live[a] == size <= 1024 && |m.caches[t][ClassOf(size)]| == 32 && m.caches[u][ClassOf(size)] == []
    ensures var r := Free(m, t, a, size);
            r.caches == m.caches && AllocAddr(r, u, size, sys) == a && Alloc(r, u, size, sys).free == m.free
  {
    assert LiveOk(m, a);
    OneClass(m.layout, ClassOf(size), ClassAt(m.layout, a), a);
  }

  // ---------------------------------------------------------------------------
  // Exhaustion
  // ---------------------------------------------------------------------------

  lemma {:induction false} CacheCountAt(cs: seq<Caches>, c: nat, a: Addr, u: nat)
    requires c < 3 && u < |cs|
    ensures CacheCount(cs, c, a) >= CountIn(cs[u][c], a)
  {
    if u < |cs| - 1 { CacheCountAt(cs[..|cs| - 1], c, a, u); }
  }

  lemma CacheCountTwo(cs: seq<Caches>, c: nat, a: Addr, t: nat, u: nat)
    requires c < 3 && t < |cs| && u < |cs| && t != u
    ensures CacheCount(cs, c, a) >= CountIn(cs[t][c], a) + CountIn(cs[u][c], a)
  {
    CacheCountUpdate(cs, t, [[], [], []], c, a);
    CacheCountAt(cs[t := [[], [], []]], c, a, u);
  }

  lemma {:induction false} CacheCountSome(cs: seq<Caches>, c: nat, a: Addr)
    requires c < 3 && CacheCount(cs, c, a) > 0
    ensures exists u :: 0 <= u < |cs| && a in cs[u][c]
  {
    var n := |cs| - 1;
    if CountIn(cs[n][c], a) == 0 {
      CacheCountSome(cs[..n], c, a);
      var u :| 0 <= u < n && a in cs[..n][u][c];
      assert a in cs[u][c];
    }
  }

  /** The block is in use or in the cache of another thread. */
  predicate Elsewhere(m: Pool, t: nat, c: nat, a: Addr)
    requires c < 3
  {
    a in m.live || exists u :: 0 <= u < |m.caches| && u != t && a in m.caches[u][c]
  }

  /** A block in the thread's own cache, or in the class list, is nowhere else. */
  lemma OwnIsNotElsewhere(m: Pool, t: nat, c: nat, a: Addr)
    requires Inv(m) && t < |m.caches| && c < 3 && (a in m.caches[t][c] || a in m.free[c])
    ensures IsBlock(m.layout, c, a) && !Elsewhere(m, t, c, a)
  {
    assert Placed(m, c, a);
    CacheCountAt(m.caches, c, a, t);
    forall u | 0 <= u < |m.caches| && u != t
      ensures a !in m.caches[u][c]
    {
      CacheCountAt(m.caches, c, a, u);
      CacheCountTwo(m.caches, c, a, t, u);
    }
  }

  lemma NotOwnIsElsewhere(m: Pool, t: nat, c: nat, a: Addr)
    requires Inv(m) && t < |m.caches| && c < 3 && IsBlock(m.layout, c, a) && a !in m.caches[t][c] && a !in m.free[c]
    ensures Elsewhere(m, t, c, a)
  {
    assert Placed(m, c, a);
    if a !in m.live {
      CacheCountSome(m.caches, c, a);
    }
  }

  /** The system is asked exactly when the size exceeds 1024 or every block of the class is elsewhere. */
  lemma SystemIffExhausted(m: Pool, t: nat, size: nat)
    requires Inv(m) && t < |m.caches|
    ensures SourceOf(m, t, size) == FromSystem <==>
            size > 1024 || forall a: Addr :: IsBlock(m.layout, ClassOf(size), a) ==> Elsewhere(m, t, ClassOf(size), a)
  {
    if size <= 1024 {
      var c := ClassOf(size);
      if SourceOf(m, t, size) == FromSystem {
        forall a: Addr | IsBlock(m.layout, c, a)
          ensures Elsewhere(m, t, c, a)
        {
          NotOwnIsElsewhere(m, t, c, a);
        }
      } else {
        var a := AllocAddr(m, t, size, 0);
        assert a in m.caches[t][c] || a in m.free[c];
        OwnIsNotElsewhere(m, t, c, a);
      }
    }
  }
}
