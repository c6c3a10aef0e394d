/** Deletion and resizes: what removing an element takes out of a filter that has been resized since. */
module ElasticDeletion {
  // An element is stored with the fingerprint of the size at which it was inserted, and a resize moves
  // bits into or out of it. Deletion looks for the full fingerprint at the current size. The two agree
  // exactly when the modulus that resizes have left of the stored hash is the modulus of a new entry.

  import opened Words
  import opened Arith
  import opened ElasticFilter
  import opened ElasticCodes
  import opened ElasticRuns
  import opened ElasticLaws
  import opened ElasticCopies

  /** The modulus resizes leave of what was stored ... */
  function StoredModulus(size: nat, fpBits: nat, steps: seq<Step>): (m: nat)
    requires size > 0 && Keeping(size, steps)
    ensures m > 0
  {
    var n := size * Pow(2, Width(fpBits));
    MulAtLeast(Pow(2, Width(fpBits)), size);
    ModulusRun(size, steps, Width(fpBits), n);
    ModulusAfter(size, steps, Width(fpBits), n)
  }

  /** ... and that of an entry made now. */
  function CurrentModulus(size: nat, fpBits: nat, steps: seq<Step>): nat {
    FinalSize(size, steps) * Pow(2, Width(fpBits))
  }

  // ---------------------------------------------------------------------------
  // Other elements
  // ---------------------------------------------------------------------------

  /**
   * An element that the filter tracks modulo m, at least its size, stays contained when another one goes
   * none of whose codes agrees with it modulo m.
   */
  lemma DeleteSparesOthers(hash: Hasher, f: Filter, gone: seq<Byte>, kept: seq<Byte>, r: int, m: nat)
    requires Wf(f) && Modulus(f.size, r, m) && r >= 0
    requires forall i :: 0 <= i < f.hashCount ==> Tracked(f, HashAt(hash, f, kept, i), m)
    requires forall i, j :: 0 <= i < f.hashCount && 0 <= j < f.hashCount ==>
               CodeOf(HashAt(hash, f, gone, j), f.size, f.fpBits) % m != HashAt(hash, f, kept, i) % m
    ensures Contains(hash, Delete(hash, f, gone), kept)
  {
    var g := Delete(hash, f, gone);
    forall i | 0 <= i < g.hashCount
      ensures Hit(g, HashAt(hash, g, kept, i))
    {
      var h := HashAt(hash, f, kept, i);
      var c: nat :| Stored(f, c) && c % m == h % m;
      DropRoundsSpare(hash, f, gone, f.hashCount, c);
      assert Stored(g, c) && Tracked(g, h, m);
      TrackedHits(g, h, r, m);
    }
    ContainsIffHit(hash, g, kept);
  }

  lemma StoredIsModulus(size: nat, fpBits: nat, steps: seq<Step>)
    requires size > 0 && Keeping(size, steps)
    ensures Modulus(FinalSize(size, steps), ReliableAfter(size, steps, Width(fpBits)),
                    StoredModulus(size, fpBits, steps))
  {
    MulAtLeast(Pow(2, Width(fpBits)), size);
    ModulusRun(size, steps, Width(fpBits), size * Pow(2, Width(fpBits)));
  }

  /** Every hash round of an element inserted before the run is tracked at its end. */
  lemma InsertedTracked(hash: Hasher, f: Filter, data: seq<Byte>, steps: seq<Step>, i: nat)
    requires Wf(f) && Keeping(f.size, steps) && i < f.hashCount
    ensures var m := StoredModulus(f.size, f.fpBits, steps);
            Tracked(Run(hash, Insert(hash, f, data), steps), HashAt(hash, f, data, i), m)
  {
    var w := Width(f.fpBits);
    var n := f.size * Pow(2, w);
    MulAtLeast(Pow(2, w), f.size);
    RoundTracked(hash, f, data, i, n);
    RunTracks(hash, Insert(hash, f, data), steps, HashAt(hash, f, data, i), w, n);
  }

  /** The same for an element inserted before any run of insertions, merges and resizes. */
  lemma DeleteSparesInserted(hash: Hasher, f: Filter, kept: seq<Byte>, steps: seq<Step>, gone: seq<Byte>)
    requires Wf(f) && Keeping(f.size, steps) && ReliableAfter(f.size, steps, Width(f.fpBits)) >= 0
    requires var e := Run(hash, Insert(hash, f, kept), steps);
             forall i, j :: 0 <= i < e.hashCount && 0 <= j < e.hashCount ==>
               CodeOf(HashAt(hash, e, gone, j), e.size, e.fpBits) % StoredModulus(f.size, f.fpBits, steps)
               != HashAt(hash, e, kept, i) % StoredModulus(f.size, f.fpBits, steps)
    ensures Contains(hash, Delete(hash, Run(hash, Insert(hash, f, kept), steps), gone), kept)
  {
    var e := Run(hash, Insert(hash, f, kept), steps);
    var r, m := ReliableAfter(f.size, steps, Width(f.fpBits)), StoredModulus(f.size, f.fpBits, steps);
    RunShape(hash, Insert(hash, f, kept), steps);
    StoredIsModulus(f.size, f.fpBits, steps);
    forall i | 0 <= i < e.hashCount ensures Tracked(e, HashAt(hash, e, kept, i), m) {
      InsertedTracked(hash, f, kept, steps, i);
    }
    DeleteSparesOthers(hash, e, gone, kept, r, m);
  }

  // ---------------------------------------------------------------------------
  // Deletions anywhere in a run
  // ---------------------------------------------------------------------------

  /** No code that the deletion of gone looks for agrees with the hash modulo m. */
  predicate Misses(hash: Hasher, f: Filter, gone: seq<Byte>, h: U64, m: nat)
    requires Wf(f) && m > 0
  {
    forall j :: 0 <= j < f.hashCount ==> CodeOf(HashAt(hash, f, gone, j), f.size, f.fpBits) % m != h % m
  }

  /** A run that loses nothing of the hash h: deletions miss it modulo the modulus of the moment. */
  ghost predicate Sparing(hash: Hasher, f: Filter, h: U64, steps: seq<Step>, r: int, m: nat)
    requires Wf(f)
    decreases |steps|
  {
    steps == [] ||
    (var s := steps[0];
     && m > 0 && (if s.DoDelete? then Misses(hash, f, s.data, h, m) else Keeping(f.size, [s]))
     && Sparing(hash, Apply(hash, f, s), h, steps[1..], Reliable(f.size, s, r), NextModulus(f.size, s, r, m)))
  }

  lemma DeleteTracks(hash: Hasher, f: Filter, gone: seq<Byte>, h: U64, m: nat)
    requires Wf(f) && Tracked(f, h, m) && Misses(hash, f, gone, h, m)
    ensures Tracked(Delete(hash, f, gone), h, m)
  {
    var c: nat :| Stored(f, c) && c % m == h % m;
    DropRoundsSpare(hash, f, gone, f.hashCount, c);
    assert Stored(Delete(hash, f, gone), c);
  }

  lemma {:induction false} SparingTracks(hash: Hasher, f: Filter, steps: seq<Step>, h: U64, r: int, m: nat)
    requires Wf(f) && r <= 32 && Modulus(f.size, r, m) && Sparing(hash, f, h, steps, r, m) && Tracked(f, h, m)
    ensures Tracked(Run(hash, f, steps), h, ModulusAfter(f.size, steps, r, m))
    ensures Modulus(FinalSize(f.size, steps), ReliableAfter(f.size, steps, r), ModulusAfter(f.size, steps, r, m))
    decreases |steps|
  {
    if steps != [] {
      var s := steps[0];
      StepShape(hash, f, s);
      if s.DoDelete? {
        DeleteTracks(hash, f, s.data, h, m);
      } else {
        ModulusStep(f.size, s, r, m);
        StepTracks(hash, f, s, h, r, m);
      }
      SparingTracks(hash, Apply(hash, f, s), steps[1..], h, Reliable(f.size, s, r), NextModulus(f.size, s, r, m));
    }
  }

  lemma SparedHits(hash: Hasher, f: Filter, data: seq<Byte>, steps: seq<Step>, i: nat)
    requires Wf(f) && i < f.hashCount && ReliableAfter(f.size, steps, Width(f.fpBits)) >= 0
    requires var w := Width(f.fpBits);
             Sparing(hash, Insert(hash, f, data), HashAt(hash, f, data, i), steps, w, f.size * Pow(2, w))
    ensures Hit(Run(hash, Insert(hash, f, data), steps), HashAt(hash, f, data, i))
  {
    var g, w, h := Insert(hash, f, data), Width(f.fpBits), HashAt(hash, f, data, i);
    var m := f.size * Pow(2, w);
    RoundTracked(hash, f, data, i, m);
    SparingTracks(hash, g, steps, h, w, m);
    RunShape(hash, g, steps);
    TrackedHits(Run(hash, g, steps), h, ReliableAfter(f.size, steps, w), ModulusAfter(f.size, steps, w, m));
  }

  /**
   * No false negatives with deletions: after an insertion and any run of insertions, merges, resizes and
   * deletions, in any order, the element is reported as long as every deletion misses its hashes, in the
   * bits left of them at that moment, and the bits left at the end are not negative.
   */
  lemma SurvivesDeletions(hash: Hasher, f: Filter, data: seq<Byte>, steps: seq<Step>)
    requires Wf(f) && ReliableAfter(f.size, steps, Width(f.fpBits)) >= 0
    requires var w := Width(f.fpBits);
             forall i :: 0 <= i < f.hashCount ==>
               Sparing(hash, Insert(hash, f, data), HashAt(hash, f, data, i), steps, w, f.size * Pow(2, w))
    ensures Contains(hash, Run(hash, Insert(hash, f, data), steps), data)
  {
    var e := Run(hash, Insert(hash, f, data), steps);
    RunShape(hash, Insert(hash, f, data), steps);
    forall i | 0 <= i < e.hashCount
      ensures Hit(e, HashAt(hash, e, data, i))
    {
      assert HashAt(hash, e, data, i) == HashAt(hash, f, data, i);
      SparedHits(hash, f, data, steps, i);
    }
    ContainsIffHit(hash, e, data);
  }

  // ---------------------------------------------------------------------------
  // The element itself
  // ---------------------------------------------------------------------------

  ghost predicate Vacant(f: Filter)
    requires Wf(f)
  {
    forall c: nat :: !Stored(f, c)
  }

  /** Two moduli below 2^64 are told apart by some hash; beyond, none can. */
  predicate SameModulus(m: nat, n: nat) {
    m == n || (m >= TWO64 && n >= TWO64)
  }

  lemma SameResidue(m: nat, n: nat, h: U64)
    requires m > 0 && n > 0 && SameModulus(m, n)
    ensures h % m == h % n
  {
    if m != n {
      DivModUnique(h, m, 0, h);
      DivModUnique(h, n, 0, h);
    }
  }

  lemma ResidueApart(m: nat, n: nat) returns (h: U64)
    requires m > 0 && n > 0 && !SameModulus(m, n)
    ensures h % m != h % n
  {
    var low, high := if m < n then m else n, if m < n then n else m;
    h := low;
    DivModUnique(low, low, 1, 0);
    DivModUnique(low, high, 0, low);
  }

  /** Through resizes the element has at most one copy of a code for each round that has it as residue. */
  lemma CopiesAfter(hash: Hasher, size: nat, rounds: nat, fpBits: nat, data: seq<Byte>, steps: seq<Step>)
    requires size > 0 && fpBits < 64 && Keeping(size, steps) && ResizesOnly(steps)
    ensures var f := Empty(size, rounds, fpBits);
            Bounded(Run(hash, Single(hash, size, rounds, fpBits, data), steps), Hashes(hash, f, data, rounds),
                    StoredModulus(size, fpBits, steps))
  {
    var w := Width(fpBits);
    var f := Empty(size, rounds, fpBits);
    MulAtLeast(Pow(2, w), size);
    PutBounded(hash, f, data, rounds, size * Pow(2, w));
    var g := Single(hash, size, rounds, fpBits, data);
    forall c: nat ensures Copies(g, c) == Copies(PutRounds(hash, f, data, rounds), c) {}
    RunBounded(hash, g, steps, Hashes(hash, f, data, rounds), w, size * Pow(2, w));
  }

  /** Deletion leaves nothing behind when the two moduli agree on every round's hash. */
  lemma DeleteVacates(hash: Hasher, size: nat, rounds: nat, fpBits: nat, data: seq<Byte>, steps: seq<Step>)
    requires size > 0 && fpBits < 64 && Keeping(size, steps) && ResizesOnly(steps)
    requires CurrentModulus(size, fpBits, steps) > 0
    requires forall i :: 0 <= i < rounds ==>
               var h := HashAt(hash, Empty(size, rounds, fpBits), data, i);
               h % StoredModulus(size, fpBits, steps) == h % CurrentModulus(size, fpBits, steps)
    ensures Vacant(Delete(hash, Run(hash, Single(hash, size, rounds, fpBits, data), steps), data))
  {
    var f, g := Empty(size, rounds, fpBits), Single(hash, size, rounds, fpBits, data);
    var e, hs := Run(hash, g, steps), Hashes(hash, f, data, rounds);
    CopiesAfter(hash, size, rounds, fpBits, data, steps);
    RunShape(hash, g, steps);
    assert Hashes(hash, e, data, rounds) == hs;
    forall c: nat ensures !Stored(Delete(hash, e, data), c) {
      AtSame(hs, StoredModulus(size, fpBits, steps), CurrentModulus(size, fpBits, steps), c);
      DeleteEmpties(hash, e, data, CurrentModulus(size, fpBits, steps), c);
    }
  }

  /** A code stored after resizes lies below the stored modulus. */
  lemma StoredResidue(e: Filter, hs: seq<U64>, m: nat, c: nat)
    requires Wf(e) && Bounded(e, hs, m) && Stored(e, c)
    ensures c < m
  {
    CountMember(e.buckets[c % e.size], c / e.size);
    assert 0 < Copies(e, c) <= At(hs, m, c);
    AtBelow(hs, m, c);
  }

  /** What a round left behind stays when no round's code at the current size meets it. */
  lemma DeleteMisses(hash: Hasher, size: nat, rounds: nat, fpBits: nat, data: seq<Byte>, steps: seq<Step>, i: nat)
    requires size > 0 && fpBits < 64 && Keeping(size, steps) && ResizesOnly(steps) && i < rounds
    requires CurrentModulus(size, fpBits, steps) > 0
    requires var f := Empty(size, rounds, fpBits);
             forall j :: 0 <= j < rounds ==> HashAt(hash, f, data, i) % StoredModulus(size, fpBits, steps)
                                             != HashAt(hash, f, data, j) % CurrentModulus(size, fpBits, steps)
    ensures var h := HashAt(hash, Empty(size, rounds, fpBits), data, i);
            Stored(Delete(hash, Run(hash, Single(hash, size, rounds, fpBits, data), steps), data),
                   h % StoredModulus(size, fpBits, steps))
  {
    var f, g := Empty(size, rounds, fpBits), Single(hash, size, rounds, fpBits, data);
    var e, m := Run(hash, g, steps), StoredModulus(size, fpBits, steps);
    var h := HashAt(hash, f, data, i);
    InsertedTracked(hash, f, data, steps, i);
    var c: nat :| Stored(e, c) && c % m == h % m;
    CopiesAfter(hash, size, rounds, fpBits, data, steps);
    StoredResidue(e, Hashes(hash, f, data, rounds), m, c);
    DivModUnique(c, m, 0, c);
    RunShape(hash, g, steps);
    forall j | 0 <= j < rounds ensures c != CodeOf(HashAt(hash, e, data, j), e.size, e.fpBits) {
      assert HashAt(hash, e, data, j) == HashAt(hash, f, data, j);
      CodeIsLowHash(HashAt(hash, e, data, j), e.size, e.fpBits);
    }
    DropRoundsSpare(hash, e, data, rounds, c);
  }

  lemma CurrentPositive(size: nat, fpBits: nat, steps: seq<Step>)
    requires size > 0 && Keeping(size, steps)
    ensures CurrentModulus(size, fpBits, steps) > 0
  {
    StoredIsModulus(size, fpBits, steps);
    if FinalSize(size, steps) > 0 { MulAtLeast(Pow(2, Width(fpBits)), FinalSize(size, steps)); }
  }

  /**
   * Deletion undoes insertion over resizes, whatever the hash function, if and only if resizes have left
   * the stored modulus equal to that of a new entry (or both are beyond any hash).
   */
  lemma DeleteUndoesIff(size: nat, rounds: nat, fpBits: nat, data: seq<Byte>, steps: seq<Step>)
    requires size > 0 && rounds > 0 && fpBits < 64 && Keeping(size, steps) && ResizesOnly(steps)
    ensures (forall hash: Hasher ::
               Vacant(Delete(hash, Run(hash, Single(hash, size, rounds, fpBits, data), steps), data)))
            <==> SameModulus(StoredModulus(size, fpBits, steps), CurrentModulus(size, fpBits, steps))
  {
    var n, k := StoredModulus(size, fpBits, steps), CurrentModulus(size, fpBits, steps);
    CurrentPositive(size, fpBits, steps);
    if SameModulus(n, k) {
      forall hash: Hasher
        ensures Vacant(Delete(hash, Run(hash, Single(hash, size, rounds, fpBits, data), steps), data))
      {
        forall h: U64 ensures h % n == h % k { SameResidue(n, k, h); }
        DeleteVacates(hash, size, rounds, fpBits, data, steps);
      }
    } else {
      var h := ResidueApart(n, k);
      var hash: Hasher := (d, seed) => h;
      DeleteMisses(hash, size, rounds, fpBits, data, steps, 0);
      assert !Vacant(Delete(hash, Run(hash, Single(hash, size, rounds, fpBits, data), steps), data));
    }
  }

  /** With one hash round: the entry goes exactly when the two moduli agree on its hash. */
  lemma DeleteVacatesIff(hash: Hasher, size: nat, fpBits: nat, data: seq<Byte>, steps: seq<Step>)
    requires size > 0 && fpBits < 64 && Keeping(size, steps) && ResizesOnly(steps)
    ensures CurrentModulus(size, fpBits, steps) > 0
    ensures var g := Delete(hash, Run(hash, Single(hash, size, 1, fpBits, data), steps), data);
            var h, n := hash(data, 1), StoredModulus(size, fpBits, steps);
            && (Vacant(g) <==> h % n == h % CurrentModulus(size, fpBits, steps))
            && (!Vacant(g) ==> Stored(g, h % n))
  {
    CurrentPositive(size, fpBits, steps);
    var h := hash(data, 1);
    assert HashAt(hash, Empty(size, 1, fpBits), data, 0) == h;
    if h % StoredModulus(size, fpBits, steps) == h % CurrentModulus(size, fpBits, steps) {
      DeleteVacates(hash, size, 1, fpBits, data, steps);
    } else {
      DeleteMisses(hash, size, 1, fpBits, data, steps, 0);
    }
  }

  /** An element of which nothing is left is not reported; one of which every entry was missed still is. */
  lemma MissedStaysContained(hash: Hasher, size: nat, rounds: nat, fpBits: nat, data: seq<Byte>, steps: seq<Step>)
    requires size > 0 && rounds > 0 && fpBits < 64 && Keeping(size, steps) && ResizesOnly(steps)
    requires ReliableAfter(size, steps, Width(fpBits)) >= 0
    ensures var g := Delete(hash, Run(hash, Single(hash, size, rounds, fpBits, data), steps), data);
            var f, n := Empty(size, rounds, fpBits), StoredModulus(size, fpBits, steps);
            && (Vacant(g) ==> !Contains(hash, g, data))
            && ((forall i :: 0 <= i < rounds ==> Stored(g, HashAt(hash, f, data, i) % n)) ==> Contains(hash, g, data))
  {
    var f, e := Empty(size, rounds, fpBits), Single(hash, size, rounds, fpBits, data);
    var g, n := Delete(hash, Run(hash, e, steps), data), StoredModulus(size, fpBits, steps);
    StoredIsModulus(size, fpBits, steps);
    RunShape(hash, e, steps);
    assert forall i :: 0 <= i < rounds ==> HashAt(hash, g, data, i) == HashAt(hash, f, data, i);
    if Vacant(g) { VacantReportsNothing(hash, g, data); }
    if forall i :: 0 <= i < rounds ==> Stored(g, HashAt(hash, f, data, i) % n) {
      AllStored(hash, g, data, ReliableAfter(size, steps, Width(fpBits)), n);
    }
  }

  lemma VacantReportsNothing(hash: Hasher, g: Filter, data: seq<Byte>)
    requires Wf(g) && g.hashCount > 0 && Vacant(g)
    ensures !Contains(hash, g, data)
  {
    ContainsIffHit(hash, g, data);
    assert !Hit(g, HashAt(hash, g, data, 0));
  }

  lemma AllStored(hash: Hasher, g: Filter, data: seq<Byte>, r: int, n: nat)
    requires Wf(g) && Modulus(g.size, r, n) && r >= 0
    requires forall i :: 0 <= i < g.hashCount ==> Stored(g, HashAt(hash, g, data, i) % n)
    ensures Contains(hash, g, data)
  {
    forall i | 0 <= i < g.hashCount ensures Hit(g, HashAt(hash, g, data, i)) {
      StoredHits(g, HashAt(hash, g, data, i), r, n);
    }
    ContainsIffHit(hash, g, data);
  }

  /** While bits are left, some hash function keeps its element reported after its deletion iff the moduli differ. */
  lemma SomeStaysContainedIff(size: nat, rounds: nat, fpBits: nat, data: seq<Byte>, steps: seq<Step>)
    requires size > 0 && rounds > 0 && fpBits < 64 && Keeping(size, steps) && ResizesOnly(steps)
    requires ReliableAfter(size, steps, Width(fpBits)) >= 0
    ensures (exists hash: Hasher ::
               Contains(hash, Delete(hash, Run(hash, Single(hash, size, rounds, fpBits, data), steps), data), data))
            <==> !SameModulus(StoredModulus(size, fpBits, steps), CurrentModulus(size, fpBits, steps))
  {
    var n, k := StoredModulus(size, fpBits, steps), CurrentModulus(size, fpBits, steps);
    CurrentPositive(size, fpBits, steps);
    if SameModulus(n, k) {
      forall hash: Hasher
        ensures !Contains(hash, Delete(hash, Run(hash, Single(hash, size, rounds, fpBits, data), steps), data), data)
      {
        DeleteUndoesIff(size, rounds, fpBits, data, steps);
        MissedStaysContained(hash, size, rounds, fpBits, data, steps);
      }
    } else {
      var h := ResidueApart(n, k);
      var hash: Hasher := (d, seed) => h;
      DeleteMisses(hash, size, rounds, fpBits, data, steps, 0);
      MissedStaysContained(hash, size, rounds, fpBits, data, steps);
    }
  }

  lemma StoredHits(g: Filter, h: U64, r: int, n: nat)
    requires Wf(g) && Modulus(g.size, r, n) && r >= 0 && Stored(g, h % n)
    ensures Hit(g, h)
  {
    ModOfMod(h, n, 1);
    assert Stored(g, h % n) && h % n % n == h % n;
    TrackedHits(g, h, r, n);
  }

  /** One expansion is enough to miss: size 1, one fingerprint bit, hash 2. */
  lemma ExpansionMisses(data: seq<Byte>)
    ensures var hash: Hasher := (d, seed) => 2;
            Contains(hash, Delete(hash, Expanded(Single(hash, 1, 1, 1, data)), data), data)
  {
    var hash: Hasher := (d, seed) => 2;
    var steps := [DoExpand];
    var f := Single(hash, 1, 1, 1, data);
    assert Run(hash, Apply(hash, f, DoExpand), steps[1..]) == Expanded(f);
    assert Pow(2, 1) == 2;
    DeleteVacatesIff(hash, 1, 1, data, steps);
    MissedStaysContained(hash, 1, 1, 1, data, steps);
  }

  lemma {:induction false} PowInjective(x: nat, y: nat)
    requires x < y
    ensures Pow(2, x) < Pow(2, y)
  {
    PowMonotone(2, x + 1, y);
  }

  /** In bits: the stored modulus is that of a new entry exactly when as many bits are left as an entry has. */
  lemma ModuliEqualIff(size: nat, fpBits: nat, steps: seq<Step>)
    requires size > 0 && Keeping(size, steps)
    ensures StoredModulus(size, fpBits, steps) == CurrentModulus(size, fpBits, steps)
            <==> ReliableAfter(size, steps, Width(fpBits)) == Width(fpBits)
  {
    var w := Width(fpBits);
    var r, n, last := ReliableAfter(size, steps, w), StoredModulus(size, fpBits, steps), FinalSize(size, steps);
    MulAtLeast(Pow(2, w), size);
    ModulusRun(size, steps, w, size * Pow(2, w));
    if r < 0 {
      PowAtLeastTwo(-r, n);
      MulAtLeast(Pow(2, w), last);
    } else if r < w {
      PowInjective(r, w);
      MulLess(last, Pow(2, r), Pow(2, w));
    } else if r > w {
      PowInjective(w, r);
      MulLess(last, Pow(2, w), Pow(2, r));
    }
  }

  lemma MulLess(k: nat, a: nat, b: nat)
    requires k > 0 && a < b
    ensures k * a < k * b
  {
    assert k * b == k * a + k * (b - a);
    MulAtLeast(b - a, k);
  }
}
