/** Whole runs of an elastic filter: when an element once inserted is still reported. */
module ElasticRuns {
  // fp_bits never changes on a resize, so each expansion uses up one stored hash bit and each
  // compression gives one back, up to the 32 bits of a fingerprint word. The element is reported for
  // certain exactly while the number of bits left is not negative.

  import opened Words
  import opened Arith
  import opened ElasticFilter
  import opened ElasticCodes

  function SizeAfter(size: nat, s: Step): nat {
    match s
    case DoExpand => 2 * size
    case DoCompress => if size < 2 then size else size / 2
    case _ => size
  }

  /** Bits of the stored hash beyond the bucket number, after one step. */
  function Reliable(size: nat, s: Step, r: int): int {
    match s
    case DoExpand => r - 1
    case DoCompress => if size < 2 then r else if r + 1 > 32 then 32 else r + 1
    case _ => r
  }

  function ReliableAfter(size: nat, steps: seq<Step>, r: int): int
    decreases |steps|
  {
    if steps == [] then r
    else ReliableAfter(SizeAfter(size, steps[0]), steps[1..], Reliable(size, steps[0], r))
  }

  function FinalSize(size: nat, steps: seq<Step>): nat
    decreases |steps|
  {
    if steps == [] then size else FinalSize(SizeAfter(size, steps[0]), steps[1..])
  }

  /** No deletion, and no compression of an odd table. */
  predicate Keeping(size: nat, steps: seq<Step>)
    decreases |steps|
  {
    steps == [] ||
    (!steps[0].DoDelete?
     && (steps[0].DoCompress? && size >= 2 ==> size % 2 == 0)
     && Keeping(SizeAfter(size, steps[0]), steps[1..]))
  }

  /** m is the modulus up to which r reliable bits fix the hash; r may be negative. */
  predicate Modulus(size: nat, r: int, m: nat) {
    m > 0 && if r >= 0 then m == size * Pow(2, r) else size == m * Pow(2, -r)
  }

  function NextModulus(size: nat, s: Step, r: int, m: nat): nat {
    if s.DoCompress? && size >= 2 && r >= 32 then size / 2 * TWO32 else m
  }

  function ModulusAfter(size: nat, steps: seq<Step>, r: int, m: nat): nat
    decreases |steps|
  {
    if steps == [] then m
    else
      var s := steps[0];
      ModulusAfter(SizeAfter(size, s), steps[1..], Reliable(size, s, r), NextModulus(size, s, r, m))
  }

  /** Some stored code agrees with the hash modulo m. */
  ghost predicate Tracked(f: Filter, h: U64, m: nat)
    requires Wf(f)
  {
    m > 0 && exists c: nat :: Stored(f, c) && c % m == h % m
  }

  // ---------------------------------------------------------------------------
  // The modulus through one step
  // ---------------------------------------------------------------------------

  lemma ModulusDoubled(size: nat, r: int, m: nat)
    requires size > 0 && Modulus(size, r, m)
    ensures Modulus(2 * size, r - 1, m)
  {
    if r >= 1 {
      assert size * Pow(2, r) == 2 * size * Pow(2, r - 1);
    } else {
      assert 2 * (m * Pow(2, -r)) == m * Pow(2, -r + 1);
      assert r == 0 ==> Pow(2, -r) == 1;
    }
  }

  lemma ModulusHalved(s: nat, r: int, m: nat)
    requires s > 0 && Modulus(2 * s, r, m)
    ensures Modulus(s, r + 1, m)
  {
    if r >= 0 {
      assert 2 * s * Pow(2, r) == s * Pow(2, r + 1);
    } else {
      assert m * Pow(2, -r) == 2 * (m * Pow(2, -r - 1));
      assert r == -1 ==> Pow(2, -r - 1) == 1;
    }
  }

  lemma ModulusStep(size: nat, s: Step, r: int, m: nat)
    requires size > 0 && r <= 32 && Modulus(size, r, m) && Keeping(size, [s])
    ensures Modulus(SizeAfter(size, s), Reliable(size, s, r), NextModulus(size, s, r, m))
    ensures Reliable(size, s, r) <= 32 && SizeAfter(size, s) > 0
  {
    match s
    case DoExpand => ModulusDoubled(size, r, m);
    case DoCompress =>
      if size >= 2 {
        ModulusHalved(size / 2, r, m);
        Pow32();
      }
    case _ =>
  }

  /** With at most 32 reliable bits the modulus divides the cap of compression. */
  lemma ModulusDividesCap(s: nat, r: int, m: nat) returns (k: nat)
    requires s > 0 && r <= 32 && Modulus(s, r, m)
    ensures k > 0 && s * TWO32 == m * k
  {
    Pow32();
    if r >= 0 {
      k := Pow(2, 32 - r);
      PowAdd(2, r, 32 - r);
      MulAssoc(s, Pow(2, r), k);
    } else {
      k := Pow(2, -r) * TWO32;
      MulAssoc(m, Pow(2, -r), TWO32);
    }
  }

  lemma CappedAgrees(c: nat, h: nat, s: nat, r: int, m: nat)
    requires s > 0 && r <= 32 && Modulus(s, r, m) && c % m == h % m
    ensures Capped(c, s) % m == h % m
  {
    var k := ModulusDividesCap(s, r, m);
    ModOfMod(c, m, k);
  }

  lemma CapModulus(s: nat, m: nat)
    requires s > 0 && Modulus(2 * s, 32, m)
    ensures m == (s * TWO32) * 2 && s * TWO32 > 0
  {
    Pow32();
  }

  // ---------------------------------------------------------------------------
  // Tracking through one step
  // ---------------------------------------------------------------------------

  lemma CompressTracks(f: Filter, s: nat, h: U64, r: int, m: nat)
    requires Wf(f) && f.size == 2 * s && r <= 32 && Modulus(f.size, r, m) && Tracked(f, h, m)
    ensures Tracked(Compressed(f), h, NextModulus(f.size, DoCompress, r, m))
  {
    var c: nat :| Stored(f, c) && c % m == h % m;
    CompressStores(f, s, c);
    assert f.size / 2 == s;
    if r >= 32 {
      CapModulus(s, m);
      ModCoarsen(c, h, s * TWO32, 2);
      ModOfMod(c, s * TWO32, 1);
      assert Capped(c, s) % (s * TWO32) == h % (s * TWO32);
    } else {
      ModulusHalved(s, r, m);
      CappedAgrees(c, h, s, r + 1, m);
    }
  }

  lemma StepTracks(hash: Hasher, f: Filter, s: Step, h: U64, r: int, m: nat)
    requires Wf(f) && r <= 32 && Modulus(f.size, r, m) && Keeping(f.size, [s]) && Tracked(f, h, m)
    ensures Tracked(Apply(hash, f, s), h, NextModulus(f.size, s, r, m))
  {
    var c: nat :| Stored(f, c) && c % m == h % m;
    match s
    case DoInsert(data) => InsertCodes(hash, f, data, c);
    case DoPut(b, fp) => if b < f.size { PutCodes(f, b, fp, c); }
    case DoExpand => ExpandKeepsCodes(f, c);
    case DoCompress => if f.size >= 2 { CompressTracks(f, f.size / 2, h, r, m); }
    case DoMerge(src) => if Wf(src) && src.size == f.size { MergeCodes(f, src, c); }
  }

  /** Parameters that decide where an element goes never change. */
  predicate SameShape(f: Filter, g: Filter) {
    f.hashCount == g.hashCount && f.seedA == g.seedA && f.seedB == g.seedB && f.fpBits == g.fpBits
  }

  lemma StepShape(hash: Hasher, f: Filter, s: Step)
    requires Wf(f)
    ensures SameShape(f, Apply(hash, f, s)) && Apply(hash, f, s).size == SizeAfter(f.size, s)
  {
  }

  lemma {:induction false} RunShape(hash: Hasher, f: Filter, steps: seq<Step>)
    requires Wf(f)
    ensures SameShape(f, Run(hash, f, steps)) && Run(hash, f, steps).size == FinalSize(f.size, steps)
    decreases |steps|
  {
    if steps == [] {
    } else {
      StepShape(hash, f, steps[0]);
      RunShape(hash, Apply(hash, f, steps[0]), steps[1..]);
    }
  }

  lemma {:induction false} RunTracks(hash: Hasher, f: Filter, steps: seq<Step>, h: U64, r: int, m: nat)
    requires Wf(f) && r <= 32 && Modulus(f.size, r, m) && Keeping(f.size, steps) && Tracked(f, h, m)
    ensures Tracked(Run(hash, f, steps), h, ModulusAfter(f.size, steps, r, m))
    ensures Modulus(FinalSize(f.size, steps), ReliableAfter(f.size, steps, r), ModulusAfter(f.size, steps, r, m))
    decreases |steps|
  {
    if steps == [] {
    } else {
      var s := steps[0];
      StepShape(hash, f, s);
      ModulusStep(f.size, s, r, m);
      StepTracks(hash, f, s, h, r, m);
      RunTracks(hash, Apply(hash, f, s), steps[1..], h, Reliable(f.size, s, r), NextModulus(f.size, s, r, m));
    }
  }

  lemma TrackedHits(f: Filter, h: U64, r: int, m: nat)
    requires Wf(f) && Modulus(f.size, r, m) && Tracked(f, h, m) && r >= 0
    ensures Hit(f, h)
  {
    var c: nat :| Stored(f, c) && c % m == h % m;
    ModCoarsen(c, h, f.size, Pow(2, r));
  }

  /**
   * No false negatives. After an insertion and any run of further insertions, bucket insertions,
   * merges, expansions and even compressions, in any order, the element is reported as long as the
   * bits left at the end are not negative. A dip below zero in between does no harm.
   */
  lemma NoFalseNegatives(hash: Hasher, f: Filter, data: seq<Byte>, steps: seq<Step>)
    requires Wf(f) && Keeping(f.size, steps)
    requires ReliableAfter(f.size, steps, Width(f.fpBits)) >= 0
    ensures Contains(hash, Run(hash, Insert(hash, f, data), steps), data)
  {
    var e := Run(hash, Insert(hash, f, data), steps);
    RunShape(hash, Insert(hash, f, data), steps);
    forall i | 0 <= i < e.hashCount
      ensures Hit(e, HashAt(hash, e, data, i))
    {
      assert HashAt(hash, e, data, i) == HashAt(hash, f, data, i);
      RoundSurvives(hash, f, data, steps, i);
    }
    ContainsIffHit(hash, e, data);
  }

  lemma RoundTracked(hash: Hasher, f: Filter, data: seq<Byte>, i: nat, m: nat)
    requires Wf(f) && i < f.hashCount && m == f.size * Pow(2, Width(f.fpBits))
    ensures Tracked(Insert(hash, f, data), HashAt(hash, f, data, i), m)
  {
    var h := HashAt(hash, f, data, i);
    var c := CodeOf(h, f.size, f.fpBits);
    MulAtLeast(Pow(2, Width(f.fpBits)), f.size);
    InsertCodes(hash, f, data, c);
    CodeIsLowHash(h, f.size, f.fpBits);
    ModOfMod(h, m, 1);
    assert Stored(Insert(hash, f, data), c) && c % m == h % m;
  }

  lemma RoundSurvives(hash: Hasher, f: Filter, data: seq<Byte>, steps: seq<Step>, i: nat)
    requires Wf(f) && Keeping(f.size, steps) && i < f.hashCount
    requires ReliableAfter(f.size, steps, Width(f.fpBits)) >= 0
    ensures Hit(Run(hash, Insert(hash, f, data), steps), HashAt(hash, f, data, i))
  {
    var g, w, h := Insert(hash, f, data), Width(f.fpBits), HashAt(hash, f, data, i);
    var m := f.size * Pow(2, w);
    RoundTracked(hash, f, data, i, m);
    RunTracks(hash, g, steps, h, w, m);
    RunShape(hash, g, steps);
    TrackedHits(Run(hash, g, steps), h, ReliableAfter(f.size, steps, w), ModulusAfter(f.size, steps, w, m));
  }

  // ---------------------------------------------------------------------------
  // The bound in terms of resizes
  // ---------------------------------------------------------------------------

  function Expansions(steps: seq<Step>): nat {
    if steps == [] then 0 else (if steps[0].DoExpand? then 1 else 0) + Expansions(steps[1..])
  }

  /** Compressions that are not refused. */
  function Compressions(size: nat, steps: seq<Step>): nat
    decreases |steps|
  {
    if steps == [] then 0
    else (if steps[0].DoCompress? && size >= 2 then 1 else 0) + Compressions(SizeAfter(size, steps[0]), steps[1..])
  }

  /** Away from the 32-bit cap, the bits left are fp_bits less expansions plus compressions. */
  lemma {:induction false} ReliableIsNet(size: nat, steps: seq<Step>, r: int)
    requires r + Compressions(size, steps) <= 32
    ensures ReliableAfter(size, steps, r) == r - Expansions(steps) + Compressions(size, steps)
    decreases |steps|
  {
    if steps == [] {
    } else {
      ReliableIsNet(SizeAfter(size, steps[0]), steps[1..], Reliable(size, steps[0], r));
    }
  }

  // ---------------------------------------------------------------------------
  // The bound is exact
  // ---------------------------------------------------------------------------

  predicate ResizesOnly(steps: seq<Step>) {
    forall i :: 0 <= i < |steps| ==> steps[i].DoExpand? || steps[i].DoCompress?
  }

  /** c is the one code stored. */
  ghost predicate Sole(f: Filter, c: nat)
    requires Wf(f)
  {
    forall d: nat :: Stored(f, d) <==> d == c
  }

  lemma CompressSole(f: Filter, s: nat, h: U64, r: int, m: nat)
    requires Wf(f) && f.size == 2 * s && r <= 32 && Modulus(f.size, r, m) && Sole(f, h % m)
    ensures Sole(Compressed(f), h % NextModulus(f.size, DoCompress, r, m))
  {
    var n := NextModulus(f.size, DoCompress, r, m);
    assert f.size / 2 == s;
    assert Capped(h % m, s) == h % n by {
      if r >= 32 {
        CapModulus(s, m);
        ModOfMod(h, s * TWO32, 2);
      } else {
        ModulusHalved(s, r, m);
        var k := ModulusDividesCap(s, r + 1, m);
        MulAtLeast(k, m);
        DivModUnique(h % m, m * k, 0, h % m);
      }
    }
    forall d: nat
      ensures Stored(Compressed(f), d) <==> d == h % n
    {
      CompressStores(f, s, h % m);
      if Stored(Compressed(f), d) {
        var origin := CompressOrigin(f, s, d);
      }
    }
  }

  lemma {:induction false} RunSole(hash: Hasher, f: Filter, steps: seq<Step>, h: U64, r: int, m: nat)
    requires Wf(f) && r <= 32 && Modulus(f.size, r, m) && Keeping(f.size, steps) && ResizesOnly(steps) && Sole(f, h % m)
    ensures ModulusAfter(f.size, steps, r, m) > 0
    ensures Sole(Run(hash, f, steps), h % ModulusAfter(f.size, steps, r, m))
    decreases |steps|
  {
    if steps == [] {
    } else {
      var s := steps[0];
      StepShape(hash, f, s);
      ModulusStep(f.size, s, r, m);
      if s.DoExpand? {
        forall d: nat ensures Stored(Expanded(f), d) <==> d == h % m { ExpandKeepsCodes(f, d); }
      } else if f.size >= 2 {
        CompressSole(f, f.size / 2, h, r, m);
      }
      RunSole(hash, Apply(hash, f, s), steps[1..], h, Reliable(f.size, s, r), NextModulus(f.size, s, r, m));
    }
  }

  lemma {:induction false} ModulusRun(size: nat, steps: seq<Step>, r: int, m: nat)
    requires size > 0 && r <= 32 && Modulus(size, r, m) && Keeping(size, steps)
    ensures Modulus(FinalSize(size, steps), ReliableAfter(size, steps, r), ModulusAfter(size, steps, r, m))
    decreases |steps|
  {
    if steps == [] {
    } else {
      ModulusStep(size, steps[0], r, m);
      ModulusRun(SizeAfter(size, steps[0]), steps[1..], Reliable(size, steps[0], r), NextModulus(size, steps[0], r, m));
    }
  }

  /** A filter with one element in it. */
  function Single(hash: Hasher, size: nat, rounds: nat, fpBits: nat, data: seq<Byte>): (f: Filter)
    requires size > 0 && fpBits < 64
    ensures Wf(f)
  {
    Insert(hash, Empty(size, rounds, fpBits), data)
  }

  /** If its rounds all have the same hash, the element has one code. */
  lemma SingleSole(hash: Hasher, size: nat, rounds: nat, fpBits: nat, data: seq<Byte>, h: U64)
    requires size > 0 && fpBits < 64 && rounds > 0
    requires forall i :: 0 <= i < rounds ==> HashAt(hash, Empty(size, rounds, fpBits), data, i) == h
    ensures size * Pow(2, Width(fpBits)) > 0
    ensures Sole(Single(hash, size, rounds, fpBits, data), h % (size * Pow(2, Width(fpBits))))
  {
    var f := Empty(size, rounds, fpBits);
    assert HashAt(hash, f, data, 0) == h;
    MulAtLeast(Pow(2, Width(fpBits)), size);
    CodeIsLowHash(h, size, fpBits);
    forall d: nat
      ensures Stored(Single(hash, size, rounds, fpBits, data), d) <==> d == CodeOf(h, size, fpBits)
    {
      InsertCodes(hash, f, data, d);
    }
  }

  /** Once the bits run out, some hash loses its element. */
  lemma SomeHashLoses(size: nat, rounds: nat, fpBits: nat, data: seq<Byte>, steps: seq<Step>) returns (hash: Hasher)
    requires size > 0 && rounds > 0 && fpBits < 64 && Keeping(size, steps) && ResizesOnly(steps)
    requires FinalSize(size, steps) <= TWO64
    requires ReliableAfter(size, steps, Width(fpBits)) < 0
    ensures !Contains(hash, Run(hash, Single(hash, size, rounds, fpBits, data), steps), data)
  {
    var w := Width(fpBits);
    var m := size * Pow(2, w);
    var n := ModulusAfter(size, steps, w, m);
    var last := FinalSize(size, steps);
    MulAtLeast(Pow(2, w), size);
    ModulusRun(size, steps, w, m);
    PowAtLeastTwo(-ReliableAfter(size, steps, w), n);
    hash := (d, seed) => n;
    var f := Single(hash, size, rounds, fpBits, data);
    var e := Run(hash, f, steps);
    SingleSole(hash, size, rounds, fpBits, data, n);
    RunShape(hash, f, steps);
    RunSole(hash, f, steps, n, w, m);
    SoleMisses(e, n);
    assert HashAt(hash, e, data, 0) == n;
    ContainsIffHit(hash, e, data);
  }

  lemma SoleMisses(e: Filter, n: U64)
    requires Wf(e) && 0 < n < e.size && Sole(e, n % n)
    ensures !Hit(e, n)
  {
    DivModUnique(n, n, 1, 0);
    DivModUnique(n, e.size, 0, n);
    DivModUnique(0, e.size, 0, 0);
  }

  lemma PowAtLeastTwo(k: nat, n: nat)
    requires k > 0
    ensures n * Pow(2, k) >= 2 * n
  {
    assert Pow(2, k) >= 2;
    assert n * Pow(2, k) == n * 2 + n * (Pow(2, k) - 2);
  }

  /**
   * Over resizes of any length, whatever the hash function, an element stays contained if and only
   * if the bits left are not negative.
   */
  lemma ContainedIffReliable(size: nat, rounds: nat, fpBits: nat, data: seq<Byte>, steps: seq<Step>)
    requires size > 0 && rounds > 0 && fpBits < 64 && Keeping(size, steps) && ResizesOnly(steps)
    requires FinalSize(size, steps) <= TWO64
    ensures (forall hash: Hasher :: Contains(hash, Run(hash, Single(hash, size, rounds, fpBits, data), steps), data))
            <==> ReliableAfter(size, steps, Width(fpBits)) >= 0
  {
    if ReliableAfter(size, steps, Width(fpBits)) >= 0 {
      forall hash: Hasher
        ensures Contains(hash, Run(hash, Single(hash, size, rounds, fpBits, data), steps), data)
      {
        NoFalseNegatives(hash, Empty(size, rounds, fpBits), data, steps);
      }
    } else {
      var hash := SomeHashLoses(size, rounds, fpBits, data, steps);
    }
  }

  /** One compression is safe for every hash function if and only if the size is even. */
  lemma CompressSafeIffEven(size: nat, rounds: nat, fpBits: nat, data: seq<Byte>)
    requires 2 <= size <= TWO64 && rounds > 0 && fpBits < 64
    ensures (forall hash: Hasher :: Contains(hash, Compressed(Single(hash, size, rounds, fpBits, data)), data))
            <==> size % 2 == 0
  {
    if size % 2 == 0 {
      forall hash: Hasher
        ensures Contains(hash, Compressed(Single(hash, size, rounds, fpBits, data)), data)
      {
        var steps := [DoCompress];
        NoFalseNegatives(hash, Empty(size, rounds, fpBits), data, steps);
        assert Run(hash, Apply(hash, Single(hash, size, rounds, fpBits, data), DoCompress), steps[1..])
            == Compressed(Single(hash, size, rounds, fpBits, data));
      }
    } else {
      var hash := OddLoses(size, rounds, fpBits, data);
    }
  }

  /** An odd table drops its last bucket. */
  lemma OddLoses(size: nat, rounds: nat, fpBits: nat, data: seq<Byte>) returns (hash: Hasher)
    requires 2 <= size <= TWO64 && rounds > 0 && size % 2 == 1 && fpBits < 64
    ensures !Contains(hash, Compressed(Single(hash, size, rounds, fpBits, data)), data)
  {
    var h := size - 1;
    hash := (d, seed) => h;
    var g := Single(hash, size, rounds, fpBits, data);
    DivModUnique(h, size, 0, h);
    SingleSole(hash, size, rounds, fpBits, data, h);
    MulAtLeast(Pow(2, Width(fpBits)), size);
    ModOfMod(h, size, Pow(2, Width(fpBits)));
    var e := Compressed(g);
    var b := h % e.size;
    OnlyBucket(g, h % (size * Pow(2, Width(fpBits))), b);
    OnlyBucket(g, h % (size * Pow(2, Width(fpBits))), b + size / 2);
    assert e.buckets[b] == [];
    assert HashAt(hash, e, data, 0) == h;
  }

  /** A filter with one code has every other bucket empty. */
  lemma OnlyBucket(g: Filter, c: nat, b: nat)
    requires Wf(g) && Sole(g, c) && b < g.size && b != c % g.size
    ensures g.buckets[b] == []
  {
    if g.buckets[b] != [] {
      var fp := g.buckets[b][0];
      PlaceOfCode(b, fp, g.size);
      assert Stored(g, Code(b, fp, g.size));
    }
  }
}
