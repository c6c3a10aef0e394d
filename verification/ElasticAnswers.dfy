/** What a filter answers, in terms of the hashes of what was put in: seeds and thresholds written out. */
module ElasticAnswers {
  import opened Words
  import opened Arith
  import opened ElasticFilter
  import opened ElasticCodes

  // ---------------------------------------------------------------------------
  // Seeds
  // ---------------------------------------------------------------------------

  /** Two hash rounds use the same seed exactly when their distance times the second seed is 0 modulo 2^64. */
  lemma SeedsDifferIff(a: U64, b: U64, i: nat, j: nat)
    requires i <= j
    ensures SeedAt(a, b, i) == SeedAt(a, b, j) <==> (j - i) * b % 0x1_0000_0000_0000_0000 == 0
  {
    var x, d := a + i * b, (j - i) * b;
    assert a + j * b == x + d;
    SameResidueIff(x, d, TWO64);
  }

  lemma SameResidueIff(x: nat, d: nat, m: nat)
    requires m > 0
    ensures x % m == (x + d) % m <==> d % m == 0
  {
    var q, r := DivModIdentity(x, m);
    var p, s := DivModIdentity(d, m);
    if r + s < m {
      DivModUnique(x + d, m, q + p, r + s);
    } else {
      DivModUnique(x + d, m, q + p + 1, r + s - m);
    }
  }

  /** With the seeds of a new filter the first 2^63 rounds all differ. */
  lemma NewSeedsDiffer(i: nat, j: nat)
    requires i < j < 0x8000_0000_0000_0000
    ensures SeedAt(1, 2, i) == 1 + 2 * i && SeedAt(1, 2, i) != SeedAt(1, 2, j)
  {
    DivModUnique(1 + i * 2, TWO64, 0, 1 + i * 2);
    DivModUnique(1 + j * 2, TWO64, 0, 1 + j * 2);
  }

  // ---------------------------------------------------------------------------
  // Answers
  // ---------------------------------------------------------------------------

  /** The hash of round i, with the seed written out. */
  function RoundHash(hash: Hasher, a: U64, b: U64, data: seq<Byte>, i: nat): U64 {
    hash(data, (a + i * b) % 0x1_0000_0000_0000_0000)
  }

  /** Contained means: for every round, some stored code agrees with the hash at that round's seed. */
  lemma ContainsSpelled(hash: Hasher, f: Filter, data: seq<Byte>)
    requires Wf(f)
    ensures Contains(hash, f, data) <==>
            forall i :: 0 <= i < f.hashCount ==> Hit(f, RoundHash(hash, f.seedA, f.seedB, data, i))
  {
    ContainsIffHit(hash, f, data);
    forall i | 0 <= i < f.hashCount
      ensures RoundHash(hash, f.seedA, f.seedB, data, i) == HashAt(hash, f, data, i)
    {
    }
  }

  /** A new filter after insertions, without a resize. */
  function Holding(hash: Hasher, size: nat, rounds: nat, fpBits: nat, xs: seq<seq<Byte>>): (f: Filter)
    requires size > 0 && fpBits < 64
    ensures Wf(f) && f.size == size && f.hashCount == rounds && f.seedA == 1 && f.seedB == 2 && f.fpBits == fpBits
    ensures f.count == |xs|
  {
    if xs == [] then Empty(size, rounds, fpBits)
    else Insert(hash, Holding(hash, size, rounds, fpBits, xs[..|xs| - 1]), xs[|xs| - 1])
  }

  /** The hash of round i on a new filter: seeds 1, 3, 5 and so on. */
  function NewHash(hash: Hasher, data: seq<Byte>, i: nat): U64 {
    hash(data, (1 + 2 * i) % 0x1_0000_0000_0000_0000)
  }

  /** Round j of some inserted element has the residue. */
  ghost predicate Meets(hash: Hasher, xs: seq<seq<Byte>>, rounds: nat, r: nat, m: nat)
    requires m > 0
  {
    exists k, j :: 0 <= k < |xs| && 0 <= j < rounds && NewHash(hash, xs[k], j) % m == r
  }

  /** The codes stored are exactly the low parts of the hashes of all rounds of all elements. */
  lemma {:induction false} HoldsExactly(hash: Hasher, size: nat, rounds: nat, fpBits: nat, xs: seq<seq<Byte>>,
                                        c: nat)
    requires size > 0 && fpBits < 64
    ensures var m := size * Pow(2, if fpBits < 32 then fpBits else 32);
            m > 0 && (Stored(Holding(hash, size, rounds, fpBits, xs), c) <==> Meets(hash, xs, rounds, c, m))
  {
    var m := size * Pow(2, Width(fpBits));
    MulAtLeast(Pow(2, Width(fpBits)), size);
    if xs == [] {
      assert EmptyTable(size)[c % size] == [];
    } else {
      var n := |xs| - 1;
      var f, x := Holding(hash, size, rounds, fpBits, xs[..n]), xs[n];
      HoldsExactly(hash, size, rounds, fpBits, xs[..n], c);
      InsertCodes(hash, f, x, c);
      RoundCodes(hash, f, x);
      MeetsSnoc(hash, xs[..n], x, rounds, c, m);
      assert xs == xs[..n] + [x];
    }
  }

  lemma RoundCodes(hash: Hasher, f: Filter, x: seq<Byte>)
    requires Wf(f) && f.seedA == 1 && f.seedB == 2
    ensures f.size * Pow(2, Width(f.fpBits)) > 0
    ensures forall i :: 0 <= i < f.hashCount ==>
              CodeOf(HashAt(hash, f, x, i), f.size, f.fpBits)
              == NewHash(hash, x, i) % (f.size * Pow(2, Width(f.fpBits)))
  {
    MulAtLeast(Pow(2, Width(f.fpBits)), f.size);
    forall i | 0 <= i < f.hashCount
      ensures CodeOf(HashAt(hash, f, x, i), f.size, f.fpBits)
              == NewHash(hash, x, i) % (f.size * Pow(2, Width(f.fpBits)))
    {
      assert 1 + i * 2 == 1 + 2 * i;
      CodeIsLowHash(NewHash(hash, x, i), f.size, f.fpBits);
    }
  }

  lemma MeetsSnoc(hash: Hasher, xs: seq<seq<Byte>>, x: seq<Byte>, rounds: nat, r: nat, m: nat)
    requires m > 0
    ensures Meets(hash, xs + [x], rounds, r, m) <==>
            Meets(hash, xs, rounds, r, m) || exists j :: 0 <= j < rounds && NewHash(hash, x, j) % m == r
  {
    var ys := xs + [x];
    if Meets(hash, xs, rounds, r, m) {
      var k, j :| 0 <= k < |xs| && 0 <= j < rounds && NewHash(hash, xs[k], j) % m == r;
      assert ys[k] == xs[k];
    }
    if j :| 0 <= j < rounds && NewHash(hash, x, j) % m == r {
      assert ys[|xs|] == x;
    }
    if Meets(hash, ys, rounds, r, m) {
      var k, j :| 0 <= k < |ys| && 0 <= j < rounds && NewHash(hash, ys[k], j) % m == r;
      assert k < |xs| ==> ys[k] == xs[k];
    }
  }

  /** Every round of y falls on some round of some element. */
  ghost predicate Reported(hash: Hasher, xs: seq<seq<Byte>>, rounds: nat, size: nat, y: seq<Byte>)
    requires size > 0
  {
    forall i :: 0 <= i < rounds ==> Meets(hash, xs, rounds, NewHash(hash, y, i) % size, size)
  }

  /**
   * The answer of a filter: an element is reported exactly when each of its rounds falls, modulo the size, on
   * some round of some element inserted.
   */
  lemma AnswerIs(hash: Hasher, size: nat, rounds: nat, fpBits: nat, xs: seq<seq<Byte>>, y: seq<Byte>)
    requires size > 0 && fpBits < 64
    ensures Contains(hash, Holding(hash, size, rounds, fpBits, xs), y) <==> Reported(hash, xs, rounds, size, y)
  {
    var f := Holding(hash, size, rounds, fpBits, xs);
    ContainsIffHit(hash, f, y);
    forall i | 0 <= i < rounds
      ensures Hit(f, HashAt(hash, f, y, i)) <==> Meets(hash, xs, rounds, NewHash(hash, y, i) % size, size)
    {
      assert 1 + i * 2 == 1 + 2 * i;
      HitIffMeets(hash, size, rounds, fpBits, xs, NewHash(hash, y, i));
    }
  }

  lemma HitIffMeets(hash: Hasher, size: nat, rounds: nat, fpBits: nat, xs: seq<seq<Byte>>, h: U64)
    requires size > 0 && fpBits < 64
    ensures Hit(Holding(hash, size, rounds, fpBits, xs), h) <==> Meets(hash, xs, rounds, h % size, size)
  {
    var f, p := Holding(hash, size, rounds, fpBits, xs), Pow(2, Width(fpBits));
    MulAtLeast(p, size);
    if Hit(f, h) {
      var c: nat :| Stored(f, c) && c % size == h % size;
      HoldsExactly(hash, size, rounds, fpBits, xs, c);
      MeetsCoarser(hash, xs, rounds, size, p, c);
    }
    if Meets(hash, xs, rounds, h % size, size) {
      var c := MeetsFiner(hash, xs, rounds, size, p, h % size);
      HoldsExactly(hash, size, rounds, fpBits, xs, c);
    }
  }

  lemma MeetsCoarser(hash: Hasher, xs: seq<seq<Byte>>, rounds: nat, size: nat, p: nat, c: nat)
    requires size > 0 && p > 0 && size * p > 0 && Meets(hash, xs, rounds, c, size * p)
    ensures Meets(hash, xs, rounds, c % size, size)
  {
    var k, j :| 0 <= k < |xs| && 0 <= j < rounds && NewHash(hash, xs[k], j) % (size * p) == c;
    ModOfMod(NewHash(hash, xs[k], j), size, p);
  }

  lemma MeetsFiner(hash: Hasher, xs: seq<seq<Byte>>, rounds: nat, size: nat, p: nat, r: nat) returns (c: nat)
    requires size > 0 && p > 0 && size * p > 0 && Meets(hash, xs, rounds, r, size)
    ensures Meets(hash, xs, rounds, c, size * p) && c % size == r
  {
    var k, j :| 0 <= k < |xs| && 0 <= j < rounds && NewHash(hash, xs[k], j) % size == r;
    c := NewHash(hash, xs[k], j) % (size * p);
    ModOfMod(NewHash(hash, xs[k], j), size, p);
  }

  /** One round puts a fingerprint in front of its bucket's list, unless it is there already. */
  lemma PushedInFront(f: Filter, h: U64, b: nat)
    requires Wf(f) && b < f.size
    ensures var fp: Fp := h / f.size % Pow(2, f.fpBits) % 0x1_0000_0000;
            PutHash(f, h).buckets[b]
            == if b == h % f.size && fp !in f.buckets[b] then [fp] + f.buckets[b] else f.buckets[b]
  {
  }

  /** Inserting an element that is already there changes no bucket. */
  lemma InsertAgain(hash: Hasher, f: Filter, data: seq<Byte>)
    requires Wf(f)
    ensures var g := Insert(hash, f, data); Insert(hash, g, data).buckets == g.buckets
  {
    var g := Insert(hash, f, data);
    forall i | 0 <= i < g.hashCount
      ensures Stored(g, CodeOf(HashAt(hash, g, data, i), g.size, g.fpBits))
    {
      InsertCodes(hash, f, data, CodeOf(HashAt(hash, f, data, i), f.size, f.fpBits));
    }
    PutStored(hash, g, data, g.hashCount);
  }

  lemma {:induction false} PutStored(hash: Hasher, g: Filter, data: seq<Byte>, k: nat)
    requires Wf(g)
    requires forall i :: 0 <= i < k ==> Stored(g, CodeOf(HashAt(hash, g, data, i), g.size, g.fpBits))
    ensures PutRounds(hash, g, data, k) == g
  {
    if k > 0 {
      PutStored(hash, g, data, k - 1);
      var h := HashAt(hash, g, data, k - 1);
      PlaceOfCode(h % g.size, Fingerprint(h, g.size, g.fpBits), g.size);
      assert Stored(g, CodeOf(h, g.size, g.fpBits));
    }
  }

  /** Two rounds tell apart what one round does not. */
  lemma SecondRoundDecides(hash: Hasher, x: seq<Byte>, y: seq<Byte>)
    requires hash(x, 1) == 0 && hash(x, 3) == 1 && hash(y, 1) == 0 && hash(y, 3) == 5
    ensures !Contains(hash, Holding(hash, 8, 2, 8, [x]), y) && Contains(hash, Holding(hash, 8, 1, 8, [x]), y)
  {
    TwoRounds(hash, [x], y);
    AnswerIs(hash, 8, 2, 8, [x], y);
    AnswerIs(hash, 8, 1, 8, [x], y);
  }

  lemma TwoRounds(hash: Hasher, xs: seq<seq<Byte>>, y: seq<Byte>)
    requires |xs| == 1 && hash(xs[0], 1) == 0 && hash(xs[0], 3) == 1 && hash(y, 1) == 0 && hash(y, 3) == 5
    ensures !Reported(hash, xs, 2, 8, y) && Reported(hash, xs, 1, 8, y)
  {
    assert NewHash(hash, xs[0], 0) == 0 && NewHash(hash, xs[0], 1) == 1;
    assert !Meets(hash, xs, 2, NewHash(hash, y, 1) % 8, 8);
    assert Meets(hash, xs, 1, NewHash(hash, y, 0) % 8, 8);
  }

  // ---------------------------------------------------------------------------
  // Growing and shrinking
  // ---------------------------------------------------------------------------

  /** The buckets in use. */
  ghost function Used(bs: seq<Bucket>): set<nat> {
    set i: nat | i < |bs| && bs[i] != []
  }

  lemma {:induction false} OccupiedCounts(bs: seq<Bucket>)
    ensures Occupied(bs) == |Used(bs)|
  {
    if bs != [] {
      var n := |bs| - 1;
      OccupiedCounts(bs[..n]);
      if bs[n] == [] {
        assert Used(bs) == Used(bs[..n]);
      } else {
        assert Used(bs) == Used(bs[..n]) + {n};
      }
    }
  }

  lemma RatioIff(f: Filter, omega: real)
    requires Wf(f)
    ensures Ratio(f) > omega <==> |Used(f.buckets)| as real > omega * f.size as real
    ensures Ratio(f) < omega / 4.0 <==> 4.0 * |Used(f.buckets)| as real < omega * f.size as real
  {
    OccupiedCounts(f.buckets);
    ShareIff(Occupied(f.buckets), f.size, omega);
    QuarterIff(Occupied(f.buckets), f.size, omega);
  }

  /** Adding doubles the table exactly when more than the share omega of the buckets is in use afterwards. */
  lemma AddGrowsIff(hash: Hasher, f: Filter, data: seq<Byte>, omega: real)
    requires Wf(f)
    ensures Add(hash, f, data, omega).size ==
            if |Used(Insert(hash, f, data).buckets)| as real > omega * f.size as real then 2 * f.size else f.size
  {
    RatioIff(Insert(hash, f, data), omega);
  }

  /** Removing halves a table of two buckets or more exactly when less than a quarter of omega is in use. */
  lemma RemoveShrinksIff(hash: Hasher, f: Filter, data: seq<Byte>, omega: real)
    requires Wf(f)
    ensures Remove(hash, f, data, omega).size ==
            if 4.0 * |Used(Delete(hash, f, data).buckets)| as real < omega * f.size as real && f.size >= 2
            then f.size / 2 else f.size
  {
    RatioIff(Delete(hash, f, data), omega);
  }

  lemma ShareIff(used: nat, size: nat, share: real)
    requires size > 0
    ensures used as real / size as real > share <==> used as real > share * size as real
    ensures used as real / size as real < share <==> used as real < share * size as real
  {
    var r, s := used as real / size as real, size as real;
    assert r * s == used as real;
    assert (r - share) * s == used as real - share * s;
  }

  lemma QuarterIff(used: nat, size: nat, omega: real)
    requires size > 0
    ensures used as real / size as real < omega / 4.0 <==> 4.0 * used as real < omega * size as real
  {
    ShareIff(used, size, omega / 4.0);
    assert 4.0 * (omega / 4.0 * size as real) == omega * size as real;
  }

  /** The count: one more for an insertion, one less but never below 0 for a deletion, the sum for a merge. */
  lemma CountAfter(hash: Hasher, f: Filter, src: Filter, data: seq<Byte>)
    requires Wf(f) && Wf(src)
    ensures Insert(hash, f, data).count == f.count + 1
    ensures Delete(hash, f, data).count == if f.count == 0 then 0 else f.count - 1
    ensures Expanded(f).count == f.count && Compressed(f).count == f.count
    ensures Merged(f, src).count == if src.size == f.size then f.count + src.count else f.count
  {
  }
}
