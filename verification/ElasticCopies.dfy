/** How often a filter holds each code: what insertion, resizes and deletion do to the number of copies. */
module ElasticCopies {
  import opened Words
  import opened Arith
  import opened ElasticFilter
  import opened ElasticCodes
  import opened ElasticRuns

  // ---------------------------------------------------------------------------
  // Copies in a bucket list
  // ---------------------------------------------------------------------------

  function Count(b: Bucket, q: nat): nat {
    if b == [] then 0 else (if b[0] == q then 1 else 0) + Count(b[1..], q)
  }

  lemma {:induction false} CountMember(b: Bucket, q: nat)
    ensures Count(b, q) > 0 <==> q in b
  {
    if b != [] {
      CountMember(b[1..], q);
      assert b == [b[0]] + b[1..];
    }
  }

  lemma {:induction false} CountAppend(a: Bucket, b: Bucket, q: nat)
    ensures Count(a + b, q) == Count(a, q) + Count(b, q)
  {
    if a == [] {
      assert a + b == b;
    } else {
      CountAppend(a[1..], b, q);
      assert (a + b)[1..] == a[1..] + b;
    }
  }

  lemma {:induction false} CountReverse(b: Bucket, q: nat)
    ensures Count(Reverse(b), q) == Count(b, q)
  {
    if b != [] {
      CountReverse(b[1..], q);
      CountAppend(Reverse(b[1..]), [b[0]], q);
      assert [b[0]][1..] == [];
    }
  }

  lemma {:induction false} CountHalves(b: Bucket, bit: nat, q: nat)
    requires bit < 2
    ensures Count(Halves(b, bit), q) == Count(b, 2 * q + bit)
  {
    if b != [] {
      CountHalves(b[1..], bit, q);
      if b[0] % 2 == bit {
        assert Halves(b, bit)[1..] == Halves(b[1..], bit);
      }
    }
  }

  /** The two fingerprints that a left shift by one makes equal. */
  lemma ShiftsTo(fp: Fp, bit: nat, q: nat)
    requires bit < 2 && q < TWO32
    ensures ShiftIn(fp, bit) == q <==> q % 2 == bit && (fp == q / 2 || fp == q / 2 + 0x8000_0000)
  {
    var x := 2 * fp + bit;
    if x < TWO32 {
      DivModUnique(x, TWO32, 0, x);
    } else {
      DivModUnique(x, TWO32, 1, x - TWO32);
    }
  }

  lemma {:induction false} CountDoubles(b: Bucket, bit: nat, q: nat)
    requires bit < 2 && q < TWO32
    ensures Count(Doubles(b, bit), q) ==
            if q % 2 == bit then Count(b, q / 2) + Count(b, q / 2 + 0x8000_0000) else 0
  {
    if b != [] {
      CountDoubles(b[1..], bit, q);
      assert Doubles(b, bit)[1..] == Doubles(b[1..], bit);
      ShiftsTo(b[0], bit, q);
    }
  }

  lemma {:induction false} CountRemove(b: Bucket, fp: Fp, q: nat)
    ensures Count(BucketRemove(b, fp), q) == if q == fp && Count(b, q) > 0 then Count(b, q) - 1 else Count(b, q)
  {
    if b != [] && b[0] != fp {
      CountRemove(b[1..], fp, q);
      assert BucketRemove(b, fp)[1..] == BucketRemove(b[1..], fp);
    }
  }

  // ---------------------------------------------------------------------------
  // Copies of a code
  // ---------------------------------------------------------------------------

  function Copies(f: Filter, c: nat): nat
    requires Wf(f)
  {
    Count(f.buckets[c % f.size], c / f.size)
  }

  lemma CopiesAt(f: Filter, c: nat, s: nat, b: nat, q: nat)
    requires Wf(f) && f.size == s && c % s == b && c / s == q
    ensures Copies(f, c) == Count(f.buckets[b], q)
  {
  }

  lemma PutCopies(f: Filter, h: U64, c: nat)
    requires Wf(f)
    ensures Copies(PutHash(f, h), c) <= Copies(f, c) + if c == CodeOf(h, f.size, f.fpBits) then 1 else 0
  {
    var b, fp := h % f.size, Fingerprint(h, f.size, f.fpBits);
    var held := f.buckets[b];
    PlaceOfCode(b, fp, f.size);
    if c % f.size == b && fp !in held {
      assert ([fp] + held)[1..] == held;
      if c / f.size == fp { SamePlace(c, Code(b, fp, f.size), f.size); }
    }
  }

  lemma DropCopies(f: Filter, h: U64, c: nat)
    requires Wf(f)
    ensures Copies(DropHash(f, h), c) ==
            if c == CodeOf(h, f.size, f.fpBits) && Copies(f, c) > 0 then Copies(f, c) - 1 else Copies(f, c)
  {
    var b, fp := h % f.size, Fingerprint(h, f.size, f.fpBits);
    PlaceOfCode(b, fp, f.size);
    CountRemove(f.buckets[b], fp, c / f.size);
    if c % f.size == b && c / f.size == fp { SamePlace(c, Code(b, fp, f.size), f.size); }
  }

  /** Expansion keeps the copies of every code. */
  lemma ExpandCopies(f: Filter, c: nat)
    requires Wf(f)
    ensures Copies(Expanded(f), c) == Copies(f, c)
  {
    DivModDouble(c, f.size);
    var b, q := c % f.size, c / f.size;
    ExpandedCount(f, b, q % 2, q / 2);
    CopiesAt(Expanded(f), c, 2 * f.size, b + q % 2 * f.size, q / 2);
  }

  lemma ExpandedCount(f: Filter, b: nat, bit: nat, q: nat)
    requires Wf(f) && b < f.size && bit < 2
    ensures b + bit * f.size < 2 * f.size
    ensures Count(Expanded(f).buckets[b + bit * f.size], q) == Count(f.buckets[b], 2 * q + bit)
  {
    CountHalves(f.buckets[b], bit, q);
    CountReverse(Halves(f.buckets[b], bit), q);
    assert bit * f.size == if bit == 0 then 0 else f.size;
  }

  /** Compression brings the copies of two codes together: those that differ in the bit that falls off. */
  lemma CompressCopies(f: Filter, s: nat, c: nat)
    requires Wf(f) && f.size == 2 * s && c < s * TWO32
    ensures Compressed(f).size == s
    ensures Copies(Compressed(f), c) == Copies(f, c) + Copies(f, c + s * TWO32)
  {
    var b, q, place := Places(c, s);
    CompressedCount(f, s, b, q, place);
    CopiesAt(f, c, 2 * s, place, q / 2);
    CopiesAt(f, c + s * TWO32, 2 * s, place, q / 2 + 0x8000_0000);
    CopiesAt(Compressed(f), c, s, b, q);
  }

  /** Where compression to size s puts code c, and where it and its partner come from. */
  lemma Places(c: nat, s: nat) returns (b: nat, q: nat, place: nat)
    requires s > 0 && c < s * TWO32
    ensures b == c % s && q == c / s && b < s && q < TWO32 && place == b + q % 2 * s
    ensures c % (2 * s) == place && c / (2 * s) == q / 2
    ensures (c + s * TWO32) % (2 * s) == place && (c + s * TWO32) / (2 * s) == q / 2 + 0x8000_0000
  {
    b, q := c % s, c / s;
    place := b + q % 2 * s;
    QuotientBelow(c, s, TWO32);
    DivModDouble(c, s);
    FarPlace(c, s);
  }

  lemma CompressedCount(f: Filter, s: nat, b: nat, q: nat, place: nat)
    requires Wf(f) && f.size == 2 * s && b < s && q < TWO32 && place == b + q % 2 * s
    ensures Compressed(f).size == s && place < 2 * s
    ensures Count(Compressed(f).buckets[b], q) ==
            Count(f.buckets[place], q / 2) + Count(f.buckets[place], q / 2 + 0x8000_0000)
  {
    assert place == if q % 2 == 0 then b else b + s;
    var low, high := f.buckets[b], f.buckets[b + s];
    CompressedSum(f, s, b, q);
    CountDoubles(low, 0, q);
    CountDoubles(high, 1, q);
  }

  lemma CompressedSum(f: Filter, s: nat, b: nat, q: nat)
    requires Wf(f) && f.size == 2 * s && b < s
    ensures Compressed(f).size == s
    ensures Count(Compressed(f).buckets[b], q) ==
            Count(Doubles(f.buckets[b], 0), q) + Count(Doubles(f.buckets[b + s], 1), q)
  {
    assert f.size / 2 == s;
    var low, high := Doubles(f.buckets[b], 0), Doubles(f.buckets[b + s], 1);
    CountAppend(Reverse(low), Reverse(high), q);
    CountReverse(low, q);
    CountReverse(high, q);
  }

  lemma QuotientBelow(c: nat, s: nat, k: nat)
    requires s > 0 && c < s * k
    ensures c / s < k
  {
    if c / s >= k { MulMonotone(k, c / s, s, s); }
  }

  lemma FarPlace(c: nat, s: nat)
    requires s > 0
    ensures (c + s * TWO32) % (2 * s) == c % (2 * s) && (c + s * TWO32) / (2 * s) == c / (2 * s) + 0x8000_0000
  {
    var q, r := DivModIdentity(c, 2 * s);
    DivModUnique(c + s * TWO32, 2 * s, q + 0x8000_0000, r);
  }

  /** Fingerprints have 32 bits, so codes end at size * 2^32. */
  lemma NoCopiesBeyond(f: Filter, c: nat)
    requires Wf(f) && c >= f.size * TWO32
    ensures Copies(f, c) == 0
  {
    var b, q := c % f.size, c / f.size;
    QuotientAtLeast(c, f.size, TWO32);
    CountMember(f.buckets[b], q);
  }

  lemma QuotientAtLeast(c: nat, s: nat, k: nat)
    requires s > 0 && c >= s * k
    ensures c / s >= k
  {
    if c / s < k { MulMonotone(c / s + 1, k, s, s); }
  }

  // ---------------------------------------------------------------------------
  // Hash rounds and their residues
  // ---------------------------------------------------------------------------

  /** The hashes of the first k rounds. */
  function Hashes(hash: Hasher, f: Filter, data: seq<Byte>, k: nat): (hs: seq<U64>)
    ensures |hs| == k && forall i :: 0 <= i < k ==> hs[i] == HashAt(hash, f, data, i)
  {
    if k == 0 then [] else Hashes(hash, f, data, k - 1) + [HashAt(hash, f, data, k - 1)]
  }

  /** How many of the hashes have residue c modulo m. */
  function At(hs: seq<U64>, m: nat, c: nat): nat
    requires m > 0
  {
    if hs == [] then 0 else At(hs[..|hs| - 1], m, c) + (if hs[|hs| - 1] % m == c then 1 else 0)
  }

  lemma AtSnoc(hs: seq<U64>, h: U64, m: nat, c: nat)
    requires m > 0
    ensures At(hs + [h], m, c) == At(hs, m, c) + if h % m == c then 1 else 0
  {
    assert (hs + [h])[..|hs|] == hs;
  }

  lemma {:induction false} AtBelow(hs: seq<U64>, m: nat, c: nat)
    requires m > 0 && At(hs, m, c) > 0
    ensures c < m
  {
    if hs[|hs| - 1] % m != c { AtBelow(hs[..|hs| - 1], m, c); }
  }

  lemma {:induction false} AtSame(hs: seq<U64>, m: nat, n: nat, c: nat)
    requires m > 0 && n > 0 && forall i :: 0 <= i < |hs| ==> hs[i] % m == hs[i] % n
    ensures At(hs, m, c) == At(hs, n, c)
  {
    if hs != [] { AtSame(hs[..|hs| - 1], m, n, c); }
  }

  /** What compression to size s with cap s * 2^32 makes of the modulus m. */
  predicate Halves32(s: nat, m: nat, n: nat) {
    n > 0 && ((n == m && m <= s * TWO32) || (n == s * TWO32 && m == 2 * n))
  }

  lemma ResidueHalved(h: U64, s: nat, m: nat, n: nat, c: nat)
    requires m > 0 && Halves32(s, m, n) && c < s * TWO32
    ensures h % m == c || h % m == c + s * TWO32 ==> h % n == c
  {
    if m != n {
      ModOfMod(h, n, 2);
      DivModUnique(c, n, 0, c);
      DivModUnique(c + n, n, 1, c);
    }
  }

  lemma {:induction false} AtHalved(hs: seq<U64>, s: nat, m: nat, n: nat, c: nat)
    requires m > 0 && Halves32(s, m, n) && c < s * TWO32
    ensures At(hs, m, c) + At(hs, m, c + s * TWO32) <= At(hs, n, c)
  {
    if hs != [] {
      AtHalved(hs[..|hs| - 1], s, m, n, c);
      ResidueHalved(hs[|hs| - 1], s, m, n, c);
    }
  }

  // ---------------------------------------------------------------------------
  // No more copies than rounds
  // ---------------------------------------------------------------------------

  /** Every code is held at most as often as the hashes have it as residue. */
  ghost predicate Bounded(f: Filter, hs: seq<U64>, m: nat)
    requires Wf(f)
  {
    m > 0 && forall c: nat :: Copies(f, c) <= At(hs, m, c)
  }

  lemma {:induction false} PutBounded(hash: Hasher, f: Filter, data: seq<Byte>, k: nat, m: nat)
    requires Wf(f) && f.buckets == EmptyTable(f.size) && m == f.size * Pow(2, Width(f.fpBits)) > 0
    ensures Bounded(PutRounds(hash, f, data, k), Hashes(hash, f, data, k), m)
  {
    if k == 0 {
      EmptyBounded(f, m);
    } else {
      var g, h, hs := PutRounds(hash, f, data, k - 1), HashAt(hash, f, data, k - 1), Hashes(hash, f, data, k - 1);
      PutBounded(hash, f, data, k - 1, m);
      PutNext(g, h, hs, m);
    }
  }

  lemma EmptyBounded(f: Filter, m: nat)
    requires Wf(f) && f.buckets == EmptyTable(f.size) && m > 0
    ensures Bounded(f, [], m)
  {
  }

  lemma PutNext(g: Filter, h: U64, hs: seq<U64>, m: nat)
    requires Wf(g) && m == g.size * Pow(2, Width(g.fpBits)) > 0 && Bounded(g, hs, m)
    ensures Bounded(PutHash(g, h), hs + [h], m)
  {
    CodeIsLowHash(h, g.size, g.fpBits);
    forall c: nat ensures Copies(PutHash(g, h), c) <= At(hs + [h], m, c) {
      PutCopies(g, h, c);
      AtSnoc(hs, h, m, c);
    }
  }

  lemma CompressBounded(f: Filter, s: nat, hs: seq<U64>, r: int, m: nat)
    requires Wf(f) && f.size == 2 * s && r <= 32 && Modulus(f.size, r, m) && Bounded(f, hs, m)
    ensures Bounded(Compressed(f), hs, NextModulus(f.size, DoCompress, r, m))
  {
    var n := NextModulus(f.size, DoCompress, r, m);
    CompressHalves(s, r, m);
    var g := Compressed(f);
    CompressCopies(f, s, 0);
    forall c: nat ensures Copies(g, c) <= At(hs, n, c) {
      if c < s * TWO32 {
        CompressCopies(f, s, c);
        AtHalved(hs, s, m, n, c);
      } else {
        NoCopiesBeyond(g, c);
      }
    }
  }

  lemma CompressHalves(s: nat, r: int, m: nat)
    requires s > 0 && r <= 32 && Modulus(2 * s, r, m)
    ensures Halves32(s, m, NextModulus(2 * s, DoCompress, r, m))
  {
    assert 2 * s / 2 == s;
    if r >= 32 {
      CapModulus(s, m);
    } else {
      ModulusHalved(s, r, m);
      var k := ModulusDividesCap(s, r + 1, m);
      MulAtLeast(k, m);
    }
  }

  lemma ExpandBounded(f: Filter, hs: seq<U64>, m: nat)
    requires Wf(f) && Bounded(f, hs, m)
    ensures Bounded(Expanded(f), hs, m)
  {
    forall c: nat ensures Copies(Expanded(f), c) <= At(hs, m, c) { ExpandCopies(f, c); }
  }

  /** Resizes keep the bound, modulo what they leave of the modulus. */
  lemma {:induction false} RunBounded(hash: Hasher, f: Filter, steps: seq<Step>, hs: seq<U64>, r: int, m: nat)
    requires Wf(f) && r <= 32 && Modulus(f.size, r, m) && Keeping(f.size, steps) && ResizesOnly(steps)
    requires Bounded(f, hs, m)
    ensures Bounded(Run(hash, f, steps), hs, ModulusAfter(f.size, steps, r, m))
    decreases |steps|
  {
    if steps != [] {
      var s := steps[0];
      StepShape(hash, f, s);
      ModulusStep(f.size, s, r, m);
      if s.DoExpand? {
        ExpandBounded(f, hs, m);
      } else if f.size >= 2 {
        CompressBounded(f, f.size / 2, hs, r, m);
      }
      RunBounded(hash, Apply(hash, f, s), steps[1..], hs, Reliable(f.size, s, r), NextModulus(f.size, s, r, m));
    }
  }

  /** Each round of a deletion takes one copy of its code, as long as there is one. */
  lemma {:induction false} DropRoundsCopies(hash: Hasher, f: Filter, data: seq<Byte>, k: nat, m: nat, c: nat)
    requires Wf(f) && m == f.size * Pow(2, Width(f.fpBits)) > 0
    ensures var left := Copies(DropRounds(hash, f, data, k), c);
            left == 0 || left + At(Hashes(hash, f, data, k), m, c) == Copies(f, c)
  {
    if k > 0 {
      var h := HashAt(hash, f, data, k - 1);
      DropRoundsCopies(hash, f, data, k - 1, m, c);
      DropCopies(DropRounds(hash, f, data, k - 1), h, c);
      CodeIsLowHash(h, f.size, f.fpBits);
      AtSnoc(Hashes(hash, f, data, k - 1), h, m, c);
    }
  }

  /** So deletion leaves no entry of a code that had no more copies than the element has rounds for it. */
  lemma DeleteEmpties(hash: Hasher, f: Filter, data: seq<Byte>, m: nat, c: nat)
    requires Wf(f) && m == f.size * Pow(2, Width(f.fpBits)) > 0
    requires Copies(f, c) <= At(Hashes(hash, f, data, f.hashCount), m, c)
    ensures !Stored(Delete(hash, f, data), c)
  {
    var g := DropRounds(hash, f, data, f.hashCount);
    DropRoundsCopies(hash, f, data, f.hashCount, m, c);
    NotStored(g, c);
    assert Delete(hash, f, data).buckets == g.buckets;
  }

  lemma NotStored(g: Filter, c: nat)
    requires Wf(g) && Copies(g, c) == 0
    ensures !Stored(g, c)
  {
    CountMember(g.buckets[c % g.size], c / g.size);
  }
}
