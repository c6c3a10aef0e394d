/** The reference view of an elastic filter: the set of codes it stores. */
module ElasticCodes {
  // The entry with fingerprint fp in bucket b stands for the code b + size * fp. Resizing moves bits
  // between the bucket number and the fingerprint and leaves the code alone, so the whole filter is a
  // size and a set of codes, and an element is contained when each of its hashes agrees with some
  // code modulo the size.

  import opened Words
  import opened Arith
  import opened ElasticFilter

  predicate Stored(f: Filter, c: nat)
    requires Wf(f)
  {
    c / f.size in f.buckets[c % f.size]
  }

  function CodeOf(h: U64, size: nat, fpBits: nat): (c: nat)
    requires size > 0
  {
    Code(h % size, Fingerprint(h, size, fpBits), size)
  }

  // ---------------------------------------------------------------------------
  // Codes and places
  // ---------------------------------------------------------------------------

  /** The code of fingerprint fp in bucket b. */
  function Code(b: nat, fp: nat, size: nat): nat {
    b + size * fp
  }

  lemma PlaceOfCode(b: nat, fp: nat, size: nat)
    requires b < size
    ensures Code(b, fp, size) % size == b && Code(b, fp, size) / size == fp
  {
    DivModUnique(Code(b, fp, size), size, fp, b);
  }

  /** Fingerprints are 32-bit words, so wider settings keep 32 bits. */
  function Width(fpBits: nat): nat {
    if fpBits < 32 then fpBits else 32
  }

  /** A code is the low part of the hash: as much of it as bucket and fingerprint can hold. */
  lemma CodeIsLowHash(h: U64, size: nat, fpBits: nat)
    requires size > 0
    ensures CodeOf(h, size, fpBits) == h % (size * Pow(2, Width(fpBits)))
  {
    var q := h / size;
    Pow32();
    if fpBits <= 32 {
      PowMonotone(2, fpBits, 32);
      SmallMod(q % Pow(2, fpBits));
    } else {
      PowAdd(2, 32, fpBits - 32);
      ModOfMod(q, TWO32, Pow(2, fpBits - 32));
    }
    ModProduct(h, size, Pow(2, Width(fpBits)));
  }

  lemma SmallMod(x: nat)
    requires x < TWO32
    ensures x % TWO32 == x
  {
  }

  lemma Pow32()
    ensures Pow(2, 32) == TWO32
  {
    assert Pow(2, 8) == 256;
    PowAdd(2, 8, 8);
    PowAdd(2, 16, 16);
  }

  // ---------------------------------------------------------------------------
  // What each operation does to the codes
  // ---------------------------------------------------------------------------

  lemma PutCodes(f: Filter, b: nat, fp: Fp, c: nat)
    requires Wf(f) && b < f.size
    ensures Stored(Put(f, b, fp), c) <==> Stored(f, c) || c == Code(b, fp, f.size)
  {
    PlaceOfCode(b, fp, f.size);
    assert c == c % f.size + f.size * (c / f.size);
  }

  lemma {:induction false} PutRoundsCodes(hash: Hasher, f: Filter, data: seq<Byte>, k: nat, c: nat)
    requires Wf(f)
    ensures Stored(PutRounds(hash, f, data, k), c) <==>
            Stored(f, c) || exists i :: 0 <= i < k && c == CodeOf(HashAt(hash, f, data, i), f.size, f.fpBits)
  {
    if k == 0 {
    } else {
      var h := HashAt(hash, f, data, k - 1);
      PutRoundsCodes(hash, f, data, k - 1, c);
      PutCodes(PutRounds(hash, f, data, k - 1), h % f.size, Fingerprint(h, f.size, f.fpBits), c);
    }
  }

  /** Insertion adds exactly the codes of the element. */
  lemma InsertCodes(hash: Hasher, f: Filter, data: seq<Byte>, c: nat)
    requires Wf(f)
    ensures Stored(Insert(hash, f, data), c) <==>
            Stored(f, c) || exists i :: 0 <= i < f.hashCount && c == CodeOf(HashAt(hash, f, data, i), f.size, f.fpBits)
  {
    PutRoundsCodes(hash, f, data, f.hashCount, c);
  }

  lemma {:induction false} HalvesMember(b: Bucket, bit: nat, q: nat)
    requires bit < 2
    ensures q in Halves(b, bit) <==> 2 * q + bit in b
  {
    if b == [] {
    } else {
      HalvesMember(b[1..], bit, q);
      assert b == [b[0]] + b[1..];
    }
  }

  /** Expansion leaves the set of codes as it is. */
  lemma ExpandKeepsCodes(f: Filter, c: nat)
    requires Wf(f)
    ensures Stored(Expanded(f), c) <==> Stored(f, c)
  {
    DivModDouble(c, f.size);
    var b, q := c % f.size, c / f.size;
    HalvesMember(f.buckets[b], q % 2, q / 2);
  }

  /** Every fingerprint still has a spare top bit. */
  predicate Narrow(f: Filter) {
    forall b, j :: 0 <= b < |f.buckets| && 0 <= j < |f.buckets[b]| ==> f.buckets[b][j] < 0x8000_0000
  }

  /** The code that compression to size s' leaves of c: fingerprints keep 32 bits. */
  function Capped(c: nat, s': nat): nat
    requires s' > 0
  {
    c % (s' * TWO32)
  }

  /** The half of a table of size 2s that bucket b lies in, and its bucket after halving. */
  function Half(b: nat, s: nat): (bit: nat)
    ensures bit < 2
  {
    if b < s then 0 else 1
  }

  function Fold(b: nat, s: nat): nat {
    if b < s then b else b - s
  }

  /** Halving the table maps each place to the place of the same code, capped. */
  lemma CompressPlace(c: nat, s: nat)
    requires s > 0
    ensures Capped(c, s) % s == Fold(c % (2 * s), s)
    ensures Capped(c, s) / s == ShiftIn(c / (2 * s), Half(c % (2 * s), s))
  {
    ModProduct(c, s, TWO32);
    HalfPlace(c, s);
  }

  lemma HalfPlace(c: nat, s: nat)
    requires s > 0
    ensures c % s == Fold(c % (2 * s), s)
    ensures c / s == 2 * (c / (2 * s)) + Half(c % (2 * s), s)
  {
    DivModDouble(c, s);
    var bit := c / s % 2;
    if bit == 0 {
      assert c % (2 * s) == c % s;
    } else {
      assert c % (2 * s) == c % s + s;
    }
  }

  lemma StoredAt(f: Filter, c: nat, s: nat, b: nat, q: nat)
    requires Wf(f) && f.size == s && c % s == b && c / s == q
    ensures Stored(f, c) <==> q in f.buckets[b]
  {
  }

  lemma CompressedHolds(f: Filter, s: nat, b: nat, q: nat)
    requires Wf(f) && f.size == 2 * s && b < s
    ensures Compressed(f).size == s
    ensures q in Compressed(f).buckets[b] <==> q in Doubles(f.buckets[b], 0) || q in Doubles(f.buckets[b + s], 1)
  {
    assert f.size / 2 == s;
  }

  /** Compression of an even table caps every code at size/2 * 2^32 ... */
  lemma CompressStores(f: Filter, s: nat, c: nat)
    requires Wf(f) && f.size == 2 * s && Stored(f, c)
    ensures Stored(Compressed(f), Capped(c, s))
  {
    var b, q := c % (2 * s), c / (2 * s);
    EntryDoubled(f, s, b, q);
    CompressPlace(c, s);
    StoredAt(Compressed(f), Capped(c, s), s, Fold(b, s), ShiftIn(q, Half(b, s)));
  }

  lemma EntryDoubled(f: Filter, s: nat, b0: nat, fp: nat)
    requires Wf(f) && f.size == 2 * s && b0 < 2 * s && fp in f.buckets[b0]
    ensures Compressed(f).size == s && ShiftIn(fp, Half(b0, s)) in Compressed(f).buckets[Fold(b0, s)]
  {
    var bit := Half(b0, s);
    DoublesMember(f.buckets[b0], bit, fp);
    CompressedHolds(f, s, Fold(b0, s), ShiftIn(fp, bit));
    assert f.buckets[b0] == if bit == 0 then f.buckets[Fold(b0, s)] else f.buckets[Fold(b0, s) + s];
  }

  lemma DoublesMember(b: Bucket, bit: nat, fp: nat)
    requires bit < 2 && fp in b
    ensures ShiftIn(fp, bit) in Doubles(b, bit)
  {
    var j :| 0 <= j < |b| && b[j] == fp;
    assert Doubles(b, bit)[j] == ShiftIn(fp, bit);
  }

  /** ... and stores no other code. */
  lemma CompressOrigin(f: Filter, s: nat, c: nat) returns (origin: nat)
    requires Wf(f) && f.size == 2 * s && Stored(Compressed(f), c)
    ensures Stored(f, origin) && c == Capped(origin, s)
  {
    CompressedHolds(f, s, 0, 0);
    var b, q := c % s, c / s;
    StoredAt(Compressed(f), c, s, b, q);
    var b0, fp := EntryOrigin(f, s, b, q);
    origin := OriginPlace(b0, fp, s, c);
    StoredAt(f, origin, 2 * s, b0, fp);
  }

  lemma EntryOrigin(f: Filter, s: nat, b: nat, q: nat) returns (b0: nat, fp: nat)
    requires Wf(f) && f.size == 2 * s && b < s && Compressed(f).size == s && q in Compressed(f).buckets[b]
    ensures b0 < 2 * s && fp in f.buckets[b0] && Fold(b0, s) == b && q == ShiftIn(fp, Half(b0, s))
  {
    CompressedHolds(f, s, b, q);
    var bit := if q in Doubles(f.buckets[b], 0) then 0 else 1;
    b0 := if bit == 0 then b else b + s;
    var j :| 0 <= j < |f.buckets[b0]| && Doubles(f.buckets[b0], bit)[j] == q;
    fp := f.buckets[b0][j];
  }

  lemma OriginPlace(b0: nat, fp: nat, s: nat, c: nat) returns (origin: nat)
    requires b0 < 2 * s && c % s == Fold(b0, s) && c / s == ShiftIn(fp, Half(b0, s))
    ensures origin % (2 * s) == b0 && origin / (2 * s) == fp && c == Capped(origin, s)
  {
    origin := Code(b0, fp, 2 * s);
    PlaceOfCode(b0, fp, 2 * s);
    CompressPlace(origin, s);
    SamePlace(c, Capped(origin, s), s);
  }

  lemma SamePlace(c: nat, d: nat, s: nat)
    requires s > 0 && c % s == d % s && c / s == d / s
    ensures c == d
  {
  }

  lemma NarrowEntry(f: Filter, b: nat, q: nat)
    requires Narrow(f) && b < |f.buckets| && q in f.buckets[b]
    ensures q < 0x8000_0000
  {
  }

  /** A stored code of a narrow filter is below the cap. */
  lemma NarrowUncapped(f: Filter, s: nat, c: nat)
    requires Wf(f) && f.size == 2 * s && Narrow(f) && Stored(f, c)
    ensures Capped(c, s) == c
  {
    var b, q := c % (2 * s), c / (2 * s);
    StoredAt(f, c, 2 * s, b, q);
    NarrowEntry(f, b, q);
    SmallMod(2 * q + Half(b, s));
    CompressPlace(c, s);
    HalfPlace(c, s);
    SamePlace(c, Capped(c, s), s);
  }

  /** While fingerprints have a spare bit, compression leaves the set of codes as it is. */
  lemma CompressKeepsCodes(f: Filter, s: nat, c: nat)
    requires Wf(f) && f.size == 2 * s && Narrow(f)
    ensures Stored(Compressed(f), c) <==> Stored(f, c)
  {
    if Stored(f, c) {
      CompressStores(f, s, c);
      NarrowUncapped(f, s, c);
    }
    if Stored(Compressed(f), c) {
      var origin := CompressOrigin(f, s, c);
      NarrowUncapped(f, s, origin);
    }
  }

  lemma {:induction false} MergeBucketMember(dest: Bucket, src: Bucket, fp: Fp)
    ensures fp in MergeBucket(dest, src) <==> fp in dest || fp in src
    decreases |src|
  {
    if src == [] {
    } else {
      MergeBucketMember(BucketInsert(dest, src[0]), src[1..], fp);
    }
  }

  /** Merging unites the codes. */
  lemma MergeCodes(dest: Filter, src: Filter, c: nat)
    requires Wf(dest) && Wf(src) && dest.size == src.size
    ensures Stored(Merged(dest, src), c) <==> Stored(dest, c) || Stored(src, c)
  {
    if c / dest.size < TWO32 {
      MergeBucketMember(dest.buckets[c % dest.size], src.buckets[c % dest.size], c / dest.size);
    }
  }

  // ---------------------------------------------------------------------------
  // Containment read off the codes
  // ---------------------------------------------------------------------------

  ghost predicate Hit(f: Filter, h: U64)
    requires Wf(f)
  {
    exists c: nat :: Stored(f, c) && c % f.size == h % f.size
  }

  /** The bit test of contains is agreement of every hash with some code modulo the size. */
  lemma ContainsIffHit(hash: Hasher, f: Filter, data: seq<Byte>)
    requires Wf(f)
    ensures Contains(hash, f, data) <==> forall i :: 0 <= i < f.hashCount ==> Hit(f, HashAt(hash, f, data, i))
    ensures forall i :: 0 <= i < f.hashCount ==>
              HashAt(hash, f, data, i) == hash(data, (f.seedA + i * f.seedB) % 0x1_0000_0000_0000_0000)
  {
    forall i | 0 <= i < f.hashCount
      ensures f.buckets[HashAt(hash, f, data, i) % f.size] != [] <==> Hit(f, HashAt(hash, f, data, i))
    {
      var b := HashAt(hash, f, data, i) % f.size;
      if f.buckets[b] != [] {
        var fp := f.buckets[b][0];
        PlaceOfCode(b, fp, f.size);
        assert Stored(f, Code(b, fp, f.size));
      }
    }
  }
}
