/** Resizes undo each other and conserve entries; deletion takes away the codes of an element. */
module ElasticLaws {
  import opened Words
  import opened ElasticFilter
  import opened ElasticCodes

  // ---------------------------------------------------------------------------
  // Lists
  // ---------------------------------------------------------------------------

  /** The entries with low bit `bit`, in order. */
  function Sift(b: Bucket, bit: nat): Bucket {
    if b == [] then []
    else if b[0] % 2 == bit then [b[0]] + Sift(b[1..], bit)
    else Sift(b[1..], bit)
  }

  lemma {:induction false} ReverseAppend(a: Bucket, b: Bucket)
    ensures Reverse(a + b) == Reverse(b) + Reverse(a)
  {
    if a == [] {
      assert a + b == b;
    } else {
      ReverseAppend(a[1..], b);
      assert (a + b)[1..] == a[1..] + b;
    }
  }

  lemma {:induction false} ReverseTwice(a: Bucket)
    ensures Reverse(Reverse(a)) == a
  {
    if a == [] {
    } else {
      ReverseAppend(Reverse(a[1..]), [a[0]]);
      ReverseTwice(a[1..]);
      assert Reverse([a[0]]) == [a[0]];
    }
  }

  lemma {:induction false} HalvesAppend(a: Bucket, b: Bucket, bit: nat)
    ensures Halves(a + b, bit) == Halves(a, bit) + Halves(b, bit)
  {
    if a == [] {
      assert a + b == b;
    } else {
      HalvesAppend(a[1..], b, bit);
      assert (a + b)[1..] == a[1..] + b;
    }
  }

  lemma {:induction false} HalvesReverse(a: Bucket, bit: nat)
    ensures Halves(Reverse(a), bit) == Reverse(Halves(a, bit))
  {
    if a == [] {
    } else {
      HalvesReverse(a[1..], bit);
      HalvesAppend(Reverse(a[1..]), [a[0]], bit);
      assert [a[0]][1..] == [];
    }
  }

  lemma DoublesReverse(a: Bucket, bit: nat)
    requires bit < 2
    ensures Doubles(Reverse(a), bit) == Reverse(Doubles(a, bit))
  {
    forall j | 0 <= j < |a|
      ensures Doubles(Reverse(a), bit)[j] == Reverse(Doubles(a, bit))[j]
    {
      ReverseAt(a, j);
      ReverseAt(Doubles(a, bit), j);
    }
  }

  lemma {:induction false} ReverseAt(a: Bucket, j: nat)
    requires j < |a|
    ensures Reverse(a)[j] == a[|a| - 1 - j]
  {
    if j < |a| - 1 {
      ReverseAt(a[1..], j);
    }
  }

  // ---------------------------------------------------------------------------
  // Expand, then compress
  // ---------------------------------------------------------------------------

  lemma {:induction false} DoublesOfHalves(b: Bucket, bit: nat)
    requires bit < 2
    ensures Doubles(Halves(b, bit), bit) == Sift(b, bit)
  {
    if b == [] {
    } else {
      DoublesOfHalves(b[1..], bit);
      if b[0] % 2 == bit {
        SmallMod(b[0]);
        assert ShiftIn(b[0] / 2, bit) == b[0];
        assert Halves(b, bit)[1..] == Halves(b[1..], bit);
      }
    }
  }

  lemma {:induction false} SiftSplits(b: Bucket)
    ensures multiset(Sift(b, 0) + Sift(b, 1)) == multiset(b)
  {
    if b == [] {
    } else {
      SiftSplits(b[1..]);
      assert b == [b[0]] + b[1..];
    }
  }

  /** What an entry list goes through: halved and reversed, doubled and reversed. */
  lemma BackFromHalves(b: Bucket, bit: nat)
    requires bit < 2
    ensures Reverse(Doubles(Reverse(Halves(b, bit)), bit)) == Sift(b, bit)
  {
    var h := Halves(b, bit);
    DoublesReverse(h, bit);
    ReverseTwice(Doubles(h, bit));
    DoublesOfHalves(b, bit);
  }

  lemma ExpandCompressBucket(f: Filter, b: nat)
    requires Wf(f) && b < f.size
    ensures Compressed(Expanded(f)).size == f.size
    ensures Compressed(Expanded(f)).buckets[b] ==
            Reverse(Doubles(Reverse(Halves(f.buckets[b], 0)), 0))
            + Reverse(Doubles(Reverse(Halves(f.buckets[b], 1)), 1))
  {
    var g := Expanded(f);
    assert g.size / 2 == f.size;
    assert Compressed(g).buckets[b] == CompressedBucket(g, b);
    assert g.buckets[b] == ExpandedBucket(f, b) && g.buckets[b + f.size] == ExpandedBucket(f, b + f.size);
  }

  /** Expanding and compressing returns every bucket, evens before odds, each in their old order. */
  lemma ExpandThenCompress(f: Filter, b: nat)
    requires Wf(f) && b < f.size
    ensures Compressed(Expanded(f)).size == f.size
    ensures Compressed(Expanded(f)).buckets[b] == Sift(f.buckets[b], 0) + Sift(f.buckets[b], 1)
    ensures multiset(Compressed(Expanded(f)).buckets[b]) == multiset(f.buckets[b])
  {
    ExpandCompressBucket(f, b);
    BackFromHalves(f.buckets[b], 0);
    BackFromHalves(f.buckets[b], 1);
    SiftSplits(f.buckets[b]);
  }

  // ---------------------------------------------------------------------------
  // Compress, then expand
  // ---------------------------------------------------------------------------

  /** What a 32-bit shift left and a shift right leave of an entry: all but the top bit. */
  function DropTop(b: Bucket): (r: Bucket)
    ensures |r| == |b|
    ensures forall j :: 0 <= j < |b| ==> r[j] == b[j] % 0x8000_0000
  {
    if b == [] then [] else [b[0] % 0x8000_0000] + DropTop(b[1..])
  }

  lemma {:induction false} HalvesOfDoubles(b: Bucket, bit: nat, want: nat)
    requires bit < 2 && want < 2
    ensures Halves(Doubles(b, bit), want) == if bit == want then DropTop(b) else []
  {
    if b == [] {
    } else {
      HalvesOfDoubles(b[1..], bit, want);
      assert Doubles(b, bit)[1..] == Doubles(b[1..], bit);
      assert ShiftIn(b[0], bit) % 2 == bit && ShiftIn(b[0], bit) / 2 == b[0] % 0x8000_0000;
    }
  }

  lemma HalvesOfMerged(first: Bucket, second: Bucket, want: nat)
    requires want < 2
    ensures Reverse(Halves(Reverse(Doubles(first, 0)) + Reverse(Doubles(second, 1)), want))
         == if want == 0 then DropTop(first) else DropTop(second)
  {
    HalvesAppend(Reverse(Doubles(first, 0)), Reverse(Doubles(second, 1)), want);
    HalvesReverse(Doubles(first, 0), want);
    HalvesReverse(Doubles(second, 1), want);
    HalvesOfDoubles(first, 0, want);
    HalvesOfDoubles(second, 1, want);
    var r := if want == 0 then DropTop(first) else DropTop(second);
    ReverseTwice(r);
    assert Reverse([]) == [];
    assert Halves(Reverse(Doubles(first, 0)) + Reverse(Doubles(second, 1)), want) == Reverse(r);
  }

  lemma CompressThenExpandBucket(f: Filter, s: nat, b: nat)
    requires Wf(f) && f.size == 2 * s && b < f.size
    ensures Expanded(Compressed(f)).size == f.size
    ensures Expanded(Compressed(f)).buckets[b] == DropTop(f.buckets[b])
  {
    var g := Compressed(f);
    assert f.size / 2 == s && g.size == s;
    var i := if b < s then b else b - s;
    assert g.buckets[i] == CompressedBucket(f, i);
    assert Expanded(g).buckets[b] == ExpandedBucket(g, b);
    HalvesOfMerged(f.buckets[i], f.buckets[i + s], if b < s then 0 else 1);
  }

  predicate NarrowBucket(b: Bucket) {
    forall j :: 0 <= j < |b| ==> b[j] < 0x8000_0000
  }

  lemma {:induction false} DropTopId(b: Bucket)
    ensures DropTop(b) == b <==> NarrowBucket(b)
  {
    if b == [] {
    } else {
      DropTopId(b[1..]);
      assert DropTop(b)[1..] == DropTop(b[1..]);
      assert b == [b[0]] + b[1..];
    }
  }

  /** Compressing an even table and expanding it is the identity exactly on narrow filters. */
  lemma CompressThenExpand(f: Filter)
    requires Wf(f) && f.size % 2 == 0
    ensures Expanded(Compressed(f)) == f <==> Narrow(f)
  {
    var g := Expanded(Compressed(f));
    forall b | 0 <= b < f.size
      ensures g.size == f.size && (g.buckets[b] == f.buckets[b] <==> NarrowBucket(f.buckets[b]))
    {
      CompressThenExpandBucket(f, f.size / 2, b);
      DropTopId(f.buckets[b]);
    }
    CompressThenExpandBucket(f, f.size / 2, 0);
    if Narrow(f) {
      assert g.buckets == f.buckets;
      assert g == f;
    }
  }

  // ---------------------------------------------------------------------------
  // Conservation of entries
  // ---------------------------------------------------------------------------

  function Entries(bs: seq<Bucket>): nat {
    if bs == [] then 0 else Entries(bs[..|bs| - 1]) + |bs[|bs| - 1]|
  }

  /** When ys[i] holds as many entries as xs[i] and zs[i] together, so do the totals. */
  lemma {:induction false} EntriesPaired(xs: seq<Bucket>, zs: seq<Bucket>, ys: seq<Bucket>)
    requires |xs| == |ys| == |zs|
    requires forall i :: 0 <= i < |ys| ==> |ys[i]| == |xs[i]| + |zs[i]|
    ensures Entries(ys) == Entries(xs) + Entries(zs)
  {
    if ys == [] {
    } else {
      var n := |ys| - 1;
      EntriesPaired(xs[..n], zs[..n], ys[..n]);
    }
  }

  lemma {:induction false} EntriesAppend(xs: seq<Bucket>, zs: seq<Bucket>)
    ensures Entries(xs + zs) == Entries(xs) + Entries(zs)
  {
    if zs == [] {
      assert xs + zs == xs;
    } else {
      var n := |zs| - 1;
      EntriesAppend(xs, zs[..n]);
      assert (xs + zs)[..|xs + zs| - 1] == xs + zs[..n];
    }
  }

  lemma {:induction false} HalvesCount(b: Bucket)
    ensures |Halves(b, 0)| + |Halves(b, 1)| == |b|
  {
    if b == [] {
    } else {
      HalvesCount(b[1..]);
    }
  }

  lemma ExpandConservesEntries(f: Filter)
    requires Wf(f)
    ensures Entries(Expanded(f).buckets) == Entries(f.buckets)
  {
    var bs := Expanded(f).buckets;
    var xs, zs := bs[..f.size], bs[f.size..];
    assert bs == xs + zs;
    EntriesAppend(xs, zs);
    forall i | 0 <= i < f.size ensures |f.buckets[i]| == |xs[i]| + |zs[i]| { SplitCount(f, i); }
    EntriesPaired(xs, zs, f.buckets);
  }

  lemma SplitCount(f: Filter, i: nat)
    requires Wf(f) && i < f.size
    ensures var bs := Expanded(f).buckets; |f.buckets[i]| == |bs[..f.size][i]| + |bs[f.size..][i]|
  {
    HalvesCount(f.buckets[i]);
    assert Expanded(f).buckets[f.size..][i] == Expanded(f).buckets[i + f.size];
  }

  lemma CompressConservesEntries(f: Filter)
    requires Wf(f) && f.size % 2 == 0
    ensures Entries(Compressed(f).buckets) == Entries(f.buckets)
  {
    var s := f.size / 2;
    var xs, zs, ys := f.buckets[..s], f.buckets[s..], Compressed(f).buckets;
    assert f.buckets == xs + zs;
    EntriesAppend(xs, zs);
    forall i | 0 <= i < s
      ensures |ys[i]| == |xs[i]| + |zs[i]|
    {
      assert ys[i] == CompressedBucket(f, i) && zs[i] == f.buckets[i + s];
    }
    EntriesPaired(xs, zs, ys);
  }

  // ---------------------------------------------------------------------------
  // Deletion
  // ---------------------------------------------------------------------------

  lemma {:induction false} BucketRemoveMember(b: Bucket, fp: Fp, q: Fp)
    requires q != fp
    ensures q in BucketRemove(b, fp) <==> q in b
  {
    if b == [] {
    } else if b[0] == fp {
      assert b == [b[0]] + b[1..];
    } else {
      BucketRemoveMember(b[1..], fp, q);
      assert b == [b[0]] + b[1..];
    }
  }

  lemma DropSpares(f: Filter, b: nat, fp: Fp, c: nat)
    requires Wf(f) && b < f.size && c != Code(b, fp, f.size)
    ensures Stored(Drop(f, b, fp), c) <==> Stored(f, c)
  {
    var q := c / f.size;
    assert c == Code(c % f.size, q, f.size);
    if c % f.size == b && q < TWO32 {
      BucketRemoveMember(f.buckets[b], fp, q);
    }
  }

  lemma {:induction false} DropRoundsSpare(hash: Hasher, f: Filter, data: seq<Byte>, k: nat, c: nat)
    requires Wf(f)
    requires forall i :: 0 <= i < k ==> c != CodeOf(HashAt(hash, f, data, i), f.size, f.fpBits)
    ensures Stored(DropRounds(hash, f, data, k), c) <==> Stored(f, c)
  {
    if k == 0 {
    } else {
      var h := HashAt(hash, f, data, k - 1);
      DropRoundsSpare(hash, f, data, k - 1, c);
      DropSpares(DropRounds(hash, f, data, k - 1), h % f.size, Fingerprint(h, f.size, f.fpBits), c);
    }
  }

  predicate NoDup(b: Bucket) {
    b == [] || (b[0] !in b[1..] && NoDup(b[1..]))
  }

  /** No bucket holds a fingerprint twice. */
  predicate Distinct(f: Filter) {
    forall b :: 0 <= b < |f.buckets| ==> NoDup(f.buckets[b])
  }

  lemma {:induction false} BucketRemoveDistinct(b: Bucket, fp: Fp)
    requires NoDup(b)
    ensures fp !in BucketRemove(b, fp) && NoDup(BucketRemove(b, fp))
    ensures forall x :: x in BucketRemove(b, fp) ==> x in b
  {
    if b == [] {
    } else {
      BucketRemoveDistinct(b[1..], fp);
      assert b == [b[0]] + b[1..];
      if b[0] != fp {
        assert BucketRemove(b, fp)[1..] == BucketRemove(b[1..], fp);
      }
    }
  }

  lemma DropDistinct(f: Filter, b: nat, fp: Fp, c: nat)
    requires Wf(f) && Distinct(f) && b < f.size
    ensures Distinct(Drop(f, b, fp))
    ensures Stored(Drop(f, b, fp), c) <==> Stored(f, c) && c != Code(b, fp, f.size)
  {
    BucketRemoveDistinct(f.buckets[b], fp);
    if c == Code(b, fp, f.size) {
      PlaceOfCode(b, fp, f.size);
    } else {
      DropSpares(f, b, fp, c);
    }
  }

  lemma {:induction false} DropRoundsCodes(hash: Hasher, f: Filter, data: seq<Byte>, k: nat, c: nat)
    requires Wf(f) && Distinct(f)
    ensures Distinct(DropRounds(hash, f, data, k))
    ensures Stored(DropRounds(hash, f, data, k), c) <==>
            Stored(f, c) && forall i :: 0 <= i < k ==> c != CodeOf(HashAt(hash, f, data, i), f.size, f.fpBits)
  {
    if k == 0 {
    } else {
      var h := HashAt(hash, f, data, k - 1);
      DropRoundsCodes(hash, f, data, k - 1, c);
      DropDistinct(DropRounds(hash, f, data, k - 1), h % f.size, Fingerprint(h, f.size, f.fpBits), c);
    }
  }

  /** Without duplicate entries, deletion removes exactly the codes the element has at the current size. */
  lemma DeleteCodes(hash: Hasher, f: Filter, data: seq<Byte>, c: nat)
    requires Wf(f) && Distinct(f)
    ensures Distinct(Delete(hash, f, data))
    ensures Stored(Delete(hash, f, data), c) <==>
            Stored(f, c) && forall i :: 0 <= i < f.hashCount ==> c != CodeOf(HashAt(hash, f, data, i), f.size, f.fpBits)
  {
    DropRoundsCodes(hash, f, data, f.hashCount, c);
  }

  lemma {:induction false} NoDupAppend(a: Bucket, b: Bucket)
    requires NoDup(a) && NoDup(b) && forall x :: x in a ==> x !in b
    ensures NoDup(a + b)
  {
    if a == [] {
      assert a + b == b;
    } else {
      NoDupAppend(a[1..], b);
      assert (a + b)[1..] == a[1..] + b;
    }
  }

  lemma {:induction false} NoDupReverse(a: Bucket)
    requires NoDup(a)
    ensures NoDup(Reverse(a))
  {
    if a == [] {
    } else {
      NoDupReverse(a[1..]);
      NoDupAppend(Reverse(a[1..]), [a[0]]);
    }
  }

  lemma {:induction false} NoDupHalves(a: Bucket, bit: nat)
    requires NoDup(a) && bit < 2
    ensures NoDup(Halves(a, bit))
  {
    if a == [] {
    } else {
      NoDupHalves(a[1..], bit);
      if a[0] % 2 == bit {
        HalvesMember(a[1..], bit, a[0] / 2);
        assert Halves(a, bit)[1..] == Halves(a[1..], bit);
      }
    }
  }

  lemma DoublesFrom(a: Bucket, bit: nat, x: Fp)
    requires NarrowBucket(a) && bit < 2 && x in Doubles(a, bit)
    ensures x % 2 == bit && x / 2 in a
  {
    var j :| 0 <= j < |a| && Doubles(a, bit)[j] == x;
    SmallMod(2 * a[j] + bit);
  }

  lemma ShiftNotIn(a: Bucket, bit: nat, x: Fp)
    requires NarrowBucket(a) && bit < 2 && x < 0x8000_0000 && x !in a
    ensures ShiftIn(x, bit) !in Doubles(a, bit)
  {
    var y := ShiftIn(x, bit);
    SmallMod(2 * x + bit);
    if y in Doubles(a, bit) { DoublesFrom(a, bit, y); }
  }

  lemma {:induction false} NoDupDoubles(a: Bucket, bit: nat)
    requires NoDup(a) && NarrowBucket(a) && bit < 2
    ensures NoDup(Doubles(a, bit))
  {
    if a == [] {
    } else {
      NoDupDoubles(a[1..], bit);
      ShiftNotIn(a[1..], bit, a[0]);
      assert Doubles(a, bit)[1..] == Doubles(a[1..], bit);
    }
  }

  lemma {:induction false} NoDupMerge(dest: Bucket, src: Bucket)
    requires NoDup(dest)
    ensures NoDup(MergeBucket(dest, src))
    decreases |src|
  {
    if src == [] {
    } else {
      assert ([src[0]] + dest)[1..] == dest;
      NoDupMerge(BucketInsert(dest, src[0]), src[1..]);
    }
  }

  lemma PutDistinct(f: Filter, b: nat, fp: Fp)
    requires Wf(f) && Distinct(f) && b < f.size
    ensures Distinct(Put(f, b, fp))
  {
    assert ([fp] + f.buckets[b])[1..] == f.buckets[b];
  }

  lemma {:induction false} PutRoundsDistinct(hash: Hasher, f: Filter, data: seq<Byte>, k: nat)
    requires Wf(f) && Distinct(f)
    ensures Distinct(PutRounds(hash, f, data, k))
  {
    if k == 0 {
    } else {
      var h := HashAt(hash, f, data, k - 1);
      PutRoundsDistinct(hash, f, data, k - 1);
      PutDistinct(PutRounds(hash, f, data, k - 1), h % f.size, Fingerprint(h, f.size, f.fpBits));
    }
  }

  lemma ResizeDistinct(f: Filter)
    requires Wf(f) && Distinct(f)
    ensures Distinct(Expanded(f))
    ensures f.size % 2 == 0 && Narrow(f) ==> Distinct(Compressed(f))
  {
    forall b | 0 <= b < 2 * f.size
      ensures NoDup(ExpandedBucket(f, b))
    {
      var i := if b < f.size then b else b - f.size;
      NoDupHalves(f.buckets[i], if b < f.size then 0 else 1);
      NoDupReverse(Halves(f.buckets[i], if b < f.size then 0 else 1));
    }
    if f.size % 2 == 0 && Narrow(f) {
      var s := f.size / 2;
      forall b | 0 <= b < s
        ensures NoDup(CompressedBucket(f, b))
      {
        NoDupDoubles(f.buckets[b], 0);
        NoDupDoubles(f.buckets[b + s], 1);
        NoDupReverse(Doubles(f.buckets[b], 0));
        NoDupReverse(Doubles(f.buckets[b + s], 1));
        forall x | x in Doubles(f.buckets[b], 0)
          ensures x !in Doubles(f.buckets[b + s], 1)
        {
          DoublesFrom(f.buckets[b], 0, x);
          if x in Doubles(f.buckets[b + s], 1) {
            DoublesFrom(f.buckets[b + s], 1, x);
          }
        }
        NoDupAppend(Reverse(Doubles(f.buckets[b], 0)), Reverse(Doubles(f.buckets[b + s], 1)));
      }
    }
  }

  /** Every step keeps buckets duplicate-free, compression as long as no top bit is lost. */
  lemma StepDistinct(hash: Hasher, f: Filter, s: Step)
    requires Wf(f) && Distinct(f)
    requires s.DoCompress? && f.size >= 2 ==> f.size % 2 == 0 && Narrow(f)
    ensures Distinct(Apply(hash, f, s))
  {
    match s
    case DoInsert(data) => PutRoundsDistinct(hash, f, data, f.hashCount);
    case DoDelete(data) => DeleteCodes(hash, f, data, 0);
    case DoPut(b, fp) => if b < f.size { PutDistinct(f, b, fp); }
    case DoExpand => ResizeDistinct(f);
    case DoCompress => ResizeDistinct(f);
    case DoMerge(src) =>
      if Wf(src) && src.size == f.size {
        forall b | 0 <= b < f.size
          ensures NoDup(MergeBucket(f.buckets[b], src.buckets[b]))
        {
          NoDupMerge(f.buckets[b], src.buckets[b]);
        }
      }
  }
}
