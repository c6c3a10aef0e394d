/**
 * The CBOR form of elastic and attenuated filters, at the level of CBOR items. Only non-empty
 * buckets are written. omega and count are not carried.
 */
module ElasticCodec {
  import opened Words
  import opened Options
  import opened ElasticFilter
  import opened Bitset
  import opened ElasticImpl

  /** CBOR items; integers remember whether they are 64 bits wide. */
  datatype Cbor =
    | UInt(value: U64, wide: bool)
    | Bytes(data: seq<bv8>)
    | Array(items: seq<Cbor>)

  // ---------------------------------------------------------------------------
  // Encoding
  // ---------------------------------------------------------------------------

  function FpItems(b: Bucket): (r: seq<Cbor>)
    ensures |r| == |b|
    ensures forall j :: 0 <= j < |b| ==> r[j] == UInt(b[j], false)
  {
    seq(|b|, j requires 0 <= j < |b| => UInt(b[j], false))
  }

  function BucketItem(i: U64, b: Bucket): Cbor
    requires |b| < TWO64
  {
    Array([UInt(i, true), UInt(|b|, true)] + FpItems(b))
  }

  /** Sizes that C's fixed-width fields can hold. */
  predicate Encodable(f: Filter) {
    && Wf(f) && f.size < TWO64 && f.hashCount < TWO32
    && forall i :: 0 <= i < |f.buckets| ==> |f.buckets[i]| < TWO64
  }

  /** The items of the occupied buckets among the first n. */
  function BucketItems(bs: seq<Bucket>, n: nat): (r: seq<Cbor>)
    requires n <= |bs| < TWO64 && forall i :: 0 <= i < |bs| ==> |bs[i]| < TWO64
    ensures |r| == Occupied(bs[..n])
  {
    if n == 0 then []
    else
      assert bs[..n][..n - 1] == bs[..n - 1];
      BucketItems(bs, n - 1) + (if bs[n - 1] == [] then [] else [BucketItem(n - 1, bs[n - 1])])
  }

  /** The eight fixed fields. */
  function Header(f: Filter, bits: seq<bv8>): (r: seq<Cbor>)
    requires Encodable(f) && |bits| < TWO64
    ensures |r| == 8
  {
    [UInt(f.size, true), UInt(f.hashCount, false), UInt(f.fpBits, false), UInt(f.seedA, true),
     UInt(f.seedB, true), UInt(|bits|, true), Bytes(bits), UInt(Occupied(f.buckets), true)]
  }

  function Encode(f: Filter, bits: seq<bv8>): Cbor
    requires Encodable(f) && |bits| < TWO64
  {
    Array(Header(f, bits) + BucketItems(f.buckets, f.size))
  }

  /** A new filter: eight fields in this order, and no bucket. */
  lemma NewFilterItems(size: U64, rounds: nat, fpBits: nat, bits: seq<bv8>)
    requires size > 0 && rounds < TWO32 && fpBits < 64 && |bits| < TWO64
    ensures Encode(Empty(size, rounds, fpBits), bits)
         == Array([UInt(size, true), UInt(rounds, false), UInt(fpBits, false), UInt(1, true), UInt(2, true),
                   UInt(|bits|, true), Bytes(bits), UInt(0, true)])
  {
    NoItems(EmptyTable(size), size);
  }

  lemma {:induction false} NoItems(bs: seq<Bucket>, n: nat)
    requires n <= |bs| < TWO64 && forall i :: 0 <= i < |bs| ==> bs[i] == []
    ensures BucketItems(bs, n) == [] && Occupied(bs[..n]) == 0
  {
    if n > 0 {
      NoItems(bs, n - 1);
      assert bs[..n][..n - 1] == bs[..n - 1];
    }
    assert bs[..|bs|] == bs;
  }

  /** A bucket is written as its index, its length and its fingerprints, the head of the list first. */
  lemma OneBucketItem(a: Fp, b: Fp)
    ensures BucketItems([[], [a, b]], 2) == [Array([UInt(1, true), UInt(2, true), UInt(a, false), UInt(b, false)])]
  {
    var bs: seq<Bucket> := [[], [a, b]];
    assert BucketItems(bs, 0) == [] && BucketItems(bs, 1) == [];
    assert FpItems([a, b]) == [UInt(a, false), UInt(b, false)];
    assert [UInt(1, true), UInt(2, true)] + FpItems([a, b])
        == [UInt(1, true), UInt(2, true), UInt(a, false), UInt(b, false)];
    assert BucketItems(bs, 2) == [] + [BucketItem(1, bs[1])];
  }

  // ---------------------------------------------------------------------------
  // Decoding
  // ---------------------------------------------------------------------------

  predicate AllInts(items: seq<Cbor>) {
    forall j :: 0 <= j < |items| ==> items[j].UInt?
  }

  /** The low 32 bits of each integer. */
  function FpsOf(items: seq<Cbor>): (r: Bucket)
    requires AllInts(items)
    ensures |r| == |items|
  {
    seq(|items|, j requires 0 <= j < |items| => items[j].value % TWO32)
  }

  /** A bucket item puts its fingerprints, in order, before what the bucket holds. */
  function TakeBucket(bs: seq<Bucket>, item: Cbor): (r: Option<seq<Bucket>>)
    ensures r.Some? ==> |r.value| == |bs|
  {
    if !item.Array? || |item.items| < 2 then None
    else if !(item.items[0].UInt? && item.items[0].wide && item.items[1].UInt? && item.items[1].wide) then None
    else
      var i, n := item.items[0].value, item.items[1].value;
      if |item.items| != 2 + n || i >= |bs| || !AllInts(item.items[2..]) then None
      else Some(bs[i := FpsOf(item.items[2..]) + bs[i]])
  }

  function TakeBuckets(bs: seq<Bucket>, items: seq<Cbor>): (r: Option<seq<Bucket>>)
    ensures r.Some? ==> |r.value| == |bs|
  {
    if items == [] then Some(bs)
    else
      var front := TakeBuckets(bs, items[..|items| - 1]);
      if front.None? then None else TakeBucket(front.value, items[|items| - 1])
  }

  predicate GoodHeader(item: Cbor) {
    && item.Array? && |item.items| >= 8
    && (forall j :: 0 <= j < 8 && j != 6 ==> item.items[j].UInt?)
    && (forall j :: 0 <= j < 8 && j != 1 && j != 2 && j != 6 ==> item.items[j].wide)
    && item.items[6].Bytes? && |item.items[6].data| == item.items[5].value
    && |item.items| == 8 + item.items[7].value
  }

  /** The occupancy bits of a bucket table, as rebuild_bitset writes them. */
  ghost predicate Mirrors(bits: seq<bv8>, bs: seq<Bucket>) {
    |bits| == ByteCount(|bs|) && forall i: nat :: Get(bits, i) <==> i < |bs| && bs[i] != []
  }

  /** The filter a CBOR item stands for, if it is well formed. */
  function Decode(item: Cbor): (r: Option<Filter>)
    ensures r.Some? ==> |r.value.buckets| == r.value.size
  {
    if !GoodHeader(item) then None
    else
      var size := item.items[0].value;
      var table := TakeBuckets(EmptyTable(size), item.items[8..]);
      if table.None? then None
      else
        Some(Filter(size, table.value, item.items[1].value % TWO32, item.items[3].value, item.items[4].value,
                    item.items[2].value % TWO32, 0))
  }

  // ---------------------------------------------------------------------------
  // Round trip
  // ---------------------------------------------------------------------------

  /** The first n buckets, the rest empty. */
  function Prefix(bs: seq<Bucket>, n: nat): (r: seq<Bucket>)
    requires n <= |bs|
    ensures |r| == |bs|
  {
    seq(|bs|, i requires 0 <= i < |bs| => if i < n then bs[i] else [])
  }

  lemma TakeWritten(bs: seq<Bucket>, i: nat, b: Bucket)
    requires i < |bs| < TWO64 && |b| < TWO64 && bs[i] == []
    ensures TakeBucket(bs, BucketItem(i, b)) == Some(bs[i := b])
  {
    var items := BucketItem(i, b).items;
    assert items[2..] == FpItems(b);
    assert FpsOf(FpItems(b)) == b;
    assert b + bs[i] == b;
  }

  lemma {:induction false} TakeAllWritten(bs: seq<Bucket>, n: nat)
    requires n <= |bs| < TWO64 && forall i :: 0 <= i < |bs| ==> |bs[i]| < TWO64
    ensures TakeBuckets(Prefix(bs, 0), BucketItems(bs, n)) == Some(Prefix(bs, n))
  {
    if n == 0 {
    } else {
      TakeAllWritten(bs, n - 1);
      PrefixNext(bs, n - 1);
      ItemsNext(bs, n - 1);
      if bs[n - 1] != [] {
        TakeWritten(Prefix(bs, n - 1), n - 1, bs[n - 1]);
        TakeSnoc(Prefix(bs, 0), BucketItems(bs, n - 1), BucketItem(n - 1, bs[n - 1]));
      }
    }
  }

  lemma PrefixNext(bs: seq<Bucket>, i: nat)
    requires i < |bs|
    ensures Prefix(bs, i)[i] == [] && Prefix(bs, i + 1) == Prefix(bs, i)[i := bs[i]]
    ensures bs[i] == [] ==> Prefix(bs, i + 1) == Prefix(bs, i)
  {
  }

  lemma ItemsNext(bs: seq<Bucket>, i: nat)
    requires i < |bs| < TWO64 && forall k :: 0 <= k < |bs| ==> |bs[k]| < TWO64
    ensures bs[i] == [] ==> BucketItems(bs, i + 1) == BucketItems(bs, i)
    ensures bs[i] != [] ==> BucketItems(bs, i + 1) == BucketItems(bs, i) + [BucketItem(i, bs[i])]
  {
  }

  lemma TakeSnoc(bs: seq<Bucket>, items: seq<Cbor>, item: Cbor)
    requires TakeBuckets(bs, items).Some?
    ensures TakeBuckets(bs, items + [item]) == TakeBucket(TakeBuckets(bs, items).value, item)
  {
    assert (items + [item])[..|items|] == items;
  }

  /** Decoding an encoded filter gives it back, bucket lists in their order; only count is reset. */
  lemma DecodeEncode(f: Filter, bits: seq<bv8>)
    requires Encodable(f) && |bits| < TWO64
    ensures Decode(Encode(f, bits)) == Some(f.(count := 0))
  {
    var item := Encode(f, bits);
    var h, rest := Header(f, bits), BucketItems(f.buckets, f.size);
    assert f.buckets[..f.size] == f.buckets;
    assert item.items[..8] == h && item.items[8..] == rest;
    HeaderDecodes(f, bits, item.items);
    TakeAllWritten(f.buckets, f.size);
    assert Prefix(f.buckets, 0) == EmptyTable(f.size);
    assert Prefix(f.buckets, f.size) == f.buckets;
  }

  lemma HeaderDecodes(f: Filter, bits: seq<bv8>, items: seq<Cbor>)
    requires Encodable(f) && |bits| < TWO64
    requires |items| == 8 + Occupied(f.buckets) && items[..8] == Header(f, bits)
    ensures GoodHeader(Array(items))
    ensures items[0].value == f.size && items[1].value % TWO32 == f.hashCount && items[2].value % TWO32 == f.fpBits
    ensures items[3].value == f.seedA && items[4].value == f.seedB
  {
    assert forall j :: 0 <= j < 8 ==> items[j] == Header(f, bits)[j];
  }

  lemma ByteFromBits(a: bv8, b: bv8)
    requires forall k: nat :: k < 8 ==> TestBit(a, k) == TestBit(b, k)
    ensures a == b
  {
    assert TestBit(a, 0) == TestBit(b, 0) && TestBit(a, 1) == TestBit(b, 1);
    assert TestBit(a, 2) == TestBit(b, 2) && TestBit(a, 3) == TestBit(b, 3);
    assert TestBit(a, 4) == TestBit(b, 4) && TestBit(a, 5) == TestBit(b, 5);
    assert TestBit(a, 6) == TestBit(b, 6) && TestBit(a, 7) == TestBit(b, 7);
  }

  /** A bucket table has one bitset: the one rebuilt after decoding is the one encoded. */
  lemma MirrorUnique(x: seq<bv8>, y: seq<bv8>, bs: seq<Bucket>)
    requires Mirrors(x, bs) && Mirrors(y, bs)
    ensures x == y
  {
    forall i | 0 <= i < |x|
      ensures x[i] == y[i]
    {
      forall k: nat | k < 8
        ensures TestBit(x[i], k) == TestBit(y[i], k)
      {
        assert (8 * i + k) / 8 == i && (8 * i + k) % 8 == k;
        assert Get(x, 8 * i + k) == Get(y, 8 * i + k);
      }
      ByteFromBits(x[i], y[i]);
    }
  }

  // ---------------------------------------------------------------------------
  // Attenuated filters
  // ---------------------------------------------------------------------------

  function EncodeLevels(fs: seq<Filter>, bits: seq<seq<bv8>>): Cbor
    requires |fs| == |bits| < TWO32
    requires forall i :: 0 <= i < |fs| ==> Encodable(fs[i]) && |bits[i]| < TWO64
  {
    Array([UInt(|fs|, false), Array(seq(|fs|, i requires 0 <= i < |fs| => Encode(fs[i], bits[i])))])
  }

  predicate GoodLevels(item: Cbor) {
    && item.Array? && |item.items| == 2 && item.items[0].UInt? && item.items[1].Array?
    && |item.items[1].items| == item.items[0].value % TWO32
    && forall i :: 0 <= i < |item.items[1].items| ==> Decode(item.items[1].items[i]).Some?
  }

  function DecodeLevels(item: Cbor): Option<seq<Filter>> {
    if !GoodLevels(item) then None
    else
      var levels := item.items[1].items;
      Some(seq(|levels|, i requires 0 <= i < |levels| => Decode(levels[i]).value))
  }

  lemma DecodeEncodeLevels(fs: seq<Filter>, bits: seq<seq<bv8>>)
    requires |fs| == |bits| < TWO32
    requires forall i :: 0 <= i < |fs| ==> Encodable(fs[i]) && |bits[i]| < TWO64
    ensures var r := DecodeLevels(EncodeLevels(fs, bits));
            r.Some? && |r.value| == |fs| && forall i :: 0 <= i < |fs| ==> r.value[i] == fs[i].(count := 0)
  {
    var item := EncodeLevels(fs, bits);
    forall i | 0 <= i < |fs|
      ensures Decode(item.items[1].items[i]) == Some(fs[i].(count := 0))
    {
      DecodeEncode(fs[i], bits[i]);
    }
  }

  // ---------------------------------------------------------------------------
  // The loops
  // ---------------------------------------------------------------------------

  method EncodeBuckets(bs: seq<Bucket>) returns (items: seq<Cbor>)
    requires |bs| < TWO64 && forall i :: 0 <= i < |bs| ==> |bs[i]| < TWO64
    ensures items == BucketItems(bs, |bs|)
  {
    items := [];
    var i := 0;
    while i < |bs|
      invariant 0 <= i <= |bs| && items == BucketItems(bs, i)
    {
      if bs[i] != [] {
        items := items + [BucketItem(i, bs[i])];
      }
      i := i + 1;
    }
  }

  method EncodeFilter(e: Elastic) returns (item: Cbor)
    requires e.Valid() && Encodable(e.State()) && |e.bits.data| < TWO64
    ensures item == Encode(e.State(), e.bits.data)
  {
    var occupied := e.CountOccupied();
    var arr := [UInt(e.size, true), UInt(e.hashCount, false), UInt(e.fpBits, false), UInt(e.seedA, true),
                UInt(e.seedB, true), UInt(|e.bits.data|, true), Bytes(e.bits.data), UInt(occupied, true)];
    assert arr == Header(e.State(), e.bits.data);
    var rest := EncodeBuckets(e.buckets);
    return Array(arr + rest);
  }

  /** Inserts from the last fingerprint to the first, so that the list matches the original. */
  method InsertReversed(items: seq<Cbor>, onto: Bucket) returns (b: Bucket)
    requires AllInts(items)
    ensures b == FpsOf(items) + onto
  {
    b := onto;
    var f := |items|;
    while f > 0
      invariant 0 <= f <= |items|
      invariant b == FpsOf(items)[f..] + onto
    {
      f := f - 1;
      assert FpsOf(items)[f..] == [FpsOf(items)[f]] + FpsOf(items)[f + 1..];
      b := [items[f].value % TWO32] + b;
    }
  }

  method FillBucket(bs: seq<Bucket>, item: Cbor) returns (r: seq<Bucket>)
    requires TakeBucket(bs, item).Some?
    ensures r == TakeBucket(bs, item).value
  {
    var i := item.items[0].value;
    var filled := InsertReversed(item.items[2..], bs[i]);
    r := bs[i := filled];
  }

  /** Decodes into a fresh filter, with its bitset rebuilt from the buckets. */
  method DecodeFilter(item: Cbor, hash: Hasher) returns (e: Elastic?)
    ensures e != null <==> Decode(item).Some? && Wf(Decode(item).value)
    ensures e != null ==> fresh(e) && e.Valid() && e.State() == Decode(item).value
  {
    if !GoodHeader(item) { return null; }
    var size, fpBits := item.items[0].value, item.items[2].value % TWO32;
    if size == 0 || fpBits >= 64 { return null; }
    var made := new Elastic(size, item.items[1].value % TWO32, 0.5, fpBits, hash);
    made.seedA, made.seedB := item.items[3].value, item.items[4].value;
    ghost var tail := item.items[8..];
    var k := 0;
    while k < item.items[7].value
      invariant 0 <= k <= |tail| && fresh(made) && made.Shaped()
      invariant TakeBuckets(EmptyTable(size), tail[..k]) == Some(made.buckets)
      invariant made.State() == Filter(size, made.buckets, item.items[1].value % TWO32, item.items[3].value,
                                       item.items[4].value, fpBits, 0)
    {
      var bucket := item.items[8 + k];
      assert tail[..k + 1][..k] == tail[..k];
      if TakeBucket(made.buckets, bucket).None? {
        TakeFails(EmptyTable(size), tail, k + 1);
        return null;
      }
      made.buckets := FillBucket(made.buckets, bucket);
      k := k + 1;
    }
    assert tail[..k] == tail;
    made.RebuildBitset();
    return made;
  }

  lemma {:induction false} TakeFails(bs: seq<Bucket>, items: seq<Cbor>, n: nat)
    requires n <= |items| && TakeBuckets(bs, items[..n]).None?
    ensures TakeBuckets(bs, items).None?
    decreases |items|
  {
    if n == |items| {
      assert items[..n] == items;
    } else {
      var m := |items| - 1;
      assert items[..m][..n] == items[..n];
      TakeFails(bs, items[..m], n);
    }
  }

  /** A filter sent over and decoded: the same state and, byte for byte, the same bitset; only count is reset. */
  method Transfer(e: Elastic) returns (copy: Elastic?)
    requires e.Valid() && Encodable(e.State()) && |e.bits.data| < TWO64
    ensures copy != null && fresh(copy) && copy.Valid()
    ensures copy.State() == e.State().(count := 0) && copy.bits.data == e.bits.data
  {
    var item := EncodeFilter(e);
    DecodeEncode(e.State(), e.bits.data);
    copy := DecodeFilter(item, e.hash);
    MirrorUnique(copy.bits.data, e.bits.data, e.buckets);
  }
}
