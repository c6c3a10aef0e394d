/**
 * The elastic Bloom filter in place: bucket table, occupancy bits and counters updated by loops.
 *
 * Valid says that bit i is set exactly when bucket i is non-empty and that there is one bucket per bit.
 *
 * Every method keeps it and moves State by the function of the same name in ElasticFilter, so the laws
 * about runs of those functions are laws about the object.
 */
module ElasticImpl {
  import opened Words
  import opened ElasticFilter
  import opened Bitset
  import Laws = ElasticLaws

  /** Bytes of a bitset of the given number of bits. */
  function ByteCount(size: nat): nat {
    if size % 8 > 0 then size / 8 + 1 else size / 8
  }

  method BucketContains(b: Bucket, fp: Fp) returns (found: bool)
    ensures found <==> fp in b
  {
    var j := 0;
    while j < |b|
      invariant 0 <= j <= |b|
      invariant fp !in b[..j]
    {
      if b[j] == fp { return true; }
      j := j + 1;
    }
    return false;
  }

  method RemoveFirst(b: Bucket, fp: Fp) returns (r: Bucket, found: bool)
    ensures r == BucketRemove(b, fp)
    ensures found <==> fp in b
  {
    var j := 0;
    while j < |b|
      invariant 0 <= j <= |b|
      invariant fp !in b[..j]
      invariant BucketRemove(b, fp) == b[..j] + BucketRemove(b[j..], fp)
    {
      if b[j] == fp {
        assert BucketRemove(b[j..], fp) == b[j + 1..];
        return b[..j] + b[j + 1..], true;
      }
      assert b[..j + 1] == b[..j] + [b[j]] && b[j..][1..] == b[j + 1..];
      j := j + 1;
    }
    return b, false;
  }

  /** The inner loop of expand: pushes each entry, shifted, onto the list its low bit selects. */
  method SplitBucket(b: Bucket) returns (stay: Bucket, move: Bucket)
    ensures stay == Reverse(Halves(b, 0)) && move == Reverse(Halves(b, 1))
  {
    stay, move := [], [];
    var j := 0;
    while j < |b|
      invariant 0 <= j <= |b|
      invariant stay == Reverse(Halves(b[..j], 0)) && move == Reverse(Halves(b[..j], 1))
    {
      PushHalf(b, j, 0);
      PushHalf(b, j, 1);
      if b[j] % 2 == 0 {
        stay := [b[j] / 2] + stay;
      } else {
        move := [b[j] / 2] + move;
      }
      j := j + 1;
    }
    assert b[..j] == b;
  }

  lemma PushHalf(b: Bucket, j: nat, bit: nat)
    requires j < |b| && bit < 2
    ensures Reverse(Halves(b[..j + 1], bit)) ==
            (if b[j] % 2 == bit then [b[j] / 2] else []) + Reverse(Halves(b[..j], bit))
  {
    assert b[..j + 1] == b[..j] + [b[j]];
    Laws.HalvesAppend(b[..j], [b[j]], bit);
    var last := Halves([b[j]], bit);
    assert last == if b[j] % 2 == bit then [b[j] / 2] else [];
    Laws.ReverseAppend(Halves(b[..j], bit), last);
    assert Reverse(last) == last;
  }

  /** One of the two inner loops of compress: pushes every entry of b, with a bit, onto merged. */
  method PushDoubled(b: Bucket, bit: nat, onto: Bucket) returns (merged: Bucket)
    requires bit < 2
    ensures merged == Reverse(Doubles(b, bit)) + onto
  {
    merged := onto;
    var j := 0;
    ghost var d := Doubles(b, bit);
    while j < |b|
      invariant 0 <= j <= |b|
      invariant merged == Reverse(d[..j]) + onto
    {
      PushNext(d, j, onto);
      merged := [ShiftIn(b[j], bit)] + merged;
      j := j + 1;
    }
    assert d[..j] == d;
  }

  lemma PushNext(d: Bucket, j: nat, onto: Bucket)
    requires j < |d|
    ensures Reverse(d[..j + 1]) + onto == [d[j]] + (Reverse(d[..j]) + onto)
  {
    assert d[..j + 1] == d[..j] + [d[j]];
    Laws.ReverseAppend(d[..j], [d[j]]);
    assert Reverse([d[j]]) == [d[j]];
  }

  /** The body of the compress loop: the upper bucket's entries first, the lower ones on top. */
  method MergePair(first: Bucket, second: Bucket) returns (merged: Bucket)
    ensures merged == Reverse(Doubles(first, 0)) + Reverse(Doubles(second, 1))
  {
    merged := PushDoubled(second, 1, []);
    merged := PushDoubled(first, 0, merged);
  }

  method MergeLists(dest: Bucket, src: Bucket) returns (r: Bucket)
    ensures r == MergeBucket(dest, src)
  {
    r := dest;
    var j := 0;
    while j < |src|
      invariant 0 <= j <= |src|
      invariant MergeBucket(dest, src) == MergeBucket(r, src[j..])
    {
      var there := BucketContains(r, src[j]);
      assert src[j..][1..] == src[j + 1..];
      if !there {
        r := [src[j]] + r;
      }
      j := j + 1;
    }
  }

  class Elastic {
    const hash: Hasher
    var bits: Bits
    var size: nat
    var bucketCount: nat
    var buckets: seq<Bucket>
    var hashCount: nat
    var seedA: U64
    var seedB: U64
    var omega: real
    var fpBits: nat
    var count: nat

    ghost function State(): Filter
      reads this
    {
      Filter(size, buckets, hashCount, seedA, seedB, fpBits, count)
    }

    ghost predicate Shaped()
      reads this
    {
      Wf(State()) && bucketCount == size
    }

    ghost predicate Valid()
      reads this, bits
    {
      Shaped() && |bits.data| == ByteCount(size)
      && forall i: nat :: Get(bits.data, i) <==> i < size && buckets[i] != []
    }

    constructor (size: nat, hashCount: nat, omega: real, fpBits: nat, hash: Hasher)
      requires size > 0 && fpBits < 64
      ensures Valid() && fresh(bits)
      ensures State() == Empty(size, hashCount, fpBits)
      ensures this.hash == hash && this.omega == omega
    {
      this.hash := hash;
      this.bits := new Bits(ByteCount(size));
      this.size, this.bucketCount := size, size;
      this.buckets := EmptyTable(size);
      this.hashCount, this.seedA, this.seedB := hashCount, 1, 2;
      this.omega, this.fpBits, this.count := omega, fpBits, 0;
    }

    method RebuildBitset()
      requires Shaped()
      modifies this`bits
      ensures Valid() && fresh(bits)
    {
      var bytes := ByteCount(size);
      bits := new Bits(bytes);
      var i := 0;
      while i < size
        invariant 0 <= i <= size && fresh(bits) && |bits.data| == bytes
        invariant forall j: nat :: Get(bits.data, j) <==> j < i && buckets[j] != []
        modifies bits
      {
        if buckets[i] != [] {
          var _ := bits.Set(i, true);
        }
        i := i + 1;
      }
    }

    method CountOccupied() returns (n: nat)
      requires Shaped()
      ensures n == Occupied(buckets)
    {
      n := 0;
      var i := 0;
      while i < bucketCount
        invariant 0 <= i <= bucketCount && n == Occupied(buckets[..i])
      {
        assert buckets[..i + 1][..i] == buckets[..i];
        if buckets[i] != [] { n := n + 1; }
        i := i + 1;
      }
      assert buckets[..i] == buckets;
    }

    /** The body of the add loop for one hash round, and of the public bucket insert. */
    method PutEntry(b: nat, fp: Fp)
      requires Valid() && b < size
      modifies this`buckets, bits
      ensures Valid() && State() == Put(old(State()), b, fp)
    {
      var _ := bits.Set(b, true);
      var there := BucketContains(buckets[b], fp);
      if !there {
        buckets := buckets[b := [fp] + buckets[b]];
      }
    }

    method DropEntry(b: nat, fp: Fp)
      requires Valid() && b < size
      modifies this`buckets, bits
      ensures Valid() && State() == Drop(old(State()), b, fp)
    {
      var rest, _ := RemoveFirst(buckets[b], fp);
      buckets := buckets[b := rest];
      if buckets[b] == [] {
        var _ := bits.Set(b, false);
      }
    }

    method PutRound(h: U64)
      requires Valid()
      modifies this`buckets, bits
      ensures Valid() && State() == PutHash(old(State()), h)
    {
      PutEntry(h % size, Fingerprint(h, size, fpBits));
    }

    method DropRound(h: U64)
      requires Valid()
      modifies this`buckets, bits
      ensures Valid() && State() == DropHash(old(State()), h)
    {
      DropEntry(h % size, Fingerprint(h, size, fpBits));
    }

    method BucketInsertAt(b: nat, fp: Fp) returns (status: int)
      requires Valid()
      modifies this`buckets, bits
      ensures Valid() && status == (if b < old(size) then 0 else -1)
      ensures State() == if b < old(size) then Put(old(State()), b, fp) else old(State())
    {
      if b >= bucketCount { return -1; }
      PutEntry(b, fp);
      return 0;
    }

    /** The locked part of add: one entry per hash round. */
    method InsertData(data: seq<Byte>)
      requires Valid()
      modifies this`buckets, this`count, bits
      ensures Valid() && State() == Insert(hash, old(State()), data)
    {
      PutAllRounds(data);
      count := count + 1;
    }

    method PutAllRounds(data: seq<Byte>)
      requires Valid()
      modifies this`buckets, bits
      ensures Valid() && State() == PutRounds(hash, old(State()), data, hashCount)
    {
      ghost var f := State();
      var i := 0;
      while i < hashCount
        invariant 0 <= i <= hashCount && Valid()
        invariant State() == PutRounds(hash, f, data, i)
      {
        var h := hash(data, SeedAt(seedA, seedB, i));
        assert h == HashAt(hash, f, data, i);
        PutRound(h);
        i := i + 1;
      }
    }

    method AddData(data: seq<Byte>)
      requires Valid()
      modifies this, bits
      ensures Valid() && (bits == old(bits) || fresh(bits)) && omega == old(omega)
      ensures State() == Add(hash, old(State()), data, omega)
    {
      InsertData(data);
      var occupied := CountOccupied();
      if occupied as real / bucketCount as real > omega {
        Expand();
      }
    }

    method ContainsData(data: seq<Byte>) returns (found: bool)
      requires Valid()
      ensures found == Contains(hash, State(), data)
    {
      var i := 0;
      while i < hashCount
        invariant 0 <= i <= hashCount
        invariant forall k :: 0 <= k < i ==> buckets[HashAt(hash, State(), data, k) % size] != []
      {
        var h := hash(data, SeedAt(seedA, seedB, i));
        if !Get(bits.data, h % size) {
          assert h == HashAt(hash, State(), data, i);
          return false;
        }
        i := i + 1;
      }
      return true;
    }

    /** The locked part of remove. */
    method DeleteData(data: seq<Byte>)
      requires Valid()
      modifies this`buckets, this`count, bits
      ensures Valid() && State() == Delete(hash, old(State()), data)
    {
      DropAllRounds(data);
      if count > 0 { count := count - 1; }
    }

    method DropAllRounds(data: seq<Byte>)
      requires Valid()
      modifies this`buckets, bits
      ensures Valid() && State() == DropRounds(hash, old(State()), data, hashCount)
    {
      ghost var f := State();
      var i := 0;
      while i < hashCount
        invariant 0 <= i <= hashCount && Valid()
        invariant State() == DropRounds(hash, f, data, i)
      {
        var h := hash(data, SeedAt(seedA, seedB, i));
        assert h == HashAt(hash, f, data, i);
        DropRound(h);
        i := i + 1;
      }
    }

    method RemoveData(data: seq<Byte>)
      requires Valid()
      modifies this, bits
      ensures Valid() && (bits == old(bits) || fresh(bits)) && omega == old(omega)
      ensures State() == Remove(hash, old(State()), data, omega)
    {
      DeleteData(data);
      var occupied := CountOccupied();
      if occupied as real / bucketCount as real < omega / 4.0 {
        var _ := Compress();
      }
    }

    method Expand()
      requires Valid()
      modifies this
      ensures Valid() && fresh(bits) && omega == old(omega)
      ensures State() == Expanded(old(State()))
    {
      var newBuckets := ExpandedTable();
      buckets := newBuckets;
      bucketCount := bucketCount * 2;
      size := size * 2;
      RebuildBitset();
    }

    /** The loop of expand: a table of twice the size, each old bucket split over two new ones. */
    method ExpandedTable() returns (newBuckets: seq<Bucket>)
      requires Shaped()
      ensures newBuckets == Expanded(State()).buckets
    {
      var n := bucketCount;
      newBuckets := seq(n * 2, i => []);
      var i := 0;
      while i < n
        invariant 0 <= i <= n && |newBuckets| == 2 * n
        invariant forall k :: 0 <= k < i ==> newBuckets[k] == ExpandedBucket(State(), k)
        invariant forall k :: n <= k < n + i ==> newBuckets[k] == ExpandedBucket(State(), k)
      {
        var stay, move := SplitBucket(buckets[i]);
        newBuckets := newBuckets[i := stay][i + n := move];
        i := i + 1;
      }
    }

    method Compress() returns (status: int)
      requires Valid()
      modifies this
      ensures Valid() && (bits == old(bits) || fresh(bits)) && omega == old(omega)
      ensures status == if old(size) < 2 then -1 else 0
      ensures State() == Compressed(old(State()))
    {
      if bucketCount < 2 { return -1; }
      var n := bucketCount / 2;
      FoldTable();
      bucketCount := n;
      size := size / 2;
      buckets := buckets[..n];
      RebuildBitset();
      return 0;
    }

    /** The loop of compress: each lower bucket takes in its upper partner. */
    method FoldTable()
      requires Shaped() && size >= 2
      modifies this`buckets
      ensures |buckets| == size && buckets[..size / 2] == Compressed(old(State())).buckets
    {
      ghost var f := State();
      var n := bucketCount / 2;
      var i := 0;
      while i < n
        invariant 0 <= i <= n && |buckets| == f.size
        invariant forall k :: 0 <= k < i ==> buckets[k] == CompressedBucket(f, k)
        invariant forall k :: i <= k < f.size ==> buckets[k] == f.buckets[k]
      {
        var merged := MergePair(buckets[i], buckets[i + n]);
        assert merged == CompressedBucket(f, i);
        buckets := buckets[i := merged];
        i := i + 1;
      }
    }

    method Merge(src: Elastic) returns (status: int)
      requires Valid() && src.Valid()
      modifies this`bits, this`buckets, this`count
      ensures Valid() && (bits == old(bits) || fresh(bits))
      ensures status == if size != src.size then -2 else 0
      ensures State() == Merged(old(State()), old(src.State()))
    {
      if size != src.size || bucketCount != src.bucketCount { return -2; }
      ghost var f, g := State(), src.State();
      bits := Bitwise(Or, bits, src.bits);
      MergeBuckets(src);
      count := count + src.count;
      forall j: nat
        ensures Get(bits.data, j) <==> j < size && buckets[j] != []
      {
        if j < size { MergedOccupied(f, g, j); }
      }
      return 0;
    }

    /** The loop of merge over the buckets. */
    method MergeBuckets(src: Elastic)
      requires Shaped() && src.Shaped() && size == src.size
      modifies this`buckets
      ensures buckets == Merged(old(State()), old(src.State())).buckets
    {
      ghost var f, g := State(), src.State();
      var i := 0;
      while i < bucketCount
        invariant 0 <= i <= bucketCount && |buckets| == size
        invariant forall k :: 0 <= k < i ==> buckets[k] == MergeBucket(f.buckets[k], g.buckets[k])
        invariant forall k :: i <= k < size ==> buckets[k] == f.buckets[k]
        invariant |src.buckets| == size && forall k :: i <= k < size ==> src.buckets[k] == g.buckets[k]
        modifies this`buckets
      {
        var merged := MergeLists(buckets[i], src.buckets[i]);
        buckets := buckets[i := merged];
        i := i + 1;
      }
    }
  }

  lemma MergedOccupied(f: Filter, g: Filter, j: nat)
    requires Wf(f) && Wf(g) && f.size == g.size && j < f.size
    ensures Merged(f, g).buckets[j] != [] <==> f.buckets[j] != [] || g.buckets[j] != []
  {
    MergeNonempty(f.buckets[j], g.buckets[j]);
  }

  lemma {:induction false} MergeNonempty(dest: Bucket, src: Bucket)
    ensures MergeBucket(dest, src) != [] <==> dest != [] || src != []
    decreases |src|
  {
    if src == [] {
    } else {
      MergeNonempty(BucketInsert(dest, src[0]), src[1..]);
    }
  }
}
