/**
 * The elastic Bloom filter as a value: a power-of-two family of bucket tables whose entries are
 * fingerprints. Every lock-held section of the C code is one function here; the class in
 * ElasticImpl runs the loops and is proved equal to these functions.
 */
module ElasticFilter {
  import opened Words
  import opened Arith

  type Fp = x: int | 0 <= x < TWO32

  /** The seeded 64-bit hash, left uninterpreted: data and seed to value. */
  type Hasher = (seq<Byte>, U64) -> U64

  /** A bucket is its linked list of fingerprints, head first. */
  type Bucket = seq<Fp>

  datatype Filter = Filter(size: nat, buckets: seq<Bucket>, hashCount: nat, seedA: U64, seedB: U64,
                           fpBits: nat, count: nat)

  /** One bucket per bit, a non-empty table, and a shift that C defines. */
  predicate Wf(f: Filter) {
    f.size > 0 && |f.buckets| == f.size && f.fpBits < 64
  }

  function EmptyTable(n: nat): (r: seq<Bucket>)
    ensures |r| == n
  {
    seq(n, i => [])
  }

  function Empty(size: nat, hashCount: nat, fpBits: nat): (f: Filter)
    requires size > 0 && fpBits < 64
    ensures Wf(f)
  {
    Filter(size, EmptyTable(size), hashCount, 1, 2, fpBits, 0)
  }

  // ---------------------------------------------------------------------------
  // Where an element goes
  // ---------------------------------------------------------------------------

  /** The 64-bit seed of hash round i. */
  function SeedAt(seedA: U64, seedB: U64, i: nat): U64 {
    (seedA + i * seedB) % TWO64
  }

  function HashAt(hash: Hasher, f: Filter, data: seq<Byte>, i: nat): U64 {
    hash(data, SeedAt(f.seedA, f.seedB, i))
  }

  function Fingerprint(h: U64, size: nat, fpBits: nat): Fp
    requires size > 0
  {
    h / size % Pow(2, fpBits) % TWO32
  }

  // ---------------------------------------------------------------------------
  // Bucket lists
  // ---------------------------------------------------------------------------

  function BucketInsert(b: Bucket, fp: Fp): Bucket {
    if fp in b then b else [fp] + b
  }

  /** Unlinks the first entry equal to fp. */
  function BucketRemove(b: Bucket, fp: Fp): Bucket {
    if b == [] then []
    else if b[0] == fp then b[1..]
    else [b[0]] + BucketRemove(b[1..], fp)
  }

  function Reverse(s: Bucket): (r: Bucket)
    ensures |r| == |s|
    ensures forall x :: x in r <==> x in s
  {
    if s == [] then [] else Reverse(s[1..]) + [s[0]]
  }

  /** The entries whose low bit is `bit`, shifted right, in list order. */
  function Halves(b: Bucket, bit: nat): Bucket {
    if b == [] then []
    else if b[0] % 2 == bit then [b[0] / 2] + Halves(b[1..], bit)
    else Halves(b[1..], bit)
  }

  /** A 32-bit left shift that brings in a low bit. */
  function ShiftIn(fp: nat, bit: nat): Fp {
    (2 * fp + bit) % TWO32
  }

  /** Every entry shifted left with `bit` appended, modulo 2^32, in list order. */
  function Doubles(b: Bucket, bit: nat): (r: Bucket)
    requires bit < 2
    ensures |r| == |b|
    ensures forall j :: 0 <= j < |b| ==> r[j] == ShiftIn(b[j], bit)
  {
    if b == [] then [] else [ShiftIn(b[0], bit)] + Doubles(b[1..], bit)
  }

  // ---------------------------------------------------------------------------
  // Operations
  // ---------------------------------------------------------------------------

  function Put(f: Filter, b: nat, fp: Fp): (r: Filter)
    requires Wf(f) && b < f.size
    ensures Wf(r)
  {
    f.(buckets := f.buckets[b := BucketInsert(f.buckets[b], fp)])
  }

  function Drop(f: Filter, b: nat, fp: Fp): (r: Filter)
    requires Wf(f) && b < f.size
    ensures Wf(r)
  {
    f.(buckets := f.buckets[b := BucketRemove(f.buckets[b], fp)])
  }

  /** What hash round h of an insertion does. */
  function PutHash(f: Filter, h: U64): (r: Filter)
    requires Wf(f)
    ensures Wf(r) && r == f.(buckets := r.buckets)
  {
    Put(f, h % f.size, Fingerprint(h, f.size, f.fpBits))
  }

  function DropHash(f: Filter, h: U64): (r: Filter)
    requires Wf(f)
    ensures Wf(r) && r == f.(buckets := r.buckets)
  {
    Drop(f, h % f.size, Fingerprint(h, f.size, f.fpBits))
  }

  /** The first k hash rounds of an insertion. */
  function PutRounds(hash: Hasher, f: Filter, data: seq<Byte>, k: nat): (r: Filter)
    requires Wf(f)
    ensures Wf(r) && r == f.(buckets := r.buckets)
  {
    if k == 0 then f else PutHash(PutRounds(hash, f, data, k - 1), HashAt(hash, f, data, k - 1))
  }

  function DropRounds(hash: Hasher, f: Filter, data: seq<Byte>, k: nat): (r: Filter)
    requires Wf(f)
    ensures Wf(r) && r == f.(buckets := r.buckets)
  {
    if k == 0 then f else DropHash(DropRounds(hash, f, data, k - 1), HashAt(hash, f, data, k - 1))
  }

  /** The locked part of elastic_bloom_filter_add. */
  function Insert(hash: Hasher, f: Filter, data: seq<Byte>): (r: Filter)
    requires Wf(f)
    ensures Wf(r) && r.size == f.size
  {
    var g := PutRounds(hash, f, data, f.hashCount);
    g.(count := f.count + 1)
  }

  /** The locked part of elastic_bloom_filter_remove. */
  function Delete(hash: Hasher, f: Filter, data: seq<Byte>): (r: Filter)
    requires Wf(f)
    ensures Wf(r) && r.size == f.size
  {
    var g := DropRounds(hash, f, data, f.hashCount);
    g.(count := if f.count > 0 then f.count - 1 else 0)
  }

  predicate Contains(hash: Hasher, f: Filter, data: seq<Byte>)
    requires Wf(f)
  {
    forall i :: 0 <= i < f.hashCount ==> f.buckets[HashAt(hash, f, data, i) % f.size] != []
  }

  function ExpandedBucket(f: Filter, i: nat): Bucket
    requires Wf(f) && i < 2 * f.size
  {
    if i < f.size then Reverse(Halves(f.buckets[i], 0)) else Reverse(Halves(f.buckets[i - f.size], 1))
  }

  function Expanded(f: Filter): (r: Filter)
    requires Wf(f)
    ensures Wf(r) && r.size == 2 * f.size
  {
    f.(size := 2 * f.size, buckets := seq(2 * f.size, i requires 0 <= i < 2 * f.size => ExpandedBucket(f, i)))
  }

  function CompressedBucket(f: Filter, i: nat): Bucket
    requires Wf(f) && i < f.size / 2
  {
    Reverse(Doubles(f.buckets[i], 0)) + Reverse(Doubles(f.buckets[i + f.size / 2], 1))
  }

  /** A filter of fewer than two buckets is refused and stays as it is. */
  function Compressed(f: Filter): (r: Filter)
    requires Wf(f)
    ensures Wf(r)
  {
    if f.size < 2 then f
    else
      f.(size := f.size / 2,
         buckets := seq(f.size / 2, i requires 0 <= i < f.size / 2 => CompressedBucket(f, i)))
  }

  /** Every entry of src not yet present is pushed onto dest, in list order. */
  function MergeBucket(dest: Bucket, src: Bucket): Bucket
    decreases |src|
  {
    if src == [] then dest else MergeBucket(BucketInsert(dest, src[0]), src[1..])
  }

  /** Filters of different size are refused. */
  function Merged(dest: Filter, src: Filter): (r: Filter)
    requires Wf(dest) && Wf(src)
    ensures Wf(r) && r.size == dest.size
  {
    if dest.size != src.size then dest
    else
      dest.(buckets := seq(dest.size, i requires 0 <= i < dest.size => MergeBucket(dest.buckets[i], src.buckets[i])),
            count := dest.count + src.count)
  }

  function Occupied(bs: seq<Bucket>): (n: nat)
    ensures n <= |bs|
  {
    if bs == [] then 0 else Occupied(bs[..|bs| - 1]) + (if bs[|bs| - 1] == [] then 0 else 1)
  }

  /** The share of occupied buckets, which add and remove compare with omega. */
  function Ratio(f: Filter): real
    requires Wf(f)
  {
    Occupied(f.buckets) as real / f.size as real
  }

  /** elastic_bloom_filter_add: insert, then grow when the table is too full. */
  function Add(hash: Hasher, f: Filter, data: seq<Byte>, omega: real): (r: Filter)
    requires Wf(f)
    ensures Wf(r)
  {
    var g := Insert(hash, f, data);
    if Ratio(g) > omega then Expanded(g) else g
  }

  /** elastic_bloom_filter_remove: delete, then shrink when the table is too empty. */
  function Remove(hash: Hasher, f: Filter, data: seq<Byte>, omega: real): (r: Filter)
    requires Wf(f)
    ensures Wf(r)
  {
    var g := Delete(hash, f, data);
    if Ratio(g) < omega / 4.0 then Compressed(g) else g
  }

  // ---------------------------------------------------------------------------
  // Runs
  // ---------------------------------------------------------------------------

  /** One lock-held section. Add and Remove are Insert and Delete, each perhaps followed by a resize. */
  datatype Step =
    | DoInsert(data: seq<Byte>)
    | DoDelete(data: seq<Byte>)
    | DoPut(bucket: nat, fp: Fp)
    | DoExpand
    | DoCompress
    | DoMerge(src: Filter)

  function Apply(hash: Hasher, f: Filter, s: Step): (r: Filter)
    requires Wf(f)
    ensures Wf(r)
  {
    match s
    case DoInsert(data) => Insert(hash, f, data)
    case DoDelete(data) => Delete(hash, f, data)
    case DoPut(b, fp) => if b < f.size then Put(f, b, fp) else f
    case DoExpand => Expanded(f)
    case DoCompress => Compressed(f)
    case DoMerge(src) => if Wf(src) then Merged(f, src) else f
  }

  function Run(hash: Hasher, f: Filter, steps: seq<Step>): (r: Filter)
    requires Wf(f)
    ensures Wf(r)
    decreases |steps|
  {
    if steps == [] then f else Run(hash, Apply(hash, f, steps[0]), steps[1..])
  }
}
