/** The growable bit vector behind the Bloom filters, stored as bytes. */
module Bitset {

  /** 1 << k on a byte. */
  function Mask(k: nat): (m: bv8)
    requires k < 8
    ensures m == (1 as bv8) << k
  {
    if k == 0 then 1 else if k == 1 then 2 else if k == 2 then 4 else if k == 3 then 8
    else if k == 4 then 16 else if k == 5 then 32 else if k == 6 then 64 else 128
  }

  predicate TestBit(b: bv8, k: nat)
    requires k < 8
  {
    b & Mask(k) != 0
  }

  function WriteBit(b: bv8, k: nat, value: bool): bv8
    requires k < 8
  {
    if value then b | Mask(k) else b & !Mask(k)
  }

  /** Writing a bit of a byte changes that bit and no other. */
  lemma WriteThenTest(b: bv8, k: nat, value: bool, j: nat)
    requires k < 8 && j < 8
    ensures TestBit(WriteBit(b, k, value), j) == if j == k then value else TestBit(b, j)
  {
  }

  lemma ClearByte(k: nat)
    requires k < 8
    ensures !TestBit(0, k)
  {
  }

  lemma OrBits(a: bv8, b: bv8, k: nat)
    requires k < 8
    ensures TestBit(a | b, k) == (TestBit(a, k) || TestBit(b, k))
  {
  }

  lemma AndBits(a: bv8, b: bv8, k: nat)
    requires k < 8
    ensures TestBit(a & b, k) == (TestBit(a, k) && TestBit(b, k))
  {
  }

  lemma XorBits(a: bv8, b: bv8, k: nat)
    requires k < 8
    ensures TestBit(a ^ b, k) == (TestBit(a, k) != TestBit(b, k))
  {
    XorMasked(a, b, Mask(k));
    OneBit(a, k);
    OneBit(b, k);
    XorZeros(Mask(k));
  }

  lemma XorMasked(a: bv8, b: bv8, m: bv8)
    ensures (a ^ b) & m == (a & m) ^ (b & m)
  {
  }

  lemma OneBit(a: bv8, k: nat)
    requires k < 8
    ensures Mask(k) != 0 && (a & Mask(k) == 0 || a & Mask(k) == Mask(k))
  {
  }

  lemma XorZeros(m: bv8)
    ensures m ^ m == 0 && m ^ 0 == m && 0 ^ m == m && (0 as bv8) ^ 0 == 0
  {
  }

  /** Bits past the end read as clear. */
  predicate Get(data: seq<bv8>, i: nat) {
    i / 8 < |data| && TestBit(data[i / 8], i % 8)
  }

  /** Bit 8 * q + k is the bit of weight 2 to the k in byte q. */
  lemma BitLayout(data: seq<bv8>, q: nat, k: nat)
    requires k < 8
    ensures Get(data, 8 * q + k) <==> q < |data| && data[q] & ((1 as bv8) << k) != 0
  {
    assert (8 * q + k) / 8 == q && (8 * q + k) % 8 == k;
  }

  datatype Op = Xor | And | Or

  function ByteOp(op: Op, a: bv8, b: bv8): bv8 {
    match op
    case Xor => a ^ b
    case And => a & b
    case Or => a | b
  }

  predicate BitOp(op: Op, a: bool, b: bool) {
    match op
    case Xor => a != b
    case And => a && b
    case Or => a || b
  }

  lemma ByteOpBits(op: Op, a: bv8, b: bv8, k: nat)
    requires k < 8
    ensures TestBit(ByteOp(op, a, b), k) == BitOp(op, TestBit(a, k), TestBit(b, k))
  {
    match op
    case Xor => XorBits(a, b, k);
    case And => AndBits(a, b, k);
    case Or => OrBits(a, b, k);
  }

  class Bits {
    var data: seq<bv8>

    constructor (byteSize: nat)
      ensures |data| == byteSize
      ensures forall i :: 0 <= i < byteSize ==> data[i] == 0
      ensures forall i: nat :: !Get(data, i)
    {
      data := seq(byteSize, i => 0);
      new;
      forall i: nat ensures !Get(data, i) { ClearByte(i % 8); }
    }

    /** Grows to cover the index, then writes the bit and returns the old one. */
    method Set(index: nat, value: bool) returns (was: bool)
      modifies this
      ensures was == old(Get(data, index))
      ensures forall j: nat :: Get(data, j) == if j == index then value else old(Get(data, j))
      ensures |data| == if index / 8 < old(|data|) then old(|data|) else index / 8 + 1
    {
      var byteIndex, offset := index / 8, index % 8;
      ghost var before := data;
      if byteIndex >= |data| {
        data := data + seq(byteIndex + 1 - |data|, i => 0);
      }
      forall j: nat ensures Get(data, j) == Get(before, j) { ClearByte(j % 8); }
      ghost var grown := data;
      was := TestBit(data[byteIndex], offset);
      data := data[byteIndex := WriteBit(data[byteIndex], offset, value)];
      forall j: nat
        ensures Get(data, j) == if j == index then value else Get(grown, j)
      {
        WriteThenTest(grown[byteIndex], offset, value, j % 8);
      }
    }

    /** Drops zero bytes from the end, keeping at least one byte; no bit changes. */
    method Compact()
      modifies this
      ensures forall j: nat :: Get(data, j) == old(Get(data, j))
      ensures data <= old(data)
      ensures |data| > 1 ==> data[|data| - 1] != 0
    {
      while |data| > 1 && data[|data| - 1] == 0
        invariant data <= old(data)
        invariant forall j: nat :: Get(data, j) == old(Get(data, j))
      {
        forall j: nat ensures Get(data[..|data| - 1], j) == Get(data, j) { ClearByte(j % 8); }
        data := data[..|data| - 1];
      }
    }
  }

  function ByteAt(s: seq<bv8>, i: nat): bv8 {
    if i < |s| then s[i] else 0
  }

  /** A byte computed from two bytes, either way round, holds the bits computed from theirs; a missing byte is 0. */
  lemma ByteOpAt(op: Op, a: seq<bv8>, b: seq<bv8>, c: bv8, j: nat)
    requires var x, y := ByteAt(a, j / 8), ByteAt(b, j / 8);
             c == ByteOp(op, x, y) || c == ByteOp(op, y, x)
    ensures TestBit(c, j % 8) == BitOp(op, Get(a, j), Get(b, j))
  {
    var x, y := ByteAt(a, j / 8), ByteAt(b, j / 8);
    ClearByte(j % 8);
    ByteOpBits(op, x, y, j % 8);
    ByteOpBits(op, y, x, j % 8);
  }

  predicate Combines(op: Op, x: bv8, y: bv8, c: bv8) {
    c == ByteOp(op, x, y) || c == ByteOp(op, y, x)
  }

  lemma BytesMakeBits(op: Op, a: seq<bv8>, b: seq<bv8>, r: seq<bv8>)
    requires forall k :: 0 <= k < |r| ==> Combines(op, ByteAt(a, k), ByteAt(b, k), r[k])
    ensures forall j: nat :: Get(r, j) == if j / 8 < |r| then BitOp(op, Get(a, j), Get(b, j)) else false
  {
    forall j: nat | j / 8 < |r|
      ensures Get(r, j) == BitOp(op, Get(a, j), Get(b, j))
    {
      assert Combines(op, ByteAt(a, j / 8), ByteAt(b, j / 8), r[j / 8]);
      ByteOpAt(op, a, b, r[j / 8], j);
    }
  }

  /** Byte by byte over the common part, then the longer operand against zero. */
  method Bitwise(op: Op, a: Bits, b: Bits) returns (r: Bits)
    ensures fresh(r)
    ensures |r.data| == if |a.data| > |b.data| then |a.data| else |b.data|
    ensures forall j: nat :: Get(r.data, j) ==
              if j / 8 < |r.data| then BitOp(op, Get(a.data, j), Get(b.data, j)) else false
  {
    var size := if |a.data| > |b.data| then |a.data| else |b.data|;
    var min := if |a.data| < |b.data| then |a.data| else |b.data|;
    r := new Bits(size);
    var i := 0;
    while i < min
      invariant 0 <= i <= min && |r.data| == size && fresh(r)
      invariant forall k :: 0 <= k < i ==> Combines(op, ByteAt(a.data, k), ByteAt(b.data, k), r.data[k])
    {
      r.data := r.data[i := ByteOp(op, a.data[i], b.data[i])];
      i := i + 1;
    }
    var longer := if |a.data| >= |b.data| then a else b;
    while i < size
      invariant min <= i <= size && |r.data| == size && fresh(r)
      invariant forall k :: 0 <= k < i ==> Combines(op, ByteAt(a.data, k), ByteAt(b.data, k), r.data[k])
    {
      r.data := r.data[i := ByteOp(op, longer.data[i], 0)];
      i := i + 1;
    }
    BytesMakeBits(op, a.data, b.data, r.data);
  }
}
