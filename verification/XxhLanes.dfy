/**
 * XXH64 and XXH32 in streaming form against their one-shot form. Both mix fixed-size chunks into
 * four lanes and finish with the left-over bytes; they differ in the chunk size, the word size and
 * in how they remember the length. Rounds, merge and finalisation are uninterpreted.
 */
module XxhLanes {
  import opened Words
  import opened Sequences
  import opened Arith

  datatype Lanes = Lanes(a: nat, b: nat, c: nat, d: nat)

  /** round mixes a chunk into the lanes; finalize takes the hash so far and the left-over bytes. */
  datatype Kernel = Kernel(chunk: nat, modulus: nat, prime1: nat, prime2: nat, prime5: nat,
                           round: (Lanes, seq<Byte>) -> Lanes, merge: Lanes -> nat, finalize: (nat, seq<Byte>) -> nat)

  predicate Good(k: Kernel) {
    k.chunk > 0 && k.modulus > 0
  }

  predicate Is64(k: Kernel) {
    && k.chunk == 32 && k.modulus == TWO64
    && k.prime1 == 0x9E3779B1_85EBCA87 && k.prime2 == 0xC2B2AE3D_27D4EB4F && k.prime5 == 0x27D4EB2F_165667C5
  }

  predicate Is32(k: Kernel) {
    && k.chunk == 16 && k.modulus == TWO32
    && k.prime1 == 0x9E3779B1 && k.prime2 == 0x85EBCA77 && k.prime5 == 0x165667B1
  }

  function InitLanes(k: Kernel, seed: nat): Lanes
    requires Good(k)
  {
    Lanes((seed + k.prime1 + k.prime2) % k.modulus, (seed + k.prime2) % k.modulus, seed, (seed - k.prime1) % k.modulus)
  }

  /** Every whole chunk of the data, one after the other. */
  function Rounds(k: Kernel, l: Lanes, data: seq<Byte>): Lanes
    requires Good(k)
    decreases |data|
  {
    if |data| < k.chunk then l else Rounds(k, k.round(l, data[..k.chunk]), data[k.chunk..])
  }

  /** The bytes after the last whole chunk. */
  function Tail(k: Kernel, data: seq<Byte>): seq<Byte>
    requires Good(k)
    decreases |data|
  {
    if |data| < k.chunk then data else Tail(k, data[k.chunk..])
  }

  predicate Whole(k: Kernel, data: seq<Byte>)
    requires Good(k)
    decreases |data|
  {
    data == [] || (|data| >= k.chunk && Whole(k, data[k.chunk..]))
  }

  /** The reference hash. */
  function Hashed(k: Kernel, seed: nat, msg: seq<Byte>): nat
    requires Good(k)
  {
    var h := if |msg| >= k.chunk then k.merge(Rounds(k, InitLanes(k, seed), msg)) else (seed + k.prime5) % k.modulus;
    k.finalize((h + |msg|) % k.modulus, Tail(k, msg))
  }

  // ---------------------------------------------------------------------------
  // Laws
  // ---------------------------------------------------------------------------

  /** Whole chunks first, then the rest. */
  lemma {:induction false} WholeFirst(k: Kernel, l: Lanes, x: seq<Byte>, y: seq<Byte>)
    requires Good(k) && Whole(k, x)
    ensures Rounds(k, l, x + y) == Rounds(k, Rounds(k, l, x), y)
    ensures Tail(k, x + y) == Tail(k, y)
    ensures Whole(k, y) ==> Whole(k, x + y)
    decreases |x|
  {
    if x == [] {
      assert x + y == y;
    } else {
      WholeFirst(k, k.round(l, x[..k.chunk]), x[k.chunk..], y);
      assert (x + y)[k.chunk..] == x[k.chunk..] + y;
      assert (x + y)[..k.chunk] == x[..k.chunk];
    }
  }

  lemma OnePiece(k: Kernel, l: Lanes, x: seq<Byte>, piece: seq<Byte>)
    requires Good(k) && Whole(k, x) && |piece| == k.chunk
    ensures Whole(k, x + piece) && Rounds(k, l, x + piece) == k.round(Rounds(k, l, x), piece)
  {
    assert piece[k.chunk..] == [] && piece[..k.chunk] == piece;
    assert Whole(k, piece[k.chunk..]);
    WholeFirst(k, l, x, piece);
    assert Rounds(k, k.round(Rounds(k, l, x), piece), []) == k.round(Rounds(k, l, x), piece);
  }

  lemma {:induction false} WholeLength(k: Kernel, x: seq<Byte>)
    requires Good(k) && Whole(k, x)
    ensures |x| % k.chunk == 0
    decreases |x|
  {
    if x == [] {
      DivModUnique(0, k.chunk, 0, 0);
    } else {
      WholeLength(k, x[k.chunk..]);
      var q := (|x| - k.chunk) / k.chunk;
      assert |x| == (q + 1) * k.chunk + 0;
      DivModUnique(|x|, k.chunk, q + 1, 0);
    }
  }

  // ---------------------------------------------------------------------------
  // The hash in closed form
  // ---------------------------------------------------------------------------

  /** The lanes after n chunks of size bytes: chunk i is the bytes from size * i. */
  function AfterChunks(k: Kernel, l: Lanes, data: seq<Byte>, size: nat, n: nat): Lanes
    requires size * n <= |data|
  {
    if n == 0 then l
    else
      NextChunk(n - 1, size);
      k.round(AfterChunks(k, l, data, size, n - 1), data[size * (n - 1)..size * n])
  }

  lemma NextChunk(n: nat, size: nat)
    ensures size * n <= size * (n + 1) == size * n + size
  {
  }

  lemma {:induction false} WholePrefix(k: Kernel, l: Lanes, data: seq<Byte>, n: nat)
    requires Good(k) && k.chunk * n <= |data|
    ensures Whole(k, data[..k.chunk * n])
    ensures Rounds(k, l, data[..k.chunk * n]) == AfterChunks(k, l, data, k.chunk, n)
  {
    if n == 0 {
      assert data[..k.chunk * n] == [];
    } else {
      NextChunk(n - 1, k.chunk);
      var from, to := k.chunk * (n - 1), k.chunk * n;
      WholePrefix(k, l, data, n - 1);
      OnePiece(k, l, data[..from], data[from..to]);
      assert data[..to] == data[..from] + data[from..to];
    }
  }

  lemma ChunksAre(k: Kernel, l: Lanes, data: seq<Byte>)
    requires Good(k)
    ensures var n := |data| / k.chunk;
            && k.chunk * n <= |data|
            && Rounds(k, l, data) == AfterChunks(k, l, data, k.chunk, n) && Tail(k, data) == data[k.chunk * n..]
  {
    var q, r := DivModIdentity(|data|, k.chunk);
    var x, y := data[..k.chunk * q], data[k.chunk * q..];
    WholePrefix(k, l, data, q);
    WholeFirst(k, l, x, y);
    assert data == x + y;
  }

  /** XXH64: 32 bytes a round, lanes seeded in this order, the length added, the bytes left over last. */
  lemma Hashed64(k: Kernel, seed: nat, msg: seq<Byte>)
    requires Is64(k)
    ensures var n, m := |msg|, 0x1_0000_0000_0000_0000;
            var lanes := Lanes((seed + k.prime1 + k.prime2) % m, (seed + k.prime2) % m, seed, (seed - k.prime1) % m);
            var h := if n < 32 then (seed + k.prime5) % m else k.merge(AfterChunks(k, lanes, msg, 32, n / 32));
            Hashed(k, seed, msg) == k.finalize((h + n) % m, msg[32 * (n / 32)..])
  {
    ChunksAre(k, InitLanes(k, seed), msg);
  }

  /** XXH32: the same with 16 bytes a round. */
  lemma Hashed32(k: Kernel, seed: nat, msg: seq<Byte>)
    requires Is32(k)
    ensures var n, m := |msg|, 0x1_0000_0000;
            var lanes := Lanes((seed + k.prime1 + k.prime2) % m, (seed + k.prime2) % m, seed, (seed - k.prime1) % m);
            var h := if n < 16 then (seed + k.prime5) % m else k.merge(AfterChunks(k, lanes, msg, 16, n / 16));
            Hashed(k, seed, msg) == k.finalize((h + n) % m, msg[16 * (n / 16)..])
  {
    ChunksAre(k, InitLanes(k, seed), msg);
  }

  /** The lanes of seed 0. */
  lemma ZeroSeedLanes(k: Kernel)
    requires Is64(k) || Is32(k)
    ensures Is64(k) ==> InitLanes(k, 0) == Lanes(0x60EA27EE_ADC0B5D6, 0xC2B2AE3D_27D4EB4F, 0, 0x61C8864E_7A143579)
    ensures Is32(k) ==> InitLanes(k, 0) == Lanes(0x24234428, 0x85EBCA77, 0, 0x61C8864F)
  {
  }

  // ---------------------------------------------------------------------------
  // The loops
  // ---------------------------------------------------------------------------

  /** consumeLong: chunks while a whole one is left. */
  method ConsumeLong(k: Kernel, l: Lanes, input: seq<Byte>) returns (r: Lanes, rest: seq<Byte>, ghost done: seq<Byte>)
    requires Good(k) && |input| >= k.chunk
    ensures input == done + rest && Whole(k, done) && |rest| < k.chunk
    ensures r == Rounds(k, l, done) == Rounds(k, l, input) && rest == Tail(k, input)
  {
    r, rest, done := l, input, [];
    while |rest| >= k.chunk
      invariant input == done + rest && Whole(k, done) && r == Rounds(k, l, done)
      decreases |rest|
    {
      var piece := rest[..k.chunk];
      OnePiece(k, l, done, piece);
      assert done + rest == done + piece + rest[k.chunk..];
      r := k.round(r, piece);
      done, rest := done + piece, rest[k.chunk..];
    }
    WholeFirst(k, l, done, rest);
  }

  /** The common part of both states: lanes and a buffer of less than one chunk. */
  class Core {
    const k: Kernel
    const seed: nat
    const buffer: array<Byte>
    var lanes: Lanes
    var bufferedSize: nat
    ghost var done: seq<Byte>
    ghost var input: seq<Byte>

    /** The lanes stand for the bytes done. */
    ghost predicate Synced()
      reads this
    {
      Good(k) && Whole(k, done) && lanes == Rounds(k, InitLanes(k, seed), done)
    }

    ghost predicate Valid()
      reads this, buffer
    {
      Synced() && buffer.Length == k.chunk && bufferedSize < k.chunk && input == done + buffer[..bufferedSize]
    }

    constructor (k: Kernel, seed: nat)
      requires Good(k)
      ensures Valid() && input == [] && this.k == k && this.seed == seed && fresh(buffer)
    {
      this.k, this.seed := k, seed;
      buffer := new Byte[k.chunk](_ => 0);
      lanes, bufferedSize := InitLanes(k, seed), 0;
      input, done := [], [];
    }

    method CopyIn(at: nat, bytes: seq<Byte>)
      requires at + |bytes| <= buffer.Length
      modifies buffer
      ensures buffer[..at + |bytes|] == old(buffer[..at]) + bytes
    {
      var i := 0;
      while i < |bytes|
        invariant 0 <= i <= |bytes|
        invariant forall p :: at <= p < at + i ==> buffer[p] == bytes[p - at]
        invariant forall p :: 0 <= p < at ==> buffer[p] == old(buffer[p])
      {
        buffer[at + i] := bytes[i];
        i := i + 1;
      }
    }

    /** Mixes in the whole chunks of x. */
    method Consume(x: seq<Byte>) returns (rest: seq<Byte>)
      requires Synced() && |x| >= k.chunk
      modifies this`lanes, this`done
      ensures Synced() && done + rest == old(done) + x && rest == Tail(k, x) && |rest| < k.chunk
    {
      ghost var more;
      ghost var was := done;
      lanes, rest, more := ConsumeLong(k, lanes, x);
      WholeFirst(k, InitLanes(k, seed), done, more);
      done := done + more;
      assert done + rest == was + (more + rest);
    }

    /** The buffer is completed from the data and mixed in. */
    method Complete(data: seq<Byte>) returns (rest: seq<Byte>)
      requires Valid() && k.chunk <= bufferedSize + |data|
      modifies this`lanes, this`done, this`bufferedSize, buffer
      ensures Synced() && bufferedSize == 0 && done + rest == input + data
    {
      ghost var was, held := done, buffer[..bufferedSize];
      var load := k.chunk - bufferedSize;
      CopyIn(bufferedSize, data[..load]);
      assert buffer[..] == buffer[..k.chunk] == held + data[..load];
      var nothing := Consume(buffer[..]);
      assert buffer[..][k.chunk..] == [];
      bufferedSize := 0;
      rest := data[load..];
      assert data == data[..load] + rest;
      assert done + rest == was + (held + data[..load]) + rest;
    }

    /** The shared body of XXH64_update and XXH32_update. */
    method Update(data: seq<Byte>)
      requires Valid()
      modifies this, buffer
      ensures Valid() && input == old(input) + data
    {
      ghost var msg := input + data;
      if |data| < k.chunk - bufferedSize {
        ghost var held := buffer[..bufferedSize];
        CopyIn(bufferedSize, data);
        bufferedSize, input := bufferedSize + |data|, msg;
        assert done + (held + data) == msg;
        return;
      }
      var rest := data;
      if bufferedSize > 0 {
        rest := Complete(data);
      }
      assert done + rest == msg;
      if |rest| >= k.chunk {
        rest := Consume(rest);
      }
      CopyIn(0, rest);
      assert buffer[..|rest|] == rest;
      bufferedSize, input := |rest|, msg;
    }

    /** What digest reads off the state is what the one-shot form computes from the input. */
    lemma Split()
      requires Valid()
      ensures lanes == Rounds(k, InitLanes(k, seed), input) && buffer[..bufferedSize] == Tail(k, input)
      ensures bufferedSize == |input| % k.chunk
      ensures |input| < k.chunk ==> lanes == InitLanes(k, seed)
    {
      WholeFirst(k, InitLanes(k, seed), done, buffer[..bufferedSize]);
      WholeLength(k, done);
      var q := |done| / k.chunk;
      assert |input| == q * k.chunk + bufferedSize;
      DivModUnique(|input|, k.chunk, q, bufferedSize);
    }
  }

  // ---------------------------------------------------------------------------
  // XXH64
  // ---------------------------------------------------------------------------

  class State64 {
    const core: Core
    var totalLen: nat

    ghost predicate Valid()
      reads this, core, core.buffer
    {
      core.Valid() && Is64(core.k) && totalLen == |core.input| % TWO64
    }

    constructor (k: Kernel, seed: nat)
      requires Good(k) && Is64(k)
      ensures Valid() && core.input == [] && core.k == k && core.seed == seed && fresh(core) && fresh(core.buffer)
    {
      core := new Core(k, seed);
      totalLen := 0;
    }

    method Update(data: seq<Byte>)
      requires Valid()
      modifies this, core, core.buffer
      ensures Valid() && core.input == old(core.input) + data
    {
      ModShift(|core.input|, |data|, TWO64);
      totalLen := (totalLen + |data|) % TWO64;
      core.Update(data);
    }

    /** XXH64_digest: the one-shot hash of everything fed in. */
    method Digest() returns (h: nat)
      requires Valid() && |core.input| < TWO64
      ensures h == Hashed(core.k, core.seed, core.input)
    {
      var k := core.k;
      core.Split();
      DivModUnique(|core.input|, TWO64, 0, |core.input|);
      if totalLen >= 32 {
        h := k.merge(core.lanes);
      } else {
        h := (core.lanes.c + k.prime5) % TWO64;
      }
      h := (h + totalLen) % TWO64;
      h := k.finalize(h, core.buffer[..totalLen % 32]);
    }
  }

  // ---------------------------------------------------------------------------
  // XXH32
  // ---------------------------------------------------------------------------

  class State32 {
    const core: Core
    var total32: nat
    var large: bool

    /** The flag remembers what the wrapped 32-bit length cannot: that 16 bytes were reached. */
    ghost predicate Valid()
      reads this, core, core.buffer
    {
      core.Valid() && Is32(core.k) && total32 == |core.input| % TWO32 && (large <==> |core.input| >= 16)
    }

    constructor (k: Kernel, seed: nat)
      requires Good(k) && Is32(k)
      ensures Valid() && core.input == [] && core.k == k && core.seed == seed && fresh(core) && fresh(core.buffer)
    {
      core := new Core(k, seed);
      total32, large := 0, false;
    }

    method Update(data: seq<Byte>)
      requires Valid()
      modifies this, core, core.buffer
      ensures Valid() && core.input == old(core.input) + data
    {
      ghost var len := |core.input|;
      ModShift(len, |data|, TWO32);
      total32 := (total32 + |data|) % TWO32;
      assert len < 16 && |data| < 16 ==> total32 == len + |data|;
      large := large || |data| >= 16 || total32 >= 16;
      core.Update(data);
    }

    /** XXH32_digest: the one-shot hash of everything fed in, however long. */
    method Digest() returns (h: nat)
      requires Valid()
      ensures h == Hashed(core.k, core.seed, core.input)
    {
      var k := core.k;
      core.Split();
      if large {
        h := k.merge(core.lanes);
      } else {
        h := (core.lanes.c + k.prime5) % TWO32;
      }
      ModShift(|core.input|, h, TWO32);
      assert h + total32 == total32 + h && h + |core.input| == |core.input| + h;
      h := (h + total32) % TWO32;
      h := k.finalize(h, core.buffer[..core.bufferedSize]);
    }
  }

  /** The one-shot entry points. */
  method HashOneShot(k: Kernel, seed: nat, msg: seq<Byte>) returns (h: nat)
    requires Good(k)
    ensures h == Hashed(k, seed, msg)
  {
    var rest := msg;
    if |msg| >= k.chunk {
      var lanes := InitLanes(k, seed);
      ghost var done;
      lanes, rest, done := ConsumeLong(k, lanes, msg);
      h := k.merge(lanes);
    } else {
      h := (seed + k.prime5) % k.modulus;
    }
    h := (h + |msg|) % k.modulus;
    h := k.finalize(h, rest);
  }

  /** For every way of cutting an input into updates, the XXH64 digest is the one-shot hash. */
  method HashPieces64(k: Kernel, seed: nat, parts: seq<seq<Byte>>) returns (h: nat)
    requires Good(k) && Is64(k) && |Concat(parts)| < TWO64
    ensures h == Hashed(k, seed, Concat(parts))
  {
    var s := new State64(k, seed);
    var i := 0;
    while i < |parts|
      invariant 0 <= i <= |parts| && s.Valid() && s.core.k == k && s.core.seed == seed
      invariant s.core.input == Concat(parts[..i]) && fresh(s) && fresh(s.core) && fresh(s.core.buffer)
    {
      s.Update(parts[i]);
      assert parts[..i + 1][..i] == parts[..i];
      i := i + 1;
    }
    assert parts[..i] == parts;
    h := s.Digest();
  }

  /** The same for XXH32, for inputs of any length. */
  method HashPieces32(k: Kernel, seed: nat, parts: seq<seq<Byte>>) returns (h: nat)
    requires Good(k) && Is32(k)
    ensures h == Hashed(k, seed, Concat(parts))
  {
    var s := new State32(k, seed);
    var i := 0;
    while i < |parts|
      invariant 0 <= i <= |parts| && s.Valid() && s.core.k == k && s.core.seed == seed
      invariant s.core.input == Concat(parts[..i]) && fresh(s) && fresh(s.core) && fresh(s.core.buffer)
    {
      s.Update(parts[i]);
      assert parts[..i + 1][..i] == parts[..i];
      i := i + 1;
    }
    assert parts[..i] == parts;
    h := s.Digest();
  }
}
