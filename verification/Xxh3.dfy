/**
 * XXH3 in streaming form against its one-shot form. The accumulate, scramble and finish kernels are
 * uninterpreted; what is proved is the bookkeeping of stripes, blocks, secret offsets and the
 * internal buffer, catch-up bytes included.
 */
module Xxh3 {
  import opened Words
  import opened Arith

  const STRIPE: nat := 64
  const RATE: nat := 8
  const BUFFER: nat := 256
  const MIDSIZE: nat := 240
  const LASTACC: nat := 7

  /**
   * accumulate takes a stripe and 64 secret bytes; scramble takes 64 secret bytes; finish takes the
   * secret and the total length; shortHash covers inputs of up to 240 bytes.
   */
  datatype Kernel<!Acc, !Hash> = Kernel(init: Acc, secret: seq<Byte>,
                                        accumulate: (Acc, seq<Byte>, seq<Byte>) -> Acc,
                                        scramble: (Acc, seq<Byte>) -> Acc,
                                        finish: (Acc, seq<Byte>, nat) -> Hash,
                                        shortHash: seq<Byte> -> Hash)

  predicate GoodSecret<Acc, Hash>(k: Kernel<Acc, Hash>) {
    |k.secret| >= 136
  }

  function Limit<Acc, Hash>(k: Kernel<Acc, Hash>): nat
    requires GoodSecret(k)
  {
    |k.secret| - STRIPE
  }

  /** Stripes per block: at least nine. */
  function PerBlock<Acc, Hash>(k: Kernel<Acc, Hash>): (n: nat)
    requires GoodSecret(k)
    ensures n >= 9 && RATE * n <= Limit(k)
  {
    Limit(k) / RATE
  }

  function Part(s: seq<Byte>, from: nat): seq<Byte>
    requires from + STRIPE <= |s|
  {
    s[from..from + STRIPE]
  }

  /** Accumulates n stripes of data with consecutive secret offsets from stripe `pos` of a block. */
  function Accumulated<Acc, Hash>(k: Kernel<Acc, Hash>, acc: Acc, pos: nat, data: seq<Byte>, n: nat): Acc
    requires GoodSecret(k) && pos + n <= PerBlock(k) && STRIPE * n <= |data|
  {
    if n == 0 then acc
    else
      k.accumulate(Accumulated(k, acc, pos, data, n - 1), Part(data, STRIPE * (n - 1)),
                   Part(k.secret, RATE * (pos + n - 1)))
  }

  /** One stripe at place `pos` of its block; the last one of a block scrambles. */
  function Stripe<Acc, Hash>(k: Kernel<Acc, Hash>, acc: Acc, pos: nat, stripe: seq<Byte>): Acc
    requires GoodSecret(k) && pos < PerBlock(k)
  {
    var a := k.accumulate(acc, stripe, Part(k.secret, RATE * pos));
    if pos + 1 == PerBlock(k) then k.scramble(a, Part(k.secret, Limit(k))) else a
  }

  /** The reference: n stripes of data, one after the other, the first at stripe number `from`. */
  function Absorb<Acc, Hash>(k: Kernel<Acc, Hash>, acc: Acc, from: nat, data: seq<Byte>, n: nat): Acc
    requires GoodSecret(k) && STRIPE * n <= |data|
  {
    if n == 0 then acc
    else Stripe(k, Absorb(k, acc, from, data, n - 1), (from + n - 1) % PerBlock(k), Part(data, STRIPE * (n - 1)))
  }

  /** The accumulator of a long input: all full stripes before the last byte, then the last 64 bytes. */
  function LongAcc<Acc, Hash>(k: Kernel<Acc, Hash>, msg: seq<Byte>): Acc
    requires GoodSecret(k) && |msg| > STRIPE
  {
    k.accumulate(Absorb(k, k.init, 0, msg, (|msg| - 1) / STRIPE), Part(msg, |msg| - STRIPE),
                 Part(k.secret, Limit(k) - LASTACC))
  }

  function Hashed<Acc, Hash>(k: Kernel<Acc, Hash>, msg: seq<Byte>): Hash
    requires GoodSecret(k)
  {
    if |msg| > MIDSIZE then k.finish(LongAcc(k, msg), k.secret, |msg|) else k.shortHash(msg)
  }

  // ---------------------------------------------------------------------------
  // Laws of the reference
  // ---------------------------------------------------------------------------

  /** Stripes further on do not matter. */
  lemma {:induction false} AbsorbLocal<Acc, Hash>(k: Kernel<Acc, Hash>, acc: Acc, from: nat, x: seq<Byte>, y: seq<Byte>,
                                                  n: nat)
    requires GoodSecret(k) && STRIPE * n <= |x| && STRIPE * n <= |y| && x[..STRIPE * n] == y[..STRIPE * n]
    ensures Absorb(k, acc, from, x, n) == Absorb(k, acc, from, y, n)
  {
    if n == 0 {
    } else {
      var m := STRIPE * (n - 1);
      assert x[..m] == x[..STRIPE * n][..m] && y[..m] == y[..STRIPE * n][..m];
      AbsorbLocal(k, acc, from, x, y, n - 1);
      assert Part(x, m) == x[..STRIPE * n][m..] && Part(y, m) == y[..STRIPE * n][m..];
    }
  }

  /** Only the place within the block matters, not the stripe number. */
  lemma {:induction false} AbsorbModulo<Acc, Hash>(k: Kernel<Acc, Hash>, acc: Acc, from: nat, data: seq<Byte>, n: nat)
    requires GoodSecret(k) && STRIPE * n <= |data|
    ensures Absorb(k, acc, from, data, n) == Absorb(k, acc, from % PerBlock(k), data, n)
  {
    if n == 0 {
    } else {
      AbsorbModulo(k, acc, from, data, n - 1);
      ModShift(from, n - 1, PerBlock(k));
    }
  }

  lemma {:induction false} AbsorbMore<Acc, Hash>(k: Kernel<Acc, Hash>, acc: Acc, from: nat, data: seq<Byte>, n: nat,
                                                 p: nat)
    requires GoodSecret(k) && STRIPE * (n + p) <= |data|
    ensures Absorb(k, acc, from, data, n + p)
         == Absorb(k, Absorb(k, acc, from, data, n), from + n, data[STRIPE * n..], p)
  {
    if p == 0 {
    } else {
      AbsorbMore(k, acc, from, data, n, p - 1);
      assert Part(data[STRIPE * n..], STRIPE * (p - 1)) == Part(data, STRIPE * (n + p - 1));
    }
  }

  /** A stretch within one block: plain accumulation, and a scramble when it completes the block. */
  lemma {:induction false} AbsorbInBlock<Acc, Hash>(k: Kernel<Acc, Hash>, acc: Acc, pos: nat, data: seq<Byte>, n: nat)
    requires GoodSecret(k) && 0 < n && pos + n <= PerBlock(k) && STRIPE * n <= |data|
    ensures var a := Accumulated(k, acc, pos, data, n);
            Absorb(k, acc, pos, data, n) ==
            if pos + n == PerBlock(k) then k.scramble(a, Part(k.secret, Limit(k))) else a
  {
    var b := PerBlock(k);
    DivModUnique(pos + n - 1, b, 0, pos + n - 1);
    if n == 1 {
      assert Absorb(k, acc, pos, data, 0) == acc && Accumulated(k, acc, pos, data, 0) == acc;
    } else {
      AbsorbInBlock(k, acc, pos, data, n - 1);
    }
  }

  // ---------------------------------------------------------------------------
  // The loops
  // ---------------------------------------------------------------------------

  /** XXH3_accumulate: the stripe loop. */
  method AccumulateLoop<Acc, Hash>(k: Kernel<Acc, Hash>, acc: Acc, pos: nat, input: seq<Byte>, n: nat) returns (r: Acc)
    requires GoodSecret(k) && pos + n <= PerBlock(k) && STRIPE * n <= |input|
    ensures r == Accumulated(k, acc, pos, input, n)
  {
    r := acc;
    var i := 0;
    while i < n
      invariant 0 <= i <= n && r == Accumulated(k, acc, pos, input, i)
    {
      r := k.accumulate(r, Part(input, STRIPE * i), Part(k.secret, RATE * (pos + i)));
      i := i + 1;
    }
  }

  /** XXH3_consumeStripes: whole blocks first, then a partial one. */
  method ConsumeStripes<Acc, Hash>(k: Kernel<Acc, Hash>, accIn: Acc, soFarIn: nat, input: seq<Byte>, nIn: nat)
    returns (acc: Acc, soFar: nat)
    requires GoodSecret(k) && soFarIn < PerBlock(k) && STRIPE * nIn <= |input|
    ensures acc == Absorb(k, accIn, soFarIn, input, nIn)
    ensures soFar == (soFarIn + nIn) % PerBlock(k)
  {
    acc, soFar := accIn, soFarIn;
    var b := PerBlock(k);
    DivModUnique(soFarIn, b, 0, soFarIn);
    var n, done := nIn, 0;
    if n >= b - soFar {
      var thisIter := b - soFar;
      while n >= thisIter
        invariant 0 <= done <= nIn && n == nIn - done
        invariant soFar < b && thisIter == b - soFar && soFar == (soFarIn + done) % b
        invariant acc == Absorb(k, accIn, soFarIn, input, done)
      {
        acc := TakeStretch(k, accIn, soFarIn, input, done, acc, soFar, thisIter);
        acc := k.scramble(acc, Part(k.secret, Limit(k)));
        n, done := n - thisIter, done + thisIter;
        thisIter, soFar := b, 0;
      }
    }
    if n > 0 {
      acc := TakeStretch(k, accIn, soFarIn, input, done, acc, soFar, n);
      soFar := soFar + n;
    }
  }

  /** Takes t more stripes, up to the end of the block at most. */
  method TakeStretch<Acc, Hash>(k: Kernel<Acc, Hash>, ghost first: Acc, ghost from: nat, input: seq<Byte>, done: nat,
                                acc: Acc, pos: nat, t: nat)
    returns (r: Acc)
    requires GoodSecret(k) && STRIPE * (done + t) <= |input| && 0 < t
    requires pos == (from + done) % PerBlock(k) && pos + t <= PerBlock(k)
    requires acc == Absorb(k, first, from, input, done)
    ensures Absorb(k, first, from, input, done + t) ==
            if pos + t == PerBlock(k) then k.scramble(r, Part(k.secret, Limit(k))) else r
    ensures (from + (done + t)) % PerBlock(k) == if pos + t == PerBlock(k) then 0 else pos + t
  {
    Stretch(k, first, from, input, done, pos, t);
    r := AccumulateLoop(k, acc, pos, input[STRIPE * done..], t);
  }

  /** A stretch of t stripes after `done` ones, within the block at place pos. */
  lemma Stretch<Acc, Hash>(k: Kernel<Acc, Hash>, acc: Acc, from: nat, input: seq<Byte>, done: nat, pos: nat, t: nat)
    requires GoodSecret(k) && STRIPE * (done + t) <= |input| && 0 < t
    requires pos == (from + done) % PerBlock(k) && pos + t <= PerBlock(k)
    ensures var a := Accumulated(k, Absorb(k, acc, from, input, done), pos, input[STRIPE * done..], t);
            Absorb(k, acc, from, input, done + t) ==
            if pos + t == PerBlock(k) then k.scramble(a, Part(k.secret, Limit(k))) else a
    ensures (from + (done + t)) % PerBlock(k) == if pos + t == PerBlock(k) then 0 else pos + t
  {
    var rest := input[STRIPE * done..];
    var mid := Absorb(k, acc, from, input, done);
    AbsorbMore(k, acc, from, input, done, t);
    AbsorbModulo(k, mid, from + done, rest, t);
    AbsorbInBlock(k, mid, pos, rest, t);
    PlaceAfter(from, done, t, PerBlock(k));
  }

  /** The place in the block after t more stripes that do not go past its end. */
  lemma PlaceAfter(from: nat, done: nat, t: nat, b: nat)
    requires b > 0 && (from + done) % b + t <= b
    ensures var pos := (from + done) % b; (from + (done + t)) % b == if pos + t == b then 0 else pos + t
  {
    var pos := (from + done) % b;
    ModShift(from + done, t, b);
    if pos + t == b {
      DivModUnique(b, b, 1, 0);
    } else {
      DivModUnique(pos + t, b, 0, pos + t);
    }
  }

  /** XXH3_hashLong_internal_loop: block by block, then the rest, then the last stripe. */
  method HashLong<Acc, Hash>(k: Kernel<Acc, Hash>, msg: seq<Byte>) returns (acc: Acc)
    requires GoodSecret(k) && |msg| > STRIPE
    ensures acc == LongAcc(k, msg)
  {
    acc := HashStripes(k, msg);
    acc := k.accumulate(acc, Part(msg, |msg| - STRIPE), Part(k.secret, Limit(k) - LASTACC));
  }

  /** Whole blocks, then the stripes after them. */
  method HashStripes<Acc, Hash>(k: Kernel<Acc, Hash>, msg: seq<Byte>) returns (acc: Acc)
    requires GoodSecret(k) && |msg| > STRIPE
    ensures acc == Absorb(k, k.init, 0, msg, (|msg| - 1) / STRIPE)
  {
    var blocks, start, stripes := CountBlocks(|msg|, PerBlock(k));
    acc := HashBlocks(k, msg, blocks);
    RestAfterBlocks(k, msg, blocks * PerBlock(k), blocks, stripes);
    acc := AccumulateLoop(k, acc, 0, msg[start..], stripes);
  }

  /** How many whole blocks there are, where they end and how many stripes follow before the last byte. */
  method CountBlocks(len: nat, b: nat) returns (blocks: nat, start: nat, stripes: nat)
    requires len > STRIPE && b > 0
    ensures start == STRIPE * (blocks * b) <= len - 1 && stripes < b
    ensures blocks * b + stripes == (len - 1) / STRIPE
  {
    var blockLen := STRIPE * b;
    blocks := (len - 1) / blockLen;
    start := blockLen * blocks;
    BlockCount(len - 1, b, blockLen, blocks, start);
    stripes := ((len - 1) - start) / STRIPE;
  }

  /** The stripes after the last whole block. */
  lemma RestAfterBlocks<Acc, Hash>(k: Kernel<Acc, Hash>, msg: seq<Byte>, done: nat, blocks: nat, stripes: nat)
    requires GoodSecret(k) && STRIPE * (done + stripes) <= |msg| && stripes < PerBlock(k)
    requires done == blocks * PerBlock(k)
    ensures Absorb(k, k.init, 0, msg, done + stripes) ==
            Accumulated(k, Absorb(k, k.init, 0, msg, done), 0, msg[STRIPE * done..], stripes)
  {
    DivModUnique(done, PerBlock(k), blocks, 0);
    if stripes > 0 { Stretch(k, k.init, 0, msg, done, 0, stripes); }
  }

  /** The block loop: a full block of stripes, then a scramble. */
  method HashBlocks<Acc, Hash>(k: Kernel<Acc, Hash>, msg: seq<Byte>, blocks: nat) returns (acc: Acc)
    requires GoodSecret(k) && STRIPE * (blocks * PerBlock(k)) <= |msg|
    ensures acc == Absorb(k, k.init, 0, msg, blocks * PerBlock(k))
  {
    var b := PerBlock(k);
    var blockLen := STRIPE * b;
    acc := k.init;
    var n := 0;
    ghost var done := 0;
    while n < blocks
      invariant 0 <= n <= blocks && done == n * b
      invariant acc == Absorb(k, k.init, 0, msg, done)
    {
      BlockPlace(n, blocks, b, done);
      Stretch(k, k.init, 0, msg, done, 0, b);
      acc := AccumulateLoop(k, acc, 0, msg[n * blockLen..], b);
      acc := k.scramble(acc, Part(k.secret, Limit(k)));
      n, done := n + 1, done + b;
    }
  }

  /** Blocks and left-over stripes make up all the stripes before the last byte. */
  lemma BlockCount(n: nat, b: nat, blockLen: nat, blocks: nat, start: int)
    requires blockLen == STRIPE * b > 0 && blocks == n / blockLen && start == blockLen * blocks
    ensures start == STRIPE * (blocks * b) <= n && (n - start) / STRIPE < b
    ensures blocks * b + (n - start) / STRIPE == n / STRIPE
  {
    var q, r := DivModIdentity(n, blockLen);
    MulAssoc(STRIPE, b, blocks);
    var stripes, rest := DivModIdentity(r, STRIPE);
    DivModUnique(n, STRIPE, blocks * b + stripes, rest);
  }

  lemma BlockPlace(n: nat, blocks: nat, b: nat, done: nat)
    requires n < blocks && b > 0 && done == n * b
    ensures done + b <= blocks * b && done % b == 0 && n * (STRIPE * b) == STRIPE * done && (n + 1) * b == done + b
  {
    assert (n + 1) * b == n * b + b;
    MulMonotone(n + 1, blocks, b, b);
    DivModUnique(done, b, n, 0);
  }
}
