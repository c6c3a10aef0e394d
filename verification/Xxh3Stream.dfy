/** The XXH3 streaming state: however an input is cut into updates, the digest is the one-shot hash. */
module Xxh3Stream {
  import opened Words
  import opened Sequences
  import opened Arith
  import opened Xxh3

  /** After j stripes of msg, the next n stripes may be taken from x instead. */
  lemma AbsorbNext<Acc, Hash>(k: Kernel<Acc, Hash>, msg: seq<Byte>, j: nat, x: seq<Byte>, n: nat)
    requires GoodSecret(k) && STRIPE * (j + n) <= |msg| && STRIPE * n <= |x|
    requires x[..STRIPE * n] == msg[STRIPE * j..STRIPE * (j + n)]
    ensures Absorb(k, k.init, 0, msg, j + n) == Absorb(k, Absorb(k, k.init, 0, msg, j), j % PerBlock(k), x, n)
    ensures (j % PerBlock(k) + n) % PerBlock(k) == (j + n) % PerBlock(k)
  {
    var acc := Absorb(k, k.init, 0, msg, j);
    AbsorbMore(k, k.init, 0, msg, j, n);
    assert msg[STRIPE * j..][..STRIPE * n] == x[..STRIPE * n];
    AbsorbLocal(k, acc, j, msg[STRIPE * j..], x, n);
    AbsorbModulo(k, acc, j, x, n);
    ModShift(j, n, PerBlock(k));
  }

  /** The buffer's worth of bytes after j stripes, and what is behind it. */
  lemma Window(input: seq<Byte>, data: seq<Byte>, j: nat, load: nat)
    requires STRIPE * j <= |input| && load <= |data| && STRIPE * j + BUFFER == |input| + load
    ensures var msg := input + data;
            && STRIPE * (j + 4) <= |msg| && msg[STRIPE * j..STRIPE * (j + 4)] == (input + data[..load])[STRIPE * j..]
            && data[load..] == msg[STRIPE * (j + 4)..]
  {
  }

  class State<Acc, Hash> {
    const k: Kernel<Acc, Hash>
    const buffer: array<Byte>
    var acc: Acc
    var bufferedSize: nat
    var soFar: nat
    var totalLen: nat
    ghost var input: seq<Byte>
    ghost var consumed: nat

    /** The accumulator stands for the first j stripes of msg. */
    ghost predicate Synced(msg: seq<Byte>, j: nat)
      reads this
    {
      GoodSecret(k) && STRIPE * j <= |msg| && acc == Absorb(k, k.init, 0, msg, j) && soFar == j % PerBlock(k)
    }

    /** The last stripe before the buffered bytes is kept at the end of the buffer, from position `from` on. */
    ghost predicate KeepsTail(msg: seq<Byte>, j: nat, from: nat)
      reads buffer
    {
      buffer.Length == BUFFER && STRIPE * j <= |msg|
      && (j > 0 ==> forall i :: BUFFER - STRIPE <= i < BUFFER && from <= i ==>
                      buffer[i] == msg[STRIPE * j - BUFFER + i])
    }

    /** Consumed stripes, then buffered bytes, are the whole input; something is always buffered. */
    ghost predicate Buffered()
      reads this, buffer
    {
      && Synced(input, consumed) && bufferedSize <= BUFFER && KeepsTail(input, consumed, bufferedSize)
      && buffer[..bufferedSize] == input[STRIPE * consumed..]
      && (consumed > 0 ==> bufferedSize > 0 && consumed >= BUFFER / STRIPE)
    }

    ghost predicate Valid()
      reads this, buffer
    {
      Buffered() && totalLen == |input| % TWO64
    }

    constructor (k: Kernel<Acc, Hash>)
      requires GoodSecret(k)
      ensures Valid() && input == [] && this.k == k && fresh(buffer)
    {
      this.k := k;
      buffer := new Byte[BUFFER](_ => 0);
      acc, bufferedSize, soFar, totalLen := k.init, 0, 0, 0;
      input, consumed := [], 0;
      new;
      DivModUnique(0, PerBlock(k), 0, 0);
    }

    method CopyIn(at: nat, bytes: seq<Byte>)
      requires at + |bytes| <= buffer.Length
      modifies buffer
      ensures buffer[at..at + |bytes|] == bytes
      ensures forall p :: 0 <= p < at ==> buffer[p] == old(buffer[p])
      ensures forall p :: at + |bytes| <= p < buffer.Length ==> buffer[p] == old(buffer[p])
    {
      var i := 0;
      while i < |bytes|
        invariant 0 <= i <= |bytes|
        invariant forall p :: at <= p < at + i ==> buffer[p] == bytes[p - at]
        invariant forall p :: 0 <= p < buffer.Length && !(at <= p < at + i) ==> buffer[p] == old(buffer[p])
      {
        buffer[at + i] := bytes[i];
        i := i + 1;
      }
    }

    /** Takes n stripes from x, the next ones of msg. */
    method Consume(ghost msg: seq<Byte>, ghost j: nat, x: seq<Byte>, n: nat)
      requires Synced(msg, j) && STRIPE * (j + n) <= |msg| && STRIPE * n <= |x|
      requires x[..STRIPE * n] == msg[STRIPE * j..STRIPE * (j + n)]
      modifies this`acc, this`soFar
      ensures Synced(msg, j + n)
    {
      AbsorbNext(k, msg, j, x, n);
      DivModUnique(soFar, PerBlock(k), 0, soFar);
      acc, soFar := ConsumeStripes(k, acc, soFar, x, n);
    }

    /** A small update only fills the buffer. */
    method Fill(data: seq<Byte>)
      requires Buffered() && bufferedSize + |data| <= BUFFER
      modifies this`bufferedSize, this`input, buffer
      ensures Buffered() && input == old(input) + data
    {
      ghost var j, was, held := consumed, input, buffer[..bufferedSize];
      AbsorbLocal(k, k.init, 0, input, input + data, j);
      CopyIn(bufferedSize, data);
      assert buffer[..bufferedSize] == held;
      bufferedSize := bufferedSize + |data|;
      input := input + data;
      assert input[STRIPE * j..] == was[STRIPE * j..] + data;
      assert buffer[..bufferedSize] == held + data;
    }

    /** Fills the buffer up with the first bytes of the data. */
    method TopUp(data: seq<Byte>)
      requires Buffered() && BUFFER == bufferedSize + |data|
      modifies buffer
      ensures buffer[..] == (input + data)[STRIPE * consumed..]
    {
      ghost var held := buffer[..bufferedSize];
      CopyIn(bufferedSize, data);
      assert buffer[..bufferedSize] == held;
      assert buffer[..] == buffer[..bufferedSize] + buffer[bufferedSize..BUFFER];
      assert (input + data)[STRIPE * consumed..] == input[STRIPE * consumed..] + data;
    }

    /** Completes a partly filled buffer from the data and consumes it. */
    method Complete(data: seq<Byte>) returns (rest: seq<Byte>)
      requires Buffered() && 0 < bufferedSize && BUFFER < bufferedSize + |data|
      modifies this`bufferedSize, this`acc, this`soFar, this`consumed, buffer
      ensures bufferedSize == 0 && consumed == old(consumed) + 4
      ensures Synced(input + data, consumed) && KeepsTail(input + data, consumed, 0)
      ensures rest == (input + data)[STRIPE * consumed..] && rest != []
    {
      ghost var msg, j := input + data, consumed;
      var load := BUFFER - bufferedSize;
      TopUp(data[..load]);
      rest := data[load..];
      Window(input, data, j, load);
      AbsorbLocal(k, k.init, 0, input, msg, j);
      ConsumeBuffer(msg, j);
      bufferedSize, consumed := 0, consumed + 4;
    }

    /** Consumes the full buffer, whose last stripe stays in place. */
    method ConsumeBuffer(ghost msg: seq<Byte>, ghost j: nat)
      requires Synced(msg, j) && STRIPE * (j + 4) <= |msg| && buffer.Length == BUFFER
      requires buffer[..] == msg[STRIPE * j..STRIPE * (j + 4)]
      modifies this`acc, this`soFar
      ensures Synced(msg, j + 4) && KeepsTail(msg, j + 4, 0)
    {
      assert buffer[..][..BUFFER] == buffer[..];
      Consume(msg, j, buffer[..], BUFFER / STRIPE);
      assert forall i :: 0 <= i < BUFFER ==> buffer[i] == buffer[..][i];
    }

    /** Consumes a large rest directly, all but its last 1 to 64 bytes, and keeps the last stripe. */
    method Bulk(ghost msg: seq<Byte>, data: seq<Byte>) returns (rest: seq<Byte>)
      requires Synced(msg, consumed) && data == msg[STRIPE * consumed..] && |data| > BUFFER && buffer.Length == BUFFER
      modifies this`acc, this`soFar, this`consumed, buffer
      ensures Synced(msg, consumed) && consumed >= BUFFER / STRIPE && KeepsTail(msg, consumed, 0)
      ensures rest == msg[STRIPE * consumed..] && 0 < |rest| <= STRIPE
    {
      ghost var j := consumed;
      var n := (|data| - 1) / STRIPE;
      assert data[..STRIPE * n] == msg[STRIPE * j..STRIPE * (j + n)];
      Consume(msg, j, data, n);
      consumed := consumed + n;
      CopyIn(BUFFER - STRIPE, data[STRIPE * n - STRIPE..STRIPE * n]);
      rest := data[STRIPE * n..];
      forall i | BUFFER - STRIPE <= i < BUFFER ensures buffer[i] == msg[STRIPE * consumed - BUFFER + i] {
        assert buffer[i] == buffer[BUFFER - STRIPE..BUFFER][i - (BUFFER - STRIPE)];
      }
    }

    /** More data than the buffer can take: stripes are consumed and the rest is buffered. */
    method Overflow(data: seq<Byte>)
      requires Buffered() && |data| > BUFFER - bufferedSize
      modifies this`bufferedSize, this`acc, this`soFar, this`consumed, this`input, buffer
      ensures Buffered() && input == old(input) + data
    {
      ghost var msg := input + data;
      var rest := data;
      if bufferedSize > 0 {
        rest := Complete(data);
      } else {
        assert msg == data;
        AbsorbLocal(k, k.init, 0, input, msg, 0);
      }
      if |rest| > BUFFER {
        rest := Bulk(msg, rest);
      }
      Settle(msg, rest);
    }

    /** The 64-bit length wraps. */
    method AddLength(n: nat)
      requires totalLen == |input| % TWO64
      modifies this`totalLen
      ensures totalLen == (|input| + n) % TWO64
    {
      TotalAdds(|input|, n);
      totalLen := (totalLen + n) % TWO64;
    }

    /** XXH3_update. */
    method Update(data: seq<Byte>)
      requires Valid()
      modifies this, buffer
      ensures Valid() && input == old(input) + data
    {
      AddLength(|data|);
      if |data| <= BUFFER - bufferedSize {
        Fill(data);
      } else {
        Overflow(data);
      }
    }

    /** What is left goes to the start of the buffer. */
    method Settle(ghost msg: seq<Byte>, rest: seq<Byte>)
      requires Synced(msg, consumed) && KeepsTail(msg, consumed, 0) && consumed >= BUFFER / STRIPE
      requires rest == msg[STRIPE * consumed..] && 0 < |rest| <= BUFFER
      modifies this`bufferedSize, this`input, buffer
      ensures Buffered() && input == msg
    {
      CopyIn(0, rest);
      bufferedSize := |rest|;
      input := msg;
    }

    /** XXH3_digest_long: on a copy of the accumulator. */
    method DigestLong() returns (r: Acc)
      requires Buffered() && |input| > MIDSIZE
      ensures r == LongAcc(k, input)
    {
      var lastStripe: seq<Byte>;
      r, lastStripe := DigestStripes();
      r := k.accumulate(r, lastStripe, Part(k.secret, Limit(k) - LASTACC));
    }

    /** Every stripe before the last byte, and the last 64 bytes. */
    method DigestStripes() returns (r: Acc, lastStripe: seq<Byte>)
      requires Buffered() && |input| > MIDSIZE
      ensures r == Absorb(k, k.init, 0, input, (|input| - 1) / STRIPE)
      ensures lastStripe == Part(input, |input| - STRIPE)
    {
      if bufferedSize >= STRIPE {
        r, lastStripe := DigestBuffer();
      } else {
        StripesBuffered();
        lastStripe := LastStripe();
        r := acc;
      }
    }

    /** The buffer holds all stripes not yet consumed. */
    lemma StripesBuffered()
      requires Buffered() && bufferedSize > 0
      ensures (|input| - 1) / STRIPE == consumed + (bufferedSize - 1) / STRIPE
    {
      assert |input[STRIPE * consumed..]| == bufferedSize;
      StripesLeft(|input|, consumed, bufferedSize);
    }

    /** Less than a stripe is buffered: the kept bytes make up the difference. */
    method LastStripe() returns (lastStripe: seq<Byte>)
      requires Buffered() && consumed > 0 && bufferedSize < STRIPE
      ensures |input| >= STRIPE && lastStripe == Part(input, |input| - STRIPE)
    {
      var catchup := STRIPE - bufferedSize;
      CatchUp(catchup);
      lastStripe := buffer[BUFFER - catchup..] + buffer[..bufferedSize];
    }

    /** The buffer holds whole stripes: consume all but the last byte's, and point to the last 64 bytes. */
    method DigestBuffer() returns (r: Acc, lastStripe: seq<Byte>)
      requires Buffered() && STRIPE <= bufferedSize
      ensures |input| >= STRIPE && lastStripe == Part(input, |input| - STRIPE)
      ensures r == Absorb(k, k.init, 0, input, (|input| - 1) / STRIPE)
    {
      StripesBuffered();
      r := BufferedAcc((bufferedSize - 1) / STRIPE);
      lastStripe := LastBuffered();
    }

    /** Consumes n stripes of the buffer on a copy of the accumulator. */
    method BufferedAcc(n: nat) returns (r: Acc)
      requires Buffered() && STRIPE * n <= bufferedSize
      ensures STRIPE * (consumed + n) <= |input| && r == Absorb(k, k.init, 0, input, consumed + n)
    {
      var x := buffer[..];
      ghost var tail := input[STRIPE * consumed..];
      assert |tail| == bufferedSize && x[..STRIPE * n] == tail[..STRIPE * n];
      AbsorbNext(k, input, consumed, x, n);
      DivModUnique(soFar, PerBlock(k), 0, soFar);
      var place: nat;
      r, place := ConsumeStripes(k, acc, soFar, x, n);
    }

    method LastBuffered() returns (lastStripe: seq<Byte>)
      requires Buffered() && STRIPE <= bufferedSize
      ensures |input| >= STRIPE && lastStripe == Part(input, |input| - STRIPE)
    {
      lastStripe := buffer[bufferedSize - STRIPE..bufferedSize];
      ghost var tail := input[STRIPE * consumed..];
      assert lastStripe == tail[bufferedSize - STRIPE..];
    }

    /** The kept bytes and the buffered ones are the last 64 bytes of the input. */
    lemma CatchUp(catchup: nat)
      requires Buffered() && consumed > 0 && bufferedSize < STRIPE && catchup == STRIPE - bufferedSize
      ensures |input| >= STRIPE
      ensures buffer[BUFFER - catchup..] + buffer[..bufferedSize] == Part(input, |input| - STRIPE)
    {
      var last := Part(input, |input| - STRIPE);
      var got := buffer[BUFFER - catchup..] + buffer[..bufferedSize];
      forall i | 0 <= i < STRIPE ensures got[i] == last[i] {
        if i < catchup {
          assert got[i] == buffer[BUFFER - catchup + i];
        } else {
          assert got[i] == input[STRIPE * consumed..][i - catchup];
        }
      }
    }

    /** XXH3_64bits_digest: the one-shot hash of everything fed in. */
    method Digest() returns (h: Hash)
      requires Valid() && |input| < TWO64
      ensures h == Hashed(k, input)
    {
      SmallTotal(|input|);
      if totalLen > MIDSIZE {
        var long := DigestLong();
        return k.finish(long, k.secret, totalLen);
      }
      assert consumed == 0 && input[STRIPE * 0..] == input;
      return k.shortHash(buffer[..totalLen]);
    }
  }

  lemma SmallTotal(x: nat)
    requires x < TWO64
    ensures x % TWO64 == x
  {
  }

  lemma StripesLeft(len: nat, j: nat, b: nat)
    requires len == STRIPE * j + b && b > 0
    ensures (len - 1) / STRIPE == j + (b - 1) / STRIPE
  {
  }

  lemma TotalAdds(x: nat, y: nat)
    ensures (x % TWO64 + y) % TWO64 == (x + y) % TWO64
  {
    ModShift(x, y, TWO64);
  }

  /** Hashing in pieces: for every way of cutting an input into updates, the digest is the one-shot hash. */
  method HashPieces<Acc, Hash>(k: Kernel<Acc, Hash>, parts: seq<seq<Byte>>) returns (h: Hash)
    requires GoodSecret(k) && |Concat(parts)| < TWO64
    ensures h == Hashed(k, Concat(parts))
  {
    var s := new State(k);
    var i := 0;
    while i < |parts|
      invariant 0 <= i <= |parts| && s.Valid() && s.k == k && s.input == Concat(parts[..i])
      invariant fresh(s) && fresh(s.buffer)
    {
      s.Update(parts[i]);
      assert parts[..i + 1][..i] == parts[..i];
      i := i + 1;
    }
    assert parts[..i] == parts;
    h := s.Digest();
  }

  /** The one-shot entry point computes the same. */
  method HashOneShot<Acc, Hash>(k: Kernel<Acc, Hash>, msg: seq<Byte>) returns (h: Hash)
    requires GoodSecret(k)
    ensures h == Hashed(k, msg)
  {
    if |msg| <= MIDSIZE {
      return k.shortHash(msg);
    }
    var acc := HashLong(k, msg);
    return k.finish(acc, k.secret, |msg|);
  }
}
