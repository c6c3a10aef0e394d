/** The kernel calls of XXH3, as a list with every offset written out. */
module Xxh3Calls {
  import opened Words
  import opened Arith
  import opened Xxh3

  datatype Call =
    | Accumulate(stripe: seq<Byte>, secret: seq<Byte>)
    | Scramble(secret: seq<Byte>)
    | Finish(secret: seq<Byte>, length: nat)
    | Short(msg: seq<Byte>)

  datatype Log = Log(calls: seq<Call>)

  /** A kernel that records its calls. */
  function Recorder(secret: seq<Byte>): Kernel<Log, Log> {
    Kernel(Log([]), secret,
           (log: Log, stripe, part) => Log(log.calls + [Accumulate(stripe, part)]),
           (log: Log, part) => Log(log.calls + [Scramble(part)]),
           (log: Log, part, length) => Log(log.calls + [Finish(part, length)]),
           msg => Log([Short(msg)]))
  }

  /** The calls of one stripe at place `pos` of its block. */
  function CallsAt(secret: seq<Byte>, pos: nat, stripe: seq<Byte>): seq<Call>
    requires |secret| >= 136 && pos < (|secret| - 64) / 8
  {
    [Accumulate(stripe, Part(secret, 8 * pos))]
    + if pos + 1 == (|secret| - 64) / 8 then [Scramble(Part(secret, |secret| - 64))] else []
  }

  /** The calls of stripe n. */
  function NextCalls(secret: seq<Byte>, msg: seq<Byte>, n: nat): seq<Call>
    requires |secret| >= 136 && 64 * n + 64 <= |msg|
  {
    CallsAt(secret, n % ((|secret| - 64) / 8), Part(msg, 64 * n))
  }

  /** The calls of the first n stripes. */
  function AllCalls(secret: seq<Byte>, msg: seq<Byte>, n: nat): seq<Call>
    requires |secret| >= 136 && 64 * n <= |msg|
  {
    if n == 0 then [] else AllCalls(secret, msg, n - 1) + NextCalls(secret, msg, n - 1)
  }

  lemma RecordedStripe(secret: seq<Byte>, calls: seq<Call>, pos: nat, stripe: seq<Byte>)
    requires |secret| >= 136 && pos < (|secret| - 64) / 8
    ensures Stripe(Recorder(secret), Log(calls), pos, stripe) == Log(calls + CallsAt(secret, pos, stripe))
  {
    var call, last := Accumulate(stripe, Part(secret, 8 * pos)), Scramble(Part(secret, |secret| - 64));
    if pos + 1 == (|secret| - 64) / 8 {
      assert calls + CallsAt(secret, pos, stripe) == calls + [call] + [last];
    } else {
      assert calls + CallsAt(secret, pos, stripe) == calls + [call];
    }
  }

  lemma {:induction false} Recorded(secret: seq<Byte>, msg: seq<Byte>, n: nat)
    requires |secret| >= 136 && 64 * n <= |msg|
    ensures Absorb(Recorder(secret), Log([]), 0, msg, n) == Log(AllCalls(secret, msg, n))
  {
    if n > 0 {
      Recorded(secret, msg, n - 1);
      RecordedStripe(secret, AllCalls(secret, msg, n - 1), (n - 1) % ((|secret| - 64) / 8), Part(msg, 64 * (n - 1)));
    }
  }

  // ---------------------------------------------------------------------------
  // The calls determine the hash
  // ---------------------------------------------------------------------------

  /** A kernel applied to recorded calls. */
  function Replayed<Acc, Hash>(k: Kernel<Acc, Hash>, calls: seq<Call>): Acc {
    if calls == [] then k.init
    else
      var acc := Replayed(k, calls[..|calls| - 1]);
      match calls[|calls| - 1]
      case Accumulate(stripe, part) => k.accumulate(acc, stripe, part)
      case Scramble(part) => k.scramble(acc, part)
      case Finish(_, _) => acc
      case Short(_) => acc
  }

  lemma ReplayedSnoc<Acc, Hash>(k: Kernel<Acc, Hash>, calls: seq<Call>, call: Call)
    ensures Replayed(k, calls + [call]) ==
            match call
            case Accumulate(stripe, part) => k.accumulate(Replayed(k, calls), stripe, part)
            case Scramble(part) => k.scramble(Replayed(k, calls), part)
            case Finish(_, _) => Replayed(k, calls)
            case Short(_) => Replayed(k, calls)
  {
    assert (calls + [call])[..|calls|] == calls;
  }

  lemma StripeReplayed<Acc, Hash>(k: Kernel<Acc, Hash>, calls: seq<Call>, pos: nat, stripe: seq<Byte>)
    requires GoodSecret(k) && pos < PerBlock(k)
    ensures Replayed(k, calls + CallsAt(k.secret, pos, stripe)) == Stripe(k, Replayed(k, calls), pos, stripe)
  {
    var call, last := Accumulate(stripe, Part(k.secret, 8 * pos)), Scramble(Part(k.secret, Limit(k)));
    ReplayedSnoc(k, calls, call);
    if pos + 1 == PerBlock(k) {
      ReplayedSnoc(k, calls + [call], last);
      assert calls + CallsAt(k.secret, pos, stripe) == calls + [call] + [last];
    } else {
      assert calls + CallsAt(k.secret, pos, stripe) == calls + [call];
    }
  }

  lemma AbsorbLast<Acc, Hash>(k: Kernel<Acc, Hash>, acc: Acc, msg: seq<Byte>, n: nat)
    requires GoodSecret(k) && 64 * n + 64 <= |msg|
    ensures Absorb(k, acc, 0, msg, n + 1)
            == Stripe(k, Absorb(k, acc, 0, msg, n), n % ((|k.secret| - 64) / 8), Part(msg, 64 * n))
  {
  }

  lemma NextReplayed<Acc, Hash>(k: Kernel<Acc, Hash>, msg: seq<Byte>, n: nat, calls: seq<Call>)
    requires GoodSecret(k) && 64 * n + 64 <= |msg|
    requires Replayed(k, calls) == Absorb(k, k.init, 0, msg, n)
    ensures Replayed(k, calls + NextCalls(k.secret, msg, n)) == Absorb(k, k.init, 0, msg, n + 1)
  {
    AbsorbLast(k, k.init, msg, n);
    StripeReplayed(k, calls, n % ((|k.secret| - 64) / 8), Part(msg, 64 * n));
  }

  lemma {:induction false} AbsorbReplayed<Acc, Hash>(k: Kernel<Acc, Hash>, msg: seq<Byte>, n: nat)
    requires GoodSecret(k) && 64 * n <= |msg|
    ensures Replayed(k, AllCalls(k.secret, msg, n)) == Absorb(k, k.init, 0, msg, n)
  {
    if n > 0 {
      AbsorbReplayed(k, msg, n - 1);
      NextReplayed(k, msg, n - 1, AllCalls(k.secret, msg, n - 1));
    }
  }

  /** The call of the last 64 bytes. */
  function LastCall(secret: seq<Byte>, msg: seq<Byte>): Call
    requires |secret| >= 136 && |msg| > 64
  {
    Accumulate(Part(msg, |msg| - 64), Part(secret, |secret| - 71))
  }

  lemma LongFrom<Acc, Hash>(k: Kernel<Acc, Hash>, msg: seq<Byte>, acc: Acc)
    requires GoodSecret(k) && |msg| > 64 && acc == Absorb(k, k.init, 0, msg, (|msg| - 1) / 64)
    ensures LongAcc(k, msg) == k.accumulate(acc, LastCall(k.secret, msg).stripe, LastCall(k.secret, msg).secret)
  {
  }

  lemma LongRecorded(secret: seq<Byte>, msg: seq<Byte>)
    requires |secret| >= 136 && |msg| > 64
    ensures LongAcc(Recorder(secret), msg) == Log(AllCalls(secret, msg, (|msg| - 1) / 64) + [LastCall(secret, msg)])
  {
    var n := (|msg| - 1) / 64;
    Recorded(secret, msg, n);
    LongFrom(Recorder(secret), msg, Log(AllCalls(secret, msg, n)));
  }

  lemma LastReplayed<Acc, Hash>(k: Kernel<Acc, Hash>, msg: seq<Byte>, calls: seq<Call>)
    requires GoodSecret(k) && |msg| > 64 && Replayed(k, calls) == Absorb(k, k.init, 0, msg, (|msg| - 1) / 64)
    ensures Replayed(k, calls + [LastCall(k.secret, msg)]) == LongAcc(k, msg)
  {
    ReplayedSnoc(k, calls, LastCall(k.secret, msg));
  }

  /** Any kernel computes what its recorded calls compute. */
  lemma LongReplayed<Acc, Hash>(k: Kernel<Acc, Hash>, msg: seq<Byte>)
    requires GoodSecret(k) && |msg| > 64
    ensures Replayed(k, LongAcc(Recorder(k.secret), msg).calls) == LongAcc(k, msg)
  {
    LongRecorded(k.secret, msg);
    AbsorbReplayed(k, msg, (|msg| - 1) / 64);
    LastReplayed(k, msg, AllCalls(k.secret, msg, (|msg| - 1) / 64));
  }

  // ---------------------------------------------------------------------------
  // The calls in closed form
  // ---------------------------------------------------------------------------

  /** Stripe i: bytes from 64 * i, with secret bytes from 8 times the place of the stripe in its block. */
  predicate StripeCall(calls: seq<Call>, secret: seq<Byte>, msg: seq<Byte>, i: nat)
    requires |secret| >= 136 && 64 * i + 64 <= |msg|
  {
    var b := (|secret| - 64) / 8;
    var from := 8 * (i % b);
    && i + i / b < |calls| && from + 64 <= |secret|
    && calls[i + i / b] == Accumulate(msg[64 * i..64 * i + 64], secret[from..from + 64])
  }

  /** The last call of block q scrambles with the last 64 secret bytes. */
  predicate BlockCall(calls: seq<Call>, secret: seq<Byte>, q: nat)
    requires |secret| >= 136
  {
    var b := (|secret| - 64) / 8;
    q * (b + 1) + b < |calls| && calls[q * (b + 1) + b] == Scramble(secret[|secret| - 64..])
  }

  /** The calls of the first n stripes, and no others. */
  predicate StripeCalls(calls: seq<Call>, secret: seq<Byte>, msg: seq<Byte>, n: nat)
    requires |secret| >= 136 && 64 * n <= |msg|
  {
    && |calls| == n + n / ((|secret| - 64) / 8)
    && (forall i :: 0 <= i < n ==> StripeCall(calls, secret, msg, i))
    && (forall q :: 0 <= q < n / ((|secret| - 64) / 8) ==> BlockCall(calls, secret, q))
  }

  lemma CallsKept(calls: seq<Call>, more: seq<Call>, secret: seq<Byte>, msg: seq<Byte>, n: nat)
    requires |secret| >= 136 && 64 * n <= |msg| && StripeCalls(calls, secret, msg, n)
    ensures forall i :: 0 <= i < n ==> StripeCall(calls + more, secret, msg, i)
    ensures forall q :: 0 <= q < n / ((|secret| - 64) / 8) ==> BlockCall(calls + more, secret, q)
  {
    forall i | 0 <= i < n
      ensures StripeCall(calls + more, secret, msg, i)
    {
      assert StripeCall(calls, secret, msg, i);
    }
    forall q | 0 <= q < n / ((|secret| - 64) / 8)
      ensures BlockCall(calls + more, secret, q)
    {
      assert BlockCall(calls, secret, q);
    }
  }

  /** Where stripe n, and the scramble that may follow it, are placed. */
  lemma NextPlace(n: nat, b: nat)
    requires b > 0
    ensures (n + 1) / b == if n % b + 1 == b then n / b + 1 else n / b
    ensures n % b + 1 == b ==> n / b * (b + 1) + b == n + 1 + n / b
  {
    var q, r := DivModIdentity(n, b);
    if r + 1 == b {
      DivModUnique(n + 1, b, q + 1, 0);
    } else {
      DivModUnique(n + 1, b, q, r + 1);
    }
  }

  lemma StripeCallsNext(calls: seq<Call>, secret: seq<Byte>, msg: seq<Byte>, n: nat)
    requires |secret| >= 136 && 64 * n + 64 <= |msg| && StripeCalls(calls, secret, msg, n)
    ensures StripeCalls(calls + NextCalls(secret, msg, n), secret, msg, n + 1)
  {
    NextPlace(n, (|secret| - 64) / 8);
    CallsKept(calls, NextCalls(secret, msg, n), secret, msg, n);
    CallsAdded(calls, secret, msg, n);
  }

  lemma CallsAdded(calls: seq<Call>, secret: seq<Byte>, msg: seq<Byte>, n: nat)
    requires |secret| >= 136 && 64 * n + 64 <= |msg| && |calls| == n + n / ((|secret| - 64) / 8)
    ensures StripeCall(calls + NextCalls(secret, msg, n), secret, msg, n)
    ensures var b := (|secret| - 64) / 8;
            n % b + 1 == b ==> BlockCall(calls + NextCalls(secret, msg, n), secret, n / b)
  {
    NextPlace(n, (|secret| - 64) / 8);
    assert Part(secret, |secret| - 64) == secret[|secret| - 64..];
  }

  lemma {:induction false} AllCallsClosed(secret: seq<Byte>, msg: seq<Byte>, n: nat)
    requires |secret| >= 136 && 64 * n <= |msg|
    ensures StripeCalls(AllCalls(secret, msg, n), secret, msg, n)
  {
    if n == 0 {
      DivModUnique(0, (|secret| - 64) / 8, 0, 0);
    } else {
      AllCallsClosed(secret, msg, n - 1);
      StripeCallsNext(AllCalls(secret, msg, n - 1), secret, msg, n - 1);
    }
  }

  /**
   * A long input of n bytes: stripe i is accumulated with secret bytes from 8 * (i modulo the stripes per
   * block), a scramble with the last 64 secret bytes follows each full block, and the last call accumulates
   * the last 64 bytes with the 64 secret bytes that end 7 before the end.
   */
  lemma LongCalls(secret: seq<Byte>, msg: seq<Byte>)
    requires |secret| >= 136 && |msg| > 64
    ensures var calls, n := LongAcc(Recorder(secret), msg).calls, (|msg| - 1) / 64;
            && |calls| > 0 && StripeCalls(calls[..|calls| - 1], secret, msg, n)
            && calls[|calls| - 1] == Accumulate(msg[|msg| - 64..], secret[|secret| - 71..|secret| - 7])
  {
    var n := (|msg| - 1) / 64;
    var calls := AllCalls(secret, msg, n);
    AllCallsClosed(secret, msg, n);
    LongRecorded(secret, msg);
    assert LongAcc(Recorder(secret), msg).calls[..|calls|] == calls;
  }

  /** The default secret of 192 bytes: sixteen stripes per block, and bytes 121 to 185 for the last call. */
  lemma DefaultCalls(secret: seq<Byte>, msg: seq<Byte>, i: nat, q: nat)
    requires |secret| == 192 && |msg| > 64
    ensures var calls, n := LongAcc(Recorder(secret), msg).calls, (|msg| - 1) / 64;
            && |calls| == n + n / 16 + 1
            && calls[|calls| - 1] == Accumulate(msg[|msg| - 64..], secret[121..185])
            && (q < n / 16 ==> calls[17 * q + 16] == Scramble(secret[128..192]))
            && (i < n ==>
                  calls[i + i / 16] == Accumulate(msg[64 * i..64 * i + 64], secret[8 * (i % 16)..8 * (i % 16) + 64]))
  {
    LongCalls(secret, msg);
    var calls, n := LongAcc(Recorder(secret), msg).calls, (|msg| - 1) / 64;
    if i < n { assert StripeCall(calls[..|calls| - 1], secret, msg, i); }
    if q < n / 16 { assert BlockCall(calls[..|calls| - 1], secret, q); }
    assert secret[128..] == secret[128..192];
  }

  /** Up to 240 bytes there is one call, of the short form; above, the long calls and then the finish. */
  lemma HashedCalls(secret: seq<Byte>, msg: seq<Byte>)
    requires |secret| >= 136
    ensures |msg| <= 240 ==> Hashed(Recorder(secret), msg).calls == [Short(msg)]
    ensures |msg| > 240 ==>
              Hashed(Recorder(secret), msg).calls
              == LongAcc(Recorder(secret), msg).calls + [Finish(secret, |msg|)]
  {
  }
}
