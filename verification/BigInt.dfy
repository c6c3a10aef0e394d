/**
 * Little-endian big integers held in a byte buffer with a length, changed in place. Every step is
 * exact on the represented number and leaves no zero byte on top.
 */
module BigInt {
  import opened Words
  import opened Arith
  import opened Digits

  function Num(s: seq<Byte>): nat {
    Value(s, 256)
  }

  predicate Trimmed(s: seq<Byte>) {
    s == [] || s[|s| - 1] != 0
  }

  lemma NumSnoc(s: seq<Byte>, b: Byte)
    ensures Num(s + [b]) == Num(s) + Pow(256, |s|) * b
  {
    ValueAppend(s, [b], 256);
    assert [b][1..] == [];
    assert Value([b][1..], 256) == 0;
    assert Value([b], 256) == b;
  }

  /** One carry step: byte and carry out stand for the digit and carry in. */
  lemma CarryStep(low: nat, val: nat, p: nat, total: nat)
    requires low + p * val == total
    ensures low + p * (val % 256) + (256 * p) * (val / 256) == total
  {
    assert val == 256 * (val / 256) + val % 256;
    assert p * val == p * (256 * (val / 256)) + p * (val % 256);
  }

  /** The loop that writes a remaining carry byte by byte above the number. */
  method FlushCarry(buf: array<Byte>, len: nat, carryIn: nat, ghost total: nat) returns (newLen: nat)
    requires len <= buf.Length
    requires Num(buf[..len]) + Pow(256, len) * carryIn == total
    requires total < Pow(256, buf.Length)
    requires carryIn > 0 || Trimmed(buf[..len])
    modifies buf
    ensures len <= newLen <= buf.Length
    ensures Num(buf[..newLen]) == total && Trimmed(buf[..newLen])
  {
    newLen := len;
    var carry := carryIn;
    while carry > 0
      invariant len <= newLen <= buf.Length
      invariant Num(buf[..newLen]) + Pow(256, newLen) * carry == total
      invariant carry > 0 || Trimmed(buf[..newLen])
      decreases carry
    {
      ghost var s := buf[..newLen];
      RoomLeft(newLen, carry, total, buf.Length);
      CarryStep(Num(s), carry, Pow(256, newLen), total);
      NumSnoc(s, carry % 256);
      buf[newLen] := carry % 256;
      assert buf[..newLen + 1] == s + [carry % 256];
      newLen := newLen + 1;
      carry := carry / 256;
    }
  }

  lemma RoomLeft(len: nat, carry: nat, total: nat, size: nat)
    requires carry > 0 && Pow(256, len) * carry <= total < Pow(256, size)
    ensures len < size
  {
    MulAtLeast(carry, Pow(256, len));
    if len >= size {
      PowMonotone(256, size, len);
    }
  }

  /** bigint_multiply. */
  method Multiply(buf: array<Byte>, len: nat, factor: nat) returns (newLen: nat)
    requires len <= buf.Length && 0 < factor < 0x100_0000
    requires Trimmed(buf[..len]) && Num(buf[..len]) * factor < Pow(256, buf.Length)
    modifies buf
    ensures newLen <= buf.Length
    ensures Num(buf[..newLen]) == old(Num(buf[..len])) * factor && Trimmed(buf[..newLen])
  {
    ghost var s := buf[..len];
    var carry: nat := 0;
    var i := 0;
    while i < len
      invariant 0 <= i <= len && carry < factor
      invariant buf[i..len] == s[i..]
      invariant Num(buf[..i]) + Pow(256, i) * carry == Num(s[..i]) * factor
      invariant i > 0 && i == len && carry == 0 ==> buf[len - 1] != 0
    {
      ghost var low, p := buf[..i], Pow(256, i);
      var val: nat := buf[i] * factor + carry;
      assert buf[i] == buf[i..len][0] == s[i];
      MultiplyStep(s, i, Num(low), carry, factor, val);
      NumSnoc(low, val % 256);
      CarryBound(s[i], factor, carry);
      assert s[i] > 0 ==> val > 0 by { if s[i] > 0 { MulAtLeast(s[i], factor); } }
      buf[i] := val % 256;
      assert buf[..i + 1] == low + [val % 256];
      assert buf[i + 1..len] == s[i + 1..];
      carry := val / 256;
      i := i + 1;
    }
    assert s[..len] == s;
    newLen := FlushCarry(buf, len, carry, Num(s) * factor);
  }

  lemma CarryBound(b: Byte, factor: nat, carry: nat)
    requires carry < factor
    ensures (b * factor + carry) / 256 < factor
  {
    assert b * factor <= 255 * factor;
  }

  lemma MultiplyStep(s: seq<Byte>, i: nat, low: nat, carry: nat, factor: nat, val: nat)
    requires i < |s| && low + Pow(256, i) * carry == Num(s[..i]) * factor && val == s[i] * factor + carry
    ensures low + Pow(256, i) * (val % 256) + Pow(256, i + 1) * (val / 256) == Num(s[..i + 1]) * factor
  {
    var p, n := Pow(256, i), Num(s[..i]);
    NumSnoc(s[..i], s[i]);
    assert s[..i + 1] == s[..i] + [s[i]];
    assert p * val == p * (s[i] * factor) + p * carry;
    assert (n + p * s[i]) * factor == n * factor + p * s[i] * factor;
    MulAssoc(p, s[i], factor);
    CarryStep(low, val, p, (n + p * s[i]) * factor);
  }

  lemma AddStep(s: seq<Byte>, i: nat, low: seq<Byte>, carry: nat, value: nat)
    requires i < |s| && |low| == i && Num(low) + Pow(256, i) * carry == Num(s[..i]) + value
    ensures Num(low + [(s[i] + carry) % 256]) + Pow(256, i + 1) * ((s[i] + carry) / 256) == Num(s[..i + 1]) + value
  {
    var p, val := Pow(256, i), s[i] + carry;
    NumSnoc(s[..i], s[i]);
    assert s[..i + 1] == s[..i] + [s[i]];
    assert p * val == p * s[i] + p * carry;
    CarryStep(Num(low), val, p, Num(s[..i + 1]) + value);
    NumSnoc(low, val % 256);
  }

  /** The loop of bigint_add over the bytes in place; stops as soon as nothing is carried. */
  method AddInPlace(buf: array<Byte>, len: nat, value: nat) returns (carry: nat)
    requires len <= buf.Length && Trimmed(buf[..len])
    modifies buf
    ensures Num(buf[..len]) + Pow(256, len) * carry == old(Num(buf[..len])) + value
    ensures carry > 0 || Trimmed(buf[..len])
  {
    ghost var s := buf[..len];
    carry := value;
    var i := 0;
    while i < len && carry > 0
      invariant 0 <= i <= len
      invariant buf[i..len] == s[i..]
      invariant Num(buf[..i]) + Pow(256, i) * carry == Num(s[..i]) + value
      invariant i == len && carry == 0 && len > 0 ==> buf[len - 1] != 0
    {
      ghost var low := buf[..i];
      assert buf[i] == buf[i..len][0] == s[i];
      AddStep(s, i, low, carry, value);
      var val: nat := buf[i] + carry;
      buf[i] := val % 256;
      assert buf[..i + 1] == low + [val % 256];
      assert buf[i + 1..len] == s[i + 1..];
      carry := val / 256;
      i := i + 1;
    }
    assert buf[..len] == buf[..i] + s[i..];
    AddTail(s, buf[..i], i, carry, value);
    if i < len { TailTrimmed(s, buf[..i], i); }
  }

  /** Bytes above the last one touched keep their worth. */
  lemma AddTail(s: seq<Byte>, low: seq<Byte>, i: nat, carry: nat, value: nat)
    requires i <= |s| && |low| == i && Num(low) + Pow(256, i) * carry == Num(s[..i]) + value
    requires i == |s| || carry == 0
    ensures Num(low + s[i..]) + Pow(256, |s|) * carry == Num(s) + value
  {
    if i == |s| {
      assert low + s[i..] == low && s[..i] == s;
    } else {
      TailWorth(s, low, i);
    }
  }

  lemma TailWorth(s: seq<Byte>, low: seq<Byte>, i: nat)
    requires i <= |s| && |low| == i
    ensures Num(low + s[i..]) - Num(low) == Num(s) - Num(s[..i])
  {
    assert s == s[..i] + s[i..];
    ValueAppend(low, s[i..], 256);
    ValueAppend(s[..i], s[i..], 256);
  }

  /** The top byte stays, if it was not reached. */
  lemma TailTrimmed(s: seq<Byte>, low: seq<Byte>, i: nat)
    requires i < |s| && |low| == i && Trimmed(s)
    ensures Trimmed(low + s[i..])
  {
    assert (low + s[i..])[|s| - 1] == s[|s| - 1];
  }

  /** bigint_add. */
  method AddSmall(buf: array<Byte>, len: nat, value: nat) returns (newLen: nat)
    requires len <= buf.Length && value < 0x1_0000_0000 - 0xFF
    requires Trimmed(buf[..len]) && Num(buf[..len]) + value < Pow(256, buf.Length)
    modifies buf
    ensures newLen <= buf.Length
    ensures Num(buf[..newLen]) == old(Num(buf[..len])) + value && Trimmed(buf[..newLen])
  {
    ghost var total := Num(buf[..len]) + value;
    var carry := AddInPlace(buf, len, value);
    newLen := FlushCarry(buf, len, carry, total);
  }

  /** Bringing down byte b: quotient digit d and remainder m of 256r + b extend the division. */
  lemma DivideAt(s: seq<Byte>, q: seq<Byte>, i: nat, r: nat, divisor: nat, d: nat, m: nat)
    requires 0 < i <= |s| && r < divisor <= 256 && Num(s[i..]) == Num(q) * divisor + r
    requires 256 * r + s[i - 1] == d * divisor + m && m < divisor
    ensures d < 256
    ensures Num(s[i - 1..]) == Num([d] + q) * divisor + m
  {
    if d >= 256 {
      MulMonotone(256, d, divisor, divisor);
    }
    assert s[i - 1..] == [s[i - 1]] + s[i..];
    ValueCons(s[i - 1], s[i..], 256);
    ValueCons(d, q, 256);
    DistributeDigit(d, Num(q), divisor);
  }

  lemma DistributeDigit(d: nat, n: nat, divisor: nat)
    ensures (d + 256 * n) * divisor == d * divisor + 256 * (n * divisor)
  {
  }

  /** bigint_divmod. */
  method DivMod(buf: array<Byte>, len: nat, divisor: nat) returns (newLen: nat, remainder: Byte)
    requires len <= buf.Length && 0 < divisor <= 256
    modifies buf
    ensures newLen <= len && Trimmed(buf[..newLen])
    ensures Num(buf[..newLen]) == old(Num(buf[..len])) / divisor
    ensures remainder == old(Num(buf[..len])) % divisor
  {
    remainder := DivideAll(buf, len, divisor);
    newLen := TrimTop(buf, len);
  }

  /** The division loop, from the most significant byte down. */
  method DivideAll(buf: array<Byte>, len: nat, divisor: nat) returns (remainder: Byte)
    requires len <= buf.Length && 0 < divisor <= 256
    modifies buf
    ensures Num(buf[..len]) == old(Num(buf[..len])) / divisor
    ensures remainder == old(Num(buf[..len])) % divisor
  {
    ghost var s := buf[..len];
    var rem: nat := 0;
    var i := len;
    while i > 0
      invariant 0 <= i <= len && rem < divisor
      invariant buf[..i] == s[..i]
      invariant Num(s[i..]) == Num(buf[i..len]) * divisor + rem
    {
      ghost var q := buf[i..len];
      var val: nat := rem * 256 + buf[i - 1];
      assert buf[i - 1] == buf[..i][i - 1] == s[i - 1];
      ghost var d, m := DivModIdentity(val, divisor);
      DivideAt(s, q, i, rem, divisor, d, m);
      buf[i - 1] := val / divisor;
      assert buf[i - 1..len] == [d] + q;
      rem := val % divisor;
      i := i - 1;
      assert buf[..i] == s[..i];
    }
    assert s[0..] == s && buf[0..len] == buf[..len];
    DivModUnique(Num(s), divisor, Num(buf[..len]), rem);
    remainder := rem;
  }

  method TrimTop(buf: array<Byte>, len: nat) returns (newLen: nat)
    requires len <= buf.Length
    ensures newLen <= len && Trimmed(buf[..newLen]) && Num(buf[..newLen]) == Num(buf[..len])
  {
    newLen := len;
    while newLen > 0 && buf[newLen - 1] == 0
      invariant newLen <= len && Num(buf[..newLen]) == Num(buf[..len])
    {
      NumSnoc(buf[..newLen - 1], 0);
      assert buf[..newLen] == buf[..newLen - 1] + [0];
      newLen := newLen - 1;
    }
  }
}
