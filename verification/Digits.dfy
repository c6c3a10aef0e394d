/**
 * Positional notation: digit lists, their values, and conversion between bases.
 *
 * Value reads a list least significant digit first, Horner most significant digit first. A list
 * without leading zeros is the digits of its value, and only then.
 *
 * Convert keeps each leading zero digit as one zero digit and rewrites the rest as a number, which is
 * what Base58 does with leading zero bytes.
 */
module Digits {
  import opened Arith

  /** Every digit is below the base. */
  predicate Ok(ds: seq<nat>, base: nat) {
    forall i :: 0 <= i < |ds| ==> ds[i] < base
  }

  /** The value of a list of digits, least significant first. */
  function Value(ds: seq<nat>, base: nat): nat {
    if ds == [] then 0 else ds[0] + base * Value(ds[1..], base)
  }

  lemma ValueCons(d: nat, ds: seq<nat>, base: nat)
    ensures Value([d] + ds, base) == d + base * Value(ds, base)
  {
    assert ([d] + ds)[1..] == ds;
  }

  lemma DivSmaller(n: nat, base: nat)
    requires n > 0 && base >= 2
    ensures n / base < n
    ensures n / base == 0 ==> n % base == n
  {
    if n / base >= n {
      MulMonotone(2, base, n, n / base);
    }
  }

  lemma Recompose(n: nat, base: nat)
    requires base > 0
    ensures n % base + base * (n / base) == n
  {
  }

  /** The digits of n, least significant first, without leading zeros. */
  function DigitsOf(n: nat, base: nat): (ds: seq<nat>)
    requires base >= 2
    ensures Value(ds, base) == n
    ensures Ok(ds, base)
    ensures ds != [] ==> ds[|ds| - 1] != 0
  {
    if n == 0 then []
    else
      DivSmaller(n, base);
      var rest := DigitsOf(n / base, base);
      ValueCons(n % base, rest, base);
      Recompose(n, base);
      [n % base] + rest
  }

  /** A list without leading zeros is the digits of its value. */
  lemma {:induction false} DigitsOfValue(ds: seq<nat>, base: nat)
    requires base >= 2 && Ok(ds, base) && (ds != [] ==> ds[|ds| - 1] != 0)
    ensures DigitsOf(Value(ds, base), base) == ds
  {
    if ds == [] {
    } else {
      var v := Value(ds[1..], base);
      DigitsOfValue(ds[1..], base);
      assert v * base == base * v;
      DivModUnique(ds[0] + base * v, base, v, ds[0]);
      if ds[1..] == [] {
      } else {
        assert v != 0;
        MulAtLeast(v, base);
      }
    }
  }

  lemma {:induction false} ValueAppend(a: seq<nat>, b: seq<nat>, base: nat)
    ensures Value(a + b, base) == Value(a, base) + Pow(base, |a|) * Value(b, base)
  {
    if a == [] {
      assert a + b == b;
    } else {
      ValueAppend(a[1..], b, base);
      assert (a + b)[1..] == a[1..] + b;
      var p, v := Pow(base, |a| - 1), Value(b, base);
      MulAssoc(base, p, v);
    }
  }

  lemma {:induction false} ValueBound(ds: seq<nat>, base: nat)
    requires Ok(ds, base)
    ensures Value(ds, base) < Pow(base, |ds|)
  {
    if ds == [] {
    } else {
      ValueBound(ds[1..], base);
      var v, p := Value(ds[1..], base), Pow(base, |ds| - 1);
      RemainderFits(ds[0], v, base, p);
    }
  }

  /** A number below base^k has at most k digits. */
  lemma {:induction false} DigitCount(n: nat, base: nat, k: nat)
    requires base >= 2 && n < Pow(base, k)
    ensures |DigitsOf(n, base)| <= k
    decreases k
  {
    if n == 0 {
    } else {
      DivSmaller(n, base);
      if n / base >= Pow(base, k - 1) {
        MulMonotone(base, base, Pow(base, k - 1), n / base);
      }
      DigitCount(n / base, base, k - 1);
    }
  }

  // ---------------------------------------------------------------------------
  // Most significant digit first
  // ---------------------------------------------------------------------------

  function Reverse(s: seq<nat>): (r: seq<nat>)
    ensures |r| == |s|
    ensures forall i :: 0 <= i < |s| ==> r[i] == s[|s| - 1 - i]
  {
    seq(|s|, i requires 0 <= i < |s| => s[|s| - 1 - i])
  }

  /** The value of a list of digits, most significant first, by Horner's rule. */
  function Horner(ds: seq<nat>, base: nat): nat {
    if ds == [] then 0 else Horner(ds[..|ds| - 1], base) * base + ds[|ds| - 1]
  }

  lemma {:induction false} HornerIsValue(ds: seq<nat>, base: nat)
    ensures Horner(ds, base) == Value(Reverse(ds), base)
  {
    if ds == [] {
    } else {
      HornerIsValue(ds[..|ds| - 1], base);
      assert Reverse(ds)[1..] == Reverse(ds[..|ds| - 1]);
      assert base * Horner(ds[..|ds| - 1], base) == Horner(ds[..|ds| - 1], base) * base;
    }
  }

  function LeadingZeros(ds: seq<nat>): (k: nat)
    ensures k <= |ds|
    ensures forall i :: 0 <= i < k ==> ds[i] == 0
    ensures k < |ds| ==> ds[k] != 0
  {
    if ds == [] || ds[0] != 0 then 0 else 1 + LeadingZeros(ds[1..])
  }

  function Zeros(k: nat): (r: seq<nat>)
    ensures |r| == k && forall i :: 0 <= i < k ==> r[i] == 0
  {
    seq(k, i => 0)
  }

  /** The digits of n, most significant first. */
  function BigEndian(n: nat, base: nat): (ds: seq<nat>)
    requires base >= 2
    ensures Ok(ds, base)
    ensures ds != [] ==> ds[0] != 0
  {
    Reverse(DigitsOf(n, base))
  }

  /** Each leading zero digit is kept as one zero digit; the rest is rewritten as a number. */
  function Convert(ds: seq<nat>, from: nat, to: nat): (r: seq<nat>)
    requires to >= 2
    ensures Ok(r, to)
  {
    Zeros(LeadingZeros(ds)) + BigEndian(Horner(ds, from), to)
  }

  lemma LeadingZerosUnique(k: nat, rest: seq<nat>)
    requires rest != [] ==> rest[0] != 0
    ensures LeadingZeros(Zeros(k) + rest) == k
  {
    var ds := Zeros(k) + rest;
    assert forall i :: 0 <= i < k ==> ds[i] == 0;
    assert k < |ds| ==> ds[k] == rest[0];
  }

  lemma {:induction false} HornerZeros(k: nat, rest: seq<nat>, base: nat)
    ensures Horner(Zeros(k) + rest, base) == Horner(rest, base)
    decreases k + |rest|
  {
    var ds := Zeros(k) + rest;
    if rest != [] {
      HornerZeros(k, rest[..|rest| - 1], base);
      assert ds[..|ds| - 1] == Zeros(k) + rest[..|rest| - 1];
    } else if k > 0 {
      HornerZeros(k - 1, [], base);
      assert ds[..|ds| - 1] == Zeros(k - 1) + [];
    }
  }

  lemma LeadingZerosCons(ds: seq<nat>)
    ensures LeadingZeros([0] + ds) == 1 + LeadingZeros(ds)
    ensures Zeros(1 + LeadingZeros(ds)) == [0] + Zeros(LeadingZeros(ds))
  {
    assert ([0] + ds)[1..] == ds;
  }

  /** A zero in front stays a zero in front. */
  lemma ConvertZero(ds: seq<nat>, from: nat, to: nat)
    requires to >= 2
    ensures Convert([0] + ds, from, to) == [0] + Convert(ds, from, to)
  {
    LeadingZerosCons(ds);
    assert Zeros(1) + ds == [0] + ds;
    HornerZeros(1, ds, from);
  }

  lemma HornerOfBigEndian(n: nat, base: nat)
    requires base >= 2
    ensures Horner(BigEndian(n, base), base) == n
  {
    HornerIsValue(BigEndian(n, base), base);
    assert Reverse(BigEndian(n, base)) == DigitsOf(n, base);
  }

  lemma BigEndianOfHorner(ds: seq<nat>, base: nat)
    requires base >= 2 && Ok(ds, base) && (ds != [] ==> ds[0] != 0)
    ensures BigEndian(Horner(ds, base), base) == ds
  {
    HornerIsValue(ds, base);
    DigitsOfValue(Reverse(ds), base);
    assert Reverse(Reverse(ds)) == ds;
  }

  /** Conversion to another base and back is the identity, leading zeros included. */
  lemma ConvertTwice(ds: seq<nat>, from: nat, to: nat)
    requires from >= 2 && to >= 2 && Ok(ds, from)
    ensures Convert(Convert(ds, from, to), to, from) == ds
  {
    var k := LeadingZeros(ds);
    var core := ds[k..];
    assert ds == Zeros(k) + core;
    HornerZeros(k, core, from);
    var n := Horner(core, from);
    LeadingZerosUnique(k, BigEndian(n, to));
    HornerZeros(k, BigEndian(n, to), to);
    HornerOfBigEndian(n, to);
    BigEndianOfHorner(core, from);
  }
}
