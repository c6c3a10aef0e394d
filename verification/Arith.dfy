/**
 * Powers and Euclidean division, shared by the other modules.
 *
 * The filters need it for bucket and fingerprint, which are remainder and quotient of a hash by a
 * size that doubles and halves; Base58 for positional notation; the wheel for slots and laps; the
 * hashes for stripes and blocks.
 *
 * Products and quotients of two variables are handled here, in small steps, so that the other
 * modules reason about named quantities.
 */
module Arith {

  function Pow(b: nat, e: nat): (r: nat)
    ensures b > 0 ==> r > 0
  {
    if e == 0 then 1 else b * Pow(b, e - 1)
  }

  /** A quotient and a remainder in range are the quotient and the remainder. */
  lemma DivModUnique(x: int, d: int, q: int, r: int)
    requires d > 0 && 0 <= r < d
    requires x == q * d + r
    ensures x / d == q && x % d == r
  {
    assert (x / d - q) * d == r - x % d;
    if x / d - q >= 1 {
      MulAtLeast(x / d - q, d);
    } else if x / d - q <= -1 {
      MulAtLeast(q - x / d, d);
    }
  }

  lemma DivModIdentity(x: nat, d: nat) returns (q: nat, r: nat)
    requires d > 0
    ensures q == x / d && r == x % d && x == q * d + r && r < d
  {
    q, r := x / d, x % d;
  }

  lemma MulAtLeast(k: int, d: int)
    requires k >= 1 && d > 0
    ensures k * d >= d
  {
  }

  /** A common factor keeps the order. */
  lemma MulUp(u: nat, a: nat, b: nat)
    requires a <= b
    ensures u * a <= u * b
  {
    assert u * b == u * a + u * (b - a);
  }

  lemma MulAssoc(a: int, b: int, c: int)
    ensures a * b * c == a * (b * c)
  {
  }

  lemma ModShift(x: nat, y: nat, m: nat)
    requires m > 0
    ensures (x + y) % m == (x % m + y) % m
  {
    var q, r := DivModIdentity(x % m + y, m);
    assert x == x / m * m + x % m;
    DivModUnique(x + y, m, x / m + q, r);
  }

  /** Residues modulo m survive reduction modulo a multiple of m. */
  lemma ModOfMod(x: int, m: int, k: int)
    requires m > 0 && k > 0
    ensures m * k > 0 && x % (m * k) % m == x % m
  {
    var n := m * k;
    assert n > 0 by { MulAtLeast(k, m); }
    var q, r := x / n, x % n;
    assert x == q * n + r;
    assert x == (q * k + r / m) * m + r % m;
    DivModUnique(x, m, q * k + r / m, r % m);
  }

  /** Equal residues modulo a multiple are equal residues. */
  lemma ModCoarsen(x: int, y: int, m: int, k: int)
    requires m > 0 && k > 0
    requires m * k > 0 && x % (m * k) == y % (m * k)
    ensures x % m == y % m
  {
    ModOfMod(x, m, k);
    ModOfMod(y, m, k);
  }

  /** Doubling the divisor moves the low quotient bit into the remainder. */
  lemma DivModDouble(c: nat, s: nat)
    requires s > 0
    ensures c / (2 * s) == c / s / 2
    ensures c % (2 * s) == c % s + (c / s % 2) * s
  {
    var q := c / s;
    assert c == (q / 2 * 2 + q % 2) * s + c % s;
    assert c == (q / 2) * (2 * s) + (c % s + (q % 2) * s);
    assert (q % 2) * s <= s;
    DivModUnique(c, 2 * s, q / 2, c % s + (q % 2) * s);
  }

  /** Mixed-radix reading of a residue modulo a product. */
  lemma ModProduct(x: nat, s: nat, w: nat)
    requires s > 0 && w > 0
    ensures s * w > 0
    ensures x % (s * w) == x % s + s * (x / s % w)
    ensures x % (s * w) % s == x % s && x % (s * w) / s == x / s % w
  {
    var q := x / s;
    var r := x % s + s * (q % w);
    assert s * w > 0 by { MulAtLeast(w, s); }
    assert x == (q / w) * (s * w) + r by {
      assert x == (q / w * w + q % w) * s + x % s;
    }
    assert r < s * w by { RemainderFits(x % s, q % w, s, w); }
    DivModUnique(x, s * w, q / w, r);
    DivModUnique(r, s, q % w, x % s);
  }

  lemma RemainderFits(r: nat, q: nat, s: nat, w: nat)
    requires r < s && q < w
    ensures r + s * q < s * w
  {
    assert s * w == s * q + s * (w - q);
    MulAtLeast(w - q, s);
  }

  lemma PowAdd(b: nat, x: nat, y: nat)
    ensures Pow(b, x + y) == Pow(b, x) * Pow(b, y)
  {
    if x == 0 {
    } else {
      PowAdd(b, x - 1, y);
    }
  }

  lemma {:induction false} PowMul(b: nat, x: nat, y: nat)
    ensures Pow(Pow(b, x), y) == Pow(b, x * y)
    decreases y
  {
    if y == 0 {
      assert x * y == 0;
    } else {
      var k := x * (y - 1);
      assert x * y == x + k;
      PowMul(b, x, y - 1);
      PowAdd(b, x, k);
    }
  }

  lemma {:induction false} PowMonotone(b: nat, x: nat, y: nat)
    requires b > 0 && x <= y
    ensures Pow(b, x) <= Pow(b, y)
  {
    var k, p := y - x, Pow(b, x);
    PowAdd(b, x, k);
    MulAtLeast(Pow(b, k), p);
  }

  lemma {:induction false} PowBaseMonotone(a: nat, b: nat, e: nat)
    requires a <= b
    ensures Pow(a, e) <= Pow(b, e)
  {
    if e == 0 {
    } else {
      PowBaseMonotone(a, b, e - 1);
      MulMonotone(a, b, Pow(a, e - 1), Pow(b, e - 1));
    }
  }

  lemma MulMonotone(a: nat, b: nat, x: nat, y: nat)
    requires a <= b && x <= y
    ensures a * x <= b * y
  {
    assert b * y == a * x + a * (y - x) + (b - a) * y;
  }
}
