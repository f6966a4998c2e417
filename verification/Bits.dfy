/** Powers of two, division and remainder by them, and bit reversal: the
    arithmetic that the C code writes with shifts and masks. */
module Bits {

  type Byte = b: int | 0 <= b < 256 witness 0

  function Pow2(n: nat): (p: nat)
    ensures p >= 1
  {
    if n == 0 then 1 else 2 * Pow2(n - 1)
  }

  lemma {:induction false} Pow2Add(a: nat, b: nat)
    ensures Pow2(a + b) == Pow2(a) * Pow2(b)
  {
    if a > 0 {
      Pow2Add(a - 1, b);
      MulAssoc(2, Pow2(a - 1), Pow2(b));
    }
  }

  lemma {:induction false} Pow2Mono(a: nat, b: nat)
    requires a <= b
    ensures Pow2(a) <= Pow2(b)
  {
    if a < b {
      Pow2Mono(a, b - 1);
    }
  }

  lemma MulAssoc(a: int, b: int, c: int)
    ensures (a * b) * c == a * (b * c)
  {
  }

  /** Quotient and remainder are determined by x == q * d + r with 0 <= r < d. */
  lemma DivModUnique(x: int, d: int, q: int, r: int)
    requires d > 0 && 0 <= r < d && x == q * d + r
    ensures x / d == q && x % d == r
  {
    var q' := x / d;
    var r' := x % d;
    assert x == q' * d + r';
    assert (q - q') * d == r' - r;
    if q - q' >= 1 {
      MulLower(q - q', d);
    } else if q - q' <= -1 {
      MulLower(q' - q, d);
    }
  }

  lemma MulLower(k: int, d: int)
    requires k >= 1 && d > 0
    ensures k * d >= d
  {
    assert k * d == (k - 1) * d + d;
    MulNonNeg(k - 1, d);
  }

  lemma MulNonNeg(a: int, b: int)
    requires a >= 0 && b >= 0
    ensures a * b >= 0
  {
  }

  lemma DivNonNeg(a: nat, d: int)
    requires d > 0
    ensures a / d >= 0
  {
  }

  lemma MulStep(a: int, b: int)
    ensures (a + 1) * b == a * b + b
  {
  }

  lemma MulMono(a: int, b: int, d: int)
    requires a <= b && d >= 0
    ensures a * d <= b * d
  {
    MulNonNeg(b - a, d);
  }

  /** (k * d + r) / d and % d, for a multiple of d plus any non-negative rest. */
  lemma DivAddMul(k: int, d: int, r: int)
    requires d > 0
    ensures (k * d + r) / d == k + r / d
    ensures (k * d + r) % d == r % d
  {
    var q := r / d;
    var m := r % d;
    assert k * d + r == (k + q) * d + m;
    DivModUnique(k * d + r, d, k + q, m);
  }

  /** Splitting a number first by p and then by r is splitting it by p * r. */
  lemma SplitTwice(x: int, p: int, r: int)
    requires x >= 0 && p > 0 && r > 0
    ensures p * r > 0
    ensures x / (p * r) == (x / p) / r
    ensures x % (p * r) == ((x / p) % r) * p + x % p
    ensures 0 <= ((x / p) % r) * p + x % p < p * r
  {
    var y, z := x / p, x % p;
    var yq, ym := y / r, y % r;
    MulLower(r, p);
    SplitBound(ym, z, p, r);
    SplitSum(x, y, z, yq, ym, p, r);
    DivModUnique(x, p * r, yq, ym * p + z);
  }

  lemma SplitBound(ym: int, z: int, p: int, r: int)
    requires 0 <= ym < r && 0 <= z < p
    ensures 0 <= ym * p + z < p * r
  {
    MulNonNeg(ym, p);
    MulMono(ym, r - 1, p);
    assert (r - 1) * p == p * r - p;
  }

  lemma SplitSum(x: int, y: int, z: int, yq: int, ym: int, p: int, r: int)
    requires x == y * p + z && y == yq * r + ym
    ensures x == yq * (p * r) + (ym * p + z)
  {
    calc {
      y * p;
      (yq * r + ym) * p;
      (yq * r) * p + ym * p;
      { MulAssoc(yq, r, p); assert r * p == p * r; }
      yq * (p * r) + ym * p;
    }
  }

  /** Dropping low bits of a remainder keeps the low bits. */
  lemma ModMod(x: int, a: nat, b: nat)
    requires a <= b && x >= 0
    ensures (x % Pow2(b)) % Pow2(a) == x % Pow2(a)
  {
    Pow2Add(a, b - a);
    ModModMul(x, Pow2(a), Pow2(b - a));
  }

  lemma ModModMul(x: int, p: int, r: int)
    requires x >= 0 && p > 0 && r > 0
    ensures p * r > 0 && (x % (p * r)) % p == x % p
  {
    SplitTwice(x, p, r);
    var ym, z := (x / p) % r, x % p;
    DivModUnique(ym * p + z, p, ym, z);
  }

  /** Taking bits a..a+b: shift then mask equals mask then shift. */
  lemma DivModSwap(x: int, a: nat, b: nat)
    requires x >= 0
    ensures (x % Pow2(a + b)) / Pow2(a) == (x / Pow2(a)) % Pow2(b)
    ensures x % Pow2(a + b) == x % Pow2(a) + ((x / Pow2(a)) % Pow2(b)) * Pow2(a)
  {
    Pow2Add(a, b);
    var p, r := Pow2(a), Pow2(b);
    SplitTwice(x, p, r);
    DivModUnique(x % (p * r), p, (x / p) % r, x % p);
  }

  lemma DivDiv(x: int, a: nat, b: nat)
    requires x >= 0
    ensures x / Pow2(a + b) == (x / Pow2(a)) / Pow2(b)
  {
    Pow2Add(a, b);
    SplitTwice(x, Pow2(a), Pow2(b));
  }

  lemma SmallMod(x: int, d: int)
    requires 0 <= x < d
    ensures x % d == x && x / d == 0
  {
  }

  /** The low n bits of v in the opposite order. */
  function Rev(n: nat, v: nat): (r: nat)
    ensures r < Pow2(n)
  {
    if n == 0 then 0 else (v % 2) * Pow2(n - 1) + Rev(n - 1, v / 2)
  }

  /** The high l bits of an n-bit reversal are the reversal of the low l bits. */
  lemma {:induction false} RevPrefix(n: nat, l: nat, v: nat)
    requires l <= n
    ensures Rev(n, v) / Pow2(n - l) == Rev(l, v)
  {
    if l == 0 {
      SmallMod(Rev(n, v), Pow2(n));
    } else {
      RevPrefix(n - 1, l - 1, v / 2);
      var d := Pow2(n - l);
      Pow2Add(l - 1, n - l);
      assert Rev(n, v) == ((v % 2) * Pow2(l - 1)) * d + Rev(n - 1, v / 2) by {
        MulAssoc(v % 2, Pow2(l - 1), d);
      }
      DivAddMul((v % 2) * Pow2(l - 1), d, Rev(n - 1, v / 2));
    }
  }

  /** Equal reversals of the low l bits mean equal low l bits, and conversely. */
  lemma {:induction false} RevInjective(l: nat, u: nat, v: nat)
    ensures Rev(l, u) == Rev(l, v) <==> u % Pow2(l) == v % Pow2(l)
  {
    if l > 0 {
      RevInjective(l - 1, u / 2, v / 2);
      LowBit(u, l);
      LowBit(v, l);
      var p := Pow2(l - 1);
      MixUnique(u % 2, Rev(l - 1, u / 2), v % 2, Rev(l - 1, v / 2), p);
    }
  }

  lemma LowBit(u: nat, l: nat)
    requires l > 0
    ensures u % Pow2(l) == u % 2 + 2 * ((u / 2) % Pow2(l - 1))
  {
    DivModSwap(u, 1, l - 1);
    assert Pow2(1) == 2 * Pow2(0);
  }

  lemma MixUnique(a: int, x: int, b: int, y: int, p: int)
    requires 0 <= a <= 1 && 0 <= b <= 1 && 0 <= x < p && 0 <= y < p
    ensures a * p + x == b * p + y <==> a == b && x == y
  {
  }

  /** Reversal is an involution on n-bit values. */
  lemma {:induction false} RevRev(n: nat, v: nat)
    requires v < Pow2(n)
    ensures Rev(n, Rev(n, v)) == v
  {
    if n > 0 {
      // the top bit of v is the low bit of its reversal
      hide *;
      var p := Pow2(n - 1);
      Recombine(v, p);
      RevTop(n, v);
      RevRev(n - 1, v % p);
      RevLow(n - 1, v);
      RevSplit(n, Rev(n, v));
    }
  }

  lemma Recombine(v: nat, p: int)
    requires p > 0
    ensures v == (v / p) * p + v % p && 0 <= v % p < p
  {
  }

  lemma RevSplit(n: nat, x: nat)
    requires n > 0
    ensures Rev(n, x) == (x % 2) * Pow2(n - 1) + Rev(n - 1, x / 2) && Rev(n - 1, x / 2) < Pow2(n - 1)
  {
  }

  lemma {:induction false} RevLow(n: nat, v: nat)
    ensures Rev(n, v) == Rev(n, v % Pow2(n))
  {
    RevInjective(n, v, v % Pow2(n));
    ModMod(v, n, n);
  }

  lemma {:induction false} RevTop(n: nat, v: nat)
    requires n > 0 && v < Pow2(n)
    ensures Rev(n, v) % 2 == v / Pow2(n - 1) && Rev(n, v) / 2 == Rev(n - 1, v)
  {
    if n > 1 {
      RevTop(n - 1, v / 2);
      DivDiv(v, 1, n - 2);
      Pow2One();
      RevHalf(v % 2, Pow2(n - 2), Rev(n - 1, v / 2));
    } else {
      Pow2One();
    }
  }

  lemma Pow2One()
    ensures Pow2(0) == 1 && Pow2(1) == 2
  {
  }

  lemma RevHalf(a: int, p: int, w: int)
    ensures (a * (2 * p) + w) % 2 == w % 2
    ensures (a * (2 * p) + w) / 2 == a * p + w / 2
  {
    assert a * (2 * p) == 2 * (a * p);
  }
}
