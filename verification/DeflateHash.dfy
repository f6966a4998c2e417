/** The rolling hash of deflate over three bytes (UPDATE_HASH). */
module DeflateHash {
  import opened Bits

  /** Bitwise exclusive or. */
  function Xor(a: nat, b: nat): nat {
    if a == 0 && b == 0 then 0 else 2 * Xor(a / 2, b / 2) + (if a % 2 == b % 2 then 0 else 1)
  }

  lemma {:induction false} XorSame(a: nat, c: nat, d: nat)
    requires Xor(a, c) == Xor(a, d)
    ensures c == d
    decreases a + c + d
  {
    if (a != 0 || c != 0) && (a != 0 || d != 0) {
      XorSame(a / 2, c / 2, d / 2);
    } else {
      XorZero(c);
      XorZero(d);
    }
  }

  lemma {:induction false} XorZero(c: nat)
    ensures Xor(0, c) == c
  {
    if c != 0 { XorZero(c / 2); }
  }

  /** The low bits of the result depend on the low bits of the operands alone. */
  lemma {:induction false} XorLow(a: nat, b: nat, k: nat)
    ensures Xor(a, b) % Pow2(k) == Xor(a % Pow2(k), b % Pow2(k))
  {
    if k > 0 {
      hide *;
      var p, q, x := a / 2 % Pow2(k - 1), b / 2 % Pow2(k - 1), Xor(a, b);
      XorLow(a / 2, b / 2, k - 1);
      XorStep(a, b);
      LowBit(a, k);
      LowBit(b, k);
      LowBit(x, k);
      XorPair(a % 2, p, b % 2, q);
    } else {
      Pow2One();
    }
  }

  lemma XorPair(r: nat, p: nat, s: nat, q: nat)
    requires r < 2 && s < 2
    ensures Xor(r + 2 * p, s + 2 * q) == 2 * Xor(p, q) + (if r == s then 0 else 1)
  {
    hide Xor;
    Doubled(r, p);
    Doubled(s, q);
    XorStep(r + 2 * p, s + 2 * q);
  }

  lemma Doubled(r: nat, p: nat)
    requires r < 2
    ensures (r + 2 * p) / 2 == p && (r + 2 * p) % 2 == r
  {
  }

  lemma XorStep(a: nat, b: nat)
    ensures Xor(a, b) / 2 == Xor(a / 2, b / 2) && Xor(a, b) % 2 == (if a % 2 == b % 2 then 0 else 1)
    ensures Xor(a, b) == 2 * Xor(a / 2, b / 2) + (if a % 2 == b % 2 then 0 else 1)
  {
  }

  // ----- The hash -----

  /** hash_shift, for MIN_MATCH == 3. */
  function Shift(bits: nat): nat { (bits + 2) / 3 }

  /** UPDATE_HASH: ((h << hash_shift) ^ c) & hash_mask. */
  function Update(bits: nat, h: nat, c: nat): (r: nat)
    ensures r < Pow2(bits)
  {
    Xor(h * Pow2(Shift(bits)), c) % Pow2(bits)
  }

  /** The hash of three bytes. */
  function Hash3(bits: nat, a: Byte, b: Byte, c: Byte): (r: nat)
    ensures r < Pow2(bits)
  {
    Update(bits, Update(bits, Update(bits, 0, a), b), c)
  }

  /** h is the hash of a string ending in a, b. */
  ghost predicate Primed(bits: nat, h: nat, a: Byte, b: Byte) {
    exists g: nat :: h == Update(bits, Update(bits, g, a), b)
  }

  /** The low k bits of a hash do not depend on the bits that were shifted above them. */
  lemma Shifts(bits: nat, g: nat, h: nat, c: nat, k: nat)
    requires k <= bits
    requires k > Shift(bits) ==> g % Pow2(k - Shift(bits)) == h % Pow2(k - Shift(bits))
    ensures Update(bits, g, c) % Pow2(k) == Update(bits, h, c) % Pow2(k)
  {
    hide Pow2;
    var s := Shift(bits);
    ModMod(Xor(g * Pow2(s), c), k, bits);
    ModMod(Xor(h * Pow2(s), c), k, bits);
    XorLow(g * Pow2(s), c, k);
    XorLow(h * Pow2(s), c, k);
    ShiftLow(g, s, k);
    ShiftLow(h, s, k);
  }

  lemma ShiftLow(g: nat, s: nat, k: nat)
    ensures (g * Pow2(s)) % Pow2(k) == if k > s then (g % Pow2(k - s)) * Pow2(s) else 0
  {
    hide Pow2;
    if k > s {
      Pow2Add(s, k - s);
      SplitTwice(g * Pow2(s), Pow2(s), Pow2(k - s));
      DivAddMul(g, Pow2(s), 0);
      SmallMod(0, Pow2(s));
    } else {
      Pow2Add(s - k, k);
      MulAssoc(g, Pow2(s - k), Pow2(k));
      DivAddMul(g * Pow2(s - k), Pow2(k), 0);
      SmallMod(0, Pow2(k));
    }
  }

  /** After three steps the oldest byte no longer takes part, because 3 * hash_shift >= hash_bits. */
  lemma Forgets(bits: nat, g: nat, h: nat, a: nat, b: nat, c: nat)
    ensures Update(bits, Update(bits, Update(bits, g, a), b), c)
            == Update(bits, Update(bits, Update(bits, h, a), b), c)
  {
    hide Pow2, Update;
    var s := Shift(bits);
    if bits > s {
      if bits > 2 * s { Shifts(bits, g, h, a, bits - s - s); }
      Shifts(bits, Update(bits, g, a), Update(bits, h, a), b, bits - s);
    }
    var x, y := Update(bits, Update(bits, g, a), b), Update(bits, Update(bits, h, a), b);
    Shifts(bits, x, y, c, bits);
    SmallMod(Update(bits, x, c), Pow2(bits));
    SmallMod(Update(bits, y, c), Pow2(bits));
  }

  /** Hashing the next byte of a consecutive string gives the hash of its last three
      bytes, whatever came before them. */
  lemma Rolls(bits: nat, h: nat, a: Byte, b: Byte, c: Byte)
    requires Primed(bits, h, a, b)
    ensures Update(bits, h, c) == Hash3(bits, a, b, c)
    ensures Primed(bits, Update(bits, h, c), b, c)
  {
    hide Update;
    var g: nat :| h == Update(bits, Update(bits, g, a), b);
    Forgets(bits, g, 0, a, b, c);
  }

  /** Strings with the same hash and the same first two bytes have the same third
      byte, because hash_bits >= 8. */
  lemma ThirdByte(bits: nat, a: Byte, b: Byte, c: Byte, d: Byte)
    requires bits >= 8 && Hash3(bits, a, b, c) == Hash3(bits, a, b, d)
    ensures c == d
  {
    hide Pow2;
    var g := Update(bits, Update(bits, 0, a), b) * Pow2(Shift(bits));
    XorLow(g, c, bits);
    XorLow(g, d, bits);
    ByteFits(bits, c);
    ByteFits(bits, d);
    XorSame(g % Pow2(bits), c, d);
  }

  lemma ByteFits(bits: nat, c: Byte)
    requires bits >= 8
    ensures c % Pow2(bits) == c
  {
    assert Pow2(8) == 256;
    Pow2Mono(8, bits);
    SmallMod(c, Pow2(bits));
  }

  /** ins_h = a; UPDATE_HASH(ins_h, b) primes the hash. */
  lemma Primes(bits: nat, a: Byte, b: Byte)
    requires bits >= 8
    ensures Primed(bits, Update(bits, a, b), a, b)
  {
    assert Update(bits, 0, a) == a by {
      XorZero(a);
      ByteFits(bits, a);
    }
  }

  // ----- The hash at once -----

  lemma XorMod(x: nat, y: nat, z: nat, k: nat)
    requires x % Pow2(k) == y % Pow2(k)
    ensures Xor(x, z) % Pow2(k) == Xor(y, z) % Pow2(k)
  {
    hide Xor, Pow2;
    XorLow(x, z, k);
    XorLow(y, z, k);
  }

  lemma {:induction false} XorShift(x: nat, y: nat, s: nat)
    ensures Xor(x, y) * Pow2(s) == Xor(x * Pow2(s), y * Pow2(s))
  {
    if s > 0 {
      hide Xor;
      XorShift(x, y, s - 1);
      XorDouble(x, y, Pow2(s - 1));
    }
  }

  lemma XorDouble(x: nat, y: nat, t: nat)
    requires Xor(x, y) * t == Xor(x * t, y * t)
    ensures Xor(x, y) * (2 * t) == Xor(x * (2 * t), y * (2 * t))
  {
    hide Xor;
    XorPair(0, x * t, 0, y * t);
    TimesTwo(x, t);
    TimesTwo(y, t);
    TimesTwo(Xor(x, y), t);
  }

  lemma TimesTwo(x: int, t: int)
    ensures x * (2 * t) == 2 * (x * t)
  {
  }

  lemma ModTimes(h: nat, t: nat, k: nat)
    ensures ((h % Pow2(k)) * t) % Pow2(k) == (h * t) % Pow2(k)
  {
    hide Pow2;
    var m := Pow2(k);
    Recombine(h, m);
    assert h * t == (h / m * t) * m + h % m * t by { Distribute(h / m, m, h % m, t); }
    DivAddMul(h / m * t, m, h % m * t);
  }

  lemma Distribute(q: int, m: int, r: int, t: int)
    ensures (q * m + r) * t == (q * t) * m + r * t
  {
  }

  /** Three bytes, each hash_shift bits above the next, and as many bits as the table has. */
  lemma HashIs(bits: nat, a: Byte, b: Byte, c: Byte)
    ensures var s := (bits + 2) / 3;
            Hash3(bits, a, b, c) == Xor(Xor(a * Pow2(s) * Pow2(s), b * Pow2(s)), c) % Pow2(bits)
  {
    hide Pow2, Xor;
    var t := Pow2(Shift(bits));
    XorZero(a);
    var h := Xor(a % Pow2(bits) * t, b);
    ModTimes(h, t, bits);
    XorMod(h % Pow2(bits) * t, h * t, c, bits);
    XorShift(a % Pow2(bits) * t, b, Shift(bits));
    ModTimes(a, t * t, bits);
    var x, y := a % Pow2(bits) * t * t, a * t * t;
    assert x == a % Pow2(bits) * (t * t) && y == a * (t * t) by { Regroup(a % Pow2(bits), t); Regroup(a, t); }
    XorMod(x, y, b * t, bits);
    XorMod(Xor(x, b * t), Xor(y, b * t), c, bits);
    assert 0 * t == 0;
  }

  lemma Regroup(a: int, t: int)
    ensures a * t * t == a * (t * t)
  {
  }
}
