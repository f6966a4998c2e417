/** Adler-32: sums of blocks with the reductions deferred, against the byte-by-byte
    definition (section 8.2 of RFC 1950), and adler32_combine. */
module Adler32 {
  import opened Bits

  const BASE := 65521
  const NMAX := 5552

  newtype u32 = x: int | 0 <= x < 0x1_0000_0000

  // ----- The definition -----

  datatype Sums = Sums(a: nat, s: nat)

  /** Both sums reduced after every byte. */
  function Adler(x: Sums, data: seq<Byte>): Sums
    decreases |data|
  {
    if data == [] then Sums(x.a % BASE, x.s % BASE)
    else
      var a := (x.a + data[0]) % BASE;
      Adler(Sums(a, (x.s + a) % BASE), data[1..])
  }

  /** Neither sum reduced. */
  function Plain(x: Sums, data: seq<Byte>): (r: Sums)
    ensures data == [] ==> r == x
    decreases |data|
  {
    if data == [] then x else Plain(Sums(x.a + data[0], x.s + x.a + data[0]), data[1..])
  }

  function Halves(adler: nat): Sums { Sums(adler % 0x1_0000, adler / 0x1_0000 % 0x1_0000) }

  predicate Alike(x: Sums, y: Sums) { x.a % BASE == y.a % BASE && x.s % BASE == y.s % BASE }

  lemma AlikeStep(x: Sums, y: Sums, b: Byte)
    requires Alike(x, y)
    ensures var a := (x.a + b) % BASE;
            Alike(Sums(a, (x.s + a) % BASE), Sums(y.a + b, y.s + y.a + b))
  {
    var a := (x.a + b) % BASE;
    ModAdd(x.a, y.a, b);
    ModAdd(x.s, y.s, a);
    ModAdd(a, y.a + b, y.s);
  }

  lemma ModAdd(x: int, y: int, b: int)
    requires x % BASE == y % BASE
    ensures (x + b) % BASE == (y + b) % BASE
  {
    var k := x / BASE - y / BASE;
    assert x + b == (y + b) + BASE * k;
    Multiples(y + b, k);
  }

  /** When the reductions are done does not matter. */
  lemma {:induction false} Deferred(x: Sums, y: Sums, data: seq<Byte>)
    requires Alike(x, y)
    ensures Adler(x, data) == Sums(Plain(y, data).a % BASE, Plain(y, data).s % BASE)
    decreases |data|
  {
    if data != [] {
      var a := (x.a + data[0]) % BASE;
      AlikeStep(x, y, data[0]);
      Deferred(Sums(a, (x.s + a) % BASE), Sums(y.a + data[0], y.s + y.a + data[0]), data[1..]);
    }
  }

  lemma AdlerReduced(x: Sums, e: seq<Byte>)
    ensures Adler(Sums(x.a % BASE, x.s % BASE), e) == Adler(x, e)
  {
    hide Adler, Plain;
    Deferred(x, x, e);
    Deferred(Sums(x.a % BASE, x.s % BASE), x, e);
  }

  lemma {:induction false} AdlerAppend(x: Sums, d: seq<Byte>, e: seq<Byte>)
    ensures Adler(x, d + e) == Adler(Adler(x, d), e)
    decreases |d|
  {
    if d == [] {
      assert d + e == e;
      AdlerReduced(x, e);
    } else {
      assert (d + e)[1..] == d[1..] + e;
      var a := (x.a + d[0]) % BASE;
      AdlerAppend(Sums(a, (x.s + a) % BASE), d[1..], e);
    }
  }

  lemma {:induction false} PlainLast(x: Sums, data: seq<Byte>, i: nat)
    requires i < |data|
    ensures var r := Plain(x, data[..i]);
            Plain(x, data[..i + 1]) == Sums(r.a + data[i], r.s + r.a + data[i])
    decreases i
  {
    if i > 0 {
      var d := data[1..];
      assert data[..i + 1][1..] == d[..i] && data[..i][1..] == d[..i - 1] && d[i - 1] == data[i];
      PlainLast(Sums(x.a + data[0], x.s + x.a + data[0]), d, i - 1);
    } else {
      assert data[..1] == [data[0]] && data[..1][1..] == [];
    }
  }

  // ----- The definition in closed form -----

  function Sum(data: seq<Byte>): nat { if data == [] then 0 else data[0] + Sum(data[1..]) }

  /** The first byte counted |data| times, and the last one once. */
  function Weighted(data: seq<Byte>): nat { if data == [] then 0 else |data| * data[0] + Weighted(data[1..]) }

  lemma {:induction false} PlainClosed(x: Sums, data: seq<Byte>)
    ensures Plain(x, data) == Sums(x.a + Sum(data), x.s + |data| * x.a + Weighted(data))
    decreases |data|
  {
    if data != [] {
      var n, b := |data| - 1, data[0];
      PlainClosed(Sums(x.a + b, x.s + x.a + b), data[1..]);
      assert n * (x.a + b) + (x.a + b) == |data| * x.a + |data| * b;
    }
  }

  /** The sums of all bytes, and of all first sums, modulo 65521. */
  lemma AdlerClosed(x: Sums, data: seq<Byte>)
    ensures Adler(x, data) ==
            Sums((x.a + Sum(data)) % 65521, (x.s + |data| * x.a + Weighted(data)) % 65521)
  {
    hide Adler, Plain, Sum, Weighted;
    Deferred(x, x, data);
    PlainClosed(x, data);
  }

  /** The checksum of data by itself, as section 8.2 of RFC 1950 puts the two sums together. */
  lemma FirstSums(data: seq<Byte>)
    ensures Pack(Adler(Halves(1), data)) == (|data| + Weighted(data)) % 65521 * 65536 + (1 + Sum(data)) % 65521
  {
    hide Adler, Sum, Weighted, Halves, Pack;
    AdlerClosed(Sums(1, 0), data);
    FirstHalves();
    Packed((1 + Sum(data)) % 65521, (|data| + Weighted(data)) % 65521);
  }

  lemma FirstHalves()
    ensures Halves(1) == Sums(1, 0)
  {
  }

  // ----- MOD -----

  /** if (a >= (BASE << k)) a -= (BASE << k). */
  function Less(a: nat, k: nat): nat {
    if a >= BASE * Pow2(k) then a - BASE * Pow2(k) else a
  }

  /** The same for k, k - 1, ... and 0. */
  function ShiftMod(a: nat, k: nat): nat
    decreases k
  {
    if k == 0 then Less(a, 0) else ShiftMod(Less(a, k), k - 1)
  }

  /** Subtracting shifted multiples down from BASE << k is reduction exactly for
      numbers below BASE << (k + 1). */
  lemma {:induction false} ShiftModIs(a: nat, k: nat)
    ensures ShiftMod(a, k) == a % BASE <==> a < BASE * Pow2(k + 1)
    ensures ShiftMod(a, k) % BASE == a % BASE
    ensures ShiftMod(a, k) >= BASE <==> a >= BASE * Pow2(k + 1)
    decreases k
  {
    var p := Pow2(k);
    assert Pow2(k + 1) == 2 * p;
    if k == 0 {
      assert Pow2(0) == 1;
    } else {
      ShiftModIs(Less(a, k), k - 1);
      assert Pow2(k) == 2 * Pow2(k - 1);
      if a >= BASE * p { LessMod(a, p); }
    }
  }

  lemma LessMod(a: nat, p: nat)
    requires a >= BASE * p
    ensures (a - BASE * p) % BASE == a % BASE
  {
    DivAddMul(p, BASE, a - BASE * p);
    assert p * BASE + (a - BASE * p) == a;
  }

  lemma ShiftBounds()
    ensures BASE * Pow2(16) < 0x1_0000_0000 <= BASE * Pow2(17) && BASE * Pow2(5) == 32 * BASE
    ensures forall k: nat :: k <= 16 ==> BASE * Pow2(k) < 0x1_0000_0000
  {
    assert Pow2(5) == 32 && Pow2(16) == 0x1_0000 && Pow2(17) == 0x2_0000;
    forall k: nat | k <= 16
      ensures BASE * Pow2(k) < 0x1_0000_0000
    {
      Pow2Mono(k, 16);
    }
  }

  /** The shift-and-subtract forms: MOD starts from BASE << 16, MOD4 from BASE << 4. */
  method SubtractDown(x: u32, from: nat) returns (r: u32)
    requires from <= 16
    ensures r as int == ShiftMod(x as int, from)
  {
    hide Pow2;
    ShiftBounds();
    r := x;
    var k: nat := from;
    while k > 0
      invariant k <= from && ShiftMod(r as int, k) == ShiftMod(x as int, from)
    {
      if r as int >= BASE * Pow2(k) { r := r - (BASE * Pow2(k)) as u32; }
      k := k - 1;
    }
    ghost var r0 := r as int;
    if r as int >= BASE * Pow2(0) { r := r - (BASE * Pow2(0)) as u32; }
    assert ShiftMod(r0, 0) == r as int;
  }

  method Mod(x: u32) returns (r: u32)
    ensures r as int == x as int % BASE
  {
    hide Pow2, ShiftMod;
    ShiftBounds();
    ShiftModIs(x as int, 16);
    r := SubtractDown(x, 16);
  }

  method Mod4(x: u32) returns (r: u32)
    requires x as int < 32 * BASE
    ensures r as int == x as int % BASE
  {
    hide Pow2, ShiftMod;
    ShiftBounds();
    ShiftModIs(x as int, 4);
    r := SubtractDown(x, 4);
  }

  // ----- adler32 -----

  /** The largest the second sum can be k bytes after both sums were below 2^16. */
  function Cap(k: nat): nat { if k == 0 then 65535 else Cap(k - 1) + 65535 + 255 * k }

  lemma {:induction false} CapIs(k: nat)
    ensures 2 * Cap(k) == 2 * 65535 * (k + 1) + 255 * k * (k + 1)
  {
    if k > 0 { CapIs(k - 1); }
  }

  /** NMAX bytes do not overflow 32 bits, even from sums that were not reduced. */
  lemma CapFits(k: nat)
    requires k <= 5552
    ensures Cap(k) < 0x1_0000_0000
    decreases NMAX - k
  {
    if k < NMAX { CapFits(k + 1); } else { CapIs(NMAX); }
  }

  /** One more might overflow. */
  lemma CapOver()
    ensures Cap(NMAX + 1) >= 0x1_0000_0000
  {
    CapIs(NMAX + 1);
  }

  /** The sums after k bytes without reduction. */
  ghost predicate Within(a: u32, s: u32, k: nat) {
    a as int <= 65535 + 255 * k && s as int <= Cap(k)
  }

  /** adler += *buf++; sum2 += adler. */
  method Add(a: u32, s: u32, b: Byte, ghost k: nat) returns (a2: u32, s2: u32)
    requires Within(a, s, k) && k < NMAX
    ensures Within(a2, s2, k + 1) && a2 as int == a as int + b && s2 as int == s as int + a as int + b
  {
    CapFits(k + 1);
    a2 := a + b as u32;
    s2 := s + a2;
  }

  function Pack(x: Sums): nat { x.a + 0x1_0000 * x.s }

  /** n bytes from i on, without reduction; the C code unrolls this by sixteens. */
  method AddAll(a: u32, s: u32, buf: seq<Byte>, i: nat, n: nat, ghost from: Sums) returns (a2: u32, s2: u32)
    requires i + n <= |buf| && n <= NMAX && a < 65536 && s < 65536
    requires Alike(Sums(a as int, s as int), Plain(from, buf[..i]))
    ensures Alike(Sums(a2 as int, s2 as int), Plain(from, buf[..i + n])) && Within(a2, s2, n)
  {
    hide Plain, Cap;
    assert Within(a, s, 0) by { CapNone(); }
    a2, s2 := a, s;
    var k := 0;
    while k < n
      invariant 0 <= k <= n && Within(a2, s2, k)
      invariant Alike(Sums(a2 as int, s2 as int), Plain(from, buf[..i + k]))
    {
      PlainLast(from, buf, i + k);
      ghost var a1, s1, r := a2 as int, s2 as int, Plain(from, buf[..i + k]);
      a2, s2 := Add(a2, s2, buf[i + k], k);
      SameMod(a1, s1, r.a, r.s, buf[i + k]);
      k := k + 1;
    }
  }

  lemma CapNone()
    ensures Cap(0) == 65535
  {
  }

  lemma SameMod(a: nat, s: nat, c: nat, t: nat, b: nat)
    requires a % BASE == c % BASE && s % BASE == t % BASE
    ensures (a + b) % BASE == (c + b) % BASE && (s + a + b) % BASE == (t + c + b) % BASE
  {
    ModAdd(a, c, b);
    ModAdd(s, t, a + b);
    ModAdd(a + b, c + b, t);
  }

  /** One byte at a time, with at most one subtraction each. */
  method OneByte(a0: u32, s0: u32, b: Byte) returns (a: u32, s: u32)
    requires a0 < 65536 && s0 < 65536
    ensures a as int == (a0 as int + b) % BASE
    ensures s as int % BASE == (s0 as int + a as int) % BASE && s < 65536
    ensures s as int == (s0 as int + a as int) % BASE <==> s0 as int + a as int < 2 * BASE
  {
    a := a0 + b as u32;
    if a >= BASE as u32 { a := a - BASE as u32; }
    s := s0 + a;
    if s >= BASE as u32 { s := s - BASE as u32; }
  }

  /** Fewer than sixteen bytes. */
  method Short(a0: u32, s0: u32, buf: seq<Byte>) returns (a: u32, s: u32)
    requires a0 < 65536 && s0 < 65536 && |buf| < 16
    ensures Sums(a as int, s as int) == Adler(Sums(a0 as int, s0 as int), buf)
  {
    hide Adler, Plain, Cap;
    ghost var x := Sums(a0 as int, s0 as int);
    PlainNone(x, buf);
    a, s := AddAll(a0, s0, buf, 0, |buf|, x);
    assert buf[..|buf|] == buf;
    Deferred(x, x, buf);
    CapShort(|buf|);
    if a >= BASE as u32 { a := a - BASE as u32; }
    s := Mod4(s);
  }

  lemma PlainNone(x: Sums, buf: seq<Byte>)
    ensures Plain(x, buf[..0]) == x
  {
  }

  lemma CapShort(k: nat)
    requires k < 16
    ensures Cap(k) < 32 * BASE
  {
    CapIs(k);
  }

  /** NMAX bytes at a time and then the rest, with one reduction each. */
  method Long(a0: u32, s0: u32, buf: seq<Byte>) returns (a: u32, s: u32)
    requires a0 < 65536 && s0 < 65536 && |buf| > 0
    ensures Sums(a as int, s as int) == Adler(Sums(a0 as int, s0 as int), buf)
  {
    hide Adler, Plain, Cap;
    ghost var x := Sums(a0 as int, s0 as int);
    PlainNone(x, buf);
    var i: nat := 0;
    a, s := a0, s0;
    while |buf| - i >= NMAX
      invariant i <= |buf| && a < 65536 && s < 65536 && (i > 0 ==> a < BASE as u32 && s < BASE as u32)
      invariant Alike(Sums(a as int, s as int), Plain(x, buf[..i]))
    {
      a, s := AddAll(a, s, buf, i, NMAX, x);
      a := Mod(a);
      s := Mod(s);
      i := i + NMAX;
    }
    if i < |buf| {
      a, s := AddAll(a, s, buf, i, |buf| - i, x);
      a := Mod(a);
      s := Mod(s);
    }
    assert buf[..|buf|] == buf;
    Deferred(x, x, buf);
  }

  /** adler32(adler, buf, len): for a single byte the second half is not always reduced
      when it was not to begin with. */
  method Adler32(adler: u32, buf: seq<Byte>) returns (r: u32)
    ensures Alike(Halves(r as int), Adler(Halves(adler as int), buf))
    ensures |buf| != 1 ==> r as int == Pack(Adler(Halves(adler as int), buf))
    ensures |buf| == 1 ==>
              (r as int == Pack(Adler(Halves(adler as int), buf)) <==>
               Halves(adler as int).s + (Halves(adler as int).a + buf[0]) % BASE < 2 * BASE)
  {
    hide Adler, Plain;
    ghost var x := Halves(adler as int);
    var s := adler / 0x1_0000 % 0x1_0000;
    var a := adler % 0x1_0000;
    if |buf| == 1 {
      a, s := OneByte(a, s, buf[0]);
      AdlerOne(x, buf);
    } else if |buf| < 16 {
      a, s := Short(a, s, buf);
    } else {
      a, s := Long(a, s, buf);
    }
    AdlerBound(x, buf);
    r := a + 0x1_0000 * s;       // adler | (sum2 << 16)
    Unpack(a as int, s as int);
  }

  lemma AdlerOne(x: Sums, buf: seq<Byte>)
    requires |buf| == 1
    ensures Adler(x, buf) == Sums((x.a + buf[0]) % BASE, (x.s + (x.a + buf[0]) % BASE) % BASE)
  {
    var y := Sums((x.a + buf[0]) % BASE, (x.s + (x.a + buf[0]) % BASE) % BASE);
    assert Adler(y, []) == y;
  }

  lemma AdlerBound(x: Sums, data: seq<Byte>)
    ensures Adler(x, data).a < BASE && Adler(x, data).s < BASE
  {
    hide Adler, Plain;
    Deferred(x, x, data);
  }

  lemma Unpack(a: nat, s: nat)
    requires a < 0x1_0000 && s < 0x1_0000
    ensures Halves(a + 0x1_0000 * s) == Sums(a, s)
  {
  }

  /** A single byte after sums that are not reduced: one subtraction is not enough. */
  method OneByteTooMuch() returns (r: u32)
    ensures r as int != Pack(Adler(Halves(Pack(Sums(65520, 65535))), [0]))
  {
    hide Pack, Halves, Adler;
    var adler: u32 := 65520 + 0x1_0000 * 65535;
    PackedHalves();
    r := Adler32(adler, [0]);
  }

  lemma PackedHalves()
    ensures Pack(Sums(65520, 65535)) == 65520 + 0x1_0000 * 65535
    ensures Halves(65520 + 0x1_0000 * 65535) == Sums(65520, 65535)
  {
  }

  // ----- adler32_combine -----

  /** Both halves are at most BASE, as in every checksum and in every combined one. */
  predicate Fit(adler: nat) { Halves(adler).a <= BASE && Halves(adler).s <= BASE }

  ghost predicate Congruent(x: int, y: int) { x % BASE == y % BASE }

  /** adler32_combine(adler1, adler2, len2). The last tests are > and not >=, so BASE
      is left where zero is meant. */
  method Combine(adler1: u32, adler2: u32, len2: nat) returns (r: u32)
    requires Fit(adler1 as int) && Fit(adler2 as int)
    ensures var x, y, z := Halves(adler1 as int), Halves(adler2 as int), Halves(r as int);
            && r as int == Pack(z) && 1 <= z.a <= BASE && 1 <= z.s <= BASE
            && Congruent(z.a, x.a + y.a - 1) && Congruent(z.s, x.s + y.s + len2 * x.a - len2)
  {
    hide Pow2, Congruent, Halves, Pack;
    ghost var x, y := Halves(adler1 as int), Halves(adler2 as int);
    HalvesOf(adler1);
    HalvesOf(adler2);
    var rem: u32 := (len2 % BASE) as u32;
    var sum1 := adler1 % 0x1_0000;
    var sum2 := Product(rem, sum1);
    sum1 := sum1 + adler2 % 0x1_0000 + BASE as u32 - 1;
    sum2 := sum2 + adler1 / 0x1_0000 % 0x1_0000 + adler2 / 0x1_0000 % 0x1_0000 + BASE as u32 - rem;
    ghost var t1, t2 := sum1 as int, sum2 as int;
    if sum1 > BASE as u32 { sum1 := sum1 - BASE as u32; }
    if sum1 > BASE as u32 { sum1 := sum1 - BASE as u32; }
    if sum2 > 2 * BASE as u32 { sum2 := sum2 - 2 * BASE as u32; }
    if sum2 > BASE as u32 { sum2 := sum2 - BASE as u32; }
    r := sum1 + 0x1_0000 * sum2;       // sum1 | (sum2 << 16)
    Unpack(sum1 as int, sum2 as int);
    Packed(sum1 as int, sum2 as int);
    LessBase(t1, sum1 as int, x.a + y.a - 1);
    SecondSum(t2, sum2 as int, x, y, len2);
  }

  lemma HalvesOf(adler: u32)
    requires Fit(adler as int)
    ensures var x := Halves(adler as int);
            && x.a == (adler % 0x1_0000) as int <= BASE && x.s == (adler / 0x1_0000 % 0x1_0000) as int <= BASE
  {
  }

  lemma Packed(a: nat, s: nat)
    ensures Pack(Sums(a, s)) == a + 0x1_0000 * s
  {
  }

  /** sum2 = rem * sum1; MOD(sum2). */
  method Product(rem: u32, sum1: u32) returns (r: u32)
    requires rem < BASE as u32 && sum1 <= BASE as u32
    ensures r as int == (rem as int * sum1 as int) % BASE
  {
    ProductFits(rem as int, sum1 as int);
    r := Mod(rem * sum1);
  }

  lemma ProductFits(rem: nat, a: nat)
    requires rem < BASE && a <= BASE
    ensures rem * a < 0x1_0000_0000
  {
    MulMono(rem, BASE, a);
    MulMono(a, BASE, BASE);
  }

  /** Up to two subtractions of BASE, and BASE to begin with. */
  lemma LessBase(t: nat, r: nat, want: int)
    requires t == want + BASE && (r == t || r == t - BASE || r == t - 2 * BASE)
    ensures Congruent(r, want)
  {
  }

  lemma SecondSum(t: nat, r: nat, x: Sums, y: Sums, len2: nat)
    requires t == (len2 % BASE * x.a) % BASE + x.s + y.s + BASE - len2 % BASE
    requires r == t || r == t - BASE || r == t - 2 * BASE || r == t - 3 * BASE
    ensures Congruent(r, x.s + y.s + len2 * x.a - len2)
  {
    var rem := len2 % BASE;
    MulCongruent(x.a, rem, len2);
    var p := (rem * x.a) % BASE;
    assert p % BASE == (len2 * x.a) % BASE;
    AddCongruent(p, len2 * x.a, rem, len2, x.s + y.s);
    MultipleAway(r, p + x.s + y.s - rem);
  }

  lemma AddCongruent(p: int, q: int, b: int, c: int, d: int)
    requires Congruent(p, q) && Congruent(b, c)
    ensures Congruent(p + d - b, q + d - c)
  {
  }

  lemma MultipleAway(r: int, want: int)
    requires r == want + BASE || r == want || r == want - BASE || r == want - 2 * BASE
    ensures Congruent(r, want)
  {
  }

  lemma MulCongruent(a: int, b: int, c: int)
    requires Congruent(b, c)
    ensures Congruent(b * a, c * a)
  {
    var k := b / BASE - c / BASE;
    assert b == c + BASE * k;
    assert b * a == c * a + BASE * (k * a) by { MulAssoc(BASE, k, a); }
    Multiples(c * a, k * a);
  }

  lemma Multiples(x: int, k: int)
    ensures (x + BASE * k) % BASE == x % BASE
  {
    DivAddMul(k, BASE, x);
  }

  /** Where two runs over the same data start only shifts where they end. */
  lemma {:induction false} PlainShift(x: Sums, y: Sums, data: seq<Byte>)
    ensures Plain(x, data).a - Plain(y, data).a == x.a - y.a
    ensures Plain(x, data).s - Plain(y, data).s == x.s - y.s + |data| * (x.a - y.a)
    decreases |data|
  {
    if data != [] {
      var b := data[0];
      PlainShift(Sums(x.a + b, x.s + x.a + b), Sums(y.a + b, y.s + y.a + b), data[1..]);
      assert |data| * (x.a - y.a) == (|data| - 1) * (x.a - y.a) + (x.a - y.a);
    }
  }

  /** What the two sums of combined checksums are congruent to is the checksum of the
      data of the first followed by that of the second. They equal it exactly if neither
      of two sums that can be formed from the checksums and the length is a multiple of BASE. */
  lemma CombineConcat(x: Sums, y: Sums, z: Sums, start: Sums, d: seq<Byte>, e: seq<Byte>)
    requires Alike(x, Adler(start, d)) && Alike(y, Adler(Sums(1, 0), e))
    requires Congruent(z.a, x.a + y.a - 1) && Congruent(z.s, x.s + y.s + |e| * x.a - |e|)
    requires 1 <= z.a <= BASE && 1 <= z.s <= BASE
    ensures Alike(z, Adler(start, d + e))
    ensures z == Adler(start, d + e) <==>
              (x.a + y.a - 1) % BASE != 0 && (x.s + y.s + |e| * x.a - |e|) % BASE != 0
  {
    hide Adler, Plain, Congruent, Alike;
    var w, one := Adler(start, d), Sums(1, 0);
    AlikeIs(x, w);
    AlikeIs(w, w);
    AlikeIs(one, one);
    AdlerAppend(start, d, e);
    Deferred(w, w, e);
    Deferred(one, one, e);
    PlainShift(w, one, e);
    var p, q := Plain(w, e), Plain(one, e);
    Reduced(y, q);
    FirstHalf(z.a, x.a, y.a, w.a, q.a, p.a);
    MulCongruent(|e|, x.a, w.a);
    Spread(|e|, w.a);
    SecondHalf(z.s, x.s, y.s, x.a * |e|, w.s, q.s, w.a * |e|, p.s, |e|);
    Reduced(z, p);
    NearBase(z, Adler(start, d + e));
    SameZero(z.a, x.a + y.a - 1, p.a);
    SameZero(z.s, x.s + y.s + |e| * x.a - |e|, p.s);
  }

  lemma AlikeIs(x: Sums, y: Sums)
    ensures Alike(x, y) <==> Congruent(x.a, y.a) && Congruent(x.s, y.s)
    ensures Alike(x, x)
  {
  }

  lemma Reduced(x: Sums, y: Sums)
    ensures Alike(x, Sums(y.a % BASE, y.s % BASE)) <==> Congruent(x.a, y.a) && Congruent(x.s, y.s)
  {
  }

  lemma Spread(n: int, a: int)
    ensures n * (a - 1) == n * a - n
  {
  }

  lemma SameZero(z: int, x: int, p: int)
    requires Congruent(z, x) && Congruent(z, p)
    ensures x % BASE == p % BASE
  {
  }

  /** The checksum of nothing, combined with itself, is not the checksum of nothing. */
  method CombineNothing() returns (r: u32)
    ensures r as int == Pack(Sums(1, BASE)) != Pack(Adler(Sums(1, 0), [] + []))
  {
    hide Congruent;
    r := Combine(1, 1, 0);
    ghost var z := Halves(r as int);
    assert Halves(1) == Sums(1, 0);
    ZeroSecond(z.a, z.s);
    assert Adler(Sums(1, 0), [] + []) == Sums(1, 0);
  }

  lemma ZeroSecond(a: int, s: int)
    requires Congruent(a, 1) && Congruent(s, 0) && 1 <= a <= BASE && 1 <= s <= BASE
    ensures a == 1 && s == BASE
  {
  }

  lemma FirstHalf(z: int, x: int, y: int, w: int, q: int, p: int)
    requires Congruent(z, x + y - 1) && Congruent(x, w) && Congruent(y, q) && p == w - 1 + q
    ensures Congruent(z, p)
  {
  }

  lemma SecondHalf(z: int, x: int, y: int, m: int, w: int, q: int, n: int, p: int, l: int)
    requires Congruent(z, x + y + m - l) && Congruent(x, w) && Congruent(y, q) && Congruent(m, n) && p == w + n - l + q
    ensures Congruent(z, p)
  {
  }

  lemma NearBase(z: Sums, c: Sums)
    requires 1 <= z.a <= BASE && 1 <= z.s <= BASE && c.a < BASE && c.s < BASE && Alike(z, c)
    ensures z == c <==> c.a != 0 && c.s != 0
  {
  }
}
