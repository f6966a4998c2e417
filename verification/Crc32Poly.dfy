/** The shift register is polynomial division: a stream of bits, least significant
    bit of each byte first, is a polynomial over GF(2) with its highest power first,
    and the register holds the remainder. */
module Crc32Poly {
  import opened Crc32

  /** m plus the polynomial of c, which begins at the highest power of m. */
  function Plus(m: seq<bool>, c: Word): (r: seq<bool>)
    ensures |r| == |m|
  {
    if m == [] then [] else [m[0] != Odd(c)] + Plus(m[1..], Shr(c))
  }

  /** Long division by x^32 + POLY: while there is a power of 32 or more, subtract
      the divisor under it if its coefficient is one. */
  function Remainder(m: seq<bool>): (r: seq<bool>)
    decreases |m|
  {
    if |m| <= 32 then m else Remainder(if m[0] then Plus(m[1..], POLY) else m[1..])
  }

  function Zeros(n: nat): (r: seq<bool>)
    ensures |r| == n
  {
    seq(n, _ => false)
  }

  function OctetBits(b: Octet): seq<bool> { Plus(Zeros(8), Wide(b)) }

  function DataBits(data: seq<Octet>): seq<bool> {
    if data == [] then [] else OctetBits(data[0]) + DataBits(data[1..])
  }

  lemma {:induction false} PlusPlus(m: seq<bool>, c: Word, d: Word)
    ensures Plus(Plus(m, c), d) == Plus(m, Xor(c, d))
    decreases |m|
  {
    hide Odd, Xor, Shr;
    if m != [] {
      OddXor(c, d);
      ShrXor(c, d);
      PlusPlus(m[1..], Shr(c), Shr(d));
    }
  }

  lemma ShrOr(c: Word)
    ensures Odd(Xor(c, 0)) == Odd(c) && Shr(0) == 0 && !Odd(0)
  {
  }

  lemma {:induction false} PlusZero(m: seq<bool>)
    ensures Plus(m, 0) == m
    decreases |m|
  {
    hide Odd, Xor, Shr;
    if m != [] {
      ShrOr(0);
      PlusZero(m[1..]);
    }
  }

  /** A zero bit at the front of the stream is one step of the register. */
  lemma ZeroBit(m: seq<bool>, c: Word)
    requires |m| >= 32
    ensures Remainder(Plus([false] + m, c)) == Remainder(Plus(m, BitStep(c)))
  {
    hide Odd, Xor, Shr;
    assert ([false] + m)[1..] == m;
    var t := Plus([false] + m, c);
    assert t[1..] == Plus(m, Shr(c));
    PlusPlus(m, Shr(c), POLY);
    XorComm(Shr(c), POLY);
  }

  lemma {:induction false} ZeroBits(n: nat, m: seq<bool>, c: Word)
    requires |m| >= 32
    ensures Remainder(Plus(Zeros(n) + m, c)) == Remainder(Plus(m, Steps(c, n)))
    decreases n
  {
    hide BitStep, Remainder, Plus;
    if n > 0 {
      assert Zeros(n) + m == [false] + (Zeros(n - 1) + m);
      ZeroBit(Zeros(n - 1) + m, c);
      ZeroBits(n - 1, m, BitStep(c));
    } else {
      assert Zeros(0) + m == m;
    }
  }

  /** The lowest n bits of a word are all there is of it. */
  predicate Short(c: Word, n: nat)
    decreases n
  {
    if n == 0 then c == 0 else Short(Shr(c), n - 1)
  }

  lemma {:induction false} PlusShort(n: nat, m: seq<bool>, c: Word)
    requires Short(c, n)
    ensures Plus(Zeros(n) + m, c) == Plus(Zeros(n), c) + m
    decreases n
  {
    hide Odd, Shr;
    if n > 0 {
      assert (Zeros(n) + m)[1..] == Zeros(n - 1) + m && Zeros(n)[1..] == Zeros(n - 1);
      PlusShort(n - 1, m, Shr(c));
    } else {
      assert Zeros(0) + m == m && Plus(Zeros(0), c) == [];
      PlusZero(m);
    }
  }

  function HighBits(b: Octet, k: nat): Word
    requires k <= 8
  {
    match k
    case 0 => (b >> 8) as Word case 1 => (b >> 7) as Word case 2 => (b >> 6) as Word case 3 => (b >> 5) as Word
    case 4 => (b >> 4) as Word case 5 => (b >> 3) as Word case 6 => (b >> 2) as Word case 7 => (b >> 1) as Word
    case _ => b as Word
  }

  lemma HighShr(b: Octet, k: nat)
    requires 1 <= k <= 8
    ensures Shr(HighBits(b, k)) == HighBits(b, k - 1)
  {
  }

  lemma {:induction false} HighShort(b: Octet, k: nat)
    requires k <= 8
    ensures Short(HighBits(b, k), k)
  {
    if k > 0 {
      HighShr(b, k);
      HighShort(b, k - 1);
    }
  }

  lemma OctetShort(b: Octet)
    ensures Short(Wide(b), 8)
  {
    HighShort(b, 8);
  }

  /** A byte at the front of the stream is one byte step of the register. */
  lemma OneOctet(b: Octet, m: seq<bool>, c: Word)
    requires |m| >= 32
    ensures Remainder(Plus(OctetBits(b) + m, c)) == Remainder(Plus(m, ByteStep(c, b)))
  {
    hide Wide, Xor, Plus, Remainder, Steps;
    OctetShort(b);
    PlusShort(8, m, Wide(b));
    PlusPlus(Zeros(8) + m, Wide(b), c);
    XorComm(Wide(b), c);
    ZeroBits(8, m, Xor(c, Wide(b)));
  }

  /** The remainder of the data times x^32, with c added to its beginning, is the register after the data. */
  lemma {:induction false} RegIsRemainder(c: Word, data: seq<Octet>)
    ensures Remainder(Plus(DataBits(data) + Zeros(32), c)) == Plus(Zeros(32), Reg(c, data))
    decreases |data|
  {
    hide ByteStep, Plus, OctetBits;
    if data == [] {
      assert DataBits(data) + Zeros(32) == Zeros(32);
    } else {
      var rest := DataBits(data[1..]) + Zeros(32);
      assert DataBits(data) + Zeros(32) == OctetBits(data[0]) + rest;
      OneOctet(data[0], rest, c);
      RegIsRemainder(ByteStep(c, data[0]), data[1..]);
    }
  }

  /** crc32 of data from the start: preset to ones, divide, complement (section 8 of RFC 1952). */
  lemma CrcIsRemainder(data: seq<Octet>)
    ensures Plus(Remainder(Plus(DataBits(data) + Zeros(32), 0xffff_ffff)), 0xffff_ffff) == Plus(Zeros(32), Crc(0, data))
  {
    hide Plus, Remainder, Reg, Xor, Not;
    RegIsRemainder(0xffff_ffff, data);
    NotXor(0);
    XorZero(0xffff_ffff);
    PlusPlus(Zeros(32), Reg(0xffff_ffff, data), 0xffff_ffff);
    NotXor(Reg(0xffff_ffff, data));
  }
}
