/** CRC-32 as the shift register computes it bit by bit, and the table-driven loops
    that handle one or four bytes at a time in either byte order.

    The word operations of the C code have names here: Xor is ^, Not is ~, Shr and
    Shr8 are >> 1 and >> 8, Shl and Shl8 are << 1 and << 8, and Low, Byte1, Byte2
    and Byte3 are the bytes of a word from the least significant one up. */
module Crc32 {
  type Word = bv32
  type Octet = bv8

  function Xor(a: Word, b: Word): Word { a ^ b }
  function Not(a: Word): Word { a ^ 0xffff_ffff }
  function Shr(a: Word): Word { a >> 1 }
  function Shl(a: Word): Word { a << 1 }
  function Shr8(a: Word): Word { a >> 8 }
  function Shl8(a: Word): Word { a << 8 }
  predicate Odd(a: Word) { a & 1 == 1 }
  function Wide(b: Octet): Word { b as Word }
  function Low(a: Word): Octet { (a & 0xff) as Octet }
  function Byte1(a: Word): Octet { ((a >> 8) & 0xff) as Octet }
  function Byte2(a: Word): Octet { ((a >> 16) & 0xff) as Octet }
  function Byte3(a: Word): Octet { (a >> 24) as Octet }

  /** REV: the bytes of a word in the opposite order. */
  function Rev(w: Word): Word {
    (w >> 24) + ((w >> 8) & 0xff00) + ((w & 0xff00) << 8) + ((w & 0xff) << 24)
  }

  /** Reflected: bit 31 - k is the coefficient of x^k, and that of x^32 is left out. */
  const POLY: Word := 0xedb8_8320

  // ----- The register, bit by bit -----

  /** One zero bit: multiply by x modulo the polynomial. */
  function BitStep(c: Word): Word {
    if Odd(c) then Xor(POLY, Shr(c)) else Shr(c)
  }

  /** n zero bits. */
  function Steps(c: Word, n: nat): Word
    decreases n
  {
    if n == 0 then c else Steps(BitStep(c), n - 1)
  }

  function ByteStep(c: Word, b: Octet): Word { Steps(Xor(c, Wide(b)), 8) }

  /** The register after data, from c. */
  function Reg(c: Word, data: seq<Octet>): Word
    decreases |data|
  {
    if data == [] then c else Reg(ByteStep(c, data[0]), data[1..])
  }

  /** What crc32(crc, data) promises, where crc is that of the data before. */
  function Crc(crc: Word, data: seq<Octet>): Word { Not(Reg(Not(crc), data)) }

  // ----- Facts about words -----

  lemma XorZero(a: Word)
    ensures Xor(a, 0) == a && Xor(0, a) == a && Xor(a, a) == 0
  {
  }

  lemma XorComm(a: Word, b: Word)
    ensures Xor(a, b) == Xor(b, a)
  {
  }

  lemma XorAssoc(a: Word, b: Word, c: Word)
    ensures Xor(Xor(a, b), c) == Xor(a, Xor(b, c))
  {
  }

  /** Exclusive or pairs up in any way. */
  lemma XorSwap(a: Word, b: Word, c: Word, d: Word)
    ensures Xor(Xor(a, b), Xor(c, d)) == Xor(Xor(a, c), Xor(b, d))
  {
    hide Xor;
    XorAssoc(a, b, Xor(c, d));
    XorAssoc(b, c, d);
    XorComm(b, c);
    XorAssoc(c, b, d);
    XorAssoc(a, c, Xor(b, d));
  }

  lemma OddXor(a: Word, b: Word)
    ensures Odd(Xor(a, b)) == (Odd(a) != Odd(b))
  {
  }

  lemma ShrXor(a: Word, b: Word)
    ensures Shr(Xor(a, b)) == Xor(Shr(a), Shr(b))
  {
  }

  lemma NotXor(a: Word)
    ensures Not(a) == Xor(a, 0xffff_ffff) && Not(Not(a)) == a
  {
  }

  /** A word is its low byte and the rest. */
  lemma ByteSplit(c: Word)
    ensures c == Xor(Wide(Low(c)), Shl8(Shr8(c)))
  {
  }

  function Shr2(a: Word): Word { a >> 2 }
  function Shr4(a: Word): Word { a >> 4 }

  lemma ShrTwice(a: Word)
    ensures Shr(Shr(a)) == Shr2(a)
  {
  }

  lemma Shr2Twice(a: Word)
    ensures Shr2(Shr2(a)) == Shr4(a)
  {
  }

  lemma Shr4Twice(a: Word)
    ensures Shr4(Shr4(a)) == Shr8(a)
  {
  }

  lemma ShiftBack(x: Word)
    ensures Shr8(Shl8(Shr8(x))) == Shr8(x)
  {
  }

  /** The bits of m are clear in y. */
  predicate Clear(y: Word, m: Word) { y & m == 0 }

  lemma ClearShr(y: Word, m: Word)
    requires Clear(y, m) && Odd(m)
    ensures !Odd(y) && Clear(Shr(y), Shr(m))
  {
  }

  lemma ClearLow(x: Word)
    ensures Clear(Shl8(Shr8(x)), 0xff)
  {
  }

  lemma Ones()
    ensures Odd(0xff) && Shr(0xff) == 0x7f && Odd(0x7f) && Shr(0x7f) == 0x3f && Odd(0x3f) && Shr(0x3f) == 0x1f
    ensures Odd(0x1f) && Shr(0x1f) == 0xf && Odd(0xf) && Shr(0xf) == 7 && Odd(7) && Shr(7) == 3
    ensures Odd(3) && Shr(3) == 1 && Odd(1)
  {
  }

  /** Two zero bits from a word whose low bits are clear. */
  lemma ClearSteps(y: Word, m: Word)
    requires Clear(y, m) && Odd(m) && Odd(Shr(m))
    ensures Steps(y, 2) == Shr2(y) && Clear(Shr2(y), Shr(Shr(m)))
  {
    hide Xor, Shr, Shr2, Odd, Clear;
    ClearShr(y, m);
    ClearShr(Shr(y), Shr(m));
    ShrTwice(y);
    assert Steps(y, 2) == Steps(Shr(y), 1) == Steps(Shr(Shr(y)), 0);
  }

  // ----- Linearity -----

  lemma BitLinear(a: Word, b: Word)
    ensures BitStep(Xor(a, b)) == Xor(BitStep(a), BitStep(b))
  {
    hide Xor, Shr, Odd;
    OddXor(a, b);
    ShrXor(a, b);
    XorSwap(POLY, Shr(a), POLY, Shr(b));
    XorZero(POLY);
    XorZero(Xor(Shr(a), Shr(b)));
    XorAssoc(POLY, Shr(a), Shr(b));
    XorAssoc(Shr(a), POLY, Shr(b));
    XorComm(Shr(a), POLY);
  }

  lemma {:induction false} StepsLinear(a: Word, b: Word, n: nat)
    ensures Steps(Xor(a, b), n) == Xor(Steps(a, n), Steps(b, n))
    decreases n
  {
    hide Xor, BitStep;
    if n > 0 {
      BitLinear(a, b);
      StepsLinear(BitStep(a), BitStep(b), n - 1);
    }
  }

  lemma {:induction false} StepsAdd(c: Word, m: nat, n: nat)
    ensures Steps(c, m + n) == Steps(Steps(c, m), n)
    decreases m
  {
    hide BitStep;
    if m > 0 { StepsAdd(BitStep(c), m - 1, n); }
  }

  /** Eight steps from a word whose low byte is zero just shift it. */
  lemma StepsShift(x: Word)
    ensures Steps(Shl8(Shr8(x)), 8) == Shr8(x)
  {
    hide *;
    Ones();
    ClearLow(x);
    var y := Shl8(Shr8(x));
    ClearSteps(y, 0xff);
    ClearSteps(Shr2(y), 0x3f);
    ClearSteps(Shr2(Shr2(y)), 0xf);
    ClearSteps(Shr2(Shr2(Shr2(y))), 3);
    Shr2Twice(y);
    Shr2Twice(Shr4(y));
    Shr4Twice(y);
    ShiftBack(x);
    StepsAdd(y, 2, 6);
    StepsAdd(Shr2(y), 2, 4);
    StepsAdd(Shr2(Shr2(y)), 2, 2);
  }

  /** crc_table[0][c & 0xff] ^ (c >> 8) advances the register by eight zero bits. */
  lemma StepsByte(c: Word)
    ensures Steps(c, 8) == Xor(Steps(Wide(Low(c)), 8), Shr8(c))
  {
    hide *;
    ByteSplit(c);
    StepsLinear(Wide(Low(c)), Shl8(Shr8(c)), 8);
    StepsShift(c);
  }
}
