/** The tables of crc32.c and the loops that use them. */
module Crc32Tables {
  import opened Crc32

  // ----- Four bytes at a time -----

  /** The word whose bytes are these, the first one least significant. */
  function FourBytes(b0: Octet, b1: Octet, b2: Octet, b3: Octet): Word {
    (b0 as Word) | ((b1 as Word) << 8) | ((b2 as Word) << 16) | ((b3 as Word) << 24)
  }
  function ThreeBytes(b0: Octet, b1: Octet, b2: Octet): Word {
    (b0 as Word) | ((b1 as Word) << 8) | ((b2 as Word) << 16)
  }
  function TwoBytes(b0: Octet, b1: Octet): Word { (b0 as Word) | ((b1 as Word) << 8) }

  lemma FourIs(b0: Octet, b1: Octet, b2: Octet, b3: Octet)
    ensures FourBytes(b0, b1, b2, b3) == Xor(Wide(b0), Shl8(ThreeBytes(b1, b2, b3)))
  {
  }

  lemma ThreeIs(b0: Octet, b1: Octet, b2: Octet)
    ensures ThreeBytes(b0, b1, b2) == Xor(Wide(b0), Shl8(TwoBytes(b1, b2)))
  {
  }

  lemma TwoIs(b0: Octet, b1: Octet)
    ensures TwoBytes(b0, b1) == Xor(Wide(b0), Shl8(Wide(b1)))
  {
  }

  lemma BytesOf(c: Word)
    ensures FourBytes(Low(c), Byte1(c), Byte2(c), Byte3(c)) == c
  {
  }

  lemma OneFits(b: Octet)
    ensures Shr8(Shl8(Wide(b))) == Wide(b)
  {
  }

  lemma TwoFit(b0: Octet, b1: Octet)
    ensures Shr8(Shl8(TwoBytes(b0, b1))) == TwoBytes(b0, b1)
  {
  }

  lemma ThreeFit(b0: Octet, b1: Octet, b2: Octet)
    ensures Shr8(Shl8(ThreeBytes(b0, b1, b2))) == ThreeBytes(b0, b1, b2)
  {
  }

  /** Eight steps use up one byte of what is added to the register. */
  lemma UseByte(c: Word, b: Octet, rest: Word)
    requires Shr8(Shl8(rest)) == rest
    ensures Steps(Xor(c, Xor(Wide(b), Shl8(rest))), 8) == Xor(ByteStep(c, b), rest)
  {
    hide Xor, Wide, Shl8, Shr8, Steps;
    XorAssoc(c, Wide(b), Shl8(rest));
    StepsLinear(Xor(c, Wide(b)), Shl8(rest), 8);
    StepsShift(Shl8(rest));
  }

  function Steps4(c: Word, b0: Octet, b1: Octet, b2: Octet, b3: Octet): Word {
    ByteStep(ByteStep(ByteStep(ByteStep(c, b0), b1), b2), b3)
  }

  /** A word exclusive-ored in at once, then 32 steps, is four byte steps. */
  lemma FourSteps(c: Word, b0: Octet, b1: Octet, b2: Octet, b3: Octet)
    ensures Steps(Xor(c, FourBytes(b0, b1, b2, b3)), 32) == Steps4(c, b0, b1, b2, b3)
  {
    hide Xor, Wide, Shl8, Shr8, Steps, ByteStep, FourBytes, ThreeBytes, TwoBytes;
    FourIs(b0, b1, b2, b3);
    ThreeIs(b1, b2, b3);
    TwoIs(b2, b3);
    var c0 := Xor(c, FourBytes(b0, b1, b2, b3));
    var c1, c2 := ByteStep(c, b0), ByteStep(ByteStep(c, b0), b1);
    ThreeFit(b1, b2, b3);
    TwoFit(b2, b3);
    OneFits(b3);
    UseByte(c, b0, ThreeBytes(b1, b2, b3));
    UseByte(c1, b1, TwoBytes(b2, b3));
    UseByte(c2, b2, Wide(b3));
    assert Steps(Xor(ByteStep(c2, b2), Wide(b3)), 8) == Steps4(c, b0, b1, b2, b3) by { LastByte(ByteStep(c2, b2), b3); }
    StepsAdd(c0, 8, 24);
    StepsAdd(Steps(c0, 8), 8, 16);
    StepsAdd(Steps(Steps(c0, 8), 8), 8, 8);
  }

  lemma LastByte(c: Word, b: Octet)
    ensures Steps(Xor(c, Wide(b)), 8) == ByteStep(c, b)
  {
  }

  /** Table k: a byte followed by k zero bytes. */
  function Entry(k: nat, b: Octet): Word { Steps(Wide(b), 8 * (k + 1)) }

  /** The four exclusive-ored entries of DOLIT4 advance the register by 32 bits. */
  lemma FourEntries(c: Word)
    ensures Steps(c, 32) == Xor(Xor(Xor(Entry(3, Low(c)), Entry(2, Byte1(c))), Entry(1, Byte2(c))), Entry(0, Byte3(c)))
  {
    hide Xor, Wide, Shl8, Shr8, Steps, Low, Byte1, Byte2, Byte3, FourBytes, ThreeBytes, TwoBytes;
    BytesOf(c);
    var b0, b1, b2, b3 := Low(c), Byte1(c), Byte2(c), Byte3(c);
    FourIs(b0, b1, b2, b3);
    ThreeIs(b1, b2, b3);
    TwoIs(b2, b3);
    var w3, w2 := ThreeBytes(b1, b2, b3), TwoBytes(b2, b3);
    SplitSteps(b0, w3, 24) by { ThreeFit(b1, b2, b3); }
    SplitSteps(b1, w2, 16) by { TwoFit(b2, b3); }
    SplitSteps(b2, Wide(b3), 8) by { OneFits(b3); }
    var e0, e1, e2, e3 := Entry(3, b0), Entry(2, b1), Entry(1, b2), Entry(0, b3);
    XorAssoc(e1, e2, e3);
    XorAssoc(e0, e1, Xor(e2, e3));
    XorAssoc(Xor(e0, e1), e2, e3);
  }

  /** The lowest byte and the rest advance separately, the rest by eight bits less. */
  lemma SplitSteps(b: Octet, rest: Word, n: nat)
    requires Shr8(Shl8(rest)) == rest
    ensures Steps(Xor(Wide(b), Shl8(rest)), n + 8) == Xor(Steps(Wide(b), n + 8), Steps(rest, n))
  {
    hide Xor, Wide, Shl8, Shr8, Steps;
    StepsLinear(Wide(b), Shl8(rest), n + 8);
    StepsAdd(Shl8(rest), 8, n);
    StepsShift(Shl8(rest));
  }

  // ----- Reversed words -----

  function XorOctet(a: Octet, b: Octet): Octet { a ^ b }

  lemma RevXor(a: Word, b: Word)
    ensures Rev(Xor(a, b)) == Xor(Rev(a), Rev(b))
  {
  }

  lemma RevNot(a: Word)
    ensures Rev(Not(a)) == Not(Rev(a))
  {
    hide Rev, Xor, Not;
    NotXor(a);
    NotXor(Rev(a));
    RevXor(a, 0xffff_ffff);
    RevOnes();
  }

  lemma RevOnes()
    ensures Rev(0xffff_ffff) == 0xffff_ffff
  {
  }

  lemma RevRev(a: Word)
    ensures Rev(Rev(a)) == a
  {
  }

  lemma RevBytes(a: Word)
    ensures Low(Rev(a)) == Byte3(a) && Byte1(Rev(a)) == Byte2(a) && Byte2(Rev(a)) == Byte1(a) && Byte3(Rev(a)) == Low(a)
  {
  }

  lemma ShlFour(b0: Octet, b1: Octet, b2: Octet, b3: Octet)
    ensures Shl8(FourBytes(b0, b1, b2, b3)) == FourBytes(0, b0, b1, b2)
  {
  }

  lemma ShrFour(b0: Octet, b1: Octet, b2: Octet, b3: Octet)
    ensures Shr8(FourBytes(b0, b1, b2, b3)) == FourBytes(b1, b2, b3, 0)
  {
  }

  lemma RevShift(a: Word)
    ensures Shl8(Rev(a)) == Rev(Shr8(a))
  {
    hide *;
    var b0, b1, b2, b3 := Low(a), Byte1(a), Byte2(a), Byte3(a);
    BytesOf(a);
    RevFour(b0, b1, b2, b3);
    ShlFour(b3, b2, b1, b0);
    ShrFour(b0, b1, b2, b3);
    RevFour(b1, b2, b3, 0);
  }

  lemma RevFour(b0: Octet, b1: Octet, b2: Octet, b3: Octet)
    ensures FourBytes(b3, b2, b1, b0) == Rev(FourBytes(b0, b1, b2, b3))
  {
  }

  lemma LowXor(c: Word, b: Octet)
    ensures Low(Xor(c, Wide(b))) == XorOctet(Low(c), b) && Shr8(Xor(c, Wide(b))) == Shr8(c)
  {
  }

  /** One byte step by table, in the register's own order. */
  lemma ByteByTable(c: Word, b: Octet)
    ensures ByteStep(c, b) == Xor(Entry(0, XorOctet(Low(c), b)), Shr8(c))
  {
    hide Xor, Wide, Low, Shr8, Steps;
    LowXor(c, b);
    StepsByte(Xor(c, Wide(b)));
  }

  /** The same on a register held in reverse. */
  lemma ByteReversed(c: Word, b: Octet)
    ensures Rev(ByteStep(c, b)) == Xor(Rev(Entry(0, XorOctet(Byte3(Rev(c)), b))), Shl8(Rev(c)))
  {
    hide Xor, Wide, Low, Byte1, Byte2, Byte3, Shr8, Shl8, Steps, Rev, ByteStep, Entry;
    ByteByTable(c, b);
    RevBytes(c);
    RevShift(c);
    RevXor(Entry(0, XorOctet(Low(c), b)), Shr8(c));
  }

  /** DOBIG4 on a register held in reverse. */
  lemma FourReversed(c: Word)
    ensures Rev(Steps(c, 32)) ==
            Xor(Xor(Xor(Rev(Entry(0, Low(Rev(c)))), Rev(Entry(1, Byte1(Rev(c))))), Rev(Entry(2, Byte2(Rev(c))))),
                Rev(Entry(3, Byte3(Rev(c)))))
  {
    hide Xor, Low, Byte1, Byte2, Byte3, Steps, Rev, Entry;
    FourEntries(c);
    RevBytes(c);
    var e3, e2, e1, e0 := Entry(3, Low(c)), Entry(2, Byte1(c)), Entry(1, Byte2(c)), Entry(0, Byte3(c));
    RevXor(Xor(Xor(e3, e2), e1), e0);
    RevXor(Xor(e3, e2), e1);
    RevXor(e3, e2);
    Backwards(Rev(e3), Rev(e2), Rev(e1), Rev(e0));
  }

  lemma Backwards(a: Word, b: Word, c: Word, d: Word)
    ensures Xor(Xor(Xor(a, b), c), d) == Xor(Xor(Xor(d, c), b), a)
  {
    hide Xor;
    XorComm(Xor(Xor(a, b), c), d);
    XorComm(Xor(a, b), c);
    XorComm(a, b);
    XorAssoc(c, b, a);
    XorAssoc(d, c, Xor(b, a));
    XorAssoc(Xor(d, c), b, a);
  }

  // ----- make_crc_table -----

  /** The byte with number n, and the number of a byte. */
  function Nth(n: nat): Octet
    requires n < 256
  {
    n as Octet
  }

  function Index(b: Octet): (n: nat)
    ensures n < 256
  {
    b as nat
  }

  lemma NthIndex(b: Octet)
    ensures Nth(Index(b)) == b
  {
  }

  /** What belongs in entry n of row k: rows 0 to 3 advance a byte and k zero bytes,
      rows 4 to 7 are their reversals. */
  function Right(k: nat, n: nat): Word
    requires n < 256
  {
    if k < 4 then Entry(k, Nth(n)) else Rev(Entry(k - 4, Nth(n)))
  }

  ghost predicate RowOk(t: array2<Word>, k: nat, to: nat)
    reads t
  {
    t.Length0 == 8 && t.Length1 == 256 && k < 8 && to <= 256 && forall n: nat :: n < to ==> t[k, n] == Right(k, n)
  }

  ghost predicate TableOk(t: array2<Word>)
    reads t
  {
    t.Length0 == 8 && t.Length1 == 256 && forall k: nat :: k < 8 ==> RowOk(t, k, 256)
  }

  /** The exponents of the polynomial, less x^32. */
  const EXPONENTS: seq<nat> := [0, 1, 2, 4, 5, 7, 8, 10, 11, 12, 16, 22, 23, 26]

  function Or(a: Word, b: Word): Word { a | b }

  /** x^k, reflected: 1UL << (31 - k). */
  function Power(k: nat): Word
    requires k < 32
    decreases 31 - k
  {
    if k == 31 then 1 else Shl(Power(k + 1))
  }

  /** The sum of the first n terms. */
  function Sum(n: nat): Word
    requires n <= |EXPONENTS|
  {
    if n == 0 then 0 else Or(Sum(n - 1), Power(EXPONENTS[n - 1]))
  }

  lemma Powers()
    ensures Power(26) == 0x20 && Power(23) == 0x100 && Power(22) == 0x200 && Power(16) == 0x8000 && Power(12) == 0x80000
    ensures Power(11) == 0x100000 && Power(10) == 0x200000 && Power(8) == 0x800000 && Power(7) == 0x1000000
    ensures Power(5) == 0x4000000 && Power(4) == 0x8000000 && Power(2) == 0x20000000 && Power(1) == 0x40000000
    ensures Power(0) == 0x80000000
  {
    assert Power(29) == 4 && Power(27) == 0x10 && Power(25) == 0x40 && Power(24) == 0x80;
    assert Power(21) == 0x400 && Power(20) == 0x800 && Power(19) == 0x1000 && Power(18) == 0x2000
        && Power(17) == 0x4000;
    assert Power(15) == 0x10000 && Power(14) == 0x20000 && Power(13) == 0x40000;
    assert Power(9) == 0x400000 && Power(6) == 0x2000000 && Power(3) == 0x10000000;
  }

  /** The terms add up to the pattern 0xedb88320. */
  lemma PolySum()
    ensures Sum(14) == 0xedb8_8320 == POLY
  {
    hide Or, Power;
    Powers();
    Ors();
    assert Sum(1) == 0x80000000;
    assert Sum(2) == 0xc0000000;
    assert Sum(3) == 0xe0000000;
    assert Sum(4) == 0xe8000000;
    assert Sum(5) == 0xec000000;
    assert Sum(6) == 0xed000000;
    assert Sum(7) == 0xed800000;
    assert Sum(8) == 0xeda00000;
    assert Sum(9) == 0xedb00000;
    assert Sum(10) == 0xedb80000;
    assert Sum(11) == 0xedb88000;
    assert Sum(12) == 0xedb88200;
    assert Sum(13) == 0xedb88300;
    assert Sum(14) == 0xedb88320;
  }

  lemma Ors()
    ensures Or(0x0, 0x80000000) == 0x80000000 && Or(0x80000000, 0x40000000) == 0xc0000000
    ensures Or(0xc0000000, 0x20000000) == 0xe0000000 && Or(0xe0000000, 0x8000000) == 0xe8000000
    ensures Or(0xe8000000, 0x4000000) == 0xec000000 && Or(0xec000000, 0x1000000) == 0xed000000
    ensures Or(0xed000000, 0x800000) == 0xed800000 && Or(0xed800000, 0x200000) == 0xeda00000
    ensures Or(0xeda00000, 0x100000) == 0xedb00000 && Or(0xedb00000, 0x80000) == 0xedb80000
    ensures Or(0xedb80000, 0x8000) == 0xedb88000 && Or(0xedb88000, 0x200) == 0xedb88200
    ensures Or(0xedb88200, 0x100) == 0xedb88300 && Or(0xedb88300, 0x20) == 0xedb88320
  {
  }

  /** The exclusive-or pattern, from the exponents. */
  method MakePoly() returns (poly: Word)
    ensures poly == POLY
  {
    hide Or, Power;
    poly := 0;
    var n: nat := 0;
    while n < |EXPONENTS|
      invariant n <= |EXPONENTS| && poly == Sum(n)
    {
      poly := Or(poly, Power(EXPONENTS[n]));
      n := n + 1;
    }
    PolySum();
  }

  /** c & 1 ? poly ^ (c >> 1) : c >> 1, eight times over. */
  method EightBits(poly: Word, n: nat) returns (c: Word)
    requires poly == POLY && n < 256
    ensures c == Right(0, n)
  {
    hide Odd, Xor, Shr, Wide, Nth;
    c := Wide(Nth(n));
    var k: nat := 0;
    while k < 8
      invariant k <= 8 && Steps(c, 8 - k) == Steps(Wide(Nth(n)), 8)
    {
      c := if Odd(c) then Xor(poly, Shr(c)) else Shr(c);
      k := k + 1;
    }
  }

  /** A table entry followed by one more zero byte. */
  lemma NextEntry(c: Word, k: nat, n: nat)
    requires k < 3 && n < 256 && c == Right(k, n)
    ensures Xor(Right(0, Index(Low(c))), Shr8(c)) == Right(k + 1, n)
  {
    hide Wide, Xor, Low, Shr8, Steps, Nth, Index;
    NthIndex(Low(c));
    StepsByte(c);
    StepsAdd(Wide(Nth(n)), 8 * (k + 1), 8);
  }

  /** Entry n of every row but the first. */
  method Column(t: array2<Word>, n: nat)
    requires t.Length0 == 8 && t.Length1 == 256 && n < 256 && RowOk(t, 0, 256)
    modifies t
    ensures forall i: nat, j: nat :: i < 8 && j < 256 && j != n ==> t[i, j] == old(t[i, j])
    ensures forall i: nat :: i < 8 ==> t[i, n] == Right(i, n)
  {
    hide Wide, Xor, Low, Shr8, Steps, Nth, Index, Rev, Entry, Right;
    var c := t[0, n];
    t[4, n] := Rev(c);
    RightRev(0, n);
    var k: nat := 1;
    while k < 4
      invariant 1 <= k <= 4 && c == Right(k - 1, n)
      invariant forall i: nat, j: nat :: i < 8 && j < 256 && (j != n || i == 0) ==> t[i, j] == old(t[i, j])
      invariant forall i: nat :: i < k || 4 <= i < k + 4 ==> t[i, n] == Right(i, n)
    {
      NextEntry(c, k - 1, n);
      c := Xor(t[0, Index(Low(c))], Shr8(c));
      t[k, n] := c;
      t[k + 4, n] := Rev(c);
      RightRev(k, n);
      k := k + 1;
    }
  }

  lemma RightRev(k: nat, n: nat)
    requires k < 4 && n < 256
    ensures Right(k + 4, n) == Rev(Right(k, n))
  {
  }

  method MakeCrcTable() returns (t: array2<Word>)
    ensures TableOk(t) && fresh(t)
  {
    hide Right;
    t := new Word[8, 256];
    var poly := MakePoly();
    var n: nat := 0;
    while n < 256
      invariant RowOk(t, 0, n)
    {
      t[0, n] := EightBits(poly, n);
      n := n + 1;
    }
    n := 0;
    while n < 256
      invariant RowOk(t, 0, 256)
      invariant n <= 256 && forall i: nat, j: nat :: i < 8 && j < n ==> t[i, j] == Right(i, j)
    {
      Column(t, n);
      n := n + 1;
    }
  }

  // ----- crc32 -----

  /** The word at address i of a machine that stores the least significant byte first. */
  function LoadLittle(buf: seq<Octet>, i: nat): Word
    requires i + 4 <= |buf|
  {
    FourBytes(buf[i], buf[i + 1], buf[i + 2], buf[i + 3])
  }

  function LoadBig(buf: seq<Octet>, i: nat): Word
    requires i + 4 <= |buf|
  {
    FourBytes(buf[i + 3], buf[i + 2], buf[i + 1], buf[i])
  }

  lemma {:induction false} RegLast(c: Word, data: seq<Octet>, i: nat)
    requires i < |data|
    ensures Reg(c, data[..i + 1]) == ByteStep(Reg(c, data[..i]), data[i])
    decreases i
  {
    hide ByteStep;
    if i > 0 {
      var d := data[1..];
      assert data[..i + 1][1..] == d[..i] && data[..i][1..] == d[..i - 1] && d[i - 1] == data[i];
      RegLast(ByteStep(c, data[0]), d, i - 1);
    } else {
      assert data[..1] == [data[0]] && data[..0] == [];
    }
  }

  lemma RegFour(c: Word, data: seq<Octet>, i: nat)
    requires i + 4 <= |data|
    ensures Reg(c, data[..i + 4]) == Steps4(Reg(c, data[..i]), data[i], data[i + 1], data[i + 2], data[i + 3])
  {
    hide Reg, ByteStep;
    RegLast(c, data, i);
    RegLast(c, data, i + 1);
    RegLast(c, data, i + 2);
    RegLast(c, data, i + 3);
  }

  lemma LookUp(t: array2<Word>, k: nat, b: Octet)
    requires TableOk(t) && k < 8
    ensures t[k, Index(b)] == if k < 4 then Entry(k, b) else Rev(Entry(k - 4, b))
  {
    hide Nth, Index, Entry, Rev;
    NthIndex(b);
    assert RowOk(t, k, 256);
  }

  /** c = crc_table[0][(c ^ *buf++) & 0xff] ^ (c >> 8). */
  method LittleByte(t: array2<Word>, c: Word, b: Octet) returns (r: Word)
    requires TableOk(t)
    ensures r == ByteStep(c, b)
  {
    hide *;
    ByteByTable(c, b);
    LowXor(c, b);
    LookUp(t, 0, Low(Xor(c, Wide(b))));
    TableSize(t);
    r := Xor(t[0, Index(Low(Xor(c, Wide(b))))], Shr8(c));
  }

  lemma TableSize(t: array2<Word>)
    requires TableOk(t)
    ensures t.Length0 == 8 && t.Length1 == 256
  {
  }

  /** Words are loaded from multiples of four alone. */
  ghost predicate Aligned(a: nat) { a % 4 == 0 }

  lemma FirstWord(a: nat)
    requires a % 4 == 0
    ensures Aligned(a)
  {
  }

  lemma NextWord(a: nat)
    requires Aligned(a)
    ensures Aligned(a + 4)
  {
  }

  lemma NextWords(a: nat)
    requires Aligned(a)
    ensures Aligned(a + 32)
  {
  }

  /** DOLIT4, with the word at address at. */
  method LittleFour(t: array2<Word>, c: Word, buf: seq<Octet>, i: nat, ghost at: nat) returns (r: Word)
    requires TableOk(t) && i + 4 <= |buf| && Aligned(at)
    ensures r == Steps4(c, buf[i], buf[i + 1], buf[i + 2], buf[i + 3])
  {
    hide Xor, Low, Byte1, Byte2, Byte3, FourBytes, Steps, Steps4, Entry, Rev, Index, TableOk;
    TableSize(t);
    var d := Xor(c, LoadLittle(buf, i));
    FourSteps(c, buf[i], buf[i + 1], buf[i + 2], buf[i + 3]);
    FourEntries(d);
    LookUp(t, 3, Low(d));
    LookUp(t, 2, Byte1(d));
    LookUp(t, 1, Byte2(d));
    LookUp(t, 0, Byte3(d));
    r := Xor(Xor(Xor(t[3, Index(Low(d))], t[2, Index(Byte1(d))]), t[1, Index(Byte2(d))]), t[0, Index(Byte3(d))]);
  }

  /** DOLIT32. */
  method LittleAll(t: array2<Word>, c: Word, buf: seq<Octet>, i: nat, ghost at: nat, ghost l: Word) returns (r: Word)
    requires TableOk(t) && i + 32 <= |buf| && Aligned(at) && c == Reg(l, buf[..i])
    ensures r == Reg(l, buf[..i + 32])
  {
    hide *;
    r := c;
    var k: nat := 0;
    while k < 32
      invariant k <= 32 && k % 4 == 0 && Aligned(at + k) && r == Reg(l, buf[..i + k])
    {
      RegFour(l, buf, i + k);
      r := LittleFour(t, r, buf, i + k, at + k);
      NextWord(at + k);
      k := k + 4;
    }
  }

  /** crc32_little, for a buffer that begins at address addr. */
  method Crc32Little(t: array2<Word>, crc: Word, buf: seq<Octet>, addr: nat) returns (r: Word)
    requires TableOk(t)
    ensures r == Crc(crc, buf)
  {
    hide *;
    var c, i: nat := Not(crc), 0;
    assert buf[..0] == [];
    RegNone(c);
    while i < |buf| && (addr + i) % 4 != 0
      invariant i <= |buf| && c == Reg(Not(crc), buf[..i])
    {
      RegLast(Not(crc), buf, i);
      c := LittleByte(t, c, buf[i]);
      i := i + 1;
    }
    if i < |buf| { FirstWord(addr + i); }
    while |buf| - i >= 32
      invariant i <= |buf| && c == Reg(Not(crc), buf[..i]) && (i < |buf| ==> Aligned(addr + i))
    {
      c := LittleAll(t, c, buf, i, addr + i, Not(crc));
      NextWords(addr + i);
      i := i + 32;
    }
    while |buf| - i >= 4
      invariant i <= |buf| && c == Reg(Not(crc), buf[..i]) && (i < |buf| ==> Aligned(addr + i))
    {
      RegFour(Not(crc), buf, i);
      c := LittleFour(t, c, buf, i, addr + i);
      NextWord(addr + i);
      i := i + 4;
    }
    while i < |buf|
      invariant i <= |buf| && c == Reg(Not(crc), buf[..i])
    {
      RegLast(Not(crc), buf, i);
      c := LittleByte(t, c, buf[i]);
      i := i + 1;
    }
    assert buf[..|buf|] == buf;
    r := Not(c);
    CrcIs(crc, buf);
  }

  lemma RegNone(c: Word)
    ensures Reg(c, []) == c
  {
  }

  lemma CrcIs(crc: Word, data: seq<Octet>)
    ensures Crc(crc, data) == Not(Reg(Not(crc), data))
  {
  }

  // ----- The other byte order -----

  /** c = crc_table[4][(c >> 24) ^ *buf++] ^ (c << 8), on a register held in reverse. */
  method BigByte(t: array2<Word>, c: Word, b: Octet, ghost l: Word) returns (r: Word)
    requires TableOk(t) && c == Rev(l)
    ensures r == Rev(ByteStep(l, b))
  {
    hide *;
    ByteReversed(l, b);
    LookUp(t, 4, XorOctet(Byte3(c), b));
    TableSize(t);
    r := Xor(t[4, Index(XorOctet(Byte3(c), b))], Shl8(c));
  }

  /** DOBIG4, with the word at address at. */
  method BigFour(t: array2<Word>, c: Word, buf: seq<Octet>, i: nat, ghost at: nat, ghost l: Word) returns (r: Word)
    requires TableOk(t) && i + 4 <= |buf| && Aligned(at) && c == Rev(l)
    ensures r == Rev(Steps4(l, buf[i], buf[i + 1], buf[i + 2], buf[i + 3]))
  {
    hide Xor, Low, Byte1, Byte2, Byte3, FourBytes, Steps, Steps4, Entry, Rev, Index, TableOk;
    TableSize(t);
    var d := Xor(c, LoadBig(buf, i));
    ghost var m := Xor(l, LoadLittle(buf, i));
    RevFour(buf[i], buf[i + 1], buf[i + 2], buf[i + 3]);
    RevXor(l, LoadLittle(buf, i));
    FourSteps(l, buf[i], buf[i + 1], buf[i + 2], buf[i + 3]);
    FourReversed(m);
    LookUp(t, 4, Low(d));
    LookUp(t, 5, Byte1(d));
    LookUp(t, 6, Byte2(d));
    LookUp(t, 7, Byte3(d));
    r := Xor(Xor(Xor(t[4, Index(Low(d))], t[5, Index(Byte1(d))]), t[6, Index(Byte2(d))]), t[7, Index(Byte3(d))]);
  }

  /** DOBIG32. */
  method BigAll(t: array2<Word>, c: Word, buf: seq<Octet>, i: nat, ghost at: nat, ghost l: Word) returns (r: Word)
    requires TableOk(t) && i + 32 <= |buf| && Aligned(at) && c == Rev(Reg(l, buf[..i]))
    ensures r == Rev(Reg(l, buf[..i + 32]))
  {
    hide *;
    r := c;
    var k: nat := 0;
    while k < 32
      invariant k <= 32 && k % 4 == 0 && Aligned(at + k) && r == Rev(Reg(l, buf[..i + k]))
    {
      RegFour(l, buf, i + k);
      r := BigFour(t, r, buf, i + k, at + k, Reg(l, buf[..i + k]));
      NextWord(at + k);
      k := k + 4;
    }
  }

  /** crc32_big, for a buffer that begins at address addr. */
  method Crc32Big(t: array2<Word>, crc: Word, buf: seq<Octet>, addr: nat) returns (r: Word)
    requires TableOk(t)
    ensures r == Crc(crc, buf)
  {
    hide *;
    ghost var l := Not(crc);
    var c, i: nat := Not(Rev(crc)), 0;
    RevNot(crc);
    assert buf[..0] == [];
    RegNone(l);
    while i < |buf| && (addr + i) % 4 != 0
      invariant i <= |buf| && c == Rev(Reg(l, buf[..i]))
    {
      RegLast(l, buf, i);
      c := BigByte(t, c, buf[i], Reg(l, buf[..i]));
      i := i + 1;
    }
    if i < |buf| { FirstWord(addr + i); }
    while |buf| - i >= 32
      invariant i <= |buf| && c == Rev(Reg(l, buf[..i])) && (i < |buf| ==> Aligned(addr + i))
    {
      c := BigAll(t, c, buf, i, addr + i, l);
      NextWords(addr + i);
      i := i + 32;
    }
    while |buf| - i >= 4
      invariant i <= |buf| && c == Rev(Reg(l, buf[..i])) && (i < |buf| ==> Aligned(addr + i))
    {
      RegFour(l, buf, i);
      c := BigFour(t, c, buf, i, addr + i, Reg(l, buf[..i]));
      NextWord(addr + i);
      i := i + 4;
    }
    while i < |buf|
      invariant i <= |buf| && c == Rev(Reg(l, buf[..i]))
    {
      RegLast(l, buf, i);
      c := BigByte(t, c, buf[i], Reg(l, buf[..i]));
      i := i + 1;
    }
    assert buf[..|buf|] == buf;
    RevNot(Reg(l, buf));
    RevRev(Not(Reg(l, buf)));
    r := Rev(Not(c));
    CrcIs(crc, buf);
  }
}
