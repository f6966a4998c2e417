/** crc32_combine: operators on the register as 32 by 32 matrices over GF(2). */
module Crc32Combine {
  import opened Crc32

  const GF2_DIM := 32

  /** Column k: the word with bit k alone. */
  function Unit(k: nat): Word { if k == 0 then 1 else Shl(Unit(k - 1)) }

  /** v << k. */
  function Scale(v: Word, k: nat): Word
    decreases k
  {
    if k == 0 then v else Shl(Scale(v, k - 1))
  }

  /** v has no bits from n up. */
  predicate Fits(v: Word, n: nat)
    decreases n
  {
    if n == 0 then v == 0 else Fits(Shr(v), n - 1)
  }

  /** The sum of the columns from k on that the bits of v select. */
  function Times(mat: seq<Word>, k: nat, v: Word): Word
    requires k <= |mat|
    decreases |mat| - k
  {
    if k == |mat| then 0
    else if Odd(v) then Xor(mat[k], Times(mat, k + 1, Shr(v)))
    else Times(mat, k + 1, Shr(v))
  }

  // ----- Facts about words -----

  lemma ShlXor(a: Word, b: Word)
    ensures Shl(Xor(a, b)) == Xor(Shl(a), Shl(b))
  {
  }

  /** A word is its low bit and the rest. */
  lemma BitSplit(v: Word)
    ensures v == if Odd(v) then Xor(1, Shl(Shr(v))) else Shl(Shr(v))
  {
  }

  lemma ZeroWord()
    ensures Shr(0) == 0 && Shl(0) == 0 && !Odd(0)
  {
  }

  lemma ScaleOne(k: nat)
    ensures Scale(1, k) == Unit(k)
  {
    hide Shl;
    if k > 0 { ScaleOne(k - 1); }
  }

  lemma {:induction false} ScaleXor(a: Word, b: Word, k: nat)
    ensures Scale(Xor(a, b), k) == Xor(Scale(a, k), Scale(b, k))
    decreases k
  {
    hide Shl, Xor;
    if k > 0 {
      ScaleXor(a, b, k - 1);
      ShlXor(Scale(a, k - 1), Scale(b, k - 1));
    }
  }

  lemma {:induction false} ScaleShl(v: Word, k: nat)
    ensures Scale(Shl(v), k) == Scale(v, k + 1)
    decreases k
  {
    hide Shl;
    if k > 0 { ScaleShl(v, k - 1); }
  }

  lemma {:induction false} ScaleZero(k: nat)
    ensures Scale(0, k) == 0
    decreases k
  {
    hide Shl;
    ZeroWord();
    if k > 0 { ScaleZero(k - 1); }
  }

  lemma ScaleBit(v: Word, k: nat)
    ensures Scale(v, k) == if Odd(v) then Xor(Unit(k), Scale(Shr(v), k + 1)) else Scale(Shr(v), k + 1)
  {
    hide Shl, Xor, Odd, Shr;
    BitSplit(v);
    ScaleShl(Shr(v), k);
    ScaleOne(k);
    if Odd(v) { ScaleXor(1, Shl(Shr(v)), k); }
  }

  /** Nothing is left of a word after 32 shifts. */
  lemma FitsAll(v: Word)
    ensures Fits(v, 32)
  {
    hide Shr, Shr2, Shr4, Shr8;
    var w := Shr8(Shr8(Shr8(Shr8(v))));
    AllShifted(v);
    ZeroFits(0);
    FitsEight(Shr8(Shr8(Shr8(v))), 0);
    FitsEight(Shr8(Shr8(v)), 8);
    FitsEight(Shr8(v), 16);
    FitsEight(v, 24);
  }

  lemma ZeroFits(n: nat)
    ensures Fits(0, n)
  {
    hide Shr;
    ZeroWord();
    if n > 0 { ZeroFits(n - 1); }
  }

  lemma AllShifted(v: Word)
    ensures Shr8(Shr8(Shr8(Shr8(v)))) == 0
  {
  }

  lemma FitsTwo(v: Word, n: nat)
    ensures Fits(v, n + 2) == Fits(Shr2(v), n)
  {
    hide Shr, Shr2;
    ShrTwice(v);
    assert Fits(v, n + 2) == Fits(Shr(v), n + 1) == Fits(Shr(Shr(v)), n);
  }

  lemma FitsEight(v: Word, n: nat)
    requires Fits(Shr8(v), n)
    ensures Fits(v, n + 8)
  {
    hide Shr, Shr2, Shr4, Shr8;
    Shr2Twice(v);
    Shr2Twice(Shr4(v));
    Shr4Twice(v);
    FitsTwo(v, n + 6);
    FitsTwo(Shr2(v), n + 4);
    FitsTwo(Shr2(Shr2(v)), n + 2);
    FitsTwo(Shr2(Shr2(Shr2(v))), n);
  }

  lemma {:induction false} TimesZero(mat: seq<Word>, k: nat)
    requires k <= |mat|
    ensures Times(mat, k, 0) == 0
    decreases |mat| - k
  {
    hide Shr, Odd, Xor;
    ZeroWord();
    if k < |mat| { TimesZero(mat, k + 1); }
  }

  // ----- Matrices as operators -----

  /** mat advances the register by n zero bits. */
  ghost predicate Operator(mat: seq<Word>, n: nat) {
    |mat| == GF2_DIM && forall k: nat :: k < GF2_DIM ==> mat[k] == Steps(Unit(k), n)
  }

  /** gf2_matrix_times is linear, so what its columns do to the unit words it does to every word. */
  lemma {:induction false} TimesFrom(mat: seq<Word>, k: nat, v: Word, n: nat)
    requires Operator(mat, n) && k <= GF2_DIM && Fits(v, GF2_DIM - k)
    ensures Times(mat, k, v) == Steps(Scale(v, k), n)
    decreases GF2_DIM - k
  {
    hide Shr, Odd, Xor, Steps, Unit, Scale;
    if k < GF2_DIM {
      TimesFrom(mat, k + 1, Shr(v), n);
      ScaleBit(v, k);
      if Odd(v) { StepsLinear(Unit(k), Scale(Shr(v), k + 1), n); }
    } else {
      ScaleZero(k);
      StepsZero(n);
    }
  }

  lemma StepsZero(n: nat)
    ensures Steps(0, n) == 0
  {
    hide *;
    StepsLinear(0, 0, n);
    XorZero(0);
    XorZero(Steps(0, n));
  }

  lemma TimesIs(mat: seq<Word>, v: Word, n: nat)
    requires Operator(mat, n)
    ensures Times(mat, 0, v) == Steps(v, n)
  {
    hide Operator, Steps, Fits;
    FitsAll(v);
    TimesFrom(mat, 0, v, n);
    assert Scale(v, 0) == v;
  }

  /** gf2_matrix_times(mat, vec). */
  method MatrixTimes(mat: array<Word>, vec: Word) returns (sum: Word)
    requires mat.Length == GF2_DIM
    ensures sum == Times(mat[..], 0, vec)
  {
    hide Shr, Odd, Xor;
    FitsAll(vec);
    XorZero(Times(mat[..], 0, vec));
    sum := 0;
    var v, k: nat := vec, 0;
    while v != 0
      invariant k <= GF2_DIM && Fits(v, GF2_DIM - k) && Xor(sum, Times(mat[..], k, v)) == Times(mat[..], 0, vec)
      decreases GF2_DIM - k
    {
      if Odd(v) {
        XorAssoc(sum, mat[k], Times(mat[..], k + 1, Shr(v)));
        sum := Xor(sum, mat[k]);
      }
      v := Shr(v);
      k := k + 1;
    }
    TimesZero(mat[..], k);
    XorZero(sum);
  }

  /** gf2_matrix_square(square, mat): the operator composed with itself. */
  method MatrixSquare(square: array<Word>, mat: array<Word>, ghost n: nat)
    requires square != mat && square.Length == mat.Length == GF2_DIM && Operator(mat[..], n)
    modifies square
    ensures Operator(square[..], 2 * n)
  {
    hide Steps, Unit;
    ghost var m := mat[..];
    var k := 0;
    while k < GF2_DIM
      invariant 0 <= k <= GF2_DIM && mat[..] == m && forall i: nat :: i < k ==> square[i] == Steps(Unit(i), 2 * n)
    {
      square[k] := MatrixTimes(mat, mat[k]);
      TimesIs(m, m[k], n);
      StepsAdd(Unit(k), n, n);
      k := k + 1;
    }
  }

  /** No bit is lost when a unit word is shifted up to the 31st place. */
  predicate Room(x: Word, n: nat)
    decreases n
  {
    n == 0 || (Shr(Shl(x)) == x && Room(Shl(x), n - 1))
  }

  lemma RoomFor(x: Word, y: Word, n: nat)
    requires Shl(x) == y && Shr(y) == x && Room(y, n)
    ensures Room(x, n + 1)
  {
  }

  lemma OneHasRoom()
    ensures Room(1, 31)
  {
    hide Room;
    assert Room(0x8000_0000, 0) by { NoRoom(0x8000_0000); }
    Doublings();
    RoomFor(0x40000000, 0x80000000, 0);
    RoomFor(0x20000000, 0x40000000, 1);
    RoomFor(0x10000000, 0x20000000, 2);
    RoomFor(0x8000000, 0x10000000, 3);
    RoomFor(0x4000000, 0x8000000, 4);
    RoomFor(0x2000000, 0x4000000, 5);
    RoomFor(0x1000000, 0x2000000, 6);
    RoomFor(0x800000, 0x1000000, 7);
    RoomFor(0x400000, 0x800000, 8);
    RoomFor(0x200000, 0x400000, 9);
    RoomFor(0x100000, 0x200000, 10);
    RoomFor(0x80000, 0x100000, 11);
    RoomFor(0x40000, 0x80000, 12);
    RoomFor(0x20000, 0x40000, 13);
    RoomFor(0x10000, 0x20000, 14);
    RoomFor(0x8000, 0x10000, 15);
    RoomFor(0x4000, 0x8000, 16);
    RoomFor(0x2000, 0x4000, 17);
    RoomFor(0x1000, 0x2000, 18);
    RoomFor(0x800, 0x1000, 19);
    RoomFor(0x400, 0x800, 20);
    RoomFor(0x200, 0x400, 21);
    RoomFor(0x100, 0x200, 22);
    RoomFor(0x80, 0x100, 23);
    RoomFor(0x40, 0x80, 24);
    RoomFor(0x20, 0x40, 25);
    RoomFor(0x10, 0x20, 26);
    RoomFor(0x8, 0x10, 27);
    RoomFor(0x4, 0x8, 28);
    RoomFor(0x2, 0x4, 29);
    RoomFor(0x1, 0x2, 30);
  }

  lemma NoRoom(x: Word)
    ensures Room(x, 0)
  {
  }

  lemma Doublings()
    ensures Shl(0x1) == 0x2 && Shr(0x2) == 0x1
    ensures Shl(0x2) == 0x4 && Shr(0x4) == 0x2
    ensures Shl(0x4) == 0x8 && Shr(0x8) == 0x4
    ensures Shl(0x8) == 0x10 && Shr(0x10) == 0x8
    ensures Shl(0x10) == 0x20 && Shr(0x20) == 0x10
    ensures Shl(0x20) == 0x40 && Shr(0x40) == 0x20
    ensures Shl(0x40) == 0x80 && Shr(0x80) == 0x40
    ensures Shl(0x80) == 0x100 && Shr(0x100) == 0x80
    ensures Shl(0x100) == 0x200 && Shr(0x200) == 0x100
    ensures Shl(0x200) == 0x400 && Shr(0x400) == 0x200
    ensures Shl(0x400) == 0x800 && Shr(0x800) == 0x400
    ensures Shl(0x800) == 0x1000 && Shr(0x1000) == 0x800
    ensures Shl(0x1000) == 0x2000 && Shr(0x2000) == 0x1000
    ensures Shl(0x2000) == 0x4000 && Shr(0x4000) == 0x2000
    ensures Shl(0x4000) == 0x8000 && Shr(0x8000) == 0x4000
    ensures Shl(0x8000) == 0x10000 && Shr(0x10000) == 0x8000
    ensures Shl(0x10000) == 0x20000 && Shr(0x20000) == 0x10000
    ensures Shl(0x20000) == 0x40000 && Shr(0x40000) == 0x20000
    ensures Shl(0x40000) == 0x80000 && Shr(0x80000) == 0x40000
    ensures Shl(0x80000) == 0x100000 && Shr(0x100000) == 0x80000
    ensures Shl(0x100000) == 0x200000 && Shr(0x200000) == 0x100000
    ensures Shl(0x200000) == 0x400000 && Shr(0x400000) == 0x200000
    ensures Shl(0x400000) == 0x800000 && Shr(0x800000) == 0x400000
    ensures Shl(0x800000) == 0x1000000 && Shr(0x1000000) == 0x800000
    ensures Shl(0x1000000) == 0x2000000 && Shr(0x2000000) == 0x1000000
    ensures Shl(0x2000000) == 0x4000000 && Shr(0x4000000) == 0x2000000
    ensures Shl(0x4000000) == 0x8000000 && Shr(0x8000000) == 0x4000000
    ensures Shl(0x8000000) == 0x10000000 && Shr(0x10000000) == 0x8000000
    ensures Shl(0x10000000) == 0x20000000 && Shr(0x20000000) == 0x10000000
    ensures Shl(0x20000000) == 0x40000000 && Shr(0x40000000) == 0x20000000
    ensures Shl(0x40000000) == 0x80000000 && Shr(0x80000000) == 0x40000000
  {
  }

  lemma {:induction false} UnitRoom(k: nat)
    requires k <= 31
    ensures Room(Unit(k), 31 - k)
    decreases k
  {
    hide Shl, Shr;
    if k == 0 { OneHasRoom(); } else { UnitRoom(k - 1); }
  }

  lemma ShlEven(x: Word)
    ensures !Odd(Shl(x))
  {
  }

  /** The operator for one zero bit moves each unit word down, and the lowest one to the polynomial. */
  lemma UnitStep(k: nat)
    requires k < 32
    ensures Steps(Unit(k), 1) == if k == 0 then POLY else Unit(k - 1)
  {
    hide Shl, Shr, Odd, Xor, Room;
    assert Steps(Unit(k), 1) == BitStep(Unit(k)) by { OneStep(Unit(k)); }
    if k == 0 {
      LowUnit();
      XorZero(POLY);
    } else {
      UnitRoom(k - 1);
      RoomIs(Unit(k - 1), 32 - k);
      ShlEven(Unit(k - 1));
    }
  }

  lemma OneStep(c: Word)
    ensures Steps(c, 1) == BitStep(c)
  {
    hide BitStep;
    assert Steps(BitStep(c), 0) == BitStep(c);
  }

  lemma RoomIs(x: Word, n: nat)
    requires Room(x, n) && n > 0
    ensures Shr(Shl(x)) == x
  {
  }

  lemma LowUnit()
    ensures Odd(1) && Shr(1) == 0
  {
  }

  // ----- crc32_combine -----

  /** The operator for one zero bit, then for two and for four. */
  method FirstOperators(even: array<Word>, odd: array<Word>)
    requires even != odd && even.Length == odd.Length == GF2_DIM
    modifies even, odd
    ensures Operator(odd[..], 4)
  {
    hide Steps, Unit;
    odd[0] := POLY;
    var row, n := Unit(0), 1;
    UnitStep(0);
    while n < GF2_DIM
      invariant 1 <= n <= GF2_DIM && row == Unit(n - 1)
      invariant forall k: nat :: k < n ==> odd[k] == Steps(Unit(k), 1)
    {
      UnitStep(n);
      odd[n] := row;
      row := Shl(row);
      UnitNext(n);
      n := n + 1;
    }
    MatrixSquare(even, odd, 1);
    MatrixSquare(odd, even, 2);
  }

  lemma UnitNext(n: nat)
    requires n >= 1
    ensures Unit(n) == Shl(Unit(n - 1))
  {
  }

  /** One turn of half the loop: square, and apply the operator if the bit of len2 is set. */
  method Half(square: array<Word>, mat: array<Word>, crc: Word, len2: nat, ghost q: nat) returns (r: Word)
    requires square != mat && square.Length == mat.Length == GF2_DIM && Operator(mat[..], 4 * q)
    modifies square
    ensures Operator(square[..], 8 * q) && r == Steps(crc, 8 * q * (len2 % 2))
  {
    hide Steps, Operator;
    MatrixSquare(square, mat, 4 * q);
    r := crc;
    if len2 % 2 == 1 {
      r := MatrixTimes(square, crc);
      TimesIs(square[..], crc, 8 * q);
    } else {
      NoSteps(crc);
    }
  }

  lemma NoSteps(c: Word)
    ensures Steps(c, 0) == c
  {
  }

  /** len2 zero bytes after crc1, and then crc2. */
  function Combined(crc1: Word, crc2: Word, len2: nat): Word {
    if len2 == 0 then crc1 else Xor(Steps(crc1, 8 * len2), crc2)
  }

  /** crc32_combine(crc1, crc2, len2): 8 * len2 zero bits after crc1, and then crc2. */
  method Combine(crc1: Word, crc2: Word, len2: nat) returns (r: Word)
    ensures r == Combined(crc1, crc2, len2)
  {
    hide Steps, Operator, Xor;
    if len2 == 0 { return crc1; }
    var even, odd := new Word[GF2_DIM], new Word[GF2_DIM];
    FirstOperators(even, odd);
    var c, len: nat := crc1, len2;
    ghost var q: nat, done: nat := 1, 0;
    NoSteps(c);
    while true
      invariant Operator(odd[..], 4 * q) && done + q * len == len2 && c == Steps(crc1, 8 * done) && len > 0
      decreases len
    {
      ghost var c0 := c;
      c := Half(even, odd, c, len, q);
      StepsAdd(crc1, 8 * done, 8 * q * (len % 2));
      done, q, len := Advance(done, q, len), 2 * q, len / 2;
      if len == 0 { break; }
      c := Half(odd, even, c, len, q);
      StepsAdd(crc1, 8 * done, 8 * q * (len % 2));
      done, q, len := Advance(done, q, len), 2 * q, len / 2;
      if len == 0 { break; }
    }
    r := Xor(c, crc2);
  }

  /** Zero bytes accounted for when the lowest bit of len has been dealt with. */
  ghost function Advance(done: nat, q: nat, len: nat): (r: nat)
    ensures r == done + q * (len % 2) && 8 * r == 8 * done + 8 * q * (len % 2)
    ensures r + (2 * q) * (len / 2) == done + q * len
  {
    assert len == 2 * (len / 2) + len % 2;
    assert q * len == q * (2 * (len / 2)) + q * (len % 2);
    done + q * (len % 2)
  }

  // ----- What it is for -----

  /** Advancing two registers by the same data keeps their difference on the zero-bit path. */
  lemma {:induction false} RegLinear(c: Word, d: Word, data: seq<Octet>)
    ensures Reg(Xor(c, d), data) == Xor(Steps(c, 8 * |data|), Reg(d, data))
    decreases |data|
  {
    hide Xor, Steps, Wide;
    if data == [] {
      NoSteps(c);
    } else {
      var b := data[0];
      XorAssoc(c, d, Wide(b));
      StepsLinear(c, Xor(d, Wide(b)), 8);
      StepsAdd(c, 8, 8 * |data[1..]|);
      RegLinear(Steps(c, 8), ByteStep(d, b), data[1..]);
    }
  }

  lemma {:induction false} RegAppend(c: Word, a: seq<Octet>, b: seq<Octet>)
    ensures Reg(c, a + b) == Reg(Reg(c, a), b)
    decreases |a|
  {
    hide ByteStep;
    if a == [] {
      assert a + b == b;
    } else {
      assert (a + b)[1..] == a[1..] + b;
      RegAppend(ByteStep(c, a[0]), a[1..], b);
    }
  }

  /** The checksums of two pieces combine to the checksum of the whole. */
  lemma CombineIsConcat(crc: Word, a: seq<Octet>, b: seq<Octet>)
    ensures Xor(Steps(Crc(crc, a), 8 * |b|), Crc(0, b)) == Crc(crc, a + b)
  {
    hide Xor, Steps, Not, Reg;
    var ra, rb := Reg(Not(crc), a), Reg(0xffff_ffff, b);
    RegAppend(Not(crc), a, b);
    NotXor(0);
    XorZero(0xffff_ffff);
    NotXor(ra);
    // ra == Crc(crc, a) ^ ones
    XorAssoc(ra, 0xffff_ffff, 0xffff_ffff);
    XorZero(ra);
    RegLinear(Not(ra), 0xffff_ffff, b);
    NotXor(Not(ra));
    NotXor(rb);
    NotXor(Reg(ra, b));
    XorAssoc(Steps(Not(ra), 8 * |b|), rb, 0xffff_ffff);
  }

  /** crc32_combine on the checksums of two pieces gives the checksum of the whole,
      also when the second piece is empty. */
  lemma CombineConcat(crc: Word, a: seq<Octet>, b: seq<Octet>)
    ensures Combined(Crc(crc, a), Crc(0, b), |b|) == Crc(crc, a + b)
  {
    hide Xor, Steps, Crc;
    if b == [] {
      assert a + b == a;
    } else {
      CombineIsConcat(crc, a, b);
    }
  }
}
