/** What the symbols of deflate data mean (sections 3.2.5 to 3.2.7 of RFC 1951), built up
    from their extra bits alone, and that the tables say the same. */
module Symbols {
  import opened Bits
  import opened BitStream
  import opened Huffman
  import opened InfTrees
  import opened InflateSpec
  import opened InflateLookup
  import Tokens

  // ----- Lengths -----

  /** The extra bits of length symbol 257 + i: none for the first eight and for the last,
      and one more for every four symbols in between. */
  function LengthExtra(i: nat): nat { if i < 8 || i >= 28 then 0 else i / 4 - 1 }

  /** The first length of symbol 257 + i: the symbols follow one another without a gap, but
      for the last, which stands for 258 alone. */
  function LengthFrom(i: nat): nat {
    if i == 0 then 3 else if i >= 28 then 258 else LengthFrom(i - 1) + Pow2(LengthExtra(i - 1))
  }

  /** Symbol 257 + i with x for its extra bits is the way to write length len: the last
      length of symbol 284 is written with symbol 285 instead. */
  ghost predicate WritesLength(i: nat, x: nat, len: nat) {
    i <= 28 && x < Pow2(LengthExtra(i)) && LengthFrom(i) + x == len && (i == 27 ==> x < 31)
  }

  lemma LengthTiles(i: nat)
    requires i < 27
    ensures LBASE[i + 1] == LBASE[i] + Pow2(LengthExtra(i)) && LEXT[i] == 16 + LengthExtra(i)
  {
    SmallPowers();
  }

  lemma {:induction false} LengthTable(i: nat)
    requires i <= 28
    ensures LBASE[i] == LengthFrom(i) && LEXT[i] == 16 + LengthExtra(i)
  {
    hide Pow2;
    if 0 < i < 28 {
      LengthTable(i - 1);
      LengthTiles(i - 1);
      if i < 27 { LengthTiles(i); }
    }
  }

  /** Literals, the end of the block, lengths, and two symbols that never occur. */
  lemma LengthSymbols(p: Phase, sym: nat)
    requires p.LenP?
    ensures LenPhase(p, sym) ==
            if sym < 256 then LitP(p.ll, p.dl, sym)
            else if sym == 256 then TypeP
            else if sym <= 285 then LenExtP(p.ll, p.dl, LengthFrom(sym - 257), LengthExtra(sym - 257))
            else BadP
  {
    hide Pow2, LengthFrom;
    if 256 < sym <= 285 { LengthTable(sym - 257); LengthFlags(LengthExtra(sym - 257)); }
    if 286 <= sym < 288 { LenBases(sym); }
  }

  lemma LengthFlags(n: nat)
    requires n <= 13
    ensures !HasFlag(16 + n, 32) && !HasFlag(16 + n, 64) && (16 + n) % 16 == n
  {
  }

  /** Every length has a symbol and extra bits. */
  lemma {:induction false} LengthWritten(len: nat, top: nat) returns (i: nat, x: nat)
    requires 3 <= len <= 258 && top <= 27 && (len < 258 ==> len < LengthFrom(top) + Pow2(LengthExtra(top)))
    ensures WritesLength(i, x, len)
  {
    SmallPowers();
    if len == 258 {
      i, x := 28, 0;
    } else if len >= LengthFrom(top) {
      i, x := top, len - LengthFrom(top);
      if top == 27 { LengthTable(27); }
    } else {
      hide Pow2;
      i, x := LengthWritten(len, top - 1);
    }
  }

  lemma {:induction false} LengthMono(i: nat, j: nat)
    requires i < j <= 27
    ensures LengthFrom(i) + Pow2(LengthExtra(i)) <= LengthFrom(j)
  {
    hide Pow2;
    if i + 1 < j { LengthMono(i, j - 1); }
  }

  /** And only one. */
  lemma LengthOnce(i: nat, x: nat, j: nat, y: nat, len: nat)
    requires WritesLength(i, x, len) && WritesLength(j, y, len)
    ensures i == j && x == y
  {
    hide Pow2, LengthFrom;
    if i < j <= 27 { LengthMono(i, j); }
    if j < i <= 27 { LengthMono(j, i); }
    if i == 28 && j < 28 { LengthBelow(j, y); }
    if j == 28 && i < 28 { LengthBelow(i, x); }
  }

  lemma LengthBelow(i: nat, x: nat)
    requires i <= 27 && x < Pow2(LengthExtra(i)) && (i == 27 ==> x < 31)
    ensures LengthFrom(i) + x < 258 == LengthFrom(28)
  {
    LengthTable(27);
    assert LengthFrom(28) == 258;
    hide Pow2, LengthFrom;
    if i < 27 { LengthMono(i, 27); }
  }

  /** A length symbol and its extra bits are read in two steps. */
  lemma LengthRead(input: seq<Byte>, s: State, i: nat, x: nat, len: nat)
    requires s.ph.LenP? && i <= 28 && Decode(s.ph.ll, Peek(input, s.pos, 15), Avail(input, s)) == Symbol(257 + i)
    requires WritesLength(i, x, len)
    requires var pos := s.pos + s.ph.ll[257 + i];
             pos + LengthExtra(i) <= 8 * |input| && Peek(input, pos, LengthExtra(i)) == x
    ensures Next(input, s).Step?
    ensures Next(input, Next(input, s).s) ==
            Step(s.(pos := s.pos + s.ph.ll[257 + i] + LengthExtra(i), ph := DistP(s.ph.ll, s.ph.dl, len)))
  {
    hide Next, Peek, Decode, Avail, LenPhase, Pow2, LengthFrom;
    LengthSymbols(s.ph, 257 + i);
    LenNext(input, s, 257 + i);
    LenExtNext(input, Next(input, s).s);
  }

  lemma LenNext(input: seq<Byte>, s: State, sym: nat)
    requires s.ph.LenP? && Decode(s.ph.ll, Peek(input, s.pos, 15), Avail(input, s)) == Symbol(sym)
    ensures sym < |s.ph.ll|
    ensures Next(input, s) == Step(s.(pos := s.pos + s.ph.ll[sym], ph := LenPhase(s.ph, sym)))
  {
    hide Peek, Avail, LenPhase, Pow2;
  }

  lemma LenExtNext(input: seq<Byte>, s: State)
    requires s.ph.LenExtP? && s.pos + s.ph.extra <= 8 * |input|
    ensures Next(input, s) ==
            Step(s.(pos := s.pos + s.ph.extra,
                    ph := DistP(s.ph.ll, s.ph.dl, s.ph.length + Peek(input, s.pos, s.ph.extra))))
  {
    hide Peek, Decode, EntryFor, Verdict, CodeLengthLens, LenPhase, DistPhase, CodeLensStep, Pow2, InflateSpec.Reach;
  }

  // ----- Distances -----

  /** The extra bits of distance symbol i: none for the first four, and one more for every
      two symbols after them. */
  function DistExtra(i: nat): nat { if i < 4 then 0 else i / 2 - 1 }

  /** The first distance of symbol i. */
  function DistFrom(i: nat): nat { if i == 0 then 1 else DistFrom(i - 1) + Pow2(DistExtra(i - 1)) }

  ghost predicate WritesDist(i: nat, x: nat, dist: nat) {
    i <= 29 && x < Pow2(DistExtra(i)) && DistFrom(i) + x == dist
  }

  lemma DistTiles(i: nat)
    requires i < 29
    ensures DBASE[i + 1] == DBASE[i] + Pow2(DistExtra(i)) && DEXT[i] == 16 + DistExtra(i)
  {
    hide Pow2;
    LargePowers();
  }

  lemma LargePowers()
    ensures Pow2(0) == 1 && Pow2(1) == 2 && Pow2(2) == 4 && Pow2(3) == 8 && Pow2(4) == 16 && Pow2(5) == 32
    ensures Pow2(6) == 64 && Pow2(7) == 128 && Pow2(8) == 256 && Pow2(9) == 512 && Pow2(10) == 1024
    ensures Pow2(11) == 2048 && Pow2(12) == 4096 && Pow2(13) == 8192
  {
    SmallPowers();
    hide Pow2;
    Pow2Add(4, 4);
    Pow2Add(5, 4);
    Pow2Add(5, 5);
    Pow2Add(6, 5);
    Pow2Add(6, 6);
    Pow2Add(7, 6);
  }

  lemma {:induction false} DistTable(i: nat)
    requires i <= 29
    ensures DBASE[i] == DistFrom(i) && DEXT[i] == 16 + DistExtra(i)
  {
    hide Pow2;
    if i > 0 {
      DistTable(i - 1);
      DistTiles(i - 1);
    }
    if i < 29 { DistTiles(i); }
  }

  lemma DistSymbols(p: Phase, sym: nat)
    requires p.DistP?
    ensures DistPhase(p, sym) ==
            if sym <= 29 then DistExtP(p.ll, p.dl, p.length, DistFrom(sym), DistExtra(sym)) else BadP
  {
    hide Pow2, DistFrom;
    if sym <= 29 { DistTable(sym); LengthFlags(DistExtra(sym)); }
    if 30 <= sym < 32 { DistBases(sym); }
  }

  lemma {:induction false} DistWritten(dist: nat, top: nat) returns (i: nat, x: nat)
    requires 1 <= dist < DistFrom(top) + Pow2(DistExtra(top)) && top <= 29
    ensures WritesDist(i, x, dist)
  {
    hide Pow2;
    if dist >= DistFrom(top) {
      i, x := top, dist - DistFrom(top);
    } else {
      i, x := DistWritten(dist, top - 1);
    }
  }

  /** Every distance up to 32768 has a symbol and extra bits. */
  lemma DistAll(dist: nat) returns (i: nat, x: nat)
    requires 1 <= dist <= 32768
    ensures WritesDist(i, x, dist)
  {
    LargePowers();
    DistTable(29);
    hide Pow2, DistFrom;
    i, x := DistWritten(dist, 29);
  }

  lemma LengthAll(len: nat) returns (i: nat, x: nat)
    requires 3 <= len <= 258
    ensures WritesLength(i, x, len)
  {
    SmallPowers();
    LengthTable(27);
    hide Pow2, LengthFrom;
    i, x := LengthWritten(len, 27);
  }

  lemma {:induction false} DistMono(i: nat, j: nat)
    requires i < j
    ensures DistFrom(i) + Pow2(DistExtra(i)) <= DistFrom(j)
  {
    hide Pow2;
    if i + 1 < j { DistMono(i, j - 1); }
  }

  /** And only one. */
  lemma DistOnce(i: nat, x: nat, j: nat, y: nat, dist: nat)
    requires WritesDist(i, x, dist) && WritesDist(j, y, dist)
    ensures i == j && x == y
  {
    hide Pow2, DistFrom;
    if i < j { DistMono(i, j); }
    if j < i { DistMono(j, i); }
  }

  /** A distance symbol and its extra bits are read in two steps, and what follows is the match,
      if it reaches back no further than there is output. */
  lemma DistRead(input: seq<Byte>, s: State, i: nat, x: nat, dist: nat)
    requires s.ph.DistP? && i <= 29 && Decode(s.ph.dl, Peek(input, s.pos, 15), Avail(input, s)) == Symbol(i)
    requires WritesDist(i, x, dist)
    requires var pos := s.pos + s.ph.dl[i]; pos + DistExtra(i) <= 8 * |input| && Peek(input, pos, DistExtra(i)) == x
    ensures Next(input, s).Step?
    ensures Next(input, Next(input, s).s) ==
            Step(s.(pos := s.pos + s.ph.dl[i] + DistExtra(i),
                    ph := if dist > |s.out| then BadP
                          else if dist > InflateSpec.Reach(s.lim, |s.out|) then RefusedP
                          else MatchP(s.ph.ll, s.ph.dl, s.ph.length, dist)))
  {
    hide Next, Peek, Decode, Avail, DistPhase, Pow2, DistFrom, DistExtra, InflateSpec.Reach;
    DistSymbols(s.ph, i);
    DistNext(input, s, i);
    var p := DistExtP(s.ph.ll, s.ph.dl, s.ph.length, DistFrom(i), DistExtra(i));
    DistExtNext(input, s.(pos := s.pos + s.ph.dl[i], ph := p));
  }

  lemma DistNext(input: seq<Byte>, s: State, sym: nat)
    requires s.ph.DistP? && Decode(s.ph.dl, Peek(input, s.pos, 15), Avail(input, s)) == Symbol(sym)
    ensures sym < |s.ph.dl|
    ensures Next(input, s) == Step(s.(pos := s.pos + s.ph.dl[sym], ph := DistPhase(s.ph, sym)))
  {
    hide Peek, Avail, DistPhase, Pow2;
  }

  lemma DistExtNext(input: seq<Byte>, s: State)
    requires s.ph.DistExtP? && s.pos + s.ph.extra <= 8 * |input|
    ensures Next(input, s) ==
            Step(s.(pos := s.pos + s.ph.extra,
                    ph := var offset := s.ph.offset + Peek(input, s.pos, s.ph.extra);
                          if offset > |s.out| then BadP
                          else if offset > InflateSpec.Reach(s.lim, |s.out|) then RefusedP
                          else MatchP(s.ph.ll, s.ph.dl, s.ph.length, offset)))
  {
    hide Peek, Decode, EntryFor, Verdict, CodeLengthLens, LenPhase, DistPhase, CodeLensStep, Pow2, InflateSpec.Reach;
  }

  // ----- The fixed codes -----

  /** The codes of section 3.2.6 of RFC 1951. */
  lemma FixedCodes(s: nat)
    requires s < 288
    ensures |FixedLens()| == 288
    ensures FixedLens()[s] == if s <= 143 then 8 else if s <= 255 then 9 else if s <= 279 then 7 else 8
    ensures CodeValue(FixedLens(), s) ==
            if s <= 143 then 0x30 + s else if s <= 255 then 0x190 + (s - 144)
            else if s <= 279 then s - 256 else 0xc0 + (s - 280)
  {
    FixedFirst();
    FixedRank(s);
    hide NextCode, Rank;
  }

  lemma FixedFirst()
    ensures NextCode(FixedLens(), 7) == 0 && NextCode(FixedLens(), 8) == 0x30 && NextCode(FixedLens(), 9) == 0x190
    ensures NextCode(FixedDist(), 5) == 0
  {
    AllFixedCounts();
    hide FixedLens, FixedDist, Pow2;
    var f, d := FixedLens(), FixedDist();
    UsedScales(f, 0, 6);
    assert Used(f, 7) == 24;
    assert Used(f, 8) == 200;
    UsedScales(d, 0, 4);
  }

  lemma FixedRank(s: nat)
    requires s < 288
    ensures |FixedLens()| == 288
    ensures Rank(FixedLens(), s) ==
            if s <= 143 then s else if s <= 255 then s - 144 else if s <= 279 then s - 256 else 144 + (s - 280)
  {
    var f, l := FixedLens(), FixedLens()[s];
    var a, b, c := Repeat(144, 8), Repeat(112, 9), Repeat(24, 7);
    hide Count;
    CountRepeat(144, 8, l);
    CountRepeat(112, 9, l);
    CountRepeat(24, 7, l);
    CountConcat(a, b, l);
    CountConcat(a + b, c, l);
    if s <= 143 {
      assert f[..s] == Repeat(s, 8);
      CountRepeat(s, 8, l);
    } else if s <= 255 {
      assert f[..s] == a + Repeat(s - 144, 9);
      CountConcat(a, Repeat(s - 144, 9), l);
      CountRepeat(s - 144, 9, l);
    } else if s <= 279 {
      assert f[..s] == a + b + Repeat(s - 256, 7);
      CountConcat(a + b, Repeat(s - 256, 7), l);
      CountRepeat(s - 256, 7, l);
    } else {
      assert f[..s] == a + b + c + Repeat(s - 280, 8);
      CountConcat(a + b + c, Repeat(s - 280, 8), l);
      CountRepeat(s - 280, 8, l);
    }
  }

  lemma FixedDistCodes(s: nat)
    requires s < 32
    ensures |FixedDist()| == 32 && FixedDist()[s] == 5 && CodeValue(FixedDist(), s) == s
  {
    FixedFirst();
    hide NextCode, Count;
    assert FixedDist()[..s] == Repeat(s, 5);
    CountRepeat(s, 5, 5);
  }

  // ----- The order of the code length code lengths -----

  /** 16, 17, 18 and 0, and then by turns up from 8 and down from 7. */
  lemma OrderIs(i: nat)
    requires i < 19
    ensures |ORDER| == 19
    ensures ORDER[i] ==
            if i < 3 then 16 + i else if i == 3 then 0 else if i % 2 == 0 then 8 + (i - 4) / 2 else 7 - (i - 5) / 2
  {
  }

  /** The value received in place i is the length of the code of symbol ORDER[i], and those not
      received are zero. */
  lemma OrderUsed(got: seq<nat>, i: nat)
    requires i < 19 && |got| <= 19
    ensures ORDER[i] < 19 && CodeLengthLens(got)[ORDER[i]] == if i < |got| then got[i] else 0
  {
    OrderPlace();
  }

  // ----- What deflate tallies -----

  /** Every match that deflate may tally can be written with symbols and extra bits. */
  lemma MatchWritten(ts: seq<Tokens.Token>, maxDist: nat, k: nat) returns (i: nat, x: nat, j: nat, y: nat)
    requires Tokens.Legal(ts, maxDist) && maxDist <= 32768 && k < |ts| && ts[k].Match?
    ensures WritesLength(i, x, ts[k].len) && WritesDist(j, y, ts[k].dist)
  {
    hide WritesLength, WritesDist;
    i, x := LengthAll(ts[k].len);
    j, y := DistAll(ts[k].dist);
  }
}
