/** A stream that a decoder with the smallest window decodes when it is given whole,
    and refuses when the output is taken in two calls: a stored block of 257 zero bytes,
    and a last block with fixed codes that holds one match of length 3 at distance 257. */
module InflateSmall {
  import opened Bits
  import opened BitStream
  import opened Huffman
  import opened Lz77
  import opened InflateSpec
  import opened InflateLookup
  import opened InflateStates
  import opened InflateLimit
  import opened InfFast
  import opened InflateRun

  const HEAD5: seq<Byte> := [0x00, 0x01, 0x01, 0xfe, 0xfe]
  const TAIL4: seq<Byte> := [0x03, 0x06, 0x00, 0x00]

  function Zeros(n: nat): (r: seq<Byte>)
    ensures |r| == n && forall i :: 0 <= i < n ==> r[i] == 0
  {
    seq(n, _ => 0)
  }

  function Block(): (r: seq<Byte>)
    ensures |r| == 262
  {
    HEAD5 + Zeros(257)
  }

  /** The bytes of a stream that begins with the stored block. */
  ghost predicate Begins(input: seq<Byte>) {
    && |input| >= 262 && input[0] == 0 && input[1] == 1 && input[2] == 1 && input[3] == 0xfe && input[4] == 0xfe
    && forall i :: 5 <= i < 262 ==> input[i] == 0
  }

  ghost predicate Ends(input: seq<Byte>) {
    |input| == 266 && input[262] == 3 && input[263] == 6 && input[264] == 0 && input[265] == 0
  }

  lemma WholeIs()
    ensures Begins(Block()) && Begins(Block() + TAIL4) && Ends(Block() + TAIL4)
  {
  }

  // ----- The stored block -----

  lemma HeadFields(input: seq<Byte>)
    requires Begins(input)
    ensures Peek(input, 0, 1) == 0 && Peek(input, 1, 2) == 0
    ensures Peek(input, 8, 16) == 257 && Peek(input, 24, 16) == 0xfefe
  {
    hide Peek, Pow2;
    SmallPowers();
    Pow2Eight();
    PeekByte(input, 0);
    PeekByte(input, 1);
    PeekByte(input, 2);
    PeekByte(input, 3);
    PeekByte(input, 4);
    PeekLow(input, 0, 1, 8);
    PeekLow(input, 1, 2, 7);
    PeekSplit(input, 8, 8, 8);
    PeekSplit(input, 24, 8, 8);
  }

  ghost function Copying(k: nat, lim: Limit): State {
    State(false, 40 + 8 * k, Zeros(k), CopyP(if k <= 257 then 257 - k else 0), lim)
  }

  ghost function AfterBlock(lim: Limit): State { State(false, 8 * 262, Zeros(257), TypeP, lim) }

  lemma ToCopy(input: seq<Byte>, lim: Limit)
    requires Begins(input)
    ensures Reaches(input, INITIAL.(lim := lim), Copying(0, lim))
  {
    hide Peek, Reaches;
    HeadFields(input);
    var s0 := INITIAL.(lim := lim);
    var s1 := s0.(pos := 3, ph := StoredP);
    var s2 := s1.(pos := 8);
    assert Next(input, s0) == Step(s1);
    assert Next(input, s1) == Step(s2);
    assert Zeros(0) == [];
    assert Next(input, s2) == Step(Copying(0, lim));
    ReachStep(input, s0);
    ReachStep(input, s1);
    ReachStep(input, s2);
    ReachTrans(input, s0, s1, s2);
    ReachTrans(input, s0, s2, Copying(0, lim));
  }

  lemma {:induction false} Copied(input: seq<Byte>, k: nat, lim: Limit)
    requires Begins(input) && k <= 257
    ensures Reaches(input, Copying(0, lim), Copying(k, lim))
    decreases k
  {
    hide Peek, Reaches, Next;
    ReachRefl(input, Copying(0, lim));
    if k > 0 {
      Copied(input, k - 1, lim);
      OneCopied(input, k - 1, lim);
      ReachStep(input, Copying(k - 1, lim));
      ReachTrans(input, Copying(0, lim), Copying(k - 1, lim), Copying(k, lim));
    }
  }

  lemma OneCopied(input: seq<Byte>, k: nat, lim: Limit)
    requires Begins(input) && k < 257
    ensures Next(input, Copying(k, lim)) == Step(Copying(k + 1, lim))
  {
    hide Peek;
    PeekByte(input, 5 + k);
    assert 8 * (5 + k) == 40 + 8 * k;
    assert Zeros(k) + [0] == Zeros(k + 1);
  }

  lemma StoredBlock(input: seq<Byte>, lim: Limit)
    requires Begins(input)
    ensures Reaches(input, INITIAL.(lim := lim), AfterBlock(lim))
  {
    hide Reaches;
    ToCopy(input, lim);
    Copied(input, 257, lim);
    assert Next(input, Copying(257, lim)) == Step(AfterBlock(lim));
    ReachStep(input, Copying(257, lim));
    ReachTrans(input, INITIAL.(lim := lim), Copying(0, lim), Copying(257, lim));
    ReachTrans(input, INITIAL.(lim := lim), Copying(257, lim), AfterBlock(lim));
  }

  // ----- The match -----

  lemma TailBits(input: seq<Byte>)
    requires Ends(input)
    ensures Peek(input, 2096, 40) == 1539
  {
    hide *;
    Pow2Eight();
    TailBytes(input);
    PeekSplit(input, 2096, 8, 32);
    PeekSplit(input, 2104, 8, 24);
    PeekSplit(input, 2112, 8, 16);
    PeekSplit(input, 2120, 8, 8);
  }

  lemma TailBytes(input: seq<Byte>)
    requires Ends(input)
    ensures Peek(input, 2096, 8) == 3 && Peek(input, 2104, 8) == 6
    ensures Peek(input, 2112, 8) == 0 && Peek(input, 2120, 8) == 0 && Peek(input, 2128, 8) == 0
  {
    hide Peek;
    PeekByte(input, 262);
    PeekByte(input, 263);
    PeekByte(input, 264);
    PeekByte(input, 265);
    PeekBeyond(input, 2128, 8);
    assert 2096 == 8 * 262 && 2104 == 8 * 263 && 2112 == 8 * 264 && 2120 == 8 * 265;
  }

  /** n bits from bit i on of a known run of bits. */
  lemma Cut(input: seq<Byte>, base: nat, all: nat, v: nat, i: nat, p: nat, n: nat, q: nat)
    requires i + n <= all && v == Peek(input, base, all) && p == Pow2(i) && q == Pow2(n)
    ensures p > 0 && q > 0 && Peek(input, base + i, n) == (v / p) % q
  {
    hide Peek, Pow2;
    PeekLow(input, base, i, all);
    PeekLow(input, base + i, n, all - i);
  }

  lemma TailFields(input: seq<Byte>)
    requires Ends(input)
    ensures Peek(input, 2096, 1) == 1 && Peek(input, 2097, 2) == 1
    ensures Peek(input, 2099, 15) == 192 && Peek(input, 2106, 15) == 1
    ensures Peek(input, 2111, 7) == 0 && Peek(input, 2118, 15) == 0
  {
    hide *;
    TailBits(input);
    TailPowers();
    Cut(input, 2096, 40, 1539, 0, 1, 1, 2);
    Cut(input, 2096, 40, 1539, 1, 2, 2, 4);
    Cut(input, 2096, 40, 1539, 3, 8, 15, 32768);
    Cut(input, 2096, 40, 1539, 10, 1024, 15, 32768);
    Cut(input, 2096, 40, 1539, 15, 32768, 7, 128);
    Cut(input, 2096, 40, 1539, 22, 4194304, 15, 32768);
  }

  lemma TailPowers()
    ensures Pow2(0) == 1 && Pow2(1) == 2 && Pow2(2) == 4 && Pow2(3) == 8 && Pow2(7) == 128 && Pow2(10) == 1024
    ensures Pow2(15) == 32768 && Pow2(22) == 4194304
  {
    SmallPowers();
    Pow2Add(5, 5);
    Pow2Add(10, 5);
    Pow2Add(15, 7);
    Pow2Add(5, 2);
  }

  /** The first symbols of length 7 are those of end of block and of length 3. */
  lemma FixedCodes(v: nat)
    ensures Rev(7, v) == 0 ==> IsCodeFor(FixedLens(), 256, v)
    ensures Rev(7, v) == 1 ==> IsCodeFor(FixedLens(), 257, v)
    ensures |FixedLens()| == 288 && FixedLens()[256] == 7 && FixedLens()[257] == 7
  {
    FixedFirst();
    FixedRanks();
    hide FixedLens, NextCode, Count, Rev;
  }

  lemma FixedFirst()
    ensures NextCode(FixedLens(), 7) == 0 && NextCode(FixedDist(), 5) == 0
  {
    hide FixedLens, FixedDist, Count;
    AllFixedCounts();
    UsedScales(FixedLens(), 0, 6);
    UsedScales(FixedDist(), 0, 4);
  }

  lemma FixedRanks()
    ensures |FixedLens()| == 288 && FixedLens()[256] == 7 && FixedLens()[257] == 7
    ensures Count(FixedLens()[..256], 7) == 0 && Count(FixedLens()[..257], 7) == 1
  {
    hide Count;
    var f := FixedLens();
    var a, b := Repeat(144, 8), Repeat(112, 9);
    CountConcat(a, b, 7);
    CountRepeat(144, 8, 7);
    CountRepeat(112, 9, 7);
    assert f[..256] == a + b;
    CountStep(f, 256, 7);
  }

  lemma FixedDistance(v: nat)
    requires Rev(5, v) == 16
    ensures IsCodeFor(FixedDist(), 16, v) && FixedDist()[16] == 5
  {
    var f := FixedDist();
    assert f[..16] == Repeat(16, 5);
    CountRepeat(16, 5, 5);
    FixedFirst();
  }

  lemma Reversals()
    ensures Rev(7, 192) == 1 && Rev(7, 0) == 0 && Rev(5, 1) == 16
  {
    assert Rev(0, 1) == 0 && Rev(0, 0) == 0;
    assert Rev(1, 1) == 1 && Rev(1, 0) == 0 && Rev(1, 3) == 1;
    assert Rev(2, 0) == 0 && Rev(2, 6) == 1;
    assert Rev(3, 0) == 0 && Rev(3, 12) == 1;
    assert Rev(4, 0) == 0 && Rev(4, 24) == 1;
    assert Rev(5, 0) == 0 && Rev(5, 48) == 1;
    assert Rev(6, 0) == 0 && Rev(6, 96) == 1;
    assert Pow2(4) == 16;
  }

  lemma DecodeIs(lens: seq<nat>, v: nat, avail: nat, s: nat)
    requires Fits(lens, s, v, avail)
    ensures Decode(lens, v, avail) == Symbol(s)
  {
    PrefixFree(lens, s, Decode(lens, v, avail).s, v);
  }

  ghost function AtDistance(lim: Limit): State {
    State(true, 2111, Zeros(257), DistExtP(FixedLens(), FixedDist(), 3, 257, 7), lim)
  }

  lemma ToDistance(input: seq<Byte>, lim: Limit)
    requires Ends(input)
    ensures Reaches(input, AfterBlock(lim), AtDistance(lim))
  {
    hide *;
    var ll, dl := FixedLens(), FixedDist();
    var s0 := AfterBlock(lim);
    var s1 := State(true, 2099, Zeros(257), LenP(ll, dl), lim);
    var s2 := State(true, 2106, Zeros(257), LenExtP(ll, dl, 3, 0), lim);
    var s3 := s2.(ph := DistP(ll, dl, 3));
    StepType(input, lim);
    StepLength(input, lim);
    StepExtra(input, lim);
    StepDistance(input, lim);
    ReachStep(input, s0);
    ReachStep(input, s1);
    ReachStep(input, s2);
    ReachStep(input, s3);
    ReachTrans(input, s0, s1, s2);
    ReachTrans(input, s0, s2, s3);
    ReachTrans(input, s0, s3, AtDistance(lim));
  }

  lemma StepType(input: seq<Byte>, lim: Limit)
    requires Ends(input)
    ensures Next(input, AfterBlock(lim)) == Step(State(true, 2099, Zeros(257), LenP(FixedLens(), FixedDist()), lim))
  {
    hide Peek, FixedLens, FixedDist;
    TailFields(input);
  }

  lemma StepLength(input: seq<Byte>, lim: Limit)
    requires Ends(input)
    ensures Next(input, State(true, 2099, Zeros(257), LenP(FixedLens(), FixedDist()), lim))
            == Step(State(true, 2106, Zeros(257), LenExtP(FixedLens(), FixedDist(), 3, 0), lim))
  {
    hide Peek, FixedLens, FixedDist, CodeValue, Rev, Decode;
    TailFields(input);
    Reversals();
    FixedCodes(192);
    DecodeIs(FixedLens(), 192, 29, 257);
  }

  lemma StepExtra(input: seq<Byte>, lim: Limit)
    requires Ends(input)
    ensures Next(input, State(true, 2106, Zeros(257), LenExtP(FixedLens(), FixedDist(), 3, 0), lim))
            == Step(State(true, 2106, Zeros(257), DistP(FixedLens(), FixedDist(), 3), lim))
  {
    hide FixedLens, FixedDist;
  }

  lemma StepDistance(input: seq<Byte>, lim: Limit)
    requires Ends(input)
    ensures Next(input, State(true, 2106, Zeros(257), DistP(FixedLens(), FixedDist(), 3), lim)) == Step(AtDistance(lim))
  {
    hide Peek, FixedLens, FixedDist, CodeValue, Rev, Decode;
    TailFields(input);
    Reversals();
    FixedDistance(1);
    DecodeIs(FixedDist(), 1, 22, 16);
  }

  /** With the whole of the output in one call the match is copied and the stream ends. */
  ghost function Finished(lim: Limit): State { State(true, 2128, Extend(Zeros(257), 257, 3), DoneP, lim) }

  lemma ToTheEnd(input: seq<Byte>, lim: Limit)
    requires Ends(input) && Reach(lim, 257) == 257
    ensures Reaches(input, AtDistance(lim), Finished(lim))
  {
    hide *;
    var ll, dl := FixedLens(), FixedDist();
    var s1 := State(true, 2118, Zeros(257), MatchP(ll, dl, 3, 257), lim);
    var s2 := State(true, 2118, Extend(Zeros(257), 257, 3), LenP(ll, dl), lim);
    var s3 := State(true, 2125, Extend(Zeros(257), 257, 3), TypeP, lim);
    StepMatch(input, lim);
    MatchRun(input, s1);
    WithinReaches(input, s1, s2);
    StepEnd(input, lim);
    StepLast(input, lim);
    ReachStep(input, AtDistance(lim));
    ReachStep(input, s2);
    ReachStep(input, s3);
    ReachTrans(input, AtDistance(lim), s1, s2);
    ReachTrans(input, AtDistance(lim), s2, s3);
    ReachTrans(input, AtDistance(lim), s3, Finished(lim));
  }

  lemma StepMatch(input: seq<Byte>, lim: Limit)
    requires Ends(input)
    ensures Next(input, AtDistance(lim)) ==
            Step(State(true, 2118, Zeros(257), if 257 <= Reach(lim, 257) then MatchP(FixedLens(), FixedDist(), 3, 257)
                else RefusedP, lim))
  {
    hide Peek, FixedLens, FixedDist;
    TailFields(input);
  }

  lemma StepEnd(input: seq<Byte>, lim: Limit)
    requires Ends(input)
    ensures Next(input, State(true, 2118, Extend(Zeros(257), 257, 3), LenP(FixedLens(), FixedDist()), lim))
            == Step(State(true, 2125, Extend(Zeros(257), 257, 3), TypeP, lim))
  {
    hide Peek, FixedLens, FixedDist, CodeValue, Rev, Decode, Extend;
    TailFields(input);
    Reversals();
    FixedCodes(0);
    DecodeIs(FixedLens(), 0, 10, 256);
  }

  lemma StepLast(input: seq<Byte>, lim: Limit)
    ensures Next(input, State(true, 2125, Extend(Zeros(257), 257, 3), TypeP, lim)) == Step(Finished(lim))
  {
    hide Peek, Extend;
  }

  // ----- Two decoders -----

  /** A run that has not ended is on the way to where this one stops. */
  lemma OnTheWay(input: seq<Byte>, s: State, t: State, u: State)
    requires Reaches(input, s, t) && Stopped(input, t) && Reaches(input, s, u)
    ensures |u.out| <= |t.out| && (Stopped(input, u) ==> u == t)
  {
    hide Next, Reaches;
    ReachLinear(input, s, t, u);
    if Reaches(input, t, u) { StuckStays(input, t, u); }
    if Stopped(input, u) { StopUnique(input, s, t, u); }
    if Reaches(input, u, t) { OutGrows(input, u, t); }
  }

  /** Where a call with room for all of the output ends, given where the machine stops. */
  lemma CallEnds(z: Inflater, s: State, t: State, n: nat)
    requires Reaches(z.input, s, t) && Stopped(z.input, t) && Reaches(z.input, s, z.Abs().(lim := s.lim))
    requires Answers(z, n < z.out.Length, false) && |z.Abs().out| >= n && |t.out| < z.out.Length && z.put == 0
    ensures z.Abs().(lim := s.lim) == t && (t.ph.DoneP? ==> !z.mode.BAD?)
    ensures t.ph.DoneP? <==> z.mode.DONE?
    ensures t.ph.RefusedP? ==> z.mode.BAD?
  {
    hide Next, Reaches, Inflater.Total;
    var u := z.Abs();
    OnTheWay(z.input, s, t, u.(lim := s.lim));
    LimitAside(z.input, u, s.lim);
    EndHalts(z.input, u);
  }

  method Decoder(size: nat) returns (z: Inflater, space: array<Byte>)
    ensures fresh(z) && fresh(z.window) && fresh(z.work) && fresh(space) && space.Length == size && space != z.window
    ensures Valid(z) && z.W == 256 && z.input == [] && z.hist == [] && z.Abs() == INITIAL.(lim := Limit(0, 256))
  {
    hide *;
    z := NewDecoder(8);
    EightBits();
    space := new Byte[size];
  }

  lemma EightBits()
    ensures Pow2(8) == 256
  {
    Pow2Eight();
  }

  lemma SmallReach()
    ensures Reach(Limit(0, 256), 257) == 257 && Reach(Limit(257, 256), 257) == 256
  {
  }

  /** The whole run, for a call that keeps its output at hand. */
  lemma WholeRun(input: seq<Byte>, lim: Limit)
    requires Begins(input) && Ends(input) && Reach(lim, 257) == 257
    ensures Reaches(input, INITIAL.(lim := lim), Finished(lim)) && Stopped(input, Finished(lim))
  {
    hide Reaches, AfterBlock, AtDistance;
    StoredBlock(input, lim);
    ToDistance(input, lim);
    ToTheEnd(input, lim);
    ReachTrans(input, INITIAL.(lim := lim), AfterBlock(lim), AtDistance(lim));
    ReachTrans(input, INITIAL.(lim := lim), AtDistance(lim), Finished(lim));
  }

  /** The run of a call that begins after the stored block. */
  lemma RefusedRun(input: seq<Byte>, lim: Limit)
    requires Ends(input) && Reach(lim, 257) == 256
    ensures var t := AtDistance(lim).(pos := 2118, ph := RefusedP);
            Reaches(input, AfterBlock(lim), t) && Stopped(input, t)
  {
    hide Reaches, AfterBlock;
    ToDistance(input, lim);
    StepMatch(input, lim);
    ReachStep(input, AtDistance(lim));
    ReachTrans(input, AfterBlock(lim), AtDistance(lim), AtDistance(lim).(pos := 2118, ph := RefusedP));
  }

  /** One call with room for everything decodes the stream. */
  method InOneCall() returns (n: nat, ret: Ret)
    ensures n == 260 && ret == STREAM_END
  {
    hide *;
    var z, space := Decoder(300);
    var input := Block() + TAIL4;
    ghost var lim := Limit(0, 256);
    WholeIs();
    SmallReach();
    WholeRun(input, lim);
    n, ret := Inflate(z, input, space, NO_FLUSH);
    assert [] + input == input;
    HistoryIs(z);
    Sizes(lim);
    CallEnds(z, INITIAL.(lim := lim), Finished(lim), n);
  }

  lemma Sizes(lim: Limit)
    ensures |Finished(lim).out| == 260 && Finished(lim).ph.DoneP?
    ensures |AfterBlock(lim).out| == 257 && |AtDistance(lim).out| == 257
  {
  }

  lemma BlockStops(lim: Limit)
    ensures Stopped(Block(), AfterBlock(lim))
  {
  }

  /** The same stream in two calls is refused, although the byte 257 back has been
      written: the window of 256 has lost it. */
  method InTwoCalls() returns (first: nat, n: nat, ret: Ret)
    ensures first == 257 && n == 0 && ret == DATA_ERROR
  {
    hide *;
    var z, space := Decoder(300);
    ghost var lim, again := Limit(0, 256), Limit(257, 256);
    WholeIs();
    SmallReach();
    Sizes(lim);
    Sizes(again);
    StoredBlock(Block(), lim);
    BlockStops(lim);
    first, ret := Inflate(z, Block(), space, NO_FLUSH);
    assert [] + Block() == Block();
    HistoryIs(z);
    CallEnds(z, INITIAL.(lim := lim), AfterBlock(lim), first);
    Paused(z, lim);
    ghost var input := Block() + TAIL4;
    RefusedRun(input, again);
    space := new Byte[300];
    n, ret := Inflate(z, TAIL4, space, NO_FLUSH);
    HistoryIs(z);
    CallEnds(z, AfterBlock(again), AtDistance(again).(pos := 2118, ph := RefusedP), n);
  }

  lemma Paused(z: Inflater, lim: Limit)
    requires z.Abs().(lim := lim) == AfterBlock(lim)
    ensures !Torn(z) && z.Abs() == AfterBlock(Limit(|z.hist|, z.W))
  {
    hide Inflater.Total;
  }
}
