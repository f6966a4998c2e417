/** inflate_fast: decode without checking for input or output space at every
    step, while at least six bytes of input and 258 bytes of space are left. */
module InfFast {
  import opened Bits
  import opened BitStream
  import opened Huffman
  import opened Ring
  import opened Lz77
  import opened InfTrees
  import opened InflateSpec
  import opened InflateLookup
  import opened InflateStates

  // ----- Codes, with fifteen bits at hand -----

  /** v & ((1U << n) - 1) */
  function Masked(v: nat, n: nat): nat { v % Pow2(n) }

  /** Look a code up and drop it: one entry, or a root entry and the one it links to. */
  method FastCode(z: Inflater, t: CodeType, ghost cs: seq<nat>, table: seq<Code>, root: nat, ghost st: State)
    returns (e: Code, ghost n: nat, ghost r: Sym)
    requires z.Acc() && TableOk(t, cs, table, root) && st.pos == z.Pos() && z.bits >= 15
    modifies z`hold, z`bits
    ensures z.Acc() && z.bits == old(z.bits) - n && |cs| <= SymbolLimit(t)
    ensures Decodes(t, cs, z.input, st, e, n, r)
  {
    hide *;
    z.AccIs();
    AtMostLimit(t, cs, table, root);
    ghost var e1, e2;
    e1, e2, n, r := FastLookup(t, cs, table, root, z.input, st, z.bits, z.hold);
    e := table[Masked(z.hold, root)];
    if IsLink(e) {
      e := FastLinked(z, table, e, e2);
    } else {
      var dropped := z.Take(e.bits);
    }
  }

  /** goto dolen, for a root entry that links to a sub-table. */
  method FastLinked(z: Inflater, table: seq<Code>, last: Code, ghost e2: Code) returns (e: Code)
    requires z.Acc() && last.bits + e2.bits <= z.bits
    requires last.val + Masked(Shifted(z.hold, last.bits), last.op) < |table|
    requires e2 == table[last.val + Masked(Shifted(z.hold, last.bits), last.op)]
    modifies z`hold, z`bits
    ensures z.Acc() && z.bits == old(z.bits) - last.bits - e2.bits && e == e2
  {
    hide *;
    z.AccIs();
    HoldAfter(z.input, z.Pos(), z.bits, last.bits);
    var dropped := z.Take(last.bits);
    z.AccIs();
    e := table[last.val + Masked(z.hold, last.op)];
    dropped := z.Take(e.bits);
  }

  /** Fifteen bits are always enough: the root entry, and the entry it leads to. */
  lemma FastLookup(t: CodeType, cs: seq<nat>, table: seq<Code>, root: nat, input: seq<Byte>, st: State, bits: nat,
                   hold: nat)
    returns (e1: Code, e: Code, n: nat, r: Sym)
    requires TableOk(t, cs, table, root) && st.pos + bits <= 8 * |input| && bits >= 15
    requires hold == Peek(input, st.pos, bits) && |cs| <= SymbolLimit(t)
    ensures Masked(hold, root) < |table| && e1 == table[Masked(hold, root)]
    ensures n <= bits && Decodes(t, cs, input, st, e, n, r)
    ensures if IsLink(e1) then
              && e1.val + Masked(Shifted(hold, e1.bits), e1.op) < |table|
              && e == table[e1.val + Masked(Shifted(hold, e1.bits), e1.op)] && n == e1.bits + e.bits
            else e == e1 && n == e1.bits
  {
    assert MAXBITS == 15 && Masked(hold, root) == hold % Pow2(root);
    hide *;
    RootIndex(t, cs, table, root, hold);
    e1 := table[Masked(hold, root)];
    if e1.bits > bits { FirstTooLong(t, cs, table, root, input, st.pos, bits); }
    if IsLink(e1) {
      e, n, r := LookupLinked(t, cs, table, root, input, st, bits, hold, e1);
    } else {
      r := FirstFits(t, cs, table, root, input, st, bits);
      e, n := e1, e1.bits;
    }
  }

  lemma LookupLinked(t: CodeType, cs: seq<nat>, table: seq<Code>, root: nat, input: seq<Byte>, st: State, bits: nat,
                     hold: nat, e1: Code)
    returns (e: Code, n: nat, r: Sym)
    requires TableOk(t, cs, table, root) && st.pos + bits <= 8 * |input| && bits >= MAXBITS && |cs| <= SymbolLimit(t)
    requires hold == Peek(input, st.pos, bits) && hold % Pow2(root) < |table| && e1 == table[hold % Pow2(root)]
    requires IsLink(e1)
    ensures n <= bits && Decodes(t, cs, input, st, e, n, r)
    ensures e1.val + Masked(Shifted(hold, e1.bits), e1.op) < |table|
    ensures e == table[e1.val + Masked(Shifted(hold, e1.bits), e1.op)] && n == e1.bits + e.bits
  {
    hide *;
    var s := SecondResult(t, cs, table, root, input, st, bits, e1);
    LinkIndex(e1, hold);
    e := table[SubEntry(e1, hold)];
    n, r := root + e.bits, Symbol(s);
  }

  /** this.val + (hold & ((1U << op) - 1)) after the root bits are dropped is the
      index that inflate computes before dropping them. */
  lemma LinkIndex(last: Code, hold: nat)
    ensures SubEntry(last, hold) == last.val + Masked(Shifted(hold, last.bits), last.op)
  {
    hide Pow2;
    DivModSwap(hold, last.bits, last.op);
  }

  lemma HoldAfter(input: seq<Byte>, pos: nat, bits: nat, n: nat)
    requires n <= bits
    ensures Shifted(Peek(input, pos, bits), n) == Peek(input, pos + n, bits - n)
  {
    PeekLow(input, pos, n, bits);
  }

  // ----- Copying a match -----

  /** Where the next byte of a match is: in the window or in this call's output. */
  ghost predicate SourceOk(z: Inflater, inWindow: bool, from: nat, dist: nat)
    reads z, z.out, z.window
  {
    && z.WindowOk(z.hist) && z.put <= z.out.Length && 1 <= dist <= |z.Total()|
    && if inWindow then dist > z.put && dist <= z.put + z.whave && from == BackIndex(z.write, z.wsize, dist - z.put)
       else dist <= z.put && from == z.put - dist
  }

  lemma SourceByte(z: Inflater, inWindow: bool, from: nat, dist: nat)
    requires SourceOk(z, inWindow, from, dist)
    ensures inWindow ==> from < z.window.Length && z.window[from] == z.Total()[|z.Total()| - dist]
    ensures !inWindow ==> from < z.out.Length && z.out[from] == z.Total()[|z.Total()| - dist]
    ensures z.window != z.out
  {
  }

  /** PUP(out) = PUP(from). */
  method CopyByte(z: Inflater, inWindow: bool, from: nat, ghost dist: nat)
    requires SourceOk(z, inWindow, from, dist) && z.put < z.out.Length
    modifies z`put, z.out
    ensures z.WindowOk(z.hist) && z.put == old(z.put) + 1
    ensures z.Total() == old(z.Total() + [z.Total()[|z.Total()| - dist]])
  {
    SourceByte(z, inWindow, from, dist);
    z.Emit(if inWindow then z.window[from] else z.out[from]);
  }

  /** n bytes that lie in one piece. */
  ghost predicate OnePiece(z: Inflater, inWindow: bool, dist: nat, n: nat)
    reads z`put, z`write
  {
    inWindow ==> n <= dist - z.put && (dist - z.put <= z.write || n <= dist - z.put - z.write)
  }

  /** After a run, the source has moved with the output. */
  lemma SourceMoves(z: Inflater, inWindow: bool, from: nat, dist: nat, put0: nat, n: nat)
    requires z.WindowOk(z.hist) && z.put <= z.out.Length && 1 <= dist <= |z.Total()| && z.put == put0 + n
    requires inWindow ==> dist - put0 > n && dist <= put0 + z.whave && from == BackIndex(z.write, z.wsize, dist - put0)
    requires inWindow ==> dist - put0 <= z.write || n < dist - put0 - z.write
    requires !inWindow ==> dist <= put0 && from == put0 - dist
    ensures SourceOk(z, inWindow, from + n, dist)
  {
  }

  method CopyRun(z: Inflater, inWindow: bool, from: nat, ghost dist: nat, n: nat)
    requires SourceOk(z, inWindow, from, dist) && OnePiece(z, inWindow, dist, n) && z.put + n <= z.out.Length
    modifies z`put, z.out
    ensures z.WindowOk(z.hist) && z.put == old(z.put) + n && z.Total() == Extend(old(z.Total()), dist, n)
  {
    hide *;
    var k: nat := 0;
    ghost var h, p0 := z.Total(), z.put;
    ExtendNone(h, dist);
    SourceFacts(z, inWindow, from, dist);
    PieceFacts(z, inWindow, dist, n);
    while k < n
      invariant k <= n && z.put == p0 + k && z.WindowOk(z.hist) && z.window != z.out
      invariant z.Total() == Extend(h, dist, k) && dist <= |z.Total()|
      invariant k < n ==> SourceOk(z, inWindow, from + k, dist)
    {
      ExtendSplit(h, dist, k, 1);
      ExtendOne(z.Total(), dist);
      CopyByte(z, inWindow, from + k, dist);
      k := k + 1;
      if k < n { SourceMoves(z, inWindow, from, dist, p0, k); }
    }
  }

  lemma PieceFacts(z: Inflater, inWindow: bool, dist: nat, n: nat)
    requires OnePiece(z, inWindow, dist, n)
    ensures inWindow ==> n <= dist - z.put && (dist - z.put <= z.write || n <= dist - z.put - z.write)
  {
  }

  lemma SourceFacts(z: Inflater, inWindow: bool, from: nat, dist: nat)
    requires SourceOk(z, inWindow, from, dist)
    ensures 1 <= dist <= |z.Total()| && z.WindowOk(z.hist) && z.window != z.out
    ensures inWindow ==> from == BackIndex(z.write, z.wsize, dist - z.put) && z.put < dist <= z.put + z.whave
    ensures !inWindow ==> dist <= z.put && from == z.put - dist
  {
  }

  lemma ExtendNone(h: seq<Byte>, dist: nat)
    ensures 1 <= dist <= |h| ==> Extend(h, dist, 0) == h
  {
  }

  lemma ExtendOne(h: seq<Byte>, dist: nat)
    requires 1 <= dist <= |h|
    ensures Extend(h, dist, 1) == h + [h[|h| - dist]]
  {
    ExtendNone(h + [h[|h| - dist]], dist);
  }

  /** The rest of a match, three bytes at a time: while (len > 2) { ... } and the tail. */
  method CopyRest(z: Inflater, inWindow: bool, from: nat, ghost dist: nat, len: nat)
    requires SourceOk(z, inWindow, from, dist) && OnePiece(z, inWindow, dist, len) && z.put + len <= z.out.Length
    modifies z`put, z.out
    ensures z.WindowOk(z.hist) && z.put == old(z.put) + len && z.Total() == Extend(old(z.Total()), dist, len)
  {
    hide SourceOk, Holds, Extend;
    ghost var h, p0 := z.Total(), z.put;
    ExtendNone(h, dist);
    SourceFacts(z, inWindow, from, dist);
    var left: nat, f: nat := len, from;
    while left > 2
      invariant left <= len && z.put == p0 + (len - left) && z.WindowOk(z.hist) && z.window != z.out
      invariant f == from + (len - left) && 1 <= dist <= |h| && z.Total() == Extend(h, dist, len - left)
      invariant left > 0 ==> SourceOk(z, inWindow, f, dist)
    {
      ExtendSplit(h, dist, len - left, 3);
      CopyRun(z, inWindow, f, dist, 3);
      left := left - 3;
      f := f + 3;
      if left > 0 { SourceMoves(z, inWindow, from, dist, p0, len - left); }
    }
    if left != 0 {
      ExtendSplit(h, dist, len - left, left);
      CopyRun(z, inWindow, f, dist, left);
    }
  }

  /** Copy a match: the part of it that lies in the window first, in one piece or
      in two, and the rest from the output. */
  method CopyMatch(z: Inflater, len: nat, dist: nat)
    requires z.WindowOk(z.hist) && 1 <= dist <= z.put + z.whave && len >= 3 && z.put + len <= z.out.Length
    modifies z`put, z.out
    ensures z.WindowOk(z.hist) && z.put == old(z.put) + len
    ensures dist <= old(|z.Total()|) && z.Total() == Extend(old(z.Total()), dist, len)
  {
    hide Holds, Extend;
    HistCovers(z);
    if dist <= z.put {
      CopyRest(z, false, z.put - dist, dist, len);
      return;
    }
    var op := dist - z.put;
    if z.write == 0 {
      CopyThenOutput(z, z.wsize - op, op, len, dist);
    } else if z.write < op {
      CopyAround(z, len, dist, op);
    } else {
      CopyThenOutput(z, z.write - op, op, len, dist);
    }
  }

  lemma HistCovers(z: Inflater)
    requires z.WindowOk(z.hist) && z.put <= z.out.Length
    ensures |z.Total()| >= z.put + z.whave
    ensures z.wsize == 0 ==> z.whave == 0
    ensures z.wsize > 0 ==> z.whave <= z.wsize && z.write < z.wsize && (z.whave < z.wsize ==> z.write == z.whave)
  {
  }

  /** op bytes in one piece of the window, then the output. */
  method CopyThenOutput(z: Inflater, from: nat, op: nat, len: nat, dist: nat)
    requires z.WindowOk(z.hist) && dist == z.put + op && 1 <= op <= z.whave && z.put + len <= z.out.Length && len >= 1
    requires from == BackIndex(z.write, z.wsize, op) && (op <= z.write || z.write == 0)
    modifies z`put, z.out
    ensures z.WindowOk(z.hist) && z.put == old(z.put) + len
    ensures dist <= old(|z.Total()|) && z.Total() == Extend(old(z.Total()), dist, len)
  {
    hide Holds, Extend;
    HistCovers(z);
    if op < len {
      ghost var h := z.Total();
      CopyRun(z, true, from, dist, op);
      ExtendSplit(h, dist, op, len - op);
      CopyRest(z, false, z.put - dist, dist, len - op);
    } else {
      CopyRest(z, true, from, dist, len);
    }
  }

  /** The end of the window, then its start, then the output. */
  method CopyAround(z: Inflater, len: nat, dist: nat, back: nat)
    requires z.WindowOk(z.hist) && dist == z.put + back && back <= z.whave && 0 < z.write < back
    requires z.put + len <= z.out.Length && len >= 1
    modifies z`put, z.out
    ensures z.WindowOk(z.hist) && z.put == old(z.put) + len
    ensures dist <= old(|z.Total()|) && z.Total() == Extend(old(z.Total()), dist, len)
  {
    hide Holds, Extend;
    HistCovers(z);
    var from := z.wsize + z.write - back;
    var op := back - z.write;
    if op < len {
      ghost var h := z.Total();
      CopyRun(z, true, from, dist, op);
      ExtendSplit(h, dist, op, len - op);
      CopyThenOutput(z, 0, z.write, len - op, dist);
    } else {
      CopyRest(z, true, from, dist, len);
    }
  }

  // ----- Bits and bounds -----

  /** if (bits < 15) pull two bytes. n0 is where the input stood at the start of
      the iteration: so far at most 20 bits of it have been consumed. */
  method Fill15(z: Inflater, ghost n0: nat)
    requires z.Acc() && z.bits <= 30 && n0 + 6 <= |z.input| && z.Pos() <= 8 * n0 + 20 && z.next <= n0 + 6
    modifies z`hold, z`bits, z`next
    ensures z.Acc() && z.Pos() == old(z.Pos()) && 15 <= z.bits <= 30 && old(z.next) <= z.next <= n0 + 6
  {
    hide Peek;
    if z.bits < 15 {
      z.PullByte();
      z.PullByte();
    }
  }

  /** Extra bits of a length or a distance: at most 35 bits consumed before them. */
  method FastBits(z: Inflater, op: nat, ghost n0: nat) returns (v: nat)
    requires z.Acc() && z.bits <= 30 && op <= 13 && n0 + 6 <= |z.input| && z.Pos() <= 8 * n0 + 35 && z.next <= n0 + 6
    modifies z`hold, z`bits, z`next
    ensures z.Acc() && z.Pos() == old(z.Pos()) + op && z.bits <= 30 && old(z.next) <= z.next <= n0 + 6
    ensures v == Peek(z.input, old(z.Pos()), op) && v < Pow2(op)
  {
    hide Peek, Pow2;
    if z.bits < op {
      z.PullByte();
      if z.bits < op {
        z.PullByte();
      }
    }
    v := z.Take(op);
  }

  /** A whole match, byte by byte, in the bit-level machine. */
  lemma {:induction false} MatchRun(input: seq<Byte>, s: State)
    requires s.ph.MatchP? && 1 <= s.ph.offset <= |s.out| && s.ph.length >= 1
    ensures Within(input, s, s.(out := Extend(s.out, s.ph.offset, s.ph.length), ph := LenP(s.ph.ll, s.ph.dl)))
    decreases s.ph.length
  {
    hide Within, Next;
    MatchTo(input, s, s.out[|s.out| - s.ph.offset]);
    WithinStep(input, s);
    var t := Next(input, s).s;
    if s.ph.length > 1 {
      MatchRun(input, t);
      WithinTrans(input, s, t, s.(out := Extend(s.out, s.ph.offset, s.ph.length), ph := LenP(s.ph.ll, s.ph.dl)));
    } else {
      ExtendNone(t.out, s.ph.offset);
    }
  }

  // ----- One turn of the loop -----

  /** Registers that stand at machine state st, whatever the mode field says. */
  ghost predicate Standing(z: Inflater, st: State)
    reads z, z.out
  {
    && z.Acc() && z.put <= z.out.Length && st.pos == z.Pos() && st.out == z.Total() && st.last == z.last
    && st.lim == Limit(|z.hist|, z.W)
  }

  /** From a length base on: length extra, distance code, distance extra, copy. */
  method FastMatch(z: Inflater, val: nat, op: nat, ghost st: State, ghost n0: nat)
    requires z.Ok() && z.mode.LEN? && z.WindowOk(z.hist) && Standing(z, st) && st.ph == LenExtP(z.ll, z.dl, val, op)
    requires z.bits <= 30 && n0 + 6 <= |z.input| && z.Pos() <= 8 * n0 + 15 && z.next <= n0 + 6
    requires val >= 3 && op <= 5 && val + Pow2(op) - 1 <= 258 && z.put + 258 <= z.out.Length
    modifies z`hold, z`bits, z`next, z`put, z`mode, z`refused, z.out
    ensures z.Ok() && z.WindowOk(z.hist) && Within(z.input, st, z.Abs()) && (z.mode.LEN? || z.mode.BAD?)
    ensures z.bits <= 30 && old(z.next) <= z.next <= n0 + 6 && old(z.put) <= z.put <= old(z.put) + 258
    ensures z.Pos() >= old(z.Pos())
  {
    hide Within, Next, Peek, Pow2, Decodes, TableOk, Holds, Inflater.Tables, Inflater.Lengths, Inflater.CodesOk;
    hide Inflater.WindowOk, AfterDist, Inflater.Total;
    z.HasCodes();
    var v := FastBits(z, op, n0);
    LenExtTo(z.input, st, v);
    ghost var s2 := Next(z.input, st).s;
    WithinStep(z.input, st);
    FastDistCode(z, val + v, s2, n0);
    WithinTrans(z.input, st, s2, z.Abs());
  }

  /** From a length on: distance code, distance extra, copy. */
  method FastDistCode(z: Inflater, len: nat, ghost st: State, ghost n0: nat)
    requires z.Ok() && z.mode.LEN? && z.WindowOk(z.hist) && Standing(z, st) && st.ph == DistP(z.ll, z.dl, len)
    requires z.bits <= 30 && n0 + 6 <= |z.input| && z.Pos() <= 8 * n0 + 20 && z.next <= n0 + 6
    requires 3 <= len <= 258 && z.put + 258 <= z.out.Length
    modifies z`hold, z`bits, z`next, z`put, z`mode, z`refused, z.out
    ensures z.Ok() && z.WindowOk(z.hist) && Within(z.input, st, z.Abs()) && (z.mode.LEN? || z.mode.BAD?)
    ensures z.bits <= 30 && old(z.next) <= z.next <= n0 + 6 && old(z.put) <= z.put <= old(z.put) + 258
    ensures z.Pos() >= old(z.Pos())
  {
    hide Within, Next, Peek, Pow2, Decodes, TableOk, Holds, Inflater.Tables, Inflater.Lengths, Inflater.CodesOk;
    hide Inflater.WindowOk, AfterDist, Inflater.Total;
    z.HasCodes();
    Fill15(z, n0);
    var e; ghost var n, r;
    e, n, r := FastCode(z, DISTS, z.dl, z.distcode, z.distbits, st);
    DistTo(z.input, st, e, n, r);
    ghost var s3 := Next(z.input, st).s;
    WithinStep(z.input, st);
    DistEntry(z.dl, z.input, st, e, n, r);
    DecodesBits(DISTS, z.dl, z.input, st, e, n, r);
    NotType(z.ll, z.dl, len, e);
    FastDist(z, len, e, s3, n0);
    WithinTrans(z.input, st, s3, z.Abs());
  }

  lemma NotType(ll: seq<nat>, dl: seq<nat>, len: nat, e: Code)
    ensures !AfterDist(ll, dl, len, e).TypeP?
  {
  }

  method FastDist(z: Inflater, len: nat, e: Code, ghost st: State, ghost n0: nat)
    requires z.Ok() && z.mode.LEN? && z.WindowOk(z.hist) && Standing(z, st) && st.ph == AfterDist(z.ll, z.dl, len, e)
    requires z.bits <= 30 && n0 + 6 <= |z.input| && z.Pos() <= 8 * n0 + 35 && z.next <= n0 + 6
    requires 3 <= len <= 258 && z.put + 258 <= z.out.Length
    requires HasFlag(e.op, 16) <==> !HasFlag(e.op, 64)
    requires !HasFlag(e.op, 64) ==> e.val >= 1 && e.op % 16 <= 13 && e.val + Pow2(e.op % 16) - 1 <= 32768
    modifies z`hold, z`bits, z`next, z`put, z`mode, z`refused, z.out
    ensures z.Ok() && z.WindowOk(z.hist) && Within(z.input, st, z.Abs()) && (z.mode.LEN? || z.mode.BAD?)
    ensures z.bits <= 30 && old(z.next) <= z.next <= n0 + 6 && old(z.put) <= z.put <= old(z.put) + 258
    ensures z.Pos() >= old(z.Pos())
  {
    hide Within, Next, Peek, Pow2, TableOk, Holds;
    if HasFlag(e.op, 16) {
      var v := FastBits(z, e.op % 16, n0);
      DistExtTo(z.input, st, v);
      ghost var s4 := Next(z.input, st).s;
      WithinStep(z.input, st);
      FastCopy(z, len, e.val + v, s4);
      WithinTrans(z.input, st, s4, z.Abs());
    } else {
      WithinRefl(z.input, st);
      z.SetBad();
    }
  }

  method FastCopy(z: Inflater, len: nat, dist: nat, ghost st: State)
    requires z.Ok() && z.mode.LEN? && z.WindowOk(z.hist) && Standing(z, st) && 1 <= dist
    requires st.ph == if dist > |st.out| then BadP
                      else if dist > Reach(st.lim, |st.out|) then RefusedP
                      else MatchP(z.ll, z.dl, len, dist)
    requires 3 <= len <= 258 && z.put + 258 <= z.out.Length
    modifies z`put, z`mode, z`refused, z.out
    ensures z.Ok() && z.WindowOk(z.hist) && Within(z.input, st, z.Abs()) && (z.mode.LEN? || z.mode.BAD?)
    ensures old(z.put) <= z.put <= old(z.put) + 258
  {
    hide Within, Peek, TableOk, Holds;
    ReachIs(z);
    if dist > z.put + z.whave {
      WithinRefl(z.input, st);
      z.SetTooFar(dist <= |z.Total()|);
    } else {
      HistCovers(z);
      MatchRun(z.input, st);
      CopyMatch(z, len, dist);
    }
  }

  /** How far back the window and the output of this call go. */
  lemma ReachIs(z: Inflater)
    requires z.Covers(z.hist) && z.put <= z.out.Length
    ensures Reach(Limit(|z.hist|, z.W), |z.Total()|) == z.put + z.whave
  {
  }

  /** The literal/length code of an iteration. */
  method FastFirst(z: Inflater) returns (e: Code, ghost s1: State)
    requires z.Ok() && z.mode.LEN? && z.WindowOk(z.hist) && z.bits <= 30 && z.next + 6 <= |z.input|
    modifies z`hold, z`bits, z`next
    ensures z.Ok() && Standing(z, s1) && s1.ph == AfterLen(z.ll, z.dl, e) && Within(z.input, old(z.Abs()), s1)
    ensures z.bits <= 30 && old(z.next) <= z.next <= old(z.next) + 6 && z.Pos() <= 8 * old(z.next) + 15
    ensures e.op == 0 ==> e.val < 256
    ensures HasFlag(e.op, 16) <==> e.op != 0 && !HasFlag(e.op, 32) && !HasFlag(e.op, 64)
    ensures HasFlag(e.op, 16) ==> e.val >= 3 && e.op % 16 <= 5 && e.val + Pow2(e.op % 16) - 1 <= 258
    ensures z.Pos() > old(z.Pos())
    ensures Blocked(z.ll, z.input, old(z.Pos()), old(z.bits)) ==> z.Pos() > old(z.Pos()) + old(z.bits)
  {
    hide Within, Next, Peek, Pow2, Decodes, TableOk, Holds, Blocked, AfterLen, Inflater.WindowOk;
    ghost var s0, n0, b0 := z.Abs(), z.next, z.bits;
    Fill15(z, n0);
    ghost var n, r;
    e, n, r := FastCode(z, LENS, z.ll, z.lencode, z.lenbits, s0);
    LenTo(z.input, s0, e, n, r);
    s1 := Next(z.input, s0).s;
    WithinStep(z.input, s0);
    LenEntry(z.ll, z.input, s0, e, n, r);
    DecodesBits(LENS, z.ll, z.input, s0, e, n, r);
    if Blocked(z.ll, z.input, s0.pos, b0) { LongerThan(z.ll, z.input, e, n, r, s0, b0); }
  }

  /** One literal, one match, the end of the block, or an error. */
  method FastOne(z: Inflater)
    requires z.Ok() && z.mode.LEN? && z.WindowOk(z.hist) && z.bits <= 30
    requires z.next + 6 <= |z.input| && z.put + 258 <= z.out.Length
    modifies z`hold, z`bits, z`next, z`put, z`mode, z`refused, z.out
    ensures z.Ok() && z.WindowOk(z.hist) && Within(z.input, old(z.Abs()), z.Abs())
    ensures z.mode.LEN? || z.mode.TYPE? || z.mode.BAD?
    ensures z.bits <= 30 && old(z.next) <= z.next <= old(z.next) + 6 && old(z.put) <= z.put <= old(z.put) + 258
    ensures z.Pos() > old(z.Pos())
    ensures Blocked(z.ll, z.input, old(z.Pos()), old(z.bits)) ==> z.Pos() > old(z.Pos()) + old(z.bits)
  {
    hide *;
    ghost var s0, n0 := z.Abs(), z.next;
    var e; ghost var s1;
    e, s1 := FastFirst(z);
    FastSymbol(z, e, s1, n0);
    WithinTrans(z.input, s0, s1, z.Abs());
  }

  /** Act on a literal/length entry whose code has been dropped. */
  method FastSymbol(z: Inflater, e: Code, ghost st: State, ghost n0: nat)
    requires z.Ok() && z.mode.LEN? && z.WindowOk(z.hist) && Standing(z, st) && st.ph == AfterLen(z.ll, z.dl, e)
    requires z.bits <= 30 && n0 + 6 <= |z.input| && z.Pos() <= 8 * n0 + 15 && z.next <= n0 + 6
    requires z.put + 258 <= z.out.Length && (e.op == 0 ==> e.val < 256)
    requires HasFlag(e.op, 16) <==> e.op != 0 && !HasFlag(e.op, 32) && !HasFlag(e.op, 64)
    requires HasFlag(e.op, 16) ==> e.val >= 3 && e.op % 16 <= 5 && e.val + Pow2(e.op % 16) - 1 <= 258
    modifies z`hold, z`bits, z`next, z`put, z`mode, z`refused, z.out
    ensures z.Ok() && z.WindowOk(z.hist) && Within(z.input, st, z.Abs())
    ensures z.mode.LEN? || z.mode.TYPE? || z.mode.BAD?
    ensures z.bits <= 30 && old(z.next) <= z.next <= n0 + 6 && old(z.put) <= z.put <= old(z.put) + 258
    ensures z.Pos() >= old(z.Pos()) && (st.ph.TypeP? ==> z.Abs() == st)
  {
    hide Within, Next, Peek, Pow2, TableOk, Holds;
    if e.op == 0 {
      LitTo(z.input, st);
      z.Emit(e.val);
      WithinStep(z.input, st);
    } else if HasFlag(e.op, 16) {
      FastMatch(z, e.val, e.op % 16, st, n0);
    } else {
      WithinRefl(z.input, st);
      z.mode := if HasFlag(e.op, 32) then TYPE else BAD;
    }
  }

  /** The literal/length code at the front is longer than the b bits at hand. */
  ghost predicate Blocked(lens: seq<nat>, input: seq<Byte>, pos: int, b: nat) {
    pos >= 0 && TooShort(lens, input, pos, b) && MaxLen(lens) > 1
  }

  lemma LongerThan(lens: seq<nat>, input: seq<Byte>, e: Code, n: nat, r: Sym, st: State, b: nat)
    requires |lens| <= 288 && Decodes(LENS, lens, input, st, e, n, r) && Blocked(lens, input, st.pos, b)
    ensures n > b
  {
    hide Peek, MaxLen, EntryFor;
    if r.Symbol? { assert !Fits(lens, r.s, Peek(input, st.pos, 15), b); }
  }

  /** A LEN state that holds a whole spare byte was suspended inside a code. */
  lemma SpareMeansBlocked(z: Inflater)
    requires z.Ok() && z.Lazy() && z.mode.LEN? && z.bits >= 8
    ensures Blocked(z.ll, z.input, z.Pos(), z.bits)
  {
    hide Peek, Pow2, MaxLen, Rev, CodeValue, TableOk, Inflater.Total, Decode;
    var s, pre := z.Abs(), z.input[..z.next];
    assert z.input == pre + z.input[z.next..];
    LenStuck(pre, s);
    forall r: nat
      ensures !Fits(z.ll, r, Peek(z.input, s.pos, 15), z.bits)
    {
      assert !Fits(z.ll, r, Peek(pre, s.pos, 15), z.bits);
      if Fits(z.ll, r, Peek(z.input, s.pos, 15), z.bits) {
        FrontAgrees(pre, z.input[z.next..], s.pos, z.ll[r]);
        RevInjective(z.ll[r], Peek(pre, s.pos, 15), Peek(z.input, s.pos, 15));
      }
    }
  }

  lemma LenStuck(input: seq<Byte>, s: State)
    requires s.ph.LenP? && Stopped(input, s) && Avail(input, s) >= 1
    ensures MaxLen(s.ph.ll) > 1 && forall r: nat :: !Fits(s.ph.ll, r, Peek(input, s.pos, 15), Avail(input, s))
  {
    hide Peek, MaxLen, LenPhase;
    assert !Decode(s.ph.ll, Peek(input, s.pos, 15), Avail(input, s)).Symbol?;
  }

  /** Decode until input or output space runs short, the block ends, or an error is
      found; then hand back the whole bytes that were read but not used. */
  method InflateFast(z: Inflater)
    requires z.Ok() && z.Lazy() && z.mode.LEN? && z.WindowOk(z.hist)
    requires z.next + 6 <= |z.input| && z.put + 258 <= z.out.Length
    modifies z`hold, z`bits, z`next, z`put, z`mode, z`refused, z.out
    ensures z.Ok() && z.WindowOk(z.hist) && Within(z.input, old(z.Abs()), z.Abs())
    ensures z.mode.LEN? || z.mode.TYPE? || z.mode.BAD?
    ensures z.bits < 8 && z.next >= old(z.next) && z.put >= old(z.put) && z.Pos() > old(z.Pos())
    ensures z.mode.LEN? ==> |z.input| - z.next < 6 + 3 || z.out.Length - z.put < 258
  {
    hide *;
    ghost var s0, p0, b0, n0 := z.Abs(), z.Pos(), z.bits, z.next;
    BitsBound(z);
    InputBound(z);
    if z.bits >= 8 { SpareMeansBlocked(z); }
    FastOne(z);
    while z.mode.LEN? && |z.input| - z.next >= 6 && z.out.Length - z.put >= 258
      invariant z.Ok() && z.WindowOk(z.hist) && z.bits <= 30 && Within(z.input, s0, z.Abs())
      invariant z.mode.LEN? || z.mode.TYPE? || z.mode.BAD?
      invariant z.next >= n0 && z.put >= old(z.put) && z.Pos() > p0
      invariant b0 >= 8 ==> z.Pos() > p0 + b0
      decreases 8 * |z.input| - z.Pos()
    {
      ghost var s := z.Abs();
      InputBound(z);
      InLen(z);
      FastOne(z);
      WithinTrans(z.input, s0, s, z.Abs());
    }
    HandBack(z, n0);
  }

  lemma InLen(z: Inflater)
    requires z.Ok() && z.mode.LEN?
    ensures !z.Abs().ph.TypeP?
  {
    hide *;
    z.OkParts();
    z.AbsParts();
    z.PhaseIs();
  }

  lemma BitsBound(z: Inflater)
    requires z.Ok() && z.Lazy() && z.mode.LEN?
    ensures z.bits <= 30
  {
    if z.bits >= 8 { SpareMeansBlocked(z); FewBits(z); }
  }

  lemma FewBits(z: Inflater)
    requires z.Ok() && z.mode.LEN? && Blocked(z.ll, z.input, z.Pos(), z.bits)
    ensures z.bits < 15
  {
    hide Peek, Pow2, Rev, CodeValue, TableFor, MaxLen, Complete;
    var v := Peek(z.input, z.Pos(), 15);
    var s := CompleteDecodes(z.ll, v);
    assert !Fits(z.ll, s, v, z.bits);
  }

  lemma InputBound(z: Inflater)
    requires z.Ok()
    ensures z.next <= |z.input| && z.Pos() == 8 * z.next - z.bits && z.put <= z.out.Length
  {
  }

  /** Return unused bytes: len = bits >> 3; in -= len; bits -= len << 3. */
  method HandBack(z: Inflater, ghost n0: nat)
    requires z.Ok() && z.WindowOk(z.hist) && z.bits <= 30 && z.Pos() > 8 * (n0 - 1)
    requires z.mode.LEN? || z.mode.TYPE? || z.mode.BAD?
    modifies z`hold, z`bits, z`next
    ensures z.Ok() && z.WindowOk(z.hist) && z.Abs() == old(z.Abs()) && z.bits < 8
    ensures z.next >= n0 && old(z.next) - 3 <= z.next <= old(z.next) && z.Pos() == old(z.Pos())
  {
    hide Peek, Pow2, TableOk, Inflater.Total;
    var len := z.bits / 8;
    PeekLow(z.input, z.Pos(), z.bits - 8 * len, z.bits);
    z.next := z.next - len;
    z.bits := z.bits - 8 * len;
    z.hold := z.hold % Pow2(z.bits);
  }
}
