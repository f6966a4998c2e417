/** inflate for raw deflate data (wrap == 0) and a window of any size: a state machine
    that can stop after any input byte and at any point of the output. */
module InflateStates {
  import opened Bits
  import opened BitStream
  import opened Huffman
  import opened InfTrees
  import opened InfTable
  import opened InflateSpec
  import opened InflateLookup
  import opened Ring

  datatype Mode = HEAD | TYPE | TYPEDO | STORED | COPY | TABLE | LENLENS | CODELENS
                | LEN | LENEXT | DIST | DISTEXT | MATCH | LIT | CHECK | DONE | BAD

  const MAX_DIST := 32768

  /** Values received for the first have code length codes. */
  function Got(lens: seq<nat>, have: nat): (r: seq<nat>)
    requires |lens| == 320 && have <= 19
    ensures |r| == have
  {
    seq(have, i requires 0 <= i < have => lens[ORDER[i]])
  }

  predicate Stop(m: Mode) { m.CHECK? || m.DONE? || m.BAD? }
  ghost predicate InCodes(m: Mode) { m.LEN? || m.LENEXT? || m.DIST? || m.DISTEXT? || m.MATCH? || m.LIT? }

  /** A state whose step could be taken on the bytes pulled so far never has a
      whole spare byte in the accumulator. */
  lemma NoSpareByte(input: seq<Byte>, next: nat, bits: nat, s: State, t: State)
    requires next <= |input| && s.pos + bits == 8 * next
    requires bits < 8 || Stopped(input[..next], s)
    requires Next(input, s) == Step(t) && s.pos <= t.pos <= 8 * next && !t.ph.BadP?
    ensures bits < 8
  {
    hide Next;
    assert input == input[..next] + input[next..];
    NextLess(input[..next], input[next..], s, t);
  }

  class Inflater {
    // the stream: bytes supplied so far and the next to read; space for output and the next place in it
    var input: seq<Byte>
    var next: nat
    var out: array<Byte>
    var put: nat

    var mode: Mode
    var last: bool
    var hold: nat
    var bits: nat
    var length: nat
    var offset: nat
    var extra: nat
    var nlen: nat
    var ndist: nat
    var ncode: nat
    var have: nat
    var lens: seq<nat>
    var lencode: seq<Code>
    var lenbits: nat
    var distcode: seq<Code>
    var distbits: nat
    const work: array<nat>

    var window: array<Byte>
    var wsize: nat
    var whave: nat
    var write: nat

    const W: nat                  // 1 << wbits, the size the window has or will have

    ghost var refused: bool       // a distance was refused that lies in the output
    ghost var hist: seq<Byte>     // output of the earlier calls
    ghost var ll: seq<nat>        // code lengths behind lencode and distcode
    ghost var dl: seq<nat>
    ghost var cl: seq<nat>

    ghost function Pos(): int
      reads `next, `bits
    {
      8 * next - bits
    }

    ghost predicate Acc()
      reads `input, `next, `hold, `bits
    {
      next <= |input| && bits <= 32 && bits <= 8 * next && hold == Peek(input, 8 * next - bits, bits)
    }

    /** The decoding tables of the block. */
    ghost predicate CodesOk()
      reads `ll, `dl, `lencode, `lenbits, `distcode, `distbits
    {
      TableOk(LENS, ll, lencode, lenbits) && TableOk(DISTS, dl, distcode, distbits)
    }

    /** The code length code lengths received so far. */
    ghost predicate HeaderOk()
      reads `nlen, `ndist, `ncode, `have, `lens
    {
      && 257 <= nlen <= 286 && 1 <= ndist <= 30 && have <= ncode <= 19 && |lens| == 320
      && forall i :: 0 <= i < have ==> lens[ORDER[i]] <= 7
    }

    /** The code lengths received so far, and the table that decodes them. */
    ghost predicate CodeLensOk()
      reads `nlen, `ndist, `have, `lens, `cl, `lencode, `lenbits
    {
      && 257 <= nlen <= 286 && 1 <= ndist <= 30 && have <= nlen + ndist && |lens| == 320
      && |cl| == 19 && TableOk(CODES, cl, lencode, lenbits) && (Complete(cl) || MaxLen(cl) == 0)
      && forall i :: 0 <= i < have ==> lens[i] <= MAXBITS
    }

    ghost predicate Tables()
      reads `mode, `lens, `nlen, `ndist, `ncode, `have, `ll, `dl, `cl, `lencode, `lenbits, `distcode, `distbits
    {
      && |lens| == 320 && work.Length == 288
      && (InCodes(mode) ==> CodesOk())
      && (mode.LENLENS? ==> HeaderOk())
      && (mode.CODELENS? ==> CodeLensOk())
    }

    ghost predicate Lengths()
      reads `mode, `length, `offset, `extra, `hist, `out, `put, out
    {
      && put <= out.Length
      && (mode.LENEXT? ==> length >= 3 && extra <= 5 && length + Pow2(extra) - 1 <= 258)
      && (mode.DIST? ==> 3 <= length <= 258)
      && (mode.DISTEXT? ==> 3 <= length <= 258 && offset >= 1 && extra <= 13 && offset + Pow2(extra) - 1 <= MAX_DIST)
      && (mode.MATCH? ==> 1 <= length <= 258 && 1 <= offset <= |Total()|)
      && (mode.MATCH? ==> offset <= Reach(Limit(|hist|, W), |Total()|))
      && (mode.LIT? ==> length < 256)
    }

    ghost function Total(): seq<Byte>
      reads `hist, `out, `put, out
    {
      if put <= out.Length then hist + out[..put] else hist
    }

    ghost function Phase(): Phase
      reads `mode, `length, `offset, `extra, `nlen, `ndist, `ncode, `have, `lens, `ll, `dl, `cl, `refused
    {
      match mode
      case HEAD => TypeP case TYPE => TypeP case TYPEDO => TypeP
      case STORED => StoredP
      case COPY => CopyP(length)
      case TABLE => TableP
      case LENLENS => if |lens| == 320 && have <= 19 then LenLensP(nlen, ndist, ncode, Got(lens, have)) else BadP
      case CODELENS => if have <= |lens| then CodeLensP(nlen, ndist, cl, lens[..have]) else BadP
      case LEN => LenP(ll, dl)
      case LENEXT => LenExtP(ll, dl, length, extra)
      case DIST => DistP(ll, dl, length)
      case DISTEXT => DistExtP(ll, dl, length, offset, extra)
      case MATCH => MatchP(ll, dl, length, offset)
      case LIT => LitP(ll, dl, length % 256)
      case CHECK => DoneP case DONE => DoneP
      case BAD => if refused then RefusedP else BadP
    }

    lemma PhaseIs()
      ensures mode.HEAD? || mode.TYPE? || mode.TYPEDO? ==> Phase() == TypeP
      ensures mode.STORED? ==> Phase() == StoredP
      ensures mode.COPY? ==> Phase() == CopyP(length)
      ensures mode.TABLE? ==> Phase() == TableP
      ensures mode.LENLENS? && |lens| == 320 && have <= 19 ==> Phase() == LenLensP(nlen, ndist, ncode, Got(lens, have))
      ensures mode.CODELENS? && have <= |lens| ==> Phase() == CodeLensP(nlen, ndist, cl, lens[..have])
      ensures mode.LEN? ==> Phase() == LenP(ll, dl)
      ensures mode.LENEXT? ==> Phase() == LenExtP(ll, dl, length, extra)
      ensures mode.DIST? ==> Phase() == DistP(ll, dl, length)
      ensures mode.DISTEXT? ==> Phase() == DistExtP(ll, dl, length, offset, extra)
      ensures mode.MATCH? ==> Phase() == MatchP(ll, dl, length, offset)
      ensures mode.CHECK? || mode.DONE? ==> Phase() == DoneP
      ensures mode.BAD? ==> Phase() == if refused then RefusedP else BadP
    {
    }

    /** The state of the bit-level machine that this state stands for. */
    ghost function Abs(): State
      reads `last, `bits, `next, `hist, `out, `put, out,
            `mode, `length, `offset, `extra, `nlen, `ndist, `ncode, `have, `lens, `ll, `dl, `cl, `refused
    {
      State(last, if bits <= 8 * next then 8 * next - bits else 0, Total(), Phase(), Limit(|hist|, W))
    }

    /** No byte is pulled before the current step needs it, and none past the end of the data. */
    ghost predicate Lazy()
      reads `input, `last, `bits, `next, `hist, `out, `put, out,
            `mode, `length, `offset, `extra, `nlen, `ndist, `ncode, `have, `lens, `ll, `dl, `cl, `refused
    {
      || mode.BAD?
      || (if Stop(mode) then bits == 0 else bits < 8 || (next <= |input| && Stopped(input[..next], Abs())))
    }

    ghost predicate Inv()
      reads `input, `next, `hold, `bits, `last, `hist, `out, `put, out, `mode, `length, `offset, `extra,
            `nlen, `ndist, `ncode, `have, `lens, `ll, `dl, `cl, `lencode, `lenbits, `distcode, `distbits, `refused
    {
      Ok() && Lazy()
    }

    ghost predicate Ok()
      reads `input, `next, `hold, `bits, `hist, `out, `put, out, `mode, `length, `offset, `extra,
            `nlen, `ndist, `ncode, `have, `lens, `ll, `dl, `cl, `lencode, `lenbits, `distcode, `distbits, `refused
    {
      Acc() && Tables() && Lengths() && (mode.COPY? ==> bits == 0) && (refused ==> mode.BAD?)
    }

    /** One step was taken from s, or none could be for want of input. */
    ghost predicate Advanced(s: State, ok: bool)
      reads `input, `last, `bits, `next, `hist, `out, `put, out,
            `mode, `length, `offset, `extra, `nlen, `ndist, `ncode, `have, `lens, `ll, `dl, `cl, `refused
    {
      if ok then Next(input, s) == Step(Abs())
      else Abs() == s && Next(input, s).NeedInput? && next == |input|
    }

    lemma OkParts()
      ensures Ok() <==> Acc() && Tables() && Lengths() && (mode.COPY? ==> bits == 0) && (refused ==> mode.BAD?)
    {
    }

    lemma AbsParts()
      requires Acc()
      ensures Pos() >= 0 && Abs() == State(last, Pos(), Total(), Phase(), Limit(|hist|, W))
    {
      hide Peek, Total, Phase;
    }

    lemma AdvancedIs(s: State, ok: bool)
      ensures Advanced(s, ok) <==>
              if ok then Next(input, s) == Step(Abs())
              else Abs() == s && Next(input, s).NeedInput? && next == |input|
    {
    }

    /** A step that pulled bytes did so for bits it consumed. */
    lemma LazyAfter(s: State, b0: nat, n0: nat, ok: bool)
      requires Ok() && n0 <= |input| && s.pos + b0 == 8 * n0 && (b0 < 8 || Stopped(input[..n0], s))
      requires Advanced(s, ok) && (ok ==> s.pos <= Abs().pos) && (ok && !Stop(mode) ==> next == n0 || bits < 8)
      requires mode.CHECK? || mode.DONE? ==> bits == 0
      ensures Lazy()
    {
      hide Next, Total, Peek, CodesOk;
      if ok {
        if next == n0 && !Stop(mode) {
          PhaseNotBad();
          NoSpareByte(input, n0, b0, s, Abs());
        }
      } else {
        assert input[..next] == input;
      }
    }

    /** The tables of the block, while its codes are in use. */
    lemma HasCodes()
      requires Tables() && InCodes(mode)
      ensures TableOk(LENS, ll, lencode, lenbits) && TableOk(DISTS, dl, distcode, distbits)
    {
      hide TableOk, HeaderOk, CodeLensOk;
    }

    lemma HasCodeLens()
      requires Tables() && mode.CODELENS?
      ensures CodeLensOk() && TableOk(CODES, cl, lencode, lenbits)
    {
      hide TableOk, HeaderOk, CodesOk;
    }

    lemma PhaseNotBad()
      requires !Stop(mode) && Tables()
      ensures !Phase().BadP?
    {
      hide Got, TableOk, Complete, MaxLen, Pow2;
    }

    /** inflateInit2 with windowBits -wbits: nothing read, nothing written, no window yet. */
    constructor (wbits: nat)
      requires 8 <= wbits <= 15
      ensures Ok() && Lazy() && WindowOk([]) && hist == [] && input == [] && put == 0 && !refused && W == Pow2(wbits)
      ensures Abs() == INITIAL.(lim := Limit(0, W))
      ensures fresh(work) && fresh(window) && fresh(out)
    {
      input, next, put := [], 0, 0;
      mode, last, hold, bits := HEAD, false, 0, 0;
      length, offset, extra, nlen, ndist, ncode, have := 0, 0, 0, 0, 0, 0, 0;
      lens := seq(320, _ => 0);
      lencode, lenbits, distcode, distbits := [], 0, [], 0;
      work := new nat[288];
      out := new Byte[0];
      window := new Byte[0];
      wsize, whave, write := 0, 0, 0;
      hist, ll, dl, cl := [], [], [], [];
      W, refused := Pow2(wbits), false;
      new;
      PeekNone(input, 0);
    }

    // ----- The bit accumulator -----

    /** PULLBYTE: hold += (unsigned long)(*next++) << bits; bits += 8. */
    method PullByte()
      requires Acc() && next < |input| && bits <= 24
      modifies `hold, `bits, `next
      ensures Acc() && next == old(next) + 1 && bits == old(bits) + 8
    {
      hide Peek, Pow2;
      PeekPull(input, next, bits);
      hold := hold + input[next] * Pow2(bits);
      next := next + 1;
      bits := bits + 8;
    }

    /** NEEDBITS(n): false when the input runs out first. */
    method NeedBits(n: nat) returns (ok: bool)
      requires Acc() && (n <= 25 || (n <= 32 && bits % 8 == 0))
      modifies `hold, `bits, `next
      ensures Acc() && Pos() == old(Pos())
      ensures ok <==> bits >= n
      ensures !ok ==> next == |input|
      ensures (bits == old(bits) && next == old(next)) || bits < n + 8
      ensures old(bits % 8) == bits % 8
    {
      hide *;
      AccIs();
      while bits < n
        invariant Acc() && Pos() == old(Pos()) && bits % 8 == old(bits % 8)
        invariant (bits == old(bits) && next == old(next)) || bits < n + 8
        decreases n - bits
      {
        AccIs();
        if next == |input| { return false; }
        PullByte();
        AccIs();
      }
      ok := true;
    }

    /** BITS(n) followed by DROPBITS(n). */
    method Take(n: nat) returns (v: nat)
      requires Acc() && n <= bits
      modifies `hold, `bits
      ensures Acc() && bits == old(bits) - n
      ensures v == Peek(input, old(Pos()), n) && v < Pow2(n)
    {
      hide Peek, Pow2;
      PeekLow(input, 8 * next - bits, n, bits);
      PeekBound(input, 8 * next - bits, n);
      v := hold % Pow2(n);
      hold := hold / Pow2(n);
      bits := bits - n;
    }

    /** BYTEBITS: drop the bits up to the byte boundary. */
    method ByteBits()
      requires Acc()
      modifies `hold, `bits
      ensures Acc() && bits % 8 == 0 && Pos() == Align(old(Pos())) && bits == old(bits) - old(bits % 8)
    {
      hide Peek;
      var v := Take(bits % 8);
    }

    /** NEEDBITS(n), BITS(n), DROPBITS(n), where the C code guards against n == 0. */
    method GetBits(n: nat) returns (ok: bool, v: nat)
      requires Acc() && n <= 25
      modifies `hold, `bits, `next
      ensures Acc()
      ensures ok ==> v == Peek(input, old(Pos()), n) && v < Pow2(n) && Pos() == old(Pos()) + n
      ensures ok ==> next == old(next) || bits < 8
      ensures !ok ==> Pos() == old(Pos()) && next == |input| && bits < n
    {
      hide Peek, Pow2;
      ok, v := true, 0;
      if n != 0 {
        ok := NeedBits(n);
        if ok { v := Take(n); }
      } else {
        PeekNone(input, 8 * next - bits);
      }
    }

    /** Three fields in a row that are needed together. */
    method GetFields(i: nat, j: nat, k: nat) returns (ok: bool, u: nat, v: nat, w: nat)
      requires Acc() && i + j + k <= 25
      modifies `hold, `bits, `next
      ensures Acc()
      ensures ok ==> u == Peek(input, old(Pos()), i) && v == Peek(input, old(Pos()) + i, j)
      ensures ok ==> w == Peek(input, old(Pos()) + i + j, k) && Pos() == old(Pos()) + i + j + k
      ensures ok ==> next == old(next) || bits < 8
      ensures !ok ==> Pos() == old(Pos()) && next == |input| && bits < i + j + k
    {
      hide Peek, Pow2;
      u, v, w := 0, 0, 0;
      ok := NeedBits(i + j + k);
      if ok {
        u := Take(i);
        v := Take(j);
        w := Take(k);
      }
    }

    /** Bytes were pulled only while the bits at hand were too few for the code. */
    ghost predicate Waited(cs: seq<nat>, st: State, n0: nat)
      reads `input, `next, `bits
    {
      next == n0 || (bits >= 8 && TooShort(cs, input, st.pos, bits - 8) && (MaxLen(cs) > 1 || bits == 8))
    }

    /** PULLBYTE in a lookup loop, when the entry found is longer than the bits at hand. */
    method PullForCode(ghost cs: seq<nat>, ghost st: State, ghost n0: nat) returns (ok: bool)
      requires Acc() && st.pos == Pos() && bits < MAXBITS && Waited(cs, st, n0)
      requires TooShort(cs, input, st.pos, bits) && (MaxLen(cs) > 1 || bits == 0)
      modifies `hold, `bits, `next
      ensures Acc() && Pos() == old(Pos())
      ensures ok ==> Waited(cs, st, n0) && bits == old(bits) + 8 && next == old(next) + 1
      ensures !ok ==> next == |input| && Decode(cs, Peek(input, st.pos, 15), Avail(input, st)).More?
    {
      hide Peek, MaxLen, Decode, TooShort, Avail;
      ok := next < |input|;
      if ok {
        PullByte();
      } else {
        AllShort(cs, input, st, bits);
      }
    }

    lemma WaitedBound(t: CodeType, cs: seq<nat>, st: State, e: Code, n: nat, r: Sym, n0: nat)
      requires |cs| <= SymbolLimit(t) && Decodes(t, cs, input, st, e, n, r) && Waited(cs, st, n0)
      ensures next == n0 || bits < n + 8
    {
      hide Peek, MaxLen, EntryFor, TooShort, Decodes;
      if next != n0 { ShortBound(t, cs, input, st, e, n, r, bits - 8); }
    }

    /** The loops that look a code up and pull bytes until the entry found fits the
        bits at hand: the entry, and the length of the whole code. */
    method GetCode(t: CodeType, ghost cs: seq<nat>, table: seq<Code>, root: nat, ghost st: State)
      returns (ok: bool, e: Code, n: nat, ghost r: Sym)
      requires Acc() && TableOk(t, cs, table, root) && st.pos == Pos()
      modifies `hold, `bits, `next
      ensures Acc() && Pos() == old(Pos())
      ensures ok ==> Decodes(t, cs, input, st, e, n, r) && n <= bits && (next == old(next) || bits < n + 8)
      ensures !ok ==> next == |input| && Decode(cs, Peek(input, st.pos, 15), Avail(input, st)).More?
    {
      hide *;
      ghost var n0 := next;
      WaitedAtStart(cs, st);
      ok, e, r, n := true, Invalid(1), More, 0;
      RootIndex(t, cs, table, root, hold);
      e := table[hold % Pow2(root)];
      while e.bits > bits
        invariant Acc() && Pos() == old(Pos()) && Waited(cs, st, n0)
        invariant hold % Pow2(root) < |table| && e == table[hold % Pow2(root)]
        decreases |input| - next
      {
        AccIs();
        FirstTooLong(t, cs, table, root, input, st.pos, bits);
        ok := PullForCode(cs, st, n0);
        if !ok { return; }
        RootIndex(t, cs, table, root, hold);
        e := table[hold % Pow2(root)];
      }
      AccIs();
      if !IsLink(e) {
        r := FirstFits(t, cs, table, root, input, st, bits);
        n := e.bits;
      } else {
        ok, e, n, r := GetSecond(t, cs, table, root, st, e, n0);
      }
      if ok { WaitedBound(t, cs, st, e, n, r, n0); }
    }

    lemma WaitedAtStart(cs: seq<nat>, st: State)
      ensures Waited(cs, st, next)
    {
    }

    lemma AccIs()
      requires Acc()
      ensures Pos() == 8 * next - bits >= 0 && next <= |input| && hold == Peek(input, Pos(), bits)
    {
    }

    method GetSecond(t: CodeType, ghost cs: seq<nat>, table: seq<Code>, root: nat, ghost st: State, last: Code,
                     ghost n0: nat)
      returns (ok: bool, e: Code, n: nat, ghost r: Sym)
      requires Acc() && TableOk(t, cs, table, root) && st.pos == Pos() && Waited(cs, st, n0)
      requires hold % Pow2(root) < |table| && last == table[hold % Pow2(root)] && IsLink(last) && last.bits <= bits
      modifies `hold, `bits, `next
      ensures Acc() && Pos() == old(Pos())
      ensures ok ==> Decodes(t, cs, input, st, e, n, r) && n <= bits && Waited(cs, st, n0)
      ensures !ok ==> next == |input| && Decode(cs, Peek(input, st.pos, 15), Avail(input, st)).More?
    {
      hide *;
      ok, n, r := true, 0, More;
      AccIs();
      RootIndex(t, cs, table, root, hold);
      ghost var s := SecondResult(t, cs, table, root, input, st, bits, last);
      e := table[SubEntry(last, hold)];
      while last.bits + e.bits > bits
        invariant Acc() && Pos() == old(Pos()) && last.bits == root <= bits && Waited(cs, st, n0)
        invariant hold % Pow2(root) < |table| && last == table[hold % Pow2(root)]
        invariant SubEntry(last, hold) < |table| && e == table[SubEntry(last, hold)]
        invariant root + e.bits <= bits ==> Decodes(t, cs, input, st, e, root + e.bits, Symbol(s))
        invariant root + e.bits > bits ==> TooShort(cs, input, st.pos, bits) && bits < MAXBITS && MaxLen(cs) > 1
        decreases |input| - next
      {
        AccIs();
        SameLow(input, 8 * next - bits, root, bits);
        ok := PullForCode(cs, st, n0);
        if !ok { return; }
        AccIs();
        s := SecondResult(t, cs, table, root, input, st, bits, last);
        e := table[SubEntry(last, hold)];
      }
      n, r := last.bits + e.bits, Symbol(s);
    }

    // ----- Block headers -----

    /** fixedtables: the tables that inffixed.h lists, as its generator builds them. */
    method FixedTables()
      requires work.Length == 288
      modifies `lencode, `lenbits, `distcode, `distbits, `ll, `dl, work
      ensures ll == FixedLens() && dl == FixedDist()
      ensures TableOk(LENS, ll, lencode, lenbits) && TableOk(DISTS, dl, distcode, distbits)
    {
      hide FixedLens, FixedDist, Verdict, RootBits, Complete, TableFor, ValidLens;
      FixedAccepted();
      var r, q;
      ll, dl := FixedLens(), FixedDist();
      r, lencode, lenbits := InflateTable(LENS, FixedLens(), 9, work);
      VerdictOk(LENS, ll, 9, lencode, lenbits);
      q, distcode, distbits := InflateTable(DISTS, FixedDist(), 5, work);
      VerdictOk(DISTS, dl, 5, distcode, distbits);
    }

    method Finish()
      requires Ok() && !mode.BAD?
      modifies `mode
      ensures Ok() && mode.CHECK? && Phase() == DoneP
    {
      hide Peek, CodesOk, HeaderOk, CodeLensOk, Pow2, Total;
      mode := CHECK;
    }

    method TypeDo() returns (ok: bool)
      requires Ok() && (mode.HEAD? || mode.TYPE? || mode.TYPEDO?)
      modifies `hold, `bits, `next, `mode, `last, `lencode, `lenbits, `distcode, `distbits, `ll, `dl, work
      ensures Ok() && Advanced(old(Abs()), ok) && (ok && !Stop(mode) ==> next == old(next) || bits < 8)
      ensures ok ==> Pos() >= old(Pos()) && (Stop(mode) || Pos() > old(Pos()))
      ensures !mode.DONE? && (mode.CHECK? ==> old(last) && bits == old(bits) - old(bits) % 8)
      ensures if ok then !mode.HEAD? && !mode.TYPEDO? else mode == old(mode)
    {
      hide Tables, Lengths, Phase, Peek, CodesOk, HeaderOk, CodeLensOk, Pow2, Next, Total, FixedLens, FixedDist;
      hide Stopped, Align;
      ghost var s := Abs();
      PhaseIs();
      if last {
        LastBlock(s);
        return true;
      }
      var f, kind, none;
      ok, f, kind, none := GetFields(1, 2, 0);
      if ok {
        TypeTo(input, s, f, kind);
        SetType(f, kind);
      } else {
        TypeShort(input, next, s);
      }
    }

    lemma AlignForward(pos: nat)
      ensures pos <= Align(pos) && Align(pos) % 8 == 0
    {
    }

    /** if (state->last): on to the next byte boundary, and the end. */
    method LastBlock(ghost s: State)
      requires Ok() && (mode.HEAD? || mode.TYPE? || mode.TYPEDO?) && last && s == Abs()
      modifies `hold, `bits, `mode
      ensures Ok() && Advanced(s, true) && Pos() >= old(Pos()) && mode.CHECK? && bits == old(bits) - old(bits) % 8
    {
      hide Tables, Lengths, Phase, Peek, CodesOk, HeaderOk, CodeLensOk, Pow2, Next, Total, FixedLens, FixedDist;
      hide Stopped, Align;
      PhaseIs();
      LastTo(input, s);
      ByteBits();
      Finish();
    }

    method SetType(f: nat, kind: nat)
      requires Ok() && (mode.HEAD? || mode.TYPE? || mode.TYPEDO?)
      modifies `mode, `last, `lencode, `lenbits, `distcode, `distbits, `ll, `dl, work
      ensures Ok() && last == (f == 1)
      ensures Phase() == if kind == 0 then StoredP else if kind == 1 then LenP(FixedLens(), FixedDist())
                         else if kind == 2 then TableP else BadP
      ensures mode == if kind == 0 then STORED else if kind == 1 then LEN else if kind == 2 then TABLE else BAD
    {
      hide Acc, CodesOk, HeaderOk, CodeLensOk, Pow2, Total, FixedLens, FixedDist, Got;
      last := f == 1;
      match kind
      case 0 => mode := STORED;
      case 1 => SetFixed();
      case 2 => mode := TABLE;
      case _ => mode := BAD;
    }

    method SetFixed()
      requires Ok() && (mode.HEAD? || mode.TYPE? || mode.TYPEDO?)
      modifies `mode, `lencode, `lenbits, `distcode, `distbits, `ll, `dl, work
      ensures Ok() && mode == LEN && Phase() == LenP(FixedLens(), FixedDist())
    {
      hide Acc, TableOk, HeaderOk, CodeLensOk, Pow2, Total, FixedLens, FixedDist, Got;
      FixedTables();
      mode := LEN;
    }

    method Stored() returns (ok: bool)
      requires Ok() && mode.STORED?
      modifies `hold, `bits, `next, `mode, `length
      ensures Ok() && Within(input, old(Abs()), Abs()) && (ok ==> mode.COPY? || mode.BAD?)
      ensures mode.COPY? || !ok ==> bits < 32 && bits % 8 == 0
      ensures Pos() >= old(Pos()) && (ok && mode.COPY? ==> Pos() > old(Pos()))
      ensures !ok ==> Next(input, Abs()).NeedInput? && next == |input| && mode.STORED?
    {
      hide *;
      OkParts();
      AbsParts();
      PhaseIs();
      ghost var s := Abs();
      ByteBits();
      OkParts();
      AbsParts();
      PhaseIs();
      ghost var t := Abs();
      AlignForward(s.pos);
      StoredAlign(input, s, t);
      ok := StoredNext(t);
      if ok {
        WithinStep(input, t);
        WithinTrans(input, s, t, Abs());
      }
    }

    lemma Aligned()
      requires Acc()
      ensures bits <= 32 && (bits % 8 == 0 ==> Pos() % 8 == 0)
    {
      hide Peek;
      var q := bits / 8;
      if bits % 8 == 0 {
        assert Pos() == 8 * (next - q);
      }
    }

    /** NEEDBITS(32), and what they say. */
    method StoredNext(ghost t: State) returns (ok: bool)
      requires Ok() && mode.STORED? && bits % 8 == 0 && t == Abs()
      modifies `hold, `bits, `next, `mode, `length
      ensures Ok() && (ok ==> mode.COPY? || mode.BAD?) && (mode.COPY? || !ok ==> bits < 32 && bits % 8 == 0)
      ensures Pos() >= old(Pos()) && (ok && mode.COPY? ==> Pos() > old(Pos()))
      ensures ok ==> Next(input, t) == Step(Abs())
      ensures !ok ==> Abs() == t && Next(input, Abs()).NeedInput? && next == |input| && mode.STORED?
    {
      hide *;
      OkParts();
      AbsParts();
      PhaseIs();
      Aligned();
      ok := NeedBits(32);
      OkParts();
      AbsParts();
      Aligned();
      if ok {
        StoredLength(t);
      } else {
        TooFew(t, 32);
        ShortPrefix(input, next, t);
      }
    }

    /** The length of a stored block and its complement, now both in the accumulator. */
    method StoredLength(ghost t: State)
      requires Ok() && mode.STORED? && bits == 32 && t == Abs()
      modifies `hold, `bits, `mode, `length
      ensures Pos() >= old(Pos()) && (mode.COPY? ==> Pos() > old(Pos()) && bits == 0)
      ensures Ok() && (mode.COPY? || mode.BAD?) && Next(input, t) == Step(Abs())
    {
      hide Tables, Lengths, Peek, Next, Phase, Total, Pow2;
      PhaseIs();
      Halves(input, 8 * next - 32, hold);
      var n, c := hold % 0x1_0000, hold / 0x1_0000;
      StoredTo(input, t, n, c);
      if n != 0xffff - c {       // (hold >> 16) ^ 0xffff, both halves 16 bits wide
        SetBad();
      } else {
        SetCopy(n);
      }
      PhaseIs();
    }

    /** INITBITS, and on to the bytes of a stored block. */
    method SetCopy(n: nat)
      requires Ok() && mode.STORED? && bits == 32
      modifies `hold, `bits, `mode, `length
      ensures Ok() && mode.COPY? && bits == 0 && length == n
    {
      hide Peek, CodesOk, HeaderOk, CodeLensOk, Total, Pow2;
      length := n;
      hold, bits := 0, 0;
      mode := COPY;
      PeekNone(input, 8 * next);
    }

    method Table() returns (ok: bool)
      requires Ok() && mode.TABLE?
      modifies `hold, `bits, `next, `mode, `nlen, `ndist, `ncode, `have
      ensures Ok() && Advanced(old(Abs()), ok) && (ok ==> next == old(next) || bits < 8)
      ensures ok ==> Pos() > old(Pos()) && (mode.LENLENS? || mode.BAD?)
      ensures !ok ==> mode == old(mode)
    {
      hide Phase, Peek, Tables, Lengths, Next, Pow2, Total, Stopped;
      ghost var s := Abs();
      PhaseIs();
      var u, v, w;
      ok, u, v, w := GetFields(5, 5, 4);
      if ok {
        TableTo(input, s, u, v, w);
        SetTable(u, v, w);
      } else {
        TableShort(input, next, s);
      }
    }

    method SetTable(u: nat, v: nat, w: nat)
      requires Ok() && mode.TABLE? && w <= 15
      modifies `mode, `nlen, `ndist, `ncode, `have
      ensures Ok() && (mode.LENLENS? || mode.BAD?)
      ensures Phase() == if u + 257 > 286 || v + 1 > 30 then BadP else LenLensP(u + 257, v + 1, w + 4, [])
    {
      hide Peek, Tables, Lengths, CodeLensOk, Pow2, Total, Acc, Phase;
      OkIs();
      nlen, ndist, ncode := u + 257, v + 1, w + 4;
      if nlen > 286 || ndist > 30 {
        mode := BAD;
      } else {
        have := 0;
        mode := LENLENS;
        assert Got(lens, 0) == [];
      }
      ToOk();
      PhaseIs();
    }

    lemma OkIs()
      requires Ok() && !mode.BAD?
      ensures Ok0() && !refused
    {
      hide CodesOk, HeaderOk, CodeLensOk, Total, Pow2;
    }

    /** Nothing more is asked of a decoder before its codes are read, or after an error. */
    lemma ToOk()
      requires Ok0() && (mode.BAD? || (mode.LENLENS? && HeaderOk()) || (mode.CODELENS? && CodeLensOk()))
      ensures Ok()
    {
      hide Acc, CodesOk, HeaderOk, CodeLensOk, Total, Pow2;
    }

    // ----- Dynamic block headers -----

    /** One code length code length. */
    method LenLensOne() returns (ok: bool)
      requires Ok() && mode.LENLENS? && have < ncode
      modifies `hold, `bits, `next, `lens, `have
      ensures Ok() && Advanced(old(Abs()), ok) && (ok ==> next == old(next) || bits < 8)
      ensures Pos() >= old(Pos()) && (ok ==> have == old(have) + 1)
    {
      hide Peek, CodesOk, CodeLensOk, Pow2, Next, Total, Stopped, Phase, Got;
      ghost var s := Abs();
      PhaseIs();
      var v;
      ok, v := GetBits(3);
      if ok {
        LenLensTo(input, s, v);
        SetLenLens(v);
        PhaseIs();
      } else {
        LenLensShort(input, next, s);
      }
    }

    method SetLenLens(v: nat)
      requires Ok() && mode.LENLENS? && have < ncode && v < 8
      modifies `lens, `have
      ensures Ok() && have == old(have) + 1
      ensures Got(lens, have) == Got(old(lens), old(have)) + [v]
    {
      hide Peek, Tables, Lengths, Pow2, Total, Got, Acc;
      OkIs();
      HasHeader();
      GotMore(lens, have, v);
      lens := lens[ORDER[have] := v];
      have := have + 1;
      ToOk();
    }

    lemma HasHeader()
      requires Tables() && mode.LENLENS?
      ensures HeaderOk()
    {
      hide CodesOk, CodeLensOk, HeaderOk;
    }

    static lemma GotMore(lens: seq<nat>, have: nat, v: nat)
      requires |lens| == 320 && have < 19
      ensures ORDER[have] < 19 && Got(lens[ORDER[have] := v], have + 1) == Got(lens, have) + [v]
      ensures forall i :: 0 <= i < have ==> ORDER[i] < 19 && ORDER[i] != ORDER[have]
    {
      OrderPlace();
      forall i | 0 <= i < have ensures ORDER[i] != ORDER[have] { assert PLACE[ORDER[i]] == i; }
    }

    method LenLens() returns (ok: bool)
      requires Inv() && mode.LENLENS?
      modifies `hold, `bits, `next, `lens, `have, `mode, `lencode, `lenbits, `cl, work
      ensures Inv() && Within(input, old(Abs()), Abs()) && Pos() >= old(Pos())
      ensures ok ==> mode.CODELENS? || mode.BAD?
      ensures !ok ==> Next(input, Abs()).NeedInput? && next == |input| && mode.LENLENS?
    {
      hide Next, Total, Within, Ok, Lazy, Advanced;
      ghost var s0 := Abs();
      WithinRefl(input, s0);
      OkLens();
      while have < ncode
        invariant Ok() && Lazy() && mode.LENLENS? && Within(input, s0, Abs()) && Pos() >= old(Pos()) && have <= ncode
        decreases ncode - have
      {
        ghost var s, b0, n0 := Abs(), bits, next;
        LazyIs();
        ok := LenLensOne();
        LazyAfter(s, b0, n0, ok);
        Chain(s0, s, ok);
        if !ok { return; }
      }
      ghost var s, b0, n0 := Abs(), bits, next;
      LazyIs();
      FinishLenLens();
      LazyAfter(s, b0, n0, true);
      Chain(s0, s, true);
      ok := true;
    }

    lemma OkLens()
      requires Ok() && mode.LENLENS?
      ensures have <= ncode
    {
    }

    lemma LazyIs()
      requires Ok() && Lazy() && !Stop(mode)
      ensures next <= |input| && Abs().pos + bits == 8 * next && (bits < 8 || Stopped(input[..next], Abs()))
    {
    }

    lemma Chain(s0: State, s: State, ok: bool)
      requires Within(input, s0, s) && Advanced(s, ok) && (s == s0 || !s.ph.TypeP?)
      ensures Within(input, s0, Abs())
      ensures !ok ==> Next(input, Abs()).NeedInput? && next == |input|
    {
      hide Next, Total, Within;
      if ok {
        WithinStep(input, s);
        WithinTrans(input, s0, s, Abs());
      }
    }

    /** Zero the code length codes that were not sent, and build their table. */
    method FinishLenLens()
      requires Ok() && mode.LENLENS? && have == ncode
      modifies `lens, `have, `mode, `lencode, `lenbits, `cl, work
      ensures Ok() && Advanced(old(Abs()), true) && (mode.CODELENS? || mode.BAD?)
    {
      hide Peek, CodesOk, CodeLensOk, Next, Total, Verdict, Phase, CodeLengthLens, Got;
      ghost var s := Abs();
      PhaseIs();
      ZeroRest();
      LenLensDone(input, s, lens[..19]);
      CodeLengthTable();
    }

    method CodeLengthTable()
      requires Ok0() && mode.LENLENS? && 257 <= nlen <= 286 && 1 <= ndist <= 30
      requires forall i :: 0 <= i < 19 ==> lens[i] <= 7
      modifies `have, `mode, `lencode, `lenbits, `cl, work
      ensures Ok() && (mode.CODELENS? || mode.BAD?)
      ensures Phase() == if Verdict(CODES, lens[..19], 7) == 0 then CodeLensP(nlen, ndist, lens[..19], []) else BadP
    {
      hide Peek, Tables, Lengths, Pow2, Total, Verdict, Complete, MaxLen, TableOk, Acc, ValidLens, TableFor, RootBits;
      cl := lens[..19];
      var ret := CodeTable();
      have := 0;
      mode := if ret != 0 then BAD else CODELENS;
      assert lens[..have] == [];
      ToOk();
    }

    method CodeTable() returns (ret: int)
      requires work.Length == 288 && |cl| == 19 && |lens| == 320 && cl == lens[..19]
      requires forall i :: 0 <= i < 19 ==> lens[i] <= 7
      modifies `lencode, `lenbits, work
      ensures ret == Verdict(CODES, cl, 7)
      ensures ret == 0 ==> TableOk(CODES, cl, lencode, lenbits) && (Complete(cl) || MaxLen(cl) == 0)
    {
      hide Verdict, Complete, MaxLen, TableOk, TableFor, RootBits;
      CodeLengthVerdict(cl);
      ret, lencode, lenbits := InflateTable(CODES, lens[..19], 7, work);
      if ret == 0 { VerdictOk(CODES, cl, 7, lencode, lenbits); }
    }

    /** What holds in every mode. */
    ghost predicate Ok0()
      reads `input, `next, `hold, `bits, `lens, `out, `put, `mode, `refused
    {
      Acc() && |lens| == 320 && work.Length == 288 && put <= out.Length && (refused ==> mode.BAD?)
    }

    /** lens[order[have++]] = 0 for the rest of the nineteen. */
    method ZeroRest()
      requires |lens| == 320 && have <= 19 && forall i :: 0 <= i < have ==> lens[ORDER[i]] <= 7
      modifies `lens, `have
      ensures |lens| == 320 && have == 19
      ensures lens[..19] == CodeLengthLens(old(Got(lens, have)))
      ensures forall i :: 0 <= i < 19 ==> lens[i] <= 7
    {
      OrderPlace();
      while have < 19
        invariant |lens| == 320 && old(have) <= have <= 19
        invariant forall i :: 0 <= i < old(have) ==> lens[ORDER[i]] == old(lens)[ORDER[i]]
        invariant forall i :: old(have) <= i < have ==> lens[ORDER[i]] == 0
      {
        ZeroOne();
      }
      forall k | 0 <= k < 19
        ensures lens[k] == CodeLengthLens(old(Got(lens, have)))[k] && lens[k] <= 7
      {
        assert ORDER[PLACE[k]] == k;
      }
    }

    method ZeroOne()
      requires |lens| == 320 && have < 19
      modifies `lens, `have
      ensures |lens| == 320 && have == old(have) + 1
      ensures forall i :: 0 <= i < old(have) ==> lens[ORDER[i]] == old(lens)[ORDER[i]]
      ensures lens[ORDER[old(have)]] == 0
    {
      OrderPlace();
      forall i | 0 <= i < have ensures ORDER[i] != ORDER[have] { assert PLACE[ORDER[i]] == i; }
      lens := lens[ORDER[have] := 0];
      have := have + 1;
    }

    /** One code length symbol: a length, or a run of one length. */
    method CodeLensOne() returns (ok: bool)
      requires Ok() && mode.CODELENS? && have < nlen + ndist
      modifies `hold, `bits, `next, `lens, `have, `mode
      ensures Ok() && Advanced(old(Abs()), ok) && (ok && !Stop(mode) ==> next == old(next) || bits < 8)
      ensures Pos() >= old(Pos()) && (ok ==> mode.BAD? || (mode.CODELENS? && have > old(have)))
      ensures !ok ==> mode == old(mode)
    {
      hide Tables, Lengths, CodeLensOk, Peek, CodesOk, HeaderOk, TableOk, Pow2, Next, Total, Decodes, Decode, Stopped;
      hide Phase, CodeLenSymbol, Complete, MaxLen, Avail, EntryFor;
      ghost var s := Abs();
      OkCodeLens();
      HasCodeLens();
      PhaseIs();
      var e, n; ghost var r;
      ok, e, n, r := GetCode(CODES, cl, lencode, lenbits, s);
      if !ok {
        CodeLensShort(input, next, s);
        return;
      }
      ok := CodeLenOf(e, n, r, s);
    }

    /** What one code length symbol says, with its code still in the accumulator. */
    method CodeLenOf(e: Code, n: nat, ghost r: Sym, ghost s: State) returns (ok: bool)
      requires Ok() && mode.CODELENS? && have < nlen + ndist && s == Abs() && s.ph.CodeLensP? && |cl| == 19
      requires Decodes(CODES, cl, input, s, e, n, r) && n <= bits
      modifies `hold, `bits, `next, `lens, `have, `mode
      ensures Ok() && Advanced(s, ok)
      ensures ok && !Stop(mode) ==> bits < 8 || (next == old(next) && bits <= old(bits) - n)
      ensures Pos() >= old(Pos()) && (ok ==> mode.BAD? || (mode.CODELENS? && have > old(have)))
      ensures !ok ==> mode == old(mode)
    {
      hide Tables, Lengths, CodeLensOk, Peek, CodesOk, HeaderOk, TableOk, Pow2, Next, Total, Decodes, Decode, Stopped,
          Phase, CodeLenSymbol, Complete, MaxLen, Avail,
        EntryFor;
      OkCodeLens();
      PhaseIs();
      CodeLensTo(input, s, e, n, r);
      DecodesBits(CODES, cl, input, s, e, n, r);
      ok := true;
      if e.val < 16 {
        PlainTo(input, s, e.val, n);
        var dropped := Take(n);
        AddLens(1, e.val);
        OkCodeLens();
        PhaseIs();
      } else {
        ok := RepeatLens(e.val, n, s);
      }
    }

    /** while (copy--) lens[have++] = len. */
    method AddLens(copy: nat, len: nat)
      requires Ok() && mode.CODELENS? && have + copy <= nlen + ndist && len <= MAXBITS
      modifies `lens, `have
      ensures Ok() && have == old(have) + copy
      ensures lens[..have] == old(lens[..have]) + Repeat(copy, len)
    {
      hide Peek, CodesOk, HeaderOk, TableOk, Pow2, Total, Complete, MaxLen;
      var left: nat := copy;
      while left != 0
        invariant Ok() && left <= copy && have == old(have) + (copy - left)
        invariant forall i :: 0 <= i < old(have) ==> lens[i] == old(lens)[i]
        invariant forall i :: old(have) <= i < have ==> lens[i] == len
        decreases left
      {
        lens := lens[have := len];
        have := have + 1;
        left := left - 1;
      }
    }

    method RepeatLens(sym: nat, n: nat, ghost s: State) returns (ok: bool)
      requires Ok() && mode.CODELENS? && have < nlen + ndist && s == Abs() && s.ph.CodeLensP?
      requires 16 <= sym < 19 && n <= bits && n <= MAXBITS && Next(input, s) == CodeLenSymbol(input, s, sym, n)
      modifies `hold, `bits, `next, `lens, `have, `mode
      ensures Ok() && Advanced(s, ok)
      ensures (ok && !Stop(mode) ==> bits < 8 || (next == old(next) && bits <= old(bits) - n))
      ensures Pos() >= old(Pos()) && (ok ==> mode.BAD? || (mode.CODELENS? && have > old(have)))
      ensures !ok ==> mode == old(mode)
    {
      hide Tables, Lengths, Stopped, Peek, CodesOk, HeaderOk, CodeLensOk, Pow2, Next, Total, Phase, CodeLenSymbol;
      hide Complete, MaxLen;
      OkCodeLens();
      PhaseIs();
      ok := NeedBits(n + RepeatBits(sym));
      if !ok {
        RepeatShort(input, s, sym, n);
        return;
      }
      RepeatHas(input, s, sym, n);
      if sym == 16 && have == 0 {
        NothingToRepeat(n, s);
      } else {
        TakeRun(sym, n, s);
      }
    }

    /** A repetition before any length. */
    method NothingToRepeat(n: nat, ghost s: State)
      requires Ok() && mode.CODELENS? && s == Abs() && n <= bits
      modifies `hold, `bits, `mode
      ensures Ok() && Abs() == s.(pos := s.pos + n, ph := BadP) && mode.BAD? && bits == old(bits) - n
    {
      hide Peek, CodesOk, HeaderOk, CodeLensOk, Pow2, Total, Phase, Complete, MaxLen, Tables, Lengths;
      var dropped := Take(n);
      SetBad();
      PhaseIs();
    }

    method TakeRun(sym: nat, n: nat, ghost s: State)
      requires Ok() && mode.CODELENS? && s == Abs() && s.ph.CodeLensP? && 16 <= sym < 19
      requires n + RepeatBits(sym) <= bits && (sym == 16 ==> have > 0 && s.ph.lens != [])
      modifies `hold, `bits, `lens, `have, `mode
      ensures Ok() && Abs() == s.(pos := s.pos + n + RepeatBits(sym),
                                  ph := AfterRun(s.ph, sym, Peek(input, s.pos + n, RepeatBits(sym))))
      ensures mode.BAD? || (mode.CODELENS? && have > old(have))
      ensures bits == old(bits) - n - RepeatBits(sym)
    {
      hide Peek, CodesOk, HeaderOk, CodeLensOk, Pow2, Total, Phase, Complete, MaxLen, RepeatBits, Repeat, AfterRun;
      var dropped := Take(n);
      var v := Take(RepeatBits(sym));
      AddRun(sym, v, s.ph);
    }

    method SetTooFar(ghost inOutput: bool)
      requires Ok() && !mode.BAD?
      modifies `mode, `refused
      ensures Ok() && mode.BAD? && Phase() == if inOutput then RefusedP else BadP
    {
      hide Peek, CodesOk, HeaderOk, CodeLensOk, Total;
      mode := BAD;
      refused := inOutput;
    }

    method SetBad()
      requires Ok() && !mode.BAD?
      modifies `mode
      ensures Ok() && mode.BAD? && Phase() == BadP
    {
      hide Peek, CodesOk, HeaderOk, CodeLensOk, Total;
      mode := BAD;
    }

    /** The run that a repeat symbol stands for, if it does not go past the last code. */
    method AddRun(sym: nat, v: nat, ghost p: Phase)
      requires Ok() && mode.CODELENS? && 16 <= sym < 19 && (sym == 16 ==> have > 0)
      requires p == Phase() && p.CodeLensP? && (sym == 16 ==> p.lens != [])
      modifies `lens, `have, `mode
      ensures Ok() && (mode.BAD? || (mode.CODELENS? && have > old(have)))
      ensures Phase() == AfterRun(p, sym, v)
    {
      hide Peek, CodesOk, HeaderOk, CodeLensOk, Pow2, Total, Repeat;
      OkCodeLens();
      var len: nat := 0;
      if sym == 16 { len := lens[have - 1]; }
      var copy := (if sym >= 18 then 11 else 3) + v;
      if have + copy > nlen + ndist {
        mode := BAD;
      } else {
        AddLens(copy, len);
        OkCodeLens();
      }
    }

    lemma OkCodeLens()
      requires Ok() && mode.CODELENS?
      ensures have <= nlen + ndist && |lens| == 320 && |cl| == 19 && 257 <= nlen <= 286 && 1 <= ndist <= 30
      ensures work.Length == 288 && put <= out.Length && !refused
      ensures forall i :: 0 <= i < have ==> lens[i] <= MAXBITS
    {
    }

    method CodeLens() returns (ok: bool)
      requires Inv() && mode.CODELENS?
      modifies `hold, `bits, `next, `lens, `have, `mode, `lencode, `lenbits, `distcode, `distbits, `ll, `dl, work
      ensures Inv() && Within(input, old(Abs()), Abs()) && Pos() >= old(Pos())
      ensures ok ==> mode.LEN? || mode.BAD?
      ensures !ok ==> Next(input, Abs()).NeedInput? && next == |input| && mode.CODELENS?
    {
      hide Next, Total, Within, Ok, Lazy, Advanced;
      ghost var s0 := Abs();
      ok := true;
      WithinRefl(input, s0);
      OkCodeLens();
      while have < nlen + ndist
        invariant ok && Ok() && Lazy() && mode.CODELENS? && Within(input, s0, Abs()) && Pos() >= old(Pos())
        invariant have <= nlen + ndist
        decreases nlen + ndist - have
      {
        ghost var s, b0, n0 := Abs(), bits, next;
        LazyIs();
        ok := CodeLensOne();
        LazyAfter(s, b0, n0, ok);
        Chain(s0, s, ok);
        if !ok || mode.BAD? { return; }
        OkCodeLens();
      }
      ghost var s, b0, n0 := Abs(), bits, next;
      LazyIs();
      BuildCodes();
      LazyAfter(s, b0, n0, true);
      Chain(s0, s, true);
    }

    /** Build the literal/length and distance tables of a dynamic block. */
    method BuildCodes()
      requires Ok() && mode.CODELENS? && have == nlen + ndist
      modifies `mode, `lencode, `lenbits, `distcode, `distbits, `ll, `dl, work
      ensures Ok() && Advanced(old(Abs()), true) && (mode.LEN? || mode.BAD?)
      ensures mode.LEN? ==> lenbits == RootBits(ll, 9) && distbits == RootBits(dl, 6)
    {
      hide *;
      OkParts();
      AbsParts();
      OkCodeLens();
      PhaseIs();
      ghost var s := Abs();
      BuildTo(input, s);
      var ret := BuildBoth(s.ph.lens);
      Built(ret);
      AbsParts();
      AdvancedIs(s, true);
    }

    method Built(ret: int)
      requires Acc() && |lens| == 320 && work.Length == 288 && put <= out.Length && !refused
      requires ret == 0 ==> CodesOk()
      modifies `mode
      ensures Ok() && mode == if ret != 0 then BAD else LEN
      ensures Phase() == if ret != 0 then BadP else LenP(ll, dl)
    {
      hide Peek, HeaderOk, CodeLensOk, CodesOk, Pow2, Acc, Total;
      mode := if ret != 0 then BAD else LEN;
      PhaseIs();
    }

    method BuildBoth(ghost all: seq<nat>) returns (ret: int)
      requires |lens| == 320 && work.Length == 288 && 257 <= nlen <= 286 && 1 <= ndist <= 30
      requires all == lens[..nlen + ndist] && forall i :: 0 <= i < |all| ==> all[i] <= MAXBITS
      modifies `lencode, `lenbits, `distcode, `distbits, `ll, `dl, work
      ensures ret == 0 <==> Verdict(LENS, all[..nlen], LENBITS) == 0 && Verdict(DISTS, all[nlen..], DISTBITS) == 0
      ensures ret == 0 ==> ll == all[..nlen] && dl == all[nlen..] && CodesOk()
      ensures ret == 0 ==> lenbits == RootBits(ll, 9) && distbits == RootBits(dl, 6)
    {
      hide Verdict, TableOk, ValidLens, RootBits;
      assert lens[..nlen] == all[..nlen] && lens[nlen..nlen + ndist] == all[nlen..];
      LensValid(all, nlen);
      ret, lencode, lenbits := BuildOne(LENS, lens[..nlen], LENBITS);
      if ret != 0 { return; }
      ll := lens[..nlen];
      ret, distcode, distbits := BuildOne(DISTS, lens[nlen..nlen + ndist], DISTBITS);
      if ret != 0 { return; }
      dl := lens[nlen..nlen + ndist];
    }

    method BuildOne(t: CodeType, ls: seq<nat>, want: nat) returns (ret: int, table: seq<Code>, root: nat)
      requires ValidLens(ls) && |ls| <= SymbolLimit(t) && work.Length == 288
      modifies work
      ensures ret == Verdict(t, ls, want)
      ensures ret == 0 ==> TableOk(t, ls, table, root) && root == RootBits(ls, want)
    {
      hide Verdict, TableOk, RootBits, Complete, MaxLen, TableFor, ValidLens;
      ret, table, root := InflateTable(t, ls, want, work);
      if ret == 0 { VerdictOk(t, ls, want, table, root); }
    }

    // ----- Codes -----

    /** The LEN state, when it does not go to inflate_fast. */
    method Len() returns (ok: bool)
      requires Ok() && mode.LEN?
      modifies `hold, `bits, `next, `mode, `length, `extra
      ensures Ok() && Advanced(old(Abs()), ok) && (ok && !Stop(mode) ==> next == old(next) || bits < 8)
      ensures ok ==> Pos() > old(Pos()) && (mode.LIT? || mode.TYPE? || mode.BAD? || mode.LENEXT?)
      ensures !ok ==> mode == old(mode)
    {
      hide Tables, Lengths, EntryFor, Complete, MaxLen, CodesOk, Peek, TableOk, HeaderOk, CodeLensOk, Pow2, Next, Total;
      hide Decodes, Decode, Stopped, Phase, AfterLen;
      ghost var s := Abs();
      HasCodes();
      PhaseIs();
      var e, n; ghost var r;
      ok, e, n, r := GetCode(LENS, ll, lencode, lenbits, s);
      if ok {
        LenSymbol(e, n, r, s);
      } else {
        LenShort(input, next, s);
      }
    }

    /** DROPBITS of a length code, and what its entry says. */
    method LenSymbol(e: Code, n: nat, ghost r: Sym, ghost s: State)
      requires Ok() && mode.LEN? && s == Abs() && Decodes(LENS, ll, input, s, e, n, r) && n <= bits
      modifies `hold, `bits, `mode, `length, `extra
      ensures Ok() && Advanced(s, true) && bits == old(bits) - n && n > 0
      ensures mode.LIT? || mode.TYPE? || mode.BAD? || mode.LENEXT?
    {
      hide Tables, Lengths, EntryFor, Peek, TableOk, HeaderOk, CodeLensOk, Pow2, Next, Total, Decodes, Decode, Stopped;
      hide Phase, AfterLen;
      PhaseIs();
      HasCodes();
      AtMostLimit(LENS, ll, lencode, lenbits);
      LenTo(input, s, e, n, r);
      LenEntry(ll, input, s, e, n, r);
      DecodesBits(LENS, ll, input, s, e, n, r);
      var dropped := Take(n);
      SetLen(e);
    }

    method SetLen(e: Code)
      requires Ok() && mode.LEN?
      requires e.op == 0 ==> e.val < 256
      requires e.op != 0 && !HasFlag(e.op, 32) && !HasFlag(e.op, 64) ==>
                 e.val >= 3 && e.op % 16 <= 5 && e.val + Pow2(e.op % 16) - 1 <= 258
      modifies `mode, `length, `extra
      ensures Ok() && Phase() == AfterLen(ll, dl, e) && (mode.LIT? || mode.TYPE? || mode.BAD? || mode.LENEXT?)
    {
      hide Acc, CodesOk, HeaderOk, CodeLensOk, Pow2, Total, Got;
      length := e.val;
      if e.op == 0 {
        mode := LIT;
      } else if HasFlag(e.op, 32) {
        mode := TYPE;
      } else if HasFlag(e.op, 64) {
        mode := BAD;
      } else {
        extra := e.op % 16;
        mode := LENEXT;
      }
    }

    method Dist() returns (ok: bool)
      requires Ok() && mode.DIST?
      modifies `hold, `bits, `next, `mode, `offset, `extra
      ensures Ok() && Advanced(old(Abs()), ok) && (ok && !Stop(mode) ==> next == old(next) || bits < 8)
      ensures ok ==> Pos() > old(Pos()) && (mode.DISTEXT? || mode.BAD?)
      ensures !ok ==> mode == old(mode)
    {
      hide Tables, Lengths, EntryFor, Complete, MaxLen, CodesOk, Peek, TableOk, HeaderOk, CodeLensOk, Pow2, Next, Total;
      hide Decodes, Decode, Stopped, Phase, AfterDist;
      ghost var s := Abs();
      HasCodes();
      PhaseIs();
      var e, n; ghost var r;
      ok, e, n, r := GetCode(DISTS, dl, distcode, distbits, s);
      if ok {
        DistSymbol(e, n, r, s);
      } else {
        DistShort(input, next, s);
      }
    }

    /** DROPBITS of a distance code, and what its entry says. */
    method DistSymbol(e: Code, n: nat, ghost r: Sym, ghost s: State)
      requires Ok() && mode.DIST? && s == Abs() && Decodes(DISTS, dl, input, s, e, n, r) && n <= bits
      modifies `hold, `bits, `mode, `offset, `extra
      ensures Ok() && Advanced(s, true) && bits == old(bits) - n && n > 0 && (mode.DISTEXT? || mode.BAD?)
    {
      hide Tables, Lengths, EntryFor, Peek, TableOk, HeaderOk, CodeLensOk, Pow2, Next, Total, Decodes, Decode, Stopped;
      hide Phase, AfterDist;
      PhaseIs();
      HasCodes();
      AtMostLimit(DISTS, dl, distcode, distbits);
      DistTo(input, s, e, n, r);
      DistEntry(dl, input, s, e, n, r);
      DecodesBits(DISTS, dl, input, s, e, n, r);
      var dropped := Take(n);
      SetDistBase(e);
    }

    method SetDistBase(e: Code)
      requires Ok() && mode.DIST?
      requires !HasFlag(e.op, 64) ==> e.val >= 1 && e.op % 16 <= 13 && e.val + Pow2(e.op % 16) - 1 <= 32768
      modifies `mode, `offset, `extra
      ensures Ok() && (mode.DISTEXT? || mode.BAD?) && Phase() == AfterDist(ll, dl, length, e)
    {
      hide Peek, CodesOk, HeaderOk, CodeLensOk, Pow2, Total;
      if HasFlag(e.op, 64) {
        mode := BAD;
      } else {
        offset := e.val;
        extra := e.op % 16;
        mode := DISTEXT;
      }
    }

    // ----- Extra bits -----

    method LenExt() returns (ok: bool)
      requires Ok() && mode.LENEXT?
      modifies `hold, `bits, `next, `mode, `length
      ensures Ok() && Advanced(old(Abs()), ok) && (ok ==> next == old(next) || bits < 8)
      ensures ok ==> Pos() >= old(Pos()) && mode.DIST?
      ensures !ok ==> mode == old(mode)
    {
      hide *;
      OkParts();
      AbsParts();
      PhaseIs();
      FewMore();
      ghost var s := Abs();
      var v;
      ok, v := GetBits(extra);
      OkParts();
      AbsParts();
      AdvancedIs(s, false);
      if ok {
        MoreIs(s, old(Pos()), v);
        LengthKnown(s, v);
      } else {
        TooFew(s, extra);
        ExtraShort(input, next, s);
      }
    }

    lemma FewMore()
      requires Ok() && mode.LENEXT?
      ensures extra <= 5
    {
    }

    /** The step that the extra bits of a length make. */
    lemma MoreIs(s: State, pos: int, v: nat)
      requires Acc() && mode.LENEXT? && s.ph == LenExtP(ll, dl, length, extra) && pos == s.pos
      requires Pos() == pos + extra && v == Peek(input, pos, extra)
      ensures Next(input, s) == Step(s.(pos := s.pos + extra, ph := DistP(ll, dl, length + v)))
    {
      hide Next, Peek;
      LenExtTo(input, s, v);
    }

    /** length += the extra bits. */
    method LengthKnown(ghost s: State, v: nat)
      requires Ok() && mode.LENEXT? && v < Pow2(extra)
      requires s.last == last && s.out == Total() && s.lim == Limit(|hist|, W)
      requires Next(input, s) == Step(s.(pos := Pos(), ph := DistP(ll, dl, length + v)))
      modifies `mode, `length
      ensures Ok() && Advanced(s, true) && mode.DIST?
    {
      hide *;
      OkParts();
      AddLength(v);
      OkParts();
      AbsParts();
      AdvancedIs(s, true);
    }

    method AddLength(v: nat)
      requires Ok() && mode.LENEXT? && v < Pow2(extra)
      modifies `mode, `length
      ensures Ok() && mode.DIST? && Phase() == DistP(ll, dl, length) && length == old(length) + v
    {
      hide Peek, CodesOk, HeaderOk, CodeLensOk, Pow2, Total;
      length := length + v;
      mode := DIST;
    }

    /** The window reaches back over output h as far as it can. */
    ghost predicate Covers(h: seq<Byte>)
      reads `wsize, `whave
    {
      && W > 0 && (wsize == 0 || wsize == W)
      && (wsize == 0 ==> h == [])
      && whave == if |h| <= wsize then |h| else wsize
    }

    method DistExt() returns (ok: bool)
      requires Ok() && mode.DISTEXT? && Covers(hist)
      modifies `hold, `bits, `next, `mode, `offset, `refused
      ensures Ok() && Advanced(old(Abs()), ok) && (ok ==> next == old(next) || bits < 8)
      ensures ok ==> Pos() >= old(Pos()) && (mode.MATCH? || mode.BAD?)
      ensures ok ==>
                (mode.BAD? <==> offset > (if |hist| <= W then |hist| else W) + put)
                    && (refused <==> mode.BAD? && offset <= |Total()|)
      ensures !ok ==> mode == old(mode) && refused == old(refused)
    {
      hide *;
      OkParts();
      AbsParts();
      PhaseIs();
      FewExtra();
      ghost var s := Abs();
      var v;
      ok, v := GetBits(extra);
      OkParts();
      AbsParts();
      AdvancedIs(s, false);
      if ok {
        FarIs(s, old(Pos()), v);
        DistKnown(s, v);
      } else {
        TooFew(s, extra);
        ExtraShort(input, next, s);
      }
    }

    /** The extra bits are taken: is the distance too far back? */
    method DistKnown(ghost s: State, v: nat)
      requires Ok() && mode.DISTEXT? && Covers(hist) && v < Pow2(extra)
      requires s.last == last && s.out == Total() && s.lim == Limit(|hist|, W)
      requires Next(input, s) ==
               Step(s.(pos := Pos(),
                       ph := if offset + v > |s.out| then BadP
                             else if offset + v > Reach(s.lim, |s.out|) then RefusedP
                             else MatchP(ll, dl, length, offset + v)))
      modifies `mode, `offset, `refused
      ensures Ok() && Advanced(s, true) && (mode.MATCH? || mode.BAD?)
      ensures mode.BAD? <==> offset > (if |hist| <= W then |hist| else W) + put
      ensures refused <==> mode.BAD? && offset <= |Total()|
    {
      hide *;
      OkParts();
      SetDist(v);
      OkParts();
      AbsParts();
      AdvancedIs(s, true);
    }

    lemma TooFew(s: State, n: nat)
      requires Acc() && s.pos == Pos() && bits < n && next == |input|
      ensures !Has(input, s, n)
    {
    }

    /** The step that the extra bits of a distance make. */
    lemma FarIs(s: State, pos: int, v: nat)
      requires Acc() && mode.DISTEXT? && s.ph == DistExtP(ll, dl, length, offset, extra) && pos == s.pos
      requires Pos() == pos + extra && v == Peek(input, pos, extra)
      ensures Next(input, s) ==
              Step(s.(pos := s.pos + extra,
                      ph := if offset + v > |s.out| then BadP
                            else if offset + v > Reach(s.lim, |s.out|) then RefusedP
                            else MatchP(ll, dl, length, offset + v)))
    {
      hide Next, Peek;
      DistExtTo(input, s, v);
    }

    lemma FewExtra()
      requires Ok() && mode.DISTEXT?
      ensures extra <= 13 && put <= out.Length
    {
      hide Acc, Tables, Total, Pow2;
    }

    method SetDist(v: nat)
      requires Ok() && mode.DISTEXT? && Covers(hist) && v < Pow2(extra)
      modifies `mode, `offset, `refused
      ensures Ok() && (mode.MATCH? || mode.BAD?) && offset == old(offset) + v
      ensures Phase() == if offset > |Total()| then BadP
                         else if offset > Reach(Limit(|hist|, W), |Total()|) then RefusedP
                         else MatchP(ll, dl, length, offset)
      ensures (mode.BAD? <==> offset > (if |hist| <= W then |hist| else W) + put)
      ensures (refused <==> mode.BAD? && offset <= |Total()|)
    {
      hide Peek, CodesOk, HeaderOk, CodeLensOk, Pow2, Acc, Phase;
      offset := offset + v;
      // put is out - left of this call
      mode := if offset > whave + put then BAD else MATCH;
      refused := mode.BAD? && offset <= |Total()|;
      PhaseIs();
    }

    // ----- Output -----

    /** *put++ = b; left--. */
    method Emit(b: Byte)
      requires put < out.Length
      modifies `put, out
      ensures put == old(put) + 1 && Total() == old(Total()) + [b]
      ensures forall i :: 0 <= i < old(put) ==> out[i] == old(out[i])
      ensures out[old(put)] == b
    {
      out[put] := b;
      put := put + 1;
      assert out[..put] == old(out[..put]) + [b];
    }

    /** One byte of a stored block. */
    method CopyByte()
      requires Ok() && mode.COPY? && length > 0 && next < |input| && put < out.Length
      modifies `next, `put, out, `length
      ensures Ok() && Advanced(old(Abs()), true)
      ensures put == old(put) + 1 && next == old(next) + 1 && length == old(length) - 1
    {
      hide CodesOk, HeaderOk, CodeLensOk, Pow2, Total, Next;
      ghost var s := Abs();
      CopyTo(input, s, next);
      Emit(input[next]);
      next := next + 1;
      length := length - 1;
      PeekNone(input, 8 * next);
      PeekNone(input, 8 * next - 8);
    }

    /** Copy as much of a stored block as the input and the output space allow. */
    method Copy() returns (ok: bool)
      requires Ok() && mode.COPY?
      modifies `next, `put, out, `length, `mode
      ensures Ok() && Within(input, old(Abs()), Abs())
      ensures ok ==> (mode.TYPE? && Pos() == old(Pos()) && put == old(put)) || (mode.COPY? && Pos() > old(Pos()))
      ensures !ok ==> mode.COPY? && Abs() == old(Abs()) && length > 0 && (next == |input| || put == out.Length)
      ensures put >= old(put)
    {
      hide Peek, Within, Next, Ok, Advanced, Total;
      ghost var s0 := Abs();
      WithinRefl(input, s0);
      ok := true;
      if length == 0 {
        EndCopy();
        Chain(s0, s0, true);
        return;
      }
      CopyFacts();
      var copy := length;
      if copy > |input| - next { copy := |input| - next; }
      if copy > out.Length - put { copy := out.Length - put; }
      if copy == 0 { return false; }
      var k: nat := 0;
      while k < copy
        invariant k <= copy && Ok() && mode.COPY? && Within(input, s0, Abs())
        invariant next == old(next) + k && put == old(put) + k && length == old(length) - k
      {
        ghost var s := Abs();
        CopyByte();
        Chain(s0, s, true);
        k := k + 1;
      }
    }

    lemma CopyFacts()
      requires Ok()
      ensures next <= |input| && put <= out.Length
    {
    }

    method EndCopy()
      requires Ok() && mode.COPY? && length == 0
      modifies `mode
      ensures Ok() && Advanced(old(Abs()), true) && mode.TYPE?
    {
      hide Peek, CodesOk, HeaderOk, CodeLensOk, Pow2, Total;
      mode := TYPE;
    }

    method Lit() returns (ok: bool)
      requires Ok() && mode.LIT?
      modifies `put, out, `mode
      ensures Ok() && (ok ==> Advanced(old(Abs()), true) && put == old(put) + 1 && mode.LEN?)
      ensures !ok ==> put == out.Length && mode.LIT? && Abs() == old(Abs())
    {
      hide Next, Acc, Peek, CodesOk, HeaderOk, CodeLensOk, Pow2, Total;
      if put == out.Length { return false; }
      ghost var s := Abs();
      LitTo(input, s);
      Emit(length);
      mode := LEN;
      ok := true;
    }

    /** One byte of a match, equal to the byte offset places back. */
    method MatchByte(b: Byte)
      requires Ok() && mode.MATCH? && put < out.Length && b == Total()[|Total()| - offset]
      modifies `put, out, `length, `mode
      ensures Ok() && Advanced(old(Abs()), true) && put == old(put) + 1 && length == old(length) - 1
      ensures if length == 0 then mode.LEN? else mode.MATCH?
      ensures forall i :: 0 <= i < old(put) ==> out[i] == old(out[i])
      ensures |Total()| == old(|Total()|) + 1 && Total()[..old(|Total()|)] == old(Total())
    {
      hide Next, Acc, Peek, CodesOk, HeaderOk, CodeLensOk, Pow2, Total, Phase;
      ghost var s := Abs();
      PhaseIs();
      MatchTo(input, s, b);
      Emit(b);
      MatchNext();
    }

    method MatchNext()
      requires Ok() && mode.MATCH?
      modifies `length, `mode
      ensures Ok() && length == old(length) - 1 && (if length == 0 then mode.LEN? else mode.MATCH?)
      ensures Phase() == if length == 0 then LenP(ll, dl) else MatchP(ll, dl, length, offset)
    {
      hide Acc, Peek, CodesOk, HeaderOk, CodeLensOk, Pow2, Total, Phase;
      length := length - 1;
      if length == 0 { mode := LEN; }
      PhaseIs();
    }

    /** The window holds the last whave bytes of h, ending cyclically at write. */
    ghost predicate WindowOk(h: seq<Byte>)
      reads `window, `wsize, `whave, `write, `out, window
    {
      && Covers(h) && window != out
      && (wsize > 0 ==> window.Length == wsize && Holds(window[..], write, whave, h))
    }

    /** Copy as much of a match as lies in one piece of the window or of the output. */
    method Match() returns (ok: bool)
      requires Ok() && mode.MATCH? && WindowOk(hist)
      modifies `put, out, `length, `mode
      ensures Ok() && WindowOk(hist) && Within(input, old(Abs()), Abs())
      ensures ok ==> put > old(put) && (mode.MATCH? || mode.LEN?)
      ensures !ok ==> put == out.Length && mode.MATCH? && Abs() == old(Abs())
    {
      hide Peek, CodesOk, HeaderOk, CodeLensOk, Pow2, Within, Next;
      WithinRefl(input, Abs());
      if put == out.Length { return false; }
      ok := true;
      var left := out.Length - put;
      if offset > put {                      // copy from window
        var copy := offset - put;
        var from;
        if copy > write {
          copy := copy - write;
          from := wsize - copy;
        } else {
          from := write - copy;
        }
        if copy > length { copy := length; }
        if copy > left { copy := left; }
        FromWindow(from, copy);
      } else {                               // copy from output
        var copy := if length > left then left else length;
        FromOutput(copy);
      }
    }

    method FromWindow(from: nat, copy: nat)
      requires Ok() && mode.MATCH? && WindowOk(hist) && offset > put
      requires 1 <= copy <= length && put + copy <= out.Length && copy <= offset - put
      requires from == BackIndex(write, wsize, offset - put) && (offset - put <= write || copy <= offset - put - write)
      modifies `put, out, `length, `mode
      ensures Ok() && WindowOk(hist) && Within(input, old(Abs()), Abs()) && put == old(put) + copy
      ensures mode.MATCH? || mode.LEN?
    {
      hide Peek, Within, Next, Ok, WindowOk, Advanced, Total;
      ghost var s0, p0 := Abs(), put;
      MatchFacts();
      WithinRefl(input, s0);
      var k: nat := 0;
      while k < copy
        invariant k <= copy && put == p0 + k && length == old(length) - k
        invariant Ok() && WindowOk(hist) && Within(input, s0, Abs())
        invariant if length == 0 then mode.LEN? else mode.MATCH?
      {
        ghost var s := Abs();
        MatchFacts();
        WindowByte(offset - put);
        MatchByte(window[from + k]);
        Chain(s0, s, true);
        k := k + 1;
      }
    }

    lemma MatchFacts()
      requires Ok() && mode.MATCH? && WindowOk(hist)
      ensures put <= out.Length && 1 <= offset <= |Total()| && offset <= whave + put && window != out
    {
      hide Acc, Tables, Holds, Pow2;
    }

    lemma WindowByte(i: nat)
      requires put <= out.Length && 1 <= i && i + put == offset && offset <= |Total()| && WindowOk(hist)
      requires offset <= whave + put
      ensures 0 <= BackIndex(write, wsize, i) < window.Length
      ensures window[BackIndex(write, wsize, i)] == Total()[|Total()| - offset]
    {
    }

    method FromOutput(copy: nat)
      requires Ok() && mode.MATCH? && WindowOk(hist) && offset <= put
      requires 1 <= copy <= length && put + copy <= out.Length
      modifies `put, out, `length, `mode
      ensures Ok() && WindowOk(hist) && Within(input, old(Abs()), Abs()) && put == old(put) + copy
      ensures mode.MATCH? || mode.LEN?
    {
      hide Peek, Within, Next, Ok, WindowOk, Advanced, Total;
      ghost var s0, p0 := Abs(), put;
      MatchFacts();
      WithinRefl(input, s0);
      var from := put - offset;
      var k: nat := 0;
      while k < copy
        invariant k <= copy && put == p0 + k && length == old(length) - k
        invariant Ok() && WindowOk(hist) && Within(input, s0, Abs())
        invariant if length == 0 then mode.LEN? else mode.MATCH?
      {
        ghost var s := Abs();
        MatchFacts();
        OutputByte();
        MatchByte(out[from + k]);
        Chain(s0, s, true);
        k := k + 1;
      }
    }

    lemma OutputByte()
      requires put <= out.Length && 1 <= offset <= put
      ensures out[put - offset] == Total()[|Total()| - offset] && offset <= |Total()|
    {
    }

    /** Fold the output of this call into the window. */
    method UpdateWindow()
      requires WindowOk(hist) && put <= out.Length
      modifies `window, `wsize, `whave, `write, window
      ensures WindowOk(Total())
      ensures window == old(window) || fresh(window)
    {
      hide Holds;
      if wsize == 0 {
        window := new Byte[W];
        wsize, write, whave := W, 0, 0;
        Empty(window[..]);
      }
      var copy := put;                 // out - strm->avail_out
      if copy >= wsize {
        MemCopy(window, 0, out, put - wsize, wsize);
        write := 0;
        whave := wsize;
        assert window[..] == Total()[|Total()| - wsize..];
        Refill(window[..], Total());
      } else {
        FoldIn();
      }
    }

    /** Less than a windowful: up to the end of the window, then on from its start. */
    method FoldIn()
      requires WindowOk(hist) && put <= out.Length && put < wsize
      modifies `whave, `write, window
      ensures WindowOk(Total())
    {
      hide Holds;
      var copy := put;
      var dist := wsize - write;
      HoldsBound(window[..], write, whave, hist);
      if dist > copy { dist := copy; }
      ghost var w := window[..];
      MemCopy(window, write, out, put - copy, dist);
      Append(w, write, whave, hist, out[..dist], window[..]);
      copy := copy - dist;
      if copy != 0 {
        assert out[..put] == out[..dist] + out[dist..put];
        GoAround(copy, dist);
      } else {
        write := write + dist;
        if write == wsize { write := 0; }
        if whave < wsize { whave := whave + dist; }
      }
    }

    method GoAround(copy: nat, ghost dist: nat)
      requires wsize == W == window.Length && window != out && dist + copy == put <= out.Length && put < wsize
      requires Holds(window[..], 0, wsize, hist + out[..dist])
      requires hist + out[..put] == hist + out[..dist] + out[dist..put]
      modifies `whave, `write, window
      ensures WindowOk(Total())
    {
      hide Holds;
      ghost var w := window[..];
      HoldsLong(w, 0, wsize, hist + out[..dist]);
      MemCopy(window, 0, out, put - copy, copy);
      Append(w, 0, wsize, hist + out[..dist], out[dist..put], window[..]);
      write := copy;
      whave := wsize;
    }
  }

  lemma HoldsLong(w: seq<Byte>, write: nat, have: nat, h: seq<Byte>)
    requires Holds(w, write, have, h)
    ensures have <= |h|
  {
  }

  lemma HoldsBound(w: seq<Byte>, write: nat, have: nat, h: seq<Byte>)
    requires Holds(w, write, have, h)
    ensures write < |w| && have <= |w| && (have < |w| ==> write == have)
  {
  }

  lemma LenLensTo(input: seq<Byte>, s: State, v: nat)
    requires s.ph.LenLensP? && |s.ph.got| < s.ph.ncode && Has(input, s, 3) && v == Peek(input, s.pos, 3)
    ensures Next(input, s) == Step(s.(pos := s.pos + 3, ph := s.ph.(got := s.ph.got + [v]))) && v < 8
  {
    SmallPowers();
    hide Peek;
  }

  lemma LenLensShort(input: seq<Byte>, next: nat, s: State)
    requires s.ph.LenLensP? && |s.ph.got| < s.ph.ncode && next == |input| && !Has(input, s, 3)
    ensures Next(input, s).NeedInput?
  {
    hide Peek;
  }

  lemma LenLensDone(input: seq<Byte>, s: State, clens: seq<nat>)
    requires s.ph.LenLensP? && |s.ph.got| >= s.ph.ncode && clens == CodeLengthLens(s.ph.got)
    ensures Next(input, s) == Step(s.(ph := if Verdict(CODES, clens, 7) == 0
                                            then CodeLensP(s.ph.nlen, s.ph.ndist, clens, []) else BadP))
  {
    hide Verdict;
  }

  lemma CodeLensShort(input: seq<Byte>, next: nat, s: State)
    requires s.ph.CodeLensP? && |s.ph.lens| < s.ph.nlen + s.ph.ndist && next == |input|
    requires Decode(s.ph.clens, Peek(input, s.pos, 15), Avail(input, s)).More?
    ensures Next(input, s).NeedInput?
  {
    hide Peek, Decode, Avail;
  }

  lemma PlainTo(input: seq<Byte>, s: State, sym: nat, n: nat)
    requires s.ph.CodeLensP? && sym < 16
    ensures CodeLenSymbol(input, s, sym,
        n) == Step(s.(pos := s.pos + n, ph := s.ph.(lens := s.ph.lens + Repeat(1, sym))))
  {
    assert Repeat(1, sym) == [sym];
  }

  lemma DecodesBits(t: CodeType, cs: seq<nat>, input: seq<Byte>, st: State, e: Code, n: nat, r: Sym)
    requires |cs| <= SymbolLimit(t) && Decodes(t, cs, input, st, e, n, r)
    ensures 1 <= n <= MAXBITS
  {
  }

  lemma BuildTo(input: seq<Byte>, s: State)
    requires s.ph.CodeLensP? && |s.ph.lens| == s.ph.nlen + s.ph.ndist
    ensures Next(input, s) ==
            Step(s.(ph := if Verdict(LENS, s.ph.lens[..s.ph.nlen], LENBITS) != 0
                             || Verdict(DISTS, s.ph.lens[s.ph.nlen..], DISTBITS) != 0 then BadP
                          else LenP(s.ph.lens[..s.ph.nlen], s.ph.lens[s.ph.nlen..])))
  {
    hide Verdict, Decode, Peek;
  }

  lemma LensValid(all: seq<nat>, n: nat)
    requires n <= |all| && forall i :: 0 <= i < |all| ==> all[i] <= MAXBITS
    ensures ValidLens(all[..n]) && ValidLens(all[n..])
  {
  }

  lemma LitTo(input: seq<Byte>, s: State)
    requires s.ph.LitP?
    ensures Next(input, s) == Step(s.(out := s.out + [s.ph.lit], ph := LenP(s.ph.ll, s.ph.dl)))
  {
  }

  lemma MatchTo(input: seq<Byte>, s: State, b: Byte)
    requires s.ph.MatchP? && 1 <= s.ph.offset <= |s.out| && 1 <= s.ph.length && b == s.out[|s.out| - s.ph.offset]
    ensures Next(input, s) ==
            Step(s.(out := s.out + [b],
                    ph := if s.ph.length == 1 then LenP(s.ph.ll, s.ph.dl) else s.ph.(length := s.ph.length - 1)))
  {
  }

  lemma CopyTo(input: seq<Byte>, s: State, next: nat)
    requires s.ph.CopyP? && s.ph.left > 0 && s.pos == 8 * next && next < |input|
    ensures Next(input, s) == Step(s.(pos := s.pos + 8, out := s.out + [input[next]], ph := CopyP(s.ph.left - 1)))
  {
    hide Peek, Decode, Avail, FixedLens, FixedDist, CodeLenSymbol, AfterLen, AfterDist, Pow2;
    PeekByte(input, next);
  }

  lemma AtMostLimit(t: CodeType, cs: seq<nat>, table: seq<Code>, root: nat)
    requires TableOk(t, cs, table, root)
    ensures |cs| <= SymbolLimit(t)
  {
  }

  lemma LenShort(input: seq<Byte>, next: nat, s: State)
    requires s.ph.LenP? && next == |input| && Decode(s.ph.ll, Peek(input, s.pos, 15), Avail(input, s)).More?
    ensures Next(input, s).NeedInput?
  {
    hide Peek, Decode, Avail;
  }

  lemma DistShort(input: seq<Byte>, next: nat, s: State)
    requires s.ph.DistP? && next == |input| && Decode(s.ph.dl, Peek(input, s.pos, 15), Avail(input, s)).More?
    ensures Next(input, s).NeedInput?
  {
    hide Peek, Decode, Avail;
  }

  lemma RootIndex(t: CodeType, cs: seq<nat>, table: seq<Code>, root: nat, v: nat)
    requires TableOk(t, cs, table, root)
    ensures v % Pow2(root) < |table| && |cs| <= SymbolLimit(t)
  {
    hide Complete, MaxLen;
    ModSmall(v, root);
  }

  lemma SameLow(input: seq<Byte>, pos: nat, root: nat, bits: nat)
    requires root <= bits
    ensures Peek(input, pos, bits) % Pow2(root) == Peek(input, pos, bits + 8) % Pow2(root)
  {
    PeekLow(input, pos, root, bits);
    PeekLow(input, pos, root, bits + 8);
  }

  /** All the bits there are do not make a code. */
  lemma AllShort(cs: seq<nat>, input: seq<Byte>, st: State, bits: nat)
    requires st.pos + bits == 8 * |input| && TooShort(cs, input, st.pos, bits) && (MaxLen(cs) > 1 || bits == 0)
    ensures Decode(cs, Peek(input, st.pos, 15), Avail(input, st)).More?
  {
    hide Peek, MaxLen;
    ShortDecode(cs, input, st);
  }

  /** A code is longer than the bits that were too few for it. */
  lemma ShortBound(t: CodeType, cs: seq<nat>, input: seq<Byte>, st: State, e: Code, n: nat, r: Sym, b: nat)
    requires |cs| <= SymbolLimit(t) && Decodes(t, cs, input, st, e, n, r)
    requires TooShort(cs, input, st.pos, b) && (MaxLen(cs) > 1 || b == 0)
    ensures n > b
  {
    hide Peek, MaxLen, EntryFor;
    if r.Symbol? { assert !Fits(cs, r.s, Peek(input, st.pos, 15), b); }
  }

  lemma LastTo(input: seq<Byte>, s: State)
    requires s.ph.TypeP? && s.last
    ensures Next(input, s) == Step(s.(pos := Align(s.pos), ph := DoneP))
  {
  }

  lemma TypeShort(input: seq<Byte>, next: nat, s: State)
    requires s.ph.TypeP? && !s.last && next == |input| && !Has(input, s, 3)
    ensures Next(input, s).NeedInput? && Stopped(input[..next], s)
  {
    assert input[..next] == input;
  }

  lemma TypeTo(input: seq<Byte>, s: State, f: nat, kind: nat)
    requires s.ph.TypeP? && !s.last && Has(input, s, 3)
    requires f == Peek(input, s.pos, 1) && kind == Peek(input, s.pos + 1, 2)
    ensures Next(input, s) ==
            Step(s.(last := f == 1, pos := s.pos + 3,
                    ph := if kind == 0 then StoredP else if kind == 1 then LenP(FixedLens(), FixedDist())
                          else if kind == 2 then TableP else BadP))
  {
    hide Peek, FixedLens, FixedDist;
  }

  lemma ExtraShort(input: seq<Byte>, next: nat, s: State)
    requires next == |input|
    requires (s.ph.LenExtP? || s.ph.DistExtP?) && !Has(input, s, s.ph.extra)
    ensures Next(input, s).NeedInput? && Stopped(input[..next], s)
  {
    assert input[..next] == input;
  }

  lemma LenExtTo(input: seq<Byte>, s: State, v: nat)
    requires s.ph.LenExtP? && Has(input, s, s.ph.extra) && v == Peek(input, s.pos, s.ph.extra)
    ensures Next(input, s) == Step(s.(pos := s.pos + s.ph.extra, ph := DistP(s.ph.ll, s.ph.dl, s.ph.length + v)))
  {
    hide Peek;
  }

  lemma DistExtTo(input: seq<Byte>, s: State, v: nat)
    requires s.ph.DistExtP? && Has(input, s, s.ph.extra) && v == Peek(input, s.pos, s.ph.extra)
    ensures Next(input, s) ==
            Step(s.(pos := s.pos + s.ph.extra,
                    ph := if s.ph.offset + v > |s.out| then BadP
                          else if s.ph.offset + v > Reach(s.lim, |s.out|) then RefusedP
                          else MatchP(s.ph.ll, s.ph.dl, s.ph.length, s.ph.offset + v)))
  {
    hide Peek;
  }

  lemma TableShort(input: seq<Byte>, next: nat, s: State)
    requires s.ph.TableP? && next == |input| && !Has(input, s, 14)
    ensures Next(input, s).NeedInput? && Stopped(input[..next], s)
  {
    assert input[..next] == input;
  }

  lemma TableTo(input: seq<Byte>, s: State, u: nat, v: nat, w: nat)
    requires s.ph.TableP? && Has(input, s, 14)
    requires u == Peek(input, s.pos, 5) && v == Peek(input, s.pos + 5, 5) && w == Peek(input, s.pos + 10, 4)
    ensures Next(input, s) ==
            Step(s.(pos := s.pos + 14,
                    ph := if u + 257 > 286 || v + 1 > 30 then BadP else LenLensP(u + 257, v + 1, w + 4, [])))
    ensures w <= 15
  {
    SmallPowers();
    hide Peek;
  }

  lemma PeekNone(input: seq<Byte>, p: nat)
    ensures Peek(input, p, 0) == 0 && Pow2(0) == 1
  {
  }

  lemma Pow2Sixteen()
    ensures Pow2(16) == 0x1_0000
  {
    Pow2Eight();
    Pow2Add(8, 8);
  }

  lemma Halves(input: seq<Byte>, p: nat, hold: nat)
    requires hold == Peek(input, p, 32)
    ensures hold % 0x1_0000 == Peek(input, p, 16) && hold / 0x1_0000 == Peek(input, p + 16, 16) < 0x1_0000
  {
    PeekLow(input, p, 16, 32);
    PeekBound(input, p + 16, 16);
    Pow2Sixteen();
  }

  lemma StoredAlign(input: seq<Byte>, s: State, t: State)
    requires s.ph.StoredP? && t == s.(pos := Align(s.pos))
    ensures Within(input, s, t)
  {
    hide Peek;
    if s.pos % 8 != 0 { WithinStep(input, s); } else { WithinRefl(input, s); }
  }

  lemma StoredTo(input: seq<Byte>, s: State, n: nat, c: nat)
    requires s.ph.StoredP? && s.pos % 8 == 0 && Has(input, s, 32)
    requires n == Peek(input, s.pos, 16) && c == Peek(input, s.pos + 16, 16)
    ensures Next(input, s) == if n == 0xffff - c then Step(s.(pos := s.pos + 32, ph := CopyP(n)))
                              else Step(s.(ph := BadP))
  {
    hide Peek;
  }

  /** A stored block header needs 32 bits. */
  lemma ShortPrefix(input: seq<Byte>, next: nat, t: State)
    requires t.ph.StoredP? && t.pos % 8 == 0 && next == |input| && !Has(input, t, 32)
    ensures Next(input, t).NeedInput? && Stopped(input[..next], t)
  {
    assert input[..next] == input;
  }
}
