/** Decoding raw deflate data (RFC 1951) one indivisible step at a time, over the
    bits of the input as a whole: no chunks, no accumulator, no window. A step
    either has all the bits it needs or changes nothing. */
module InflateSpec {
  import opened Bits
  import opened BitStream
  import opened Huffman
  import opened InfTrees

  /** What is being read next, with the data read so far that still matters. */
  datatype Phase =
    | TypeP
    | StoredP
    | CopyP(left: nat)
    | TableP
    | LenLensP(nlen: nat, ndist: nat, ncode: nat, got: seq<nat>)
    | CodeLensP(nlen: nat, ndist: nat, clens: seq<nat>, lens: seq<nat>)
    | LenP(ll: seq<nat>, dl: seq<nat>)
    | LenExtP(ll: seq<nat>, dl: seq<nat>, length: nat, extra: nat)
    | DistP(ll: seq<nat>, dl: seq<nat>, length: nat)
    | DistExtP(ll: seq<nat>, dl: seq<nat>, length: nat, offset: nat, extra: nat)
    | MatchP(ll: seq<nat>, dl: seq<nat>, length: nat, offset: nat)
    | LitP(ll: seq<nat>, dl: seq<nat>, lit: Byte)
    | DoneP
    | BadP
    | RefusedP

  /** How far back a distance may reach: over all of the output, or, in a call that began
      with h bytes of output, over those of them that a window of w bytes holds and over
      what the call has written. */
  datatype Limit = Unlimited | Limit(h: nat, w: nat)

  function Reach(lim: Limit, size: nat): int {
    match lim
    case Unlimited => size
    case Limit(h, w) => (if h <= w then h else w) + size - h
  }

  /** pos counts bits consumed; out is everything decoded so far. */
  datatype State = State(last: bool, pos: nat, out: seq<Byte>, ph: Phase, lim: Limit)

  datatype Result = NeedInput | Halt | Step(s: State)

  const INITIAL := State(false, 0, [], TypeP, Unlimited)

  // ----- Codes -----

  datatype Sym = Symbol(s: nat) | NoCode | More

  ghost predicate Fits(lens: seq<nat>, s: nat, v: nat, avail: nat) {
    IsCodeFor(lens, s, v) && lens[s] <= avail && lens[s] <= MAXBITS
  }

  /** The symbol at the front of a stream of which avail bits are known and the
      first fifteen, zero-filled, have value v. */
  ghost function Decode(lens: seq<nat>, v: nat, avail: nat): (r: Sym)
    ensures r.Symbol? ==> Fits(lens, r.s, v, avail)
    ensures r.NoCode? ==> MaxLen(lens) <= 1 <= avail
    ensures !r.Symbol? ==> forall s: nat :: !Fits(lens, s, v, avail)
  {
    if exists s: nat :: Fits(lens, s, v, avail) then
      var s: nat :| Fits(lens, s, v, avail);
      Symbol(s)
    else if MaxLen(lens) <= 1 <= avail then NoCode
    else More
  }

  const ORDER: seq<nat> := [16, 17, 18, 0, 8, 7, 9, 6, 10, 5, 11, 4, 12, 3, 13, 2, 14, 1, 15]
  /** Where each code length symbol stands in ORDER. */
  const PLACE: seq<nat> := [3, 17, 15, 13, 11, 9, 7, 5, 4, 6, 8, 10, 12, 14, 16, 18, 0, 1, 2]

  /** Code length code lengths from the values got so far, in transmission order. */
  function CodeLengthLens(got: seq<nat>): (r: seq<nat>)
    ensures |r| == 19
  {
    seq(19, i requires 0 <= i < 19 => if PLACE[i] < |got| then got[PLACE[i]] else 0)
  }

  function Repeat(n: nat, v: nat): (r: seq<nat>)
    ensures |r| == n && forall i :: 0 <= i < n ==> r[i] == v
  {
    seq(n, _ => v)
  }

  /** The fixed code lengths (section 3.2.6 of RFC 1951). */
  function FixedLens(): seq<nat> { Repeat(144, 8) + Repeat(112, 9) + Repeat(24, 7) + Repeat(8, 8) }
  function FixedDist(): seq<nat> { Repeat(32, 5) }

  const LENBITS := 9
  const DISTBITS := 6

  // ----- Steps -----

  function Align(pos: nat): nat { (pos + 7) / 8 * 8 }

  ghost predicate Has(input: seq<Byte>, s: State, n: nat) { s.pos + n <= 8 * |input| }

  ghost function Avail(input: seq<Byte>, s: State): nat {
    if s.pos <= 8 * |input| then 8 * |input| - s.pos else 0
  }

  /** Bits i..i+n from the current position. */
  ghost function Field(input: seq<Byte>, s: State, i: nat, n: nat): nat { Peek(input, s.pos + i, n) }

  ghost function Go(s: State, bits: nat, ph: Phase): Result { Step(s.(pos := s.pos + bits, ph := ph)) }

  ghost function TypeStep(input: seq<Byte>, s: State): Result {
    if s.last then Step(s.(pos := Align(s.pos), ph := DoneP))
    else if !Has(input, s, 3) then NeedInput
    else
      var t := s.(last := Field(input, s, 0, 1) == 1);
      var kind := Field(input, s, 1, 2);
      Go(t, 3, if kind == 0 then StoredP
               else if kind == 1 then LenP(FixedLens(), FixedDist())
               else if kind == 2 then TableP
               else BadP)
  }

  ghost function StoredStep(input: seq<Byte>, s: State): Result {
    if s.pos % 8 != 0 then Step(s.(pos := Align(s.pos)))
    else if !Has(input, s, 32) then NeedInput
    else
      var n, c := Field(input, s, 0, 16), Field(input, s, 16, 16);
      if n == 0xffff - c then Go(s, 32, CopyP(n)) else Go(s, 0, BadP)
  }

  ghost function CopyStep(input: seq<Byte>, s: State): Result
    requires s.ph.CopyP?
  {
    if s.ph.left == 0 then Go(s, 0, TypeP)
    else if !Has(input, s, 8) then NeedInput
    else
      var b := Field(input, s, 0, 8) % 256;
      Go(s.(out := s.out + [b]), 8, CopyP(s.ph.left - 1))
  }

  ghost function TableStep(input: seq<Byte>, s: State): Result {
    if !Has(input, s, 14) then NeedInput
    else
      var nlen, ndist, ncode := Field(input, s, 0, 5) + 257, Field(input, s, 5, 5) + 1, Field(input, s, 10, 4) + 4;
      Go(s, 14, if nlen > 286 || ndist > 30 then BadP else LenLensP(nlen, ndist, ncode, []))
  }

  ghost function LenLensStep(input: seq<Byte>, s: State): Result
    requires s.ph.LenLensP?
  {
    var p := s.ph;
    if |p.got| < p.ncode then
      if !Has(input, s, 3) then NeedInput
      else Go(s, 3, p.(got := p.got + [Field(input, s, 0, 3)]))
    else
      var clens := CodeLengthLens(p.got);
      Go(s, 0, if Verdict(CODES, clens, 7) == 0 then CodeLensP(p.nlen, p.ndist, clens, []) else BadP)
  }

  /** A run of copies of one length, unless it would go past the last code. */
  ghost function RepeatStep(s: State, bits: nat, used: nat, v: nat, n: nat): Result
    requires s.ph.CodeLensP?
  {
    var p := s.ph;
    Go(s, bits + used, if |p.lens| + n > p.nlen + p.ndist then BadP else p.(lens := p.lens + Repeat(n, v)))
  }

  ghost function CodeLenSymbol(input: seq<Byte>, s: State, sym: nat, bits: nat): Result
    requires s.ph.CodeLensP?
  {
    var p := s.ph;
    if sym < 16 then Go(s, bits, p.(lens := p.lens + [sym]))
    else if sym == 16 then
      if !Has(input, s, bits + 2) then NeedInput
      else if p.lens == [] then Go(s, bits, BadP)
      else RepeatStep(s, bits, 2, p.lens[|p.lens| - 1], 3 + Field(input, s, bits, 2))
    else if sym == 17 then
      if !Has(input, s, bits + 3) then NeedInput
      else RepeatStep(s, bits, 3, 0, 3 + Field(input, s, bits, 3))
    else
      if !Has(input, s, bits + 7) then NeedInput
      else RepeatStep(s, bits, 7, 0, 11 + Field(input, s, bits, 7))
  }

  ghost function CodeLensStep(input: seq<Byte>, s: State): Result
    requires s.ph.CodeLensP?
  {
    var p := s.ph;
    if |p.lens| < p.nlen + p.ndist then
      match Decode(p.clens, Peek(input, s.pos, 15), Avail(input, s))
      case More => NeedInput
      case NoCode => CodeLenSymbol(input, s, 0, 1)    // no code lengths at all: the table yields zero
      case Symbol(sym) => CodeLenSymbol(input, s, sym, p.clens[sym])
    else if |p.lens| != p.nlen + p.ndist then Halt
    else
      var ll, dl := p.lens[..p.nlen], p.lens[p.nlen..];
      Go(s, 0, if Verdict(LENS, ll, LENBITS) != 0 || Verdict(DISTS, dl, DISTBITS) != 0 then BadP else LenP(ll, dl))
  }

  function HasFlag(op: nat, flag: nat): bool
    requires flag > 0
  {
    (op / flag) % 2 == 1
  }

  ghost function LenStep(input: seq<Byte>, s: State): Result
    requires s.ph.LenP?
  {
    var p := s.ph;
    match Decode(p.ll, Peek(input, s.pos, 15), Avail(input, s))
    case More => NeedInput
    case NoCode => Go(s, 1, BadP)
    case Symbol(sym) => Go(s, p.ll[sym], LenPhase(p, sym))
  }

  /** The phase after literal/length symbol sym. */
  function LenPhase(p: Phase, sym: nat): Phase
    requires p.LenP?
  {
    if sym >= SymbolLimit(LENS) then BadP
    else
      var e := EntryFor(LENS, sym, 0);
      if e.op == 0 then LitP(p.ll, p.dl, e.val % 256)
      else if HasFlag(e.op, 32) then TypeP
      else if HasFlag(e.op, 64) then BadP
      else LenExtP(p.ll, p.dl, e.val, e.op % 16)
  }

  ghost function LenExtStep(input: seq<Byte>, s: State): Result
    requires s.ph.LenExtP?
  {
    var p := s.ph;
    if !Has(input, s, p.extra) then NeedInput
    else Go(s, p.extra, DistP(p.ll, p.dl, p.length + Field(input, s, 0, p.extra)))
  }

  ghost function DistStep(input: seq<Byte>, s: State): Result
    requires s.ph.DistP?
  {
    var p := s.ph;
    match Decode(p.dl, Peek(input, s.pos, 15), Avail(input, s))
    case More => NeedInput
    case NoCode => Go(s, 1, BadP)
    case Symbol(sym) => Go(s, p.dl[sym], DistPhase(p, sym))
  }

  function DistPhase(p: Phase, sym: nat): Phase
    requires p.DistP?
  {
    if sym >= SymbolLimit(DISTS) then BadP
    else
      var e := EntryFor(DISTS, sym, 0);
      if HasFlag(e.op, 64) then BadP else DistExtP(p.ll, p.dl, p.length, e.val, e.op % 16)
  }

  ghost function DistExtStep(input: seq<Byte>, s: State): Result
    requires s.ph.DistExtP?
  {
    var p := s.ph;
    if !Has(input, s, p.extra) then NeedInput
    else
      var offset := p.offset + Field(input, s, 0, p.extra);
      Go(s, p.extra, if offset > |s.out| then BadP
                     else if offset > Reach(s.lim, |s.out|) then RefusedP
                     else MatchP(p.ll, p.dl, p.length, offset))
  }

  ghost function MatchStep(s: State): Result
    requires s.ph.MatchP?
  {
    var p := s.ph;
    if !(1 <= p.offset <= |s.out| && 1 <= p.length) then Halt
    else
      var b := s.out[|s.out| - p.offset];
      Go(s.(out := s.out + [b]), 0, if p.length == 1 then LenP(p.ll, p.dl) else p.(length := p.length - 1))
  }

  ghost function Next(input: seq<Byte>, s: State): Result {
    match s.ph
    case TypeP => TypeStep(input, s)
    case StoredP => StoredStep(input, s)
    case CopyP(_) => CopyStep(input, s)
    case TableP => TableStep(input, s)
    case LenLensP(_, _, _, _) => LenLensStep(input, s)
    case CodeLensP(_, _, _, _) => CodeLensStep(input, s)
    case LenP(_, _) => LenStep(input, s)
    case LenExtP(_, _, _, _) => LenExtStep(input, s)
    case DistP(_, _, _) => DistStep(input, s)
    case DistExtP(_, _, _, _, _) => DistExtStep(input, s)
    case MatchP(_, _, _, _) => MatchStep(s)
    case LitP(ll, dl, b) => Go(s.(out := s.out + [b]), 0, LenP(ll, dl))
    case DoneP => Halt
    case BadP => Halt
    case RefusedP => Halt
  }

  lemma EndHalts(input: seq<Byte>, s: State)
    ensures s.ph.DoneP? || s.ph.BadP? || s.ph.RefusedP? ==> Next(input, s).Halt?
  {
  }

  /** n steps from s, if that many can be taken. */
  ghost predicate Runs(input: seq<Byte>, s: State, n: nat, t: State)
    decreases n
  {
    if n == 0 then s == t
    else Next(input, s).Step? && Runs(input, Next(input, s).s, n - 1, t)
  }

  ghost predicate Reaches(input: seq<Byte>, s: State, t: State) {
    exists n: nat :: Runs(input, s, n, t)
  }

  /** The same without coming to the beginning of a block on the way. */
  ghost predicate RunsIn(input: seq<Byte>, s: State, n: nat, t: State)
    decreases n
  {
    if n == 0 then s == t
    else
      && Next(input, s).Step? && (n == 1 || !Next(input, s).s.ph.TypeP?)
      && RunsIn(input, Next(input, s).s, n - 1, t)
  }

  /** From s to t within one block: no block begins in between. */
  ghost predicate Within(input: seq<Byte>, s: State, t: State) {
    exists n: nat :: RunsIn(input, s, n, t)
  }

  // ----- Runs -----

  lemma {:induction false} RunsInRuns(input: seq<Byte>, s: State, n: nat, t: State)
    requires RunsIn(input, s, n, t)
    ensures Runs(input, s, n, t)
    decreases n
  {
    hide Next;
    if n > 0 { RunsInRuns(input, Next(input, s).s, n - 1, t); }
  }

  lemma WithinReaches(input: seq<Byte>, s: State, t: State)
    requires Within(input, s, t)
    ensures Reaches(input, s, t)
  {
    var n: nat :| RunsIn(input, s, n, t);
    RunsInRuns(input, s, n, t);
  }

  lemma {:induction false} RunsInTrans(input: seq<Byte>, s: State, m: nat, t: State, n: nat, u: State)
    requires RunsIn(input, s, m, t) && RunsIn(input, t, n, u) && (!t.ph.TypeP? || n == 0)
    ensures RunsIn(input, s, m + n, u)
    decreases m
  {
    hide Next;
    if m > 0 { RunsInTrans(input, Next(input, s).s, m - 1, t, n, u); }
  }

  lemma WithinRefl(input: seq<Byte>, s: State)
    ensures Within(input, s, s)
  {
    assert RunsIn(input, s, 0, s);
  }

  lemma WithinTrans(input: seq<Byte>, s: State, t: State, u: State)
    requires Within(input, s, t) && Within(input, t, u) && (!t.ph.TypeP? || t == u || s == t)
    ensures Within(input, s, u)
  {
    if t != u && s != t {
      var m: nat :| RunsIn(input, s, m, t);
      var n: nat :| RunsIn(input, t, n, u);
      RunsInTrans(input, s, m, t, n, u);
    }
  }

  lemma WithinStep(input: seq<Byte>, s: State)
    requires Next(input, s).Step?
    ensures Within(input, s, Next(input, s).s)
  {
    assert RunsIn(input, Next(input, s).s, 0, Next(input, s).s);
    assert RunsIn(input, s, 1, Next(input, s).s);
  }

  lemma {:induction false} RunsTrans(input: seq<Byte>, s: State, m: nat, t: State, n: nat, u: State)
    requires Runs(input, s, m, t) && Runs(input, t, n, u)
    ensures Runs(input, s, m + n, u)
    decreases m
  {
    hide Next;
    if m > 0 { RunsTrans(input, Next(input, s).s, m - 1, t, n, u); }
  }

  lemma ReachRefl(input: seq<Byte>, s: State)
    ensures Reaches(input, s, s)
  {
    assert Runs(input, s, 0, s);
  }

  lemma ReachTrans(input: seq<Byte>, s: State, t: State, u: State)
    requires Reaches(input, s, t) && Reaches(input, t, u)
    ensures Reaches(input, s, u)
  {
    var m: nat :| Runs(input, s, m, t);
    var n: nat :| Runs(input, t, n, u);
    RunsTrans(input, s, m, t, n, u);
  }

  lemma ReachStep(input: seq<Byte>, s: State)
    requires Next(input, s).Step?
    ensures Reaches(input, s, Next(input, s).s)
  {
    assert Runs(input, Next(input, s).s, 0, Next(input, s).s);
    assert Runs(input, s, 1, Next(input, s).s);
  }

  /** Of two states on the way, one comes after the other. */
  lemma {:induction false} RunsLinear(input: seq<Byte>, s: State, m: nat, t: State, n: nat, u: State)
    requires Runs(input, s, m, t) && Runs(input, s, n, u) && m <= n
    ensures Runs(input, t, n - m, u)
    decreases m
  {
    hide Next;
    if m > 0 { RunsLinear(input, Next(input, s).s, m - 1, t, n - 1, u); }
  }

  lemma ReachLinear(input: seq<Byte>, s: State, t: State, u: State)
    requires Reaches(input, s, t) && Reaches(input, s, u)
    ensures Reaches(input, t, u) || Reaches(input, u, t)
  {
    var m: nat :| Runs(input, s, m, t);
    var n: nat :| Runs(input, s, n, u);
    if m <= n { RunsLinear(input, s, m, t, n, u); } else { RunsLinear(input, s, n, u, m, t); }
  }

  /** No further step can be taken. */
  ghost predicate Stopped(input: seq<Byte>, s: State) { !Next(input, s).Step? }

  /** Where decoding stops is a function of the input: it does not matter how the
      stopping state was reached. */
  lemma StopUnique(input: seq<Byte>, s: State, t: State, u: State)
    requires Reaches(input, s, t) && Stopped(input, t)
    requires Reaches(input, s, u) && Stopped(input, u)
    ensures t == u
  {
    ReachLinear(input, s, t, u);
    if Reaches(input, t, u) { StuckStays(input, t, u); } else { StuckStays(input, u, t); }
  }

  lemma StuckStays(input: seq<Byte>, t: State, u: State)
    requires Stopped(input, t) && Reaches(input, t, u)
    ensures t == u
  {
    var n: nat :| Runs(input, t, n, u);
  }

  // ----- What a step depends on -----

  /** Two readings of a stream decode alike when they agree on the known bits. */
  lemma DecodeAgrees(lens: seq<nat>, v: nat, w: nat, a: nat, b: nat)
    requires a <= b && (forall l: nat :: l <= a && l <= MAXBITS ==> v % Pow2(l) == w % Pow2(l))
    requires !Decode(lens, v, a).More?
    ensures Decode(lens, w, b) == Decode(lens, v, a)
  {
    hide Pow2, Rev, CodeValue, MaxLen;
    var r := Decode(lens, v, a);
    if r.Symbol? {
      RevInjective(lens[r.s], v, w);
      assert Fits(lens, r.s, w, b);
      var q := Decode(lens, w, b);
      PrefixFree(lens, r.s, q.s, w);
    } else {
      forall s: nat
        ensures !Fits(lens, s, w, b)
      {
        assert !Fits(lens, s, v, a);
        if Fits(lens, s, w, b) {
          LenAtMost(lens, s);
          RevInjective(lens[s], v, w);
        }
      }
    }
  }

  lemma LenAtMost(lens: seq<nat>, s: nat)
    requires s < |lens| && lens[s] <= MAXBITS
    ensures lens[s] <= MaxLen(lens)
  {
    CountPositive(lens, s);
  }

  /** Known bits of the front of the stream do not change when input arrives. */
  lemma FrontAgrees(input: seq<Byte>, more: seq<Byte>, pos: nat, l: nat)
    requires pos + l <= 8 * |input| && l <= MAXBITS
    ensures Peek(input, pos, 15) % Pow2(l) == Peek(input + more, pos, 15) % Pow2(l)
  {
    PeekLow(input, pos, l, 15);
    PeekLow(input + more, pos, l, 15);
    PeekMore(input, more, pos, l);
  }

  lemma DecodeMore(lens: seq<nat>, input: seq<Byte>, more: seq<Byte>, s: State)
    requires !Decode(lens, Peek(input, s.pos, 15), Avail(input, s)).More?
    ensures Decode(lens, Peek(input + more, s.pos, 15), Avail(input + more, s))
            == Decode(lens, Peek(input, s.pos, 15), Avail(input, s))
  {
    hide Pow2, Peek;
    var v, w := Peek(input, s.pos, 15), Peek(input + more, s.pos, 15);
    forall l: nat | l <= Avail(input, s) && l <= MAXBITS
      ensures v % Pow2(l) == w % Pow2(l)
    {
      if s.pos <= 8 * |input| { FrontAgrees(input, more, s.pos, l); }
    }
    DecodeAgrees(lens, v, w, Avail(input, s), Avail(input + more, s));
  }

  lemma FieldMore(input: seq<Byte>, more: seq<Byte>, s: State, i: nat, n: nat)
    requires Has(input, s, i + n)
    ensures Field(input + more, s, i, n) == Field(input, s, i, n)
  {
    PeekMore(input, more, s.pos + i, n);
  }

  /** The bits a step with fixed-size fields reads, field by field. */
  lemma FieldsMore(input: seq<Byte>, more: seq<Byte>, s: State, n: nat)
    requires Has(input, s, n)
    ensures Has(input + more, s, n)
    ensures forall i: nat, k: nat :: i + k <= n ==> Field(input + more, s, i, k) == Field(input, s, i, k)
  {
    forall i: nat, k: nat | i + k <= n
      ensures Field(input + more, s, i, k) == Field(input, s, i, k)
    {
      FieldMore(input, more, s, i, k);
    }
  }

  /** A step taken on part of the input is taken alike on all of it. */
  lemma NextMore(input: seq<Byte>, more: seq<Byte>, s: State)
    requires Next(input, s).Step?
    ensures Next(input + more, s) == Next(input, s)
  {
    hide Peek, Decode, EntryFor, Verdict, CodeLengthLens, LenPhase, DistPhase, Field, MatchStep, Avail, CodeLenSymbol;
    match s.ph
    case TypeP => if !s.last { FieldsMore(input, more, s, 3); }
    case StoredP => if s.pos % 8 == 0 { FieldsMore(input, more, s, 32); }
    case CopyP(n) => if n > 0 { FieldsMore(input, more, s, 8); }
    case TableP => FieldsMore(input, more, s, 14);
    case LenLensP(_, _, ncode, got) => if |got| < ncode { FieldsMore(input, more, s, 3); }
    case CodeLensP(nlen, ndist, clens, lens) => if |lens| < nlen + ndist { CodeLensMore(input, more, s); }
    case LenP(ll, _) => DecodeMore(ll, input, more, s);
    case LenExtP(_, _, _, extra) => FieldsMore(input, more, s, extra);
    case DistP(_, dl, _) => DecodeMore(dl, input, more, s);
    case DistExtP(_, _, _, _, extra) => FieldsMore(input, more, s, extra);
    case MatchP(_, _, _, _) =>
    case LitP(_, _, _) =>
    case DoneP =>
    case BadP =>
    case RefusedP =>
  }

  lemma CodeLensMore(input: seq<Byte>, more: seq<Byte>, s: State)
    requires s.ph.CodeLensP? && CodeLensStep(input, s).Step? && |s.ph.lens| < s.ph.nlen + s.ph.ndist
    ensures CodeLensStep(input + more, s) == CodeLensStep(input, s)
  {
    hide Peek, Decode, Verdict, Avail, CodeLenSymbol;
    DecodeMore(s.ph.clens, input, more, s);
    match Decode(s.ph.clens, Peek(input, s.pos, 15), Avail(input, s))
    case More =>
    case NoCode => SymbolMore(input, more, s, 0, 1);
    case Symbol(sym) => SymbolMore(input, more, s, sym, s.ph.clens[sym]);
  }

  lemma SymbolMore(input: seq<Byte>, more: seq<Byte>, s: State, sym: nat, bits: nat)
    requires s.ph.CodeLensP? && CodeLenSymbol(input, s, sym, bits).Step?
    ensures CodeLenSymbol(input + more, s, sym, bits) == CodeLenSymbol(input, s, sym, bits)
  {
    hide Peek, Field, RepeatStep;
    if sym >= 16 {
      FieldsMore(input, more, s, bits + (if sym == 16 then 2 else if sym == 17 then 3 else 7));
    }
  }

  lemma {:induction false} RunsMore(input: seq<Byte>, more: seq<Byte>, s: State, n: nat, t: State)
    requires Runs(input, s, n, t)
    ensures Runs(input + more, s, n, t)
    decreases n
  {
    hide Next;
    if n > 0 {
      NextMore(input, more, s);
      RunsMore(input, more, Next(input, s).s, n - 1, t);
    }
  }

  /** What has been decoded stays decoded when more input is supplied. */
  lemma ReachMore(input: seq<Byte>, more: seq<Byte>, s: State, t: State)
    requires Reaches(input, s, t)
    ensures Reaches(input + more, s, t)
  {
    var n: nat :| Runs(input, s, n, t);
    RunsMore(input, more, s, n, t);
  }

  /** A step that consumes only the first part of the input needs only that part. */
  lemma NextLess(input: seq<Byte>, more: seq<Byte>, s: State, t: State)
    requires Next(input + more, s) == Step(t) && t.pos <= 8 * |input| && s.pos <= t.pos && !t.ph.BadP?
    ensures Next(input, s) == Step(t)
  {
    hide Peek, Decode, EntryFor, Verdict, CodeLengthLens, LenPhase, DistPhase, Field, MatchStep, CodeLenSymbol;
    var whole := input + more;
    match s.ph
    case TypeP => if !s.last { FieldsMore(input, more, s, 3); }
    case StoredP => if s.pos % 8 == 0 { FieldsMore(input, more, s, 32); }
    case CopyP(n) => if n > 0 { FieldsMore(input, more, s, 8); }
    case TableP => FieldsMore(input, more, s, 14);
    case LenLensP(_, _, ncode, got) => if |got| < ncode { FieldsMore(input, more, s, 3); }
    case CodeLensP(nlen, ndist, clens, lens) => if |lens| < nlen + ndist { CodeLensLess(input, more, s, t); }
    case LenP(ll, _) => DecodeLess(ll, input, more, s, t.pos - s.pos);
    case LenExtP(_, _, _, extra) => FieldsMore(input, more, s, extra);
    case DistP(_, dl, _) => DecodeLess(dl, input, more, s, t.pos - s.pos);
    case DistExtP(_, _, _, _, extra) => FieldsMore(input, more, s, extra);
    case MatchP(_, _, _, _) =>
    case LitP(_, _, _) =>
    case DoneP =>
    case BadP =>
    case RefusedP =>
  }

  ghost function BitsOf(lens: seq<nat>, r: Sym): nat
    requires r.Symbol? ==> r.s < |lens|
  {
    if r.Symbol? then lens[r.s] else if r.NoCode? then 1 else 0
  }

  lemma DecodeLess(lens: seq<nat>, input: seq<Byte>, more: seq<Byte>, s: State, n: nat)
    requires s.pos + n <= 8 * |input|
    requires !Decode(lens, Peek(input + more, s.pos, 15), Avail(input + more, s)).More?
    requires BitsOf(lens, Decode(lens, Peek(input + more, s.pos, 15), Avail(input + more, s))) <= n
    ensures Decode(lens, Peek(input, s.pos, 15), Avail(input, s))
            == Decode(lens, Peek(input + more, s.pos, 15), Avail(input + more, s))
  {
    hide Pow2, Peek, Rev, CodeValue, MaxLen;
    var v, w := Peek(input, s.pos, 15), Peek(input + more, s.pos, 15);
    var a := Avail(input, s);
    var r := Decode(lens, w, Avail(input + more, s));
    if r.Symbol? {
      FrontAgrees(input, more, s.pos, lens[r.s]);
      RevInjective(lens[r.s], v, w);
      assert Fits(lens, r.s, v, a);
      PrefixFree(lens, r.s, Decode(lens, v, a).s, v);
    } else if Decode(lens, v, a).Symbol? {
      DecodeMore(lens, input, more, s);
    }
  }

  lemma CodeLensLess(input: seq<Byte>, more: seq<Byte>, s: State, t: State)
    requires s.ph.CodeLensP? && CodeLensStep(input + more, s) == Step(t) && |s.ph.lens| < s.ph.nlen + s.ph.ndist
    requires t.pos <= 8 * |input| && !t.ph.BadP?
    ensures CodeLensStep(input, s) == Step(t)
  {
    hide Peek, Decode, Verdict, Avail, CodeLenSymbol;
    var r := Decode(s.ph.clens, Peek(input + more, s.pos, 15), Avail(input + more, s));
    var sym, bits := if r.Symbol? then r.s else 0, BitsOf(s.ph.clens, r);
    SymbolLess(input, more, s, sym, bits, t);
    DecodeLess(s.ph.clens, input, more, s, bits);
  }

  lemma SymbolLess(input: seq<Byte>, more: seq<Byte>, s: State, sym: nat, bits: nat, t: State)
    requires s.ph.CodeLensP? && CodeLenSymbol(input + more, s, sym, bits) == Step(t)
    requires t.pos <= 8 * |input| && !t.ph.BadP?
    ensures CodeLenSymbol(input, s, sym, bits) == Step(t) && s.pos + bits <= t.pos
  {
    hide Peek, Field;
    if sym >= 16 {
      FieldsMore(input, more, s, bits + (if sym == 16 then 2 else if sym == 17 then 3 else 7));
    }
  }
}
