/** Dividing the input into two calls: what the first leaves, where the second ends, and
    that a distance greater than the window is refused by some such division. */
module InflateDivide {
  import opened Bits
  import opened BitStream
  import opened Huffman
  import opened InfTrees
  import opened InflateSpec
  import opened InflateLookup
  import opened InflateLimit

  // ----- How much output there can be -----

  /** Bytes that a step already taken will lead to. */
  function Owes(p: Phase): nat {
    match p
    case LitP(_, _, _) => 1
    case LenExtP(_, _, length, extra) => length + Pow2(extra) - 1
    case DistP(_, _, length) => length
    case DistExtP(_, _, length, _, _) => length
    case MatchP(_, _, length, _) => length
    case _ => 0
  }

  /** No bit has led to more than the longest match. */
  ghost predicate Modest(s: State) { Owes(s.ph) <= 258 && |s.out| + Owes(s.ph) <= 258 * s.pos }

  lemma LenOwes(p: Phase)
    requires p.LenP?
    ensures forall sym: nat :: Owes(LenPhase(p, sym)) <= 258
  {
    forall sym: nat
      ensures Owes(LenPhase(p, sym)) <= 258
    {
      hide Pow2;
      if sym < SymbolLimit(LENS) { LenEntryFor(sym); }
    }
  }

  lemma ModestStep(input: seq<Byte>, s: State)
    requires Next(input, s).Step? && Modest(s)
    ensures Modest(Next(input, s).s) && s.pos <= Next(input, s).s.pos
  {
    hide Peek, Field, Decode, EntryFor, Verdict, CodeLengthLens, LenPhase, DistPhase, Pow2, Avail, CodeLensStep;
    match s.ph
    case CodeLensP(_, _, _, _) => CodeLensModest(input, s);
    case LenP(_, _) => LenOwes(s.ph);
    case LenExtP(_, _, _, extra) => FieldBound(input, s, extra);
    case DistP(_, _, _) => DistOwes(s.ph);
    case _ =>
  }

  lemma CodeLensModest(input: seq<Byte>, s: State)
    requires s.ph.CodeLensP? && CodeLensStep(input, s).Step?
    ensures var t := CodeLensStep(input, s).s; t.out == s.out && Owes(t.ph) == 0 && s.pos <= t.pos
  {
    hide Peek, Field, Decode, Verdict, Avail;
  }

  lemma DistOwes(p: Phase)
    requires p.DistP?
    ensures forall sym: nat :: Owes(DistPhase(p, sym)) <= p.length
  {
    hide EntryFor;
  }

  lemma {:induction false} ModestRuns(input: seq<Byte>, s: State, n: nat, t: State)
    requires Runs(input, s, n, t) && Modest(s)
    ensures Modest(t) && s.pos <= t.pos
    decreases n
  {
    hide Next, Modest;
    if n > 0 {
      ModestStep(input, s);
      ModestRuns(input, Next(input, s).s, n - 1, t);
    }
  }

  /** At most 258 bytes of output for each bit of input. */
  lemma Expands(input: seq<Byte>, s: State)
    requires Reaches(input, INITIAL, s)
    ensures |s.out| <= 258 * s.pos
  {
    hide Next;
    var n: nat :| Runs(input, INITIAL, n, s);
    ModestRuns(input, INITIAL, n, s);
  }

  // ----- Part of the input -----

  /** A step on part of the input ends within it. */
  lemma StepInside(input: seq<Byte>, s: State)
    requires Next(input, s).Step? && s.pos <= 8 * |input|
    ensures Next(input, s).s.pos <= 8 * |input|
  {
    hide Peek, Field, EntryFor, Verdict, CodeLengthLens, LenPhase, DistPhase, Pow2, CodeLensStep, IsCodeFor, MaxLen;
    if s.ph.CodeLensP? { CodeLensInside(input, s); }
  }

  lemma CodeLensInside(input: seq<Byte>, s: State)
    requires s.ph.CodeLensP? && CodeLensStep(input, s).Step? && s.pos <= 8 * |input|
    ensures CodeLensStep(input, s).s.pos <= 8 * |input|
  {
    hide Peek, Field, Verdict, IsCodeFor, MaxLen;
  }

  /** A run that ends within the first part of the input needs only that part. */
  lemma {:induction false} LessRuns(input: seq<Byte>, more: seq<Byte>, s: State, n: nat, t: State)
    requires Runs(input + more, s, n, t) && Modest(s) && t.pos <= 8 * |input| && !t.ph.BadP?
    ensures Runs(input, s, n, t)
    decreases n
  {
    hide Next, Modest;
    if n > 0 {
      var c := Next(input + more, s).s;
      ModestStep(input + more, s);
      ModestRuns(input + more, c, n - 1, t);
      if c.ph.BadP? {
        EndHalts(input + more, c);
      }
      NextLess(input, more, s, c);
      LessRuns(input, more, c, n - 1, t);
    }
  }

  lemma {:induction false} RunsLast(input: seq<Byte>, s: State, n: nat, t: State) returns (p: State)
    requires Runs(input, s, n, t) && n > 0
    ensures Runs(input, s, n - 1, p) && Next(input, p) == Step(t)
    decreases n
  {
    hide Next;
    if n == 1 { p := s; } else { p := RunsLast(input, Next(input, s).s, n - 1, t); }
  }

  /** The state before one that is not the first. */
  lemma Before(input: seq<Byte>, t: State) returns (p: State)
    requires Reaches(input, INITIAL, t) && t != INITIAL
    ensures Reaches(input, INITIAL, p) && Next(input, p) == Step(t)
  {
    hide Next;
    var n: nat :| Runs(input, INITIAL, n, t);
    p := RunsLast(input, INITIAL, n, t);
  }

  // ----- The codes of a match -----

  lemma FromLenExt(input: seq<Byte>, p: State, t: State)
    requires Next(input, p) == Step(t) && t.ph.LenExtP?
    ensures p.ph.LenP? && p.out == t.out && p.pos + 1 <= t.pos && t.lim == p.lim
  {
    hide Peek, Field, EntryFor, Verdict, CodeLengthLens, Pow2, Avail, Decode, CodeLensStep;
    if p.ph.CodeLensP? { CodeLensKinds(input, p); }
  }

  lemma FromDist(input: seq<Byte>, p: State, t: State)
    requires Next(input, p) == Step(t) && t.ph.DistP?
    ensures p.ph.LenExtP? && p.out == t.out && p.pos <= t.pos && t.lim == p.lim
  {
    hide Peek, Field, EntryFor, Verdict, CodeLengthLens, Pow2, Avail, Decode, CodeLensStep, DistPhase;
    if p.ph.CodeLensP? { CodeLensKinds(input, p); }
    if p.ph.DistP? { DistKinds(p.ph); }
  }

  lemma FromDistExt(input: seq<Byte>, p: State, t: State)
    requires Next(input, p) == Step(t) && t.ph.DistExtP?
    ensures p.ph.DistP? && p.out == t.out && p.pos + 1 <= t.pos && t.lim == p.lim
    ensures t.ph.offset + Pow2(t.ph.extra) - 1 <= 256 || t.ph.extra >= 7
  {
    hide Peek, Field, EntryFor, Verdict, CodeLengthLens, Pow2, Avail, Decode, CodeLensStep, DistPhase;
    if p.ph.CodeLensP? { CodeLensKinds(input, p); }
    if p.ph.DistP? { DistKinds(p.ph); }
  }

  lemma CodeLensKinds(input: seq<Byte>, s: State)
    requires s.ph.CodeLensP? && CodeLensStep(input, s).Step?
    ensures var p := CodeLensStep(input, s).s.ph; p.BadP? || p.CodeLensP? || p.LenP?
  {
    hide Peek, Field, Decode, Verdict, Avail;
  }

  /** A distance above 256 has at least seven extra bits. */
  lemma DistKinds(p: Phase)
    requires p.DistP?
    ensures forall sym: nat {:trigger DistPhase(p, sym)} ::
              var t := DistPhase(p, sym);
              t.BadP? || (t.DistExtP? && (t.offset + Pow2(t.extra) - 1 <= 256 || t.extra >= 7))
  {
    forall sym: nat
      ensures var t := DistPhase(p, sym);
              t.BadP? || (t.DistExtP? && (t.offset + Pow2(t.extra) - 1 <= 256 || t.extra >= 7))
    {
      hide Pow2;
      SmallPowers();
    }
  }

  /** The steps from a length code to the distance that goes with it. */
  datatype Token = Token(atLen: State, atExtra: State, atDist: State, atFar: State)

  ghost predicate IsToken(input: seq<Byte>, k: Token) {
    && k.atLen.ph.LenP? && k.atExtra.ph.LenExtP? && k.atDist.ph.DistP? && k.atFar.ph.DistExtP?
    && Next(input, k.atLen) == Step(k.atExtra) && Next(input, k.atExtra) == Step(k.atDist)
    && Next(input, k.atDist) == Step(k.atFar)
    && k.atLen.out == k.atExtra.out == k.atDist.out == k.atFar.out
    && k.atLen.pos + 1 <= k.atExtra.pos <= k.atDist.pos <= k.atFar.pos - 1
  }

  /** Every distance was reached in these steps, and one above 256 takes nine bits with them. */
  lemma TokenOf(input: seq<Byte>, s: State) returns (k: Token)
    requires Reaches(input, INITIAL, s) && s.ph.DistExtP?
    ensures IsToken(input, k) && k.atFar == s && Reaches(input, INITIAL, k.atLen)
    ensures s.ph.offset + Pow2(s.ph.extra) - 1 <= 256 || s.ph.extra >= 7
  {
    hide Next, Reaches, Pow2;
    var d := Before(input, s);
    FromDistExt(input, d, s);
    var e := Before(input, d);
    FromDist(input, e, d);
    var l := Before(input, e);
    FromLenExt(input, l, e);
    k := Token(l, e, d, s);
  }

  // ----- Two calls -----

  /** The first call stops at u for want of input after m bytes, or at the end or an error,
      with all of its output at hand; the second, whose distances reach over a window of w
      bytes and its own output, gets to r. */
  ghost predicate TwoCalls(input: seq<Byte>, w: nat, m: nat, u: State, r: State) {
    && m <= |input| && Reaches(input[..m], INITIAL.(lim := Limit(0, w)), u) && Stopped(input[..m], u)
    && Reaches(input, u.(lim := Limit(|u.out|, w)), r)
  }

  /** A call that writes everything from the start on refuses no distance of its own. */
  lemma FirstStep(input: seq<Byte>, s: State, w: nat)
    requires Next(input, s).Step? && s.lim.Unlimited?
    ensures Next(input, s.(lim := Limit(0, w))) == Step(Next(input, s).s.(lim := Limit(0, w)))
  {
    hide Next, Peek;
    LimitAside(input, s, Limit(0, w));
    if s.ph.DistExtP? { FirstDistance(input, s, w); }
  }

  lemma FirstDistance(input: seq<Byte>, s: State, w: nat)
    requires Next(input, s).Step? && s.ph.DistExtP? && s.lim.Unlimited?
    ensures Next(input, s.(lim := Limit(0, w))) == Step(Next(input, s).s.(lim := Limit(0, w)))
  {
    hide Peek;
  }

  lemma {:induction false} FirstRuns(input: seq<Byte>, s: State, n: nat, t: State, w: nat)
    requires Runs(input, s, n, t) && s.lim.Unlimited?
    ensures Reaches(input, s.(lim := Limit(0, w)), t.(lim := Limit(0, w))) && t.lim.Unlimited?
    decreases n
  {
    hide Next, Reaches;
    var first := Limit(0, w);
    ReachRefl(input, s.(lim := first));
    if n > 0 {
      var c := Next(input, s).s;
      FirstStep(input, s, w);
      StepKeeps(input, s);
      FirstRuns(input, c, n - 1, t, w);
      ReachStep(input, s.(lim := first));
      ReachTrans(input, s.(lim := first), c.(lim := first), t.(lim := first));
    }
  }

  /** Some byte ends within the codes of a far match: its number, and where decoding stops there. */
  lemma CutToken(input: seq<Byte>, k: Token, t: State) returns (m: nat, u: State)
    requires IsToken(input, k) && Reaches(input, INITIAL, k.atLen) && Next(input, k.atFar) == Step(t) && t.ph.MatchP?
    requires k.atFar.ph.extra >= 7
    ensures m <= |input| && Reaches(input[..m], INITIAL, u) && Stopped(input[..m], u)
    ensures u == k.atLen || u == k.atExtra || u == k.atDist || u == k.atFar
  {
    hide Next;
    m := (k.atLen.pos + 7) / 8;
    FarBits(input, k.atFar, t);
    var part, rest := input[..m], input[m..];
    assert input == part + rest;
    var n: nat :| Runs(input, INITIAL, n, k.atLen);
    LessRuns(part, rest, INITIAL, n, k.atLen);
    u := k.atLen;
    u := Onward(part, rest, u, k.atExtra);
    if u == k.atExtra { u := Onward(part, rest, u, k.atDist); }
    if u == k.atDist { u := Onward(part, rest, u, k.atFar); }
    if u == k.atFar { var end := Onward(part, rest, u, t); }
  }

  /** The extra bits of a far distance are there. */
  lemma FarBits(input: seq<Byte>, s: State, t: State)
    requires Next(input, s) == Step(t) && s.ph.DistExtP?
    ensures t.pos == s.pos + s.ph.extra <= 8 * |input|
  {
    hide Peek;
  }

  /** With part of the input the next step is taken if it ends within that part, and none otherwise. */
  lemma Onward(part: seq<Byte>, rest: seq<Byte>, s: State, t: State) returns (u: State)
    requires Reaches(part, INITIAL, s) && Next(part + rest, s) == Step(t) && s.pos <= t.pos && !t.ph.BadP?
    requires s.pos <= 8 * |part|
    ensures if t.pos <= 8 * |part| then u == t && Reaches(part, INITIAL, t) else u == s && Stopped(part, s)
  {
    hide Next, Reaches;
    if t.pos <= 8 * |part| {
      NextLess(part, rest, s, t);
      ReachStep(part, s);
      ReachTrans(part, INITIAL, s, t);
      u := t;
    } else {
      u := s;
      if Next(part, s).Step? {
        StepInside(part, s);
        NextMore(part, rest, s);
      }
    }
  }

  /** From any of these states the call that begins there comes to the distance. */
  lemma TokenLimited(input: seq<Byte>, k: Token, u: State, lim: Limit)
    requires IsToken(input, k) && (u == k.atLen || u == k.atExtra || u == k.atDist || u == k.atFar)
    ensures Reaches(input, u.(lim := lim), k.atFar.(lim := lim))
  {
    hide Next, Reaches;
    var a, b, c, d := k.atLen.(lim := lim), k.atExtra.(lim := lim), k.atDist.(lim := lim), k.atFar.(lim := lim);
    LimitAside(input, k.atLen, lim);
    LimitAside(input, k.atExtra, lim);
    LimitAside(input, k.atDist, lim);
    ReachStep(input, a);
    ReachStep(input, b);
    ReachStep(input, c);
    ReachRefl(input, d);
    ReachTrans(input, b, c, d);
    ReachTrans(input, a, b, d);
  }

  /** A call that begins right before a distance greater than the window refuses it. */
  lemma RefusedHere(input: seq<Byte>, s: State, t: State, w: nat)
    requires s.ph.DistExtP? && s.lim.Unlimited? && Next(input, s) == Step(t) && t.ph.MatchP? && t.ph.offset > w
    ensures Next(input, s.(lim := Limit(|s.out|, w))) == Step(t.(ph := RefusedP, lim := Limit(|s.out|, w)))
  {
    hide Peek;
  }

  /** A distance greater than the window is refused when the input is divided within its codes. */
  lemma SomeDivision(input: seq<Byte>, w: nat, s: State) returns (m: nat, u: State, r: State)
    requires w >= 256 && Reaches(input, INITIAL, s) && s.ph.MatchP? && s.ph.offset > w
    ensures TwoCalls(input, w, m, u, r) && r.ph.RefusedP?
  {
    hide Next, Reaches, Pow2;
    var d, t := MatchBegins(input, s);
    var k := TokenOf(input, d);
    FarExtra(input, d, t);
    Unlimits(input, d);
    var v;
    m, v := CutToken(input, k, t);
    FirstReach(input[..m], v, w);
    u := v.(lim := Limit(0, w));
    var lim := Limit(|u.out|, w);
    LimitAside(input[..m], v, Limit(0, w));
    TokenLimited(input, k, v, lim);
    RefusedHere(input, d, t, w);
    r := t.(ph := RefusedP, lim := lim);
    ReachStep(input, d.(lim := lim));
    ReachTrans(input, v.(lim := lim), d.(lim := lim), r);
  }

  lemma FirstReach(input: seq<Byte>, t: State, w: nat)
    requires Reaches(input, INITIAL, t)
    ensures Reaches(input, INITIAL.(lim := Limit(0, w)), t.(lim := Limit(0, w)))
  {
    hide Next;
    var n: nat :| Runs(input, INITIAL, n, t);
    FirstRuns(input, INITIAL, n, t, w);
  }

  lemma Unlimits(input: seq<Byte>, t: State)
    requires Reaches(input, INITIAL, t)
    ensures t.lim.Unlimited?
  {
    hide Next;
    var n: nat :| Runs(input, INITIAL, n, t);
    FirstRuns(input, INITIAL, n, t, 0);
  }

  lemma FarExtra(input: seq<Byte>, s: State, t: State)
    requires s.ph.DistExtP? && Next(input, s) == Step(t) && t.ph.MatchP?
    ensures t.ph.offset <= s.ph.offset + Pow2(s.ph.extra) - 1
  {
    hide Peek, Pow2;
    FieldBound(input, s, s.ph.extra);
  }

  /** Where a match that is going on was begun. */
  lemma MatchBegins(input: seq<Byte>, s: State) returns (d: State, t: State)
    requires Reaches(input, INITIAL, s) && s.ph.MatchP?
    ensures Reaches(input, INITIAL, d) && d.ph.DistExtP? && Next(input, d) == Step(t)
    ensures t.ph.MatchP? && t.ph.offset == s.ph.offset
  {
    hide Next;
    var n: nat :| Runs(input, INITIAL, n, s);
    d, t := MatchBeginsBy(input, n, s);
  }

  lemma {:induction false} MatchBeginsBy(input: seq<Byte>, n: nat, s: State) returns (d: State, t: State)
    requires Runs(input, INITIAL, n, s) && s.ph.MatchP?
    ensures Reaches(input, INITIAL, d) && d.ph.DistExtP? && Next(input, d) == Step(t)
    ensures t.ph.MatchP? && t.ph.offset == s.ph.offset
    decreases n
  {
    hide Next;
    var p := RunsLast(input, INITIAL, n, s);
    FromMatch(input, p, s);
    if p.ph.DistExtP? { d, t := p, s; } else { d, t := MatchBeginsBy(input, n - 1, p); }
  }

  lemma FromMatch(input: seq<Byte>, p: State, t: State)
    requires Next(input, p) == Step(t) && t.ph.MatchP?
    ensures p.ph.DistExtP? || (p.ph.MatchP? && p.ph.offset == t.ph.offset)
  {
    hide Peek, Field, EntryFor, Verdict, CodeLengthLens, Pow2, Avail, Decode, CodeLensStep, DistPhase;
    if p.ph.CodeLensP? { CodeLensKinds(input, p); }
    if p.ph.DistP? { DistKinds(p.ph); }
  }

  /** With a window of w bytes no division of the input into two calls refuses a distance
      exactly if no distance is greater than w. */
  lemma Divisions(input: seq<Byte>, w: nat)
    requires w >= 256
    ensures Narrow(input, w) <==>
              forall m: nat, u: State, r: State :: TwoCalls(input, w, m, u, r) ==> !r.ph.RefusedP?
  {
    hide Next, Reaches, TwoCalls, Narrow;
    if Narrow(input, w) {
      forall m: nat, u: State, r: State | TwoCalls(input, w, m, u, r)
        ensures !r.ph.RefusedP?
      {
        TwoLegit(input, w, m, u, r);
        NarrowHolds(input, r, w);
      }
    } else {
      var s := TooFarSomewhere(input, w);
      var m, u, r := SomeDivision(input, w, s);
    }
  }

  lemma TooFarSomewhere(input: seq<Byte>, w: nat) returns (s: State)
    requires !Narrow(input, w)
    ensures Reaches(input, INITIAL, s) && s.ph.MatchP? && s.ph.offset > w
  {
    s :| Reaches(input, INITIAL, s) && s.ph.MatchP? && s.ph.offset > w;
  }

  lemma TwoLegit(input: seq<Byte>, w: nat, m: nat, u: State, r: State)
    requires TwoCalls(input, w, m, u, r)
    ensures Legit(input, r, w)
  {
    hide Next, Reaches, Legit;
    assert input == input[..m] + input[m..];
    InitialLegit(input[..m], w);
    LegitReach(input[..m], INITIAL.(lim := Limit(0, w)), u, w);
    LegitMore(input[..m], input[m..], u, w);
    LegitLimit(input, u, Limit(|u.out|, w), w);
    LegitReach(input, u.(lim := Limit(|u.out|, w)), r, w);
  }

  lemma InitialLegit(input: seq<Byte>, w: nat)
    ensures Legit(input, INITIAL.(lim := Limit(0, w)), w)
  {
    ReachRefl(input, INITIAL);
  }

  /** Where two calls end is determined by the input and where it is divided. */
  lemma TwoCallsUnique(input: seq<Byte>, w: nat, m: nat, u: State, r: State, v: State, q: State)
    requires TwoCalls(input, w, m, u, r) && TwoCalls(input, w, m, v, q) && Stopped(input, r) && Stopped(input, q)
    ensures u == v && r == q
  {
    hide Next, Reaches;
    StopUnique(input[..m], INITIAL.(lim := Limit(0, w)), u, v);
    StopUnique(input, u.(lim := Limit(|u.out|, w)), r, q);
  }

  /** Where some distance is greater than the window there is a division for which two calls
      end with a refused distance, however they come to their end. */
  lemma SomeCallRefuses(input: seq<Byte>, w: nat) returns (m: nat)
    requires w >= 256 && !Narrow(input, w)
    ensures m <= |input|
    ensures forall u: State, r: State :: TwoCalls(input, w, m, u, r) && Stopped(input, r) ==> r.ph.RefusedP?
  {
    hide Next, Reaches, Narrow;
    var s := TooFarSomewhere(input, w);
    var v, q;
    m, v, q := SomeDivision(input, w, s);
    EndHalts(input, q);
    forall u: State, r: State | TwoCalls(input, w, m, u, r) && Stopped(input, r)
      ensures r.ph.RefusedP?
    {
      TwoCallsUnique(input, w, m, u, r, v, q);
    }
  }
}
