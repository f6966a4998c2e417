/** What a window smaller than 32K changes: decoding with distances limited to what
    the window and the output of the call hold, against decoding without a limit. */
module InflateLimit {
  import opened Bits
  import opened BitStream
  import opened InfTrees
  import opened InflateSpec
  import opened InflateLookup

  /** The same state of the machine that knows no limit. */
  function Free(s: State): State { s.(lim := Unlimited) }

  /** How a state of the limited machine came about: the machine without a limit gets
      there too, or, where a distance was refused, goes on to a match more than w back. */
  ghost predicate Legit(input: seq<Byte>, a: State, w: nat) {
    if a.ph.RefusedP? then exists ph: Phase :: Overreach(input, a, w, ph)
    else Reaches(input, INITIAL, Free(a))
  }

  ghost predicate Overreach(input: seq<Byte>, a: State, w: nat, ph: Phase) {
    ph.MatchP? && ph.offset > w && Reaches(input, INITIAL, Free(a).(ph := ph))
  }

  /** Every distance decoded is at most w. */
  ghost predicate Narrow(input: seq<Byte>, w: nat) {
    forall s: State :: Reaches(input, INITIAL, s) && s.ph.MatchP? ==> s.ph.offset <= w
  }

  /** The limit decides over nothing but whether a distance is refused. */
  lemma LimitAside(input: seq<Byte>, s: State, lim: Limit)
    ensures Next(input, s.(lim := lim)).Step? <==> Next(input, s).Step?
    ensures Next(input, s.(lim := lim)).NeedInput? <==> Next(input, s).NeedInput?
    ensures Next(input, s).Step? && !s.ph.DistExtP? ==>
              Next(input, s.(lim := lim)) == Step(Next(input, s).s.(lim := lim))
  {
    hide CodeLensStep, LenLensStep, TypeStep, StoredStep, TableStep, CopyStep, LenStep, LenExtStep, DistStep;
    hide DistExtStep;
    HeaderAside(input, s, lim);
    match s.ph
    case CodeLensP(_, _, _, _) => CodeLensAside(input, s, lim);
    case CopyP(_) => CodesAside(input, s, lim);
    case LenP(_, _) => CodesAside(input, s, lim);
    case LenExtP(_, _, _, _) => CodesAside(input, s, lim);
    case DistP(_, _, _) => CodesAside(input, s, lim);
    case DistExtP(_, _, _, _, _) => DistanceAside(input, s, lim);
    case _ =>
  }

  lemma CodesAside(input: seq<Byte>, s: State, lim: Limit)
    ensures s.ph.CopyP? ==> Aside(CopyStep(input, s), CopyStep(input, s.(lim := lim)), lim)
    ensures s.ph.LenP? ==> Aside(LenStep(input, s), LenStep(input, s.(lim := lim)), lim)
    ensures s.ph.LenExtP? ==> Aside(LenExtStep(input, s), LenExtStep(input, s.(lim := lim)), lim)
    ensures s.ph.DistP? ==> Aside(DistStep(input, s), DistStep(input, s.(lim := lim)), lim)
  {
    hide Peek, Field, Decode, LenPhase, DistPhase, Avail;
    ReadAside(input, s, lim);
  }

  lemma DistanceAside(input: seq<Byte>, s: State, lim: Limit)
    requires s.ph.DistExtP?
    ensures DistExtStep(input, s.(lim := lim)).Step? <==> DistExtStep(input, s).Step?
    ensures DistExtStep(input, s.(lim := lim)).NeedInput? <==> DistExtStep(input, s).NeedInput?
  {
    hide Peek;
  }

  ghost predicate Aside(r: Result, q: Result, lim: Limit) {
    (q.Step? <==> r.Step?) && (q.NeedInput? <==> r.NeedInput?) && (r.Step? ==> q == Step(r.s.(lim := lim)))
  }

  lemma HeaderAside(input: seq<Byte>, s: State, lim: Limit)
    ensures Aside(TypeStep(input, s), TypeStep(input, s.(lim := lim)), lim)
    ensures Aside(StoredStep(input, s), StoredStep(input, s.(lim := lim)), lim)
    ensures Aside(TableStep(input, s), TableStep(input, s.(lim := lim)), lim)
    ensures s.ph.LenLensP? ==> Aside(LenLensStep(input, s), LenLensStep(input, s.(lim := lim)), lim)
  {
    hide Peek, Field, Verdict, CodeLengthLens, Avail;
    ReadAside(input, s, lim);
  }

  lemma ReadAside(input: seq<Byte>, s: State, lim: Limit)
    ensures Avail(input, s.(lim := lim)) == Avail(input, s)
    ensures forall i: nat, n: nat :: Field(input, s.(lim := lim), i, n) == Field(input, s, i, n)
  {
    hide Peek;
  }

  lemma CodeLensAside(input: seq<Byte>, s: State, lim: Limit)
    requires s.ph.CodeLensP?
    ensures Aside(CodeLensStep(input, s), CodeLensStep(input, s.(lim := lim)), lim)
  {
    hide Peek, Decode, Verdict, CodeLenSymbol;
    match Decode(s.ph.clens, Peek(input, s.pos, 15), Avail(input, s))
    case More =>
    case NoCode => SymbolLimited(input, s, lim, 0, 1);
    case Symbol(sym) => SymbolLimited(input, s, lim, sym, s.ph.clens[sym]);
  }

  lemma SymbolLimited(input: seq<Byte>, s: State, lim: Limit, sym: nat, bits: nat)
    requires s.ph.CodeLensP?
    ensures Aside(CodeLenSymbol(input, s, sym, bits), CodeLenSymbol(input, s.(lim := lim), sym, bits), lim)
  {
    hide Peek;
  }

  /** Bytes written are kept, and so is the limit. */
  lemma StepKeeps(input: seq<Byte>, s: State)
    requires Next(input, s).Step?
    ensures Next(input, s).s.lim == s.lim && s.out <= Next(input, s).s.out
    ensures Next(input, s).s.ph.RefusedP? ==> s.ph.DistExtP?
  {
    hide Peek, Field, Decode, Verdict, LenPhase, CodeLengthLens, Align, Avail, EntryFor, CodeLensStep;
    LenPhaseKinds(s);
    if s.ph.CodeLensP? { CodeLensKeeps(input, s); }
  }

  lemma CodeLensKeeps(input: seq<Byte>, s: State)
    requires s.ph.CodeLensP? && CodeLensStep(input, s).Step?
    ensures CodeLensStep(input, s).s.lim == s.lim && s.out <= CodeLensStep(input, s).s.out
    ensures !CodeLensStep(input, s).s.ph.RefusedP?
  {
    hide Peek, Field, Decode, Verdict, Avail;
  }

  lemma LenPhaseKinds(s: State)
    ensures s.ph.LenP? ==> forall sym: nat :: !LenPhase(s.ph, sym).RefusedP?
  {
  }

  /** One step of the limited machine. */
  lemma FreeStep(input: seq<Byte>, s: State, w: nat)
    requires s.lim.Limit? && s.lim.w == w && s.lim.h <= |s.out| && Next(input, s).Step?
    ensures var t := Next(input, s).s;
            if t.ph.RefusedP? then
              exists ph: Phase :: ph.MatchP? && ph.offset > w && Next(input, Free(s)) == Step(Free(t).(ph := ph))
            else Next(input, Free(s)) == Step(Free(t))
  {
    hide Next, Peek;
    LimitAside(input, s, Unlimited);
    StepKeeps(input, s);
    if s.ph.DistExtP? { FreeDistance(input, s, w); }
  }

  lemma FreeDistance(input: seq<Byte>, s: State, w: nat)
    requires s.lim.Limit? && s.lim.w == w && s.lim.h <= |s.out| && Next(input, s).Step? && s.ph.DistExtP?
    ensures var t := Next(input, s).s;
            if t.ph.RefusedP? then
              exists ph: Phase :: ph.MatchP? && ph.offset > w && Next(input, Free(s)) == Step(Free(t).(ph := ph))
            else Next(input, Free(s)) == Step(Free(t))
  {
    hide Peek;
    var t, p := Next(input, s).s, s.ph;
    if t.ph.RefusedP? {
      var ph := MatchP(p.ll, p.dl, p.length, p.offset + Field(input, s, 0, p.extra));
      assert Next(input, Free(s)) == Step(Free(t).(ph := ph));
    }
  }

  /** A run of the limited machine, from a state that came about rightly. */
  lemma {:induction false} LegitRuns(input: seq<Byte>, s: State, n: nat, t: State, w: nat)
    requires Runs(input, s, n, t) && Legit(input, s, w) && s.lim.Limit? && s.lim.w == w && s.lim.h <= |s.out|
    ensures Legit(input, t, w) && t.lim == s.lim && s.out <= t.out
    decreases n
  {
    hide Next, Reaches;
    if n > 0 {
      LegitStep(input, s, w);
      StepKeeps(input, s);
      LegitRuns(input, Next(input, s).s, n - 1, t, w);
    }
  }

  lemma LegitStep(input: seq<Byte>, s: State, w: nat)
    requires Legit(input, s, w) && s.lim.Limit? && s.lim.w == w && s.lim.h <= |s.out| && Next(input, s).Step?
    ensures Legit(input, Next(input, s).s, w)
  {
    hide Next, Reaches;
    var t := Next(input, s).s;
    EndHalts(input, s);
    FreeStep(input, s, w);
    ReachStep(input, Free(s));
    ReachTrans(input, INITIAL, Free(s), Next(input, Free(s)).s);
    if t.ph.RefusedP? {
      var ph: Phase :| ph.MatchP? && ph.offset > w && Next(input, Free(s)) == Step(Free(t).(ph := ph));
      assert Overreach(input, t, w, ph);
    }
  }

  lemma LegitReach(input: seq<Byte>, s: State, t: State, w: nat)
    requires Reaches(input, s, t) && Legit(input, s, w) && s.lim.Limit? && s.lim.w == w && s.lim.h <= |s.out|
    ensures Legit(input, t, w) && t.lim == s.lim && s.out <= t.out
  {
    hide Next;
    var n: nat :| Runs(input, s, n, t);
    LegitRuns(input, s, n, t, w);
  }

  lemma LegitMore(input: seq<Byte>, more: seq<Byte>, a: State, w: nat)
    requires Legit(input, a, w)
    ensures Legit(input + more, a, w)
  {
    hide Reaches;
    if a.ph.RefusedP? {
      var ph: Phase :| Overreach(input, a, w, ph);
      ReachMore(input, more, INITIAL, Free(a).(ph := ph));
      assert Overreach(input + more, a, w, ph);
    } else {
      ReachMore(input, more, INITIAL, Free(a));
    }
  }

  lemma LegitLimit(input: seq<Byte>, a: State, lim: Limit, w: nat)
    requires Legit(input, a, w)
    ensures Legit(input, a.(lim := lim), w)
  {
    hide Reaches;
    if a.ph.RefusedP? {
      var ph: Phase :| Overreach(input, a, w, ph);
      assert Overreach(input, a.(lim := lim), w, ph);
    }
  }

  /** Where no distance exceeds the window, none is refused and no match spans more than it. */
  lemma NarrowHolds(input: seq<Byte>, a: State, w: nat)
    requires Legit(input, a, w) && Narrow(input, w)
    ensures !a.ph.RefusedP? && (a.ph.MatchP? ==> a.ph.offset <= w) && Reaches(input, INITIAL, Free(a))
  {
    hide Reaches;
    forall ph: Phase
      ensures !Overreach(input, a, w, ph)
    {
      NoOverreach(input, a, w, ph);
    }
  }

  lemma NoOverreach(input: seq<Byte>, a: State, w: nat, ph: Phase)
    requires Narrow(input, w)
    ensures !Overreach(input, a, w, ph)
  {
    hide Reaches;
    assert Reaches(input, INITIAL, Free(a).(ph := ph)) && ph.MatchP? ==> Free(a).(ph := ph).ph.offset <= w;
  }

  /** Whether a distance that reaches into the output is refused depends on how much of
      the output belongs to earlier calls exactly when it is greater than the window. */
  lemma DivisionMatters(input: seq<Byte>, s: State, w: nat)
    requires s.ph.DistExtP? && Next(input, Free(s)).Step? && Next(input, Free(s)).s.ph.MatchP?
    ensures Next(input, Free(s)).s.ph.offset <= w <==>
            forall h: nat :: h <= |s.out| ==> Next(input, s.(lim := Limit(h, w))).s.ph.MatchP?
  {
    hide Peek;
    assert Next(input, s.(lim := Limit(|s.out|, w))).Step?;
    forall h: nat | h <= |s.out|
      ensures Next(input, s.(lim := Limit(h, w))).Step?
    {
    }
  }

  // ----- No distance is greater than 32768 -----

  ghost predicate ShortWay(p: Phase) {
    && (p.DistExtP? ==> p.offset + Pow2(p.extra) - 1 <= 32768)
    && (p.MatchP? ==> p.offset <= 32768)
  }

  lemma ShortStep(input: seq<Byte>, s: State)
    requires Next(input, s).Step? && ShortWay(s.ph)
    ensures ShortWay(Next(input, s).s.ph)
  {
    hide Peek, Decode, EntryFor, Verdict, CodeLengthLens, LenPhase, DistPhase, Field, Pow2;
    match s.ph
    case LenP(_, _) => LenPhaseShort(s.ph);
    case DistP(_, _, _) => DistPhaseShort(s.ph);
    case DistExtP(_, _, _, _, extra) => PeekBound(input, s.pos + 0, extra); FieldBound(input, s, extra);
    case _ =>
  }

  lemma FieldBound(input: seq<Byte>, s: State, n: nat)
    ensures Field(input, s, 0, n) < Pow2(n)
  {
    PeekBound(input, s.pos, n);
  }

  lemma LenPhaseShort(p: Phase)
    requires p.LenP?
    ensures forall sym: nat :: ShortWay(LenPhase(p, sym))
  {
    hide Pow2, EntryFor;
  }

  lemma DistPhaseShort(p: Phase)
    requires p.DistP?
    ensures forall sym: nat :: ShortWay(DistPhase(p, sym))
  {
    forall sym: nat
      ensures ShortWay(DistPhase(p, sym))
    {
      hide Pow2;
      if sym < SymbolLimit(DISTS) { DistEntryFor(sym); }
    }
  }

  lemma {:induction false} ShortRuns(input: seq<Byte>, s: State, n: nat, t: State)
    requires Runs(input, s, n, t) && ShortWay(s.ph)
    ensures ShortWay(t.ph)
    decreases n
  {
    hide Next, ShortWay;
    if n > 0 {
      ShortStep(input, s);
      ShortRuns(input, Next(input, s).s, n - 1, t);
    }
  }

  /** A window of 32K is enough for every stream. */
  lemma AllNarrow(input: seq<Byte>, w: nat)
    requires w >= 32768
    ensures Narrow(input, w)
  {
    forall s: State | Reaches(input, INITIAL, s) && s.ph.MatchP?
      ensures s.ph.offset <= w
    {
      hide Next;
      var n: nat :| Runs(input, INITIAL, n, s);
      ShortRuns(input, INITIAL, n, s);
    }
  }
}
