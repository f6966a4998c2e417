/** How inflate reads a code with too few bits: an entry whose length fits the
    bits at hand is right even though the missing bits read as zero. */
module InflateLookup {
  import opened Bits
  import opened BitStream
  import opened Huffman
  import opened InfTrees
  import opened InflateSpec

  /** Lengths that inflate_table accepts, with a table built from them. */
  ghost predicate TableOk(t: CodeType, lens: seq<nat>, table: seq<Code>, root: nat) {
    && ValidLens(lens) && |lens| <= SymbolLimit(t)
    && (Complete(lens) || MaxLen(lens) <= 1)
    && 1 <= root <= MAXBITS && (!Complete(lens) ==> root == 1)
    && TableFor(t, lens, table, root)
  }

  lemma VerdictOk(t: CodeType, lens: seq<nat>, bits: nat, table: seq<Code>, root: nat)
    requires ValidLens(lens) && |lens| <= SymbolLimit(t) && Verdict(t, lens, bits) == 0
    requires root == RootBits(lens, bits) && TableFor(t, lens, table, root)
    ensures TableOk(t, lens, table, root)
    ensures t.CODES? ==> Complete(lens) || MaxLen(lens) == 0
    ensures root <= bits || root == MinLenFrom(lens, 1) || root == 1
  {
    hide Pow2, Count, TotalEntries, TableFor, Complete, Oversubscribed;
  }

  /** What the table says about v, all of whose bits are taken as known. */
  lemma LookAt(t: CodeType, lens: seq<nat>, table: seq<Code>, root: nat, v: nat) returns (found: bool, s: nat)
    requires TableOk(t, lens, table, root)
    ensures v % Pow2(root) < |table|
    ensures found ==> IsCodeFor(lens, s, v) && lens[s] <= MAXBITS && LeadsTo(t, lens, table, root, s, v)
    ensures !found ==> MaxLen(lens) <= 1 && table[v % Pow2(root)] == Invalid(1)
                       && forall r: nat :: !IsCodeFor(lens, r, v)
  {
    hide Pow2, Rev, Count, LeadsTo;
    ModSmall(v, root);
    found, s := true, 0;
    if Complete(lens) {
      s := CompleteDecodes(lens, v);
    } else if r: nat :| IsCodeFor(lens, r, v) {
      s := r;
    } else {
      found := false;
    }
  }

  lemma ModSmall(v: nat, n: nat)
    ensures v % Pow2(n) < Pow2(n)
  {
  }

  /** A code that fits the bits at hand is the code at the front of the stream. */
  lemma FitsFront(lens: seq<nat>, input: seq<Byte>, st: State, bits: nat, s: nat)
    requires ValidLens(lens) && st.pos + bits <= 8 * |input|
    requires IsCodeFor(lens, s, Peek(input, st.pos, bits)) && lens[s] <= bits
    ensures Decode(lens, Peek(input, st.pos, 15), Avail(input, st)) == Symbol(s)
  {
    hide Pow2, Peek, Rev, CodeValue, MaxLen;
    var l := lens[s];
    SameFront(input, st.pos, bits, l);
    RevInjective(l, Peek(input, st.pos, bits), Peek(input, st.pos, 15));
    assert Fits(lens, s, Peek(input, st.pos, 15), Avail(input, st));
    PrefixFree(lens, s, Decode(lens, Peek(input, st.pos, 15), Avail(input, st)).s, Peek(input, st.pos, 15));
  }

  lemma SameFront(input: seq<Byte>, pos: nat, bits: nat, l: nat)
    requires l <= bits && l <= 15
    ensures Peek(input, pos, bits) % Pow2(l) == Peek(input, pos, 15) % Pow2(l)
  {
    PeekLow(input, pos, l, bits);
    PeekLow(input, pos, l, 15);
  }

  /** No code of the stream is as short as the bits at hand. */
  ghost predicate TooShort(lens: seq<nat>, input: seq<Byte>, pos: nat, bits: nat) {
    forall s: nat :: !Fits(lens, s, Peek(input, pos, 15), bits)
  }

  /** If the zero-filled lookup finds a longer code, the bits at hand are too few. */
  lemma LongerMeansShort(lens: seq<nat>, input: seq<Byte>, pos: nat, bits: nat, s: nat)
    requires ValidLens(lens) && IsCodeFor(lens, s, Peek(input, pos, bits)) && lens[s] > bits
    ensures TooShort(lens, input, pos, bits)
  {
    hide Pow2, Peek, Rev, CodeValue, MaxLen;
    forall r: nat
      ensures !Fits(lens, r, Peek(input, pos, 15), bits)
    {
      if Fits(lens, r, Peek(input, pos, 15), bits) {
        SameFront(input, pos, bits, lens[r]);
        RevInjective(lens[r], Peek(input, pos, bits), Peek(input, pos, 15));
        PrefixFree(lens, r, s, Peek(input, pos, bits));
      }
    }
  }

  lemma NoBitsShort(lens: seq<nat>, input: seq<Byte>, pos: nat)
    ensures TooShort(lens, input, pos, 0)
  {
  }

  lemma ShortDecode(lens: seq<nat>, input: seq<Byte>, st: State)
    requires TooShort(lens, input, st.pos, Avail(input, st))
    requires MaxLen(lens) > 1 || Avail(input, st) == 0
    ensures Decode(lens, Peek(input, st.pos, 15), Avail(input, st)).More?
  {
  }

  /** What an entry found at the front of the stream means. */
  ghost predicate Decodes(t: CodeType, lens: seq<nat>, input: seq<Byte>, st: State, e: Code, n: nat, r: Sym)
    requires |lens| <= SymbolLimit(t)
  {
    && r == Decode(lens, Peek(input, st.pos, 15), Avail(input, st)) && !r.More?
    && 1 <= n <= MAXBITS
    && (r.Symbol? ==> r.s < |lens| && n == lens[r.s]
                      && e.op == EntryFor(t, r.s, 0).op && e.val == EntryFor(t, r.s, 0).val)
    && (r.NoCode? ==> n == 1 && e == Invalid(1))
  }

  lemma EntryAnyBits(t: CodeType, sym: nat, a: nat, b: nat)
    requires sym < SymbolLimit(t)
    ensures EntryFor(t, sym, a).op == EntryFor(t, sym, b).op && EntryFor(t, sym, a).val == EntryFor(t, sym, b).val
    ensures EntryFor(t, sym, a).bits == a && !IsLink(EntryFor(t, sym, a))
  {
  }

  /** A root entry that is longer than the bits at hand: pull another byte. */
  lemma FirstTooLong(t: CodeType, lens: seq<nat>, table: seq<Code>, root: nat, input: seq<Byte>, pos: nat, bits: nat)
    requires TableOk(t, lens, table, root)
    requires var v := Peek(input, pos, bits); v % Pow2(root) < |table| && table[v % Pow2(root)].bits > bits
    ensures TooShort(lens, input, pos, bits) && bits < MAXBITS
    ensures MaxLen(lens) > 1 || bits == 0
  {
    hide Peek, Pow2, EntryFor, MaxLen, TooShort, TableFor, Complete;
    var v := Peek(input, pos, bits);
    var found, s := LookAt(t, lens, table, root, v);
    if found {
      EntryAnyBits(t, s, lens[s], 0);
      LenAtMost(lens, s);
      LongerMeansShort(lens, input, pos, bits, s);
    } else {
      NoBitsShort(lens, input, pos);
    }
  }

  /** A root entry that fits the bits at hand and is no link: it is the answer. */
  lemma FirstFits(t: CodeType, lens: seq<nat>, table: seq<Code>, root: nat, input: seq<Byte>, st: State, bits: nat)
    returns (r: Sym)
    requires TableOk(t, lens, table, root) && st.pos + bits <= 8 * |input|
    requires var v := Peek(input, st.pos, bits);
             && v % Pow2(root) < |table| && table[v % Pow2(root)].bits <= bits && !IsLink(table[v % Pow2(root)])
    ensures var e := table[Peek(input, st.pos, bits) % Pow2(root)]; Decodes(t, lens, input, st, e, e.bits, r)
  {
    hide Peek, Pow2, EntryFor, MaxLen, Decode, Avail, Rev, CodeValue, TableFor, Complete;
    var v := Peek(input, st.pos, bits);
    var found, s := LookAt(t, lens, table, root, v);
    r := Decode(lens, Peek(input, st.pos, 15), Avail(input, st));
    if found {
      EntryAnyBits(t, s, lens[s], 0);
      FitsFront(lens, input, st, bits, s);
    } else {
      NoCodeFront(lens, input, st, bits);
    }
  }

  lemma NoCodeFront(lens: seq<nat>, input: seq<Byte>, st: State, bits: nat)
    requires ValidLens(lens) && MaxLen(lens) <= 1 <= bits && st.pos + bits <= 8 * |input|
    requires forall r: nat :: !IsCodeFor(lens, r, Peek(input, st.pos, bits))
    ensures Decode(lens, Peek(input, st.pos, 15), Avail(input, st)).NoCode?
  {
    hide Peek, Pow2, MaxLen, Rev, CodeValue;
    forall s: nat
      ensures !Fits(lens, s, Peek(input, st.pos, 15), Avail(input, st))
    {
      assert !IsCodeFor(lens, s, Peek(input, st.pos, bits));
      if Fits(lens, s, Peek(input, st.pos, 15), Avail(input, st)) {
        LenAtMost(lens, s);
        SameFront(input, st.pos, bits, lens[s]);
        RevInjective(lens[s], Peek(input, st.pos, bits), Peek(input, st.pos, 15));
      }
    }
  }

  /** last.val + (BITS(last.bits + last.op) >> last.bits) */
  function SubEntry(last: Code, v: nat): nat {
    last.val + Shifted(v % Pow2(last.bits + last.op), last.bits)
  }

  function Shifted(v: nat, n: nat): (r: nat)
    ensures r == v / Pow2(n)
  {
    DivNonNeg(v, Pow2(n));
    v / Pow2(n)
  }

  /** The sub-table entry for v, found the way inflate computes its index. */
  lemma Second(t: CodeType, lens: seq<nat>, table: seq<Code>, root: nat, v: nat) returns (s: nat)
    requires TableOk(t, lens, table, root) && v % Pow2(root) < |table| && IsLink(table[v % Pow2(root)])
    ensures IsCodeFor(lens, s, v) && root < lens[s] <= MAXBITS
    ensures table[v % Pow2(root)].bits == root
    ensures SubEntry(table[v % Pow2(root)], v) < |table|
    ensures table[SubEntry(table[v % Pow2(root)], v)] == EntryFor(t, s, lens[s] - root)
  {
    hide Pow2, EntryFor, MaxLen, TableFor, Complete, Rev, CodeValue;
    var found;
    found, s := LookAt(t, lens, table, root, v);
    if found && lens[s] <= root { EntryAnyBits(t, s, lens[s], 0); }
    DivModSwap(v, root, table[v % Pow2(root)].op);
  }

  /** A sub-table entry that is longer than the bits at hand, or that fits them. */
  lemma SecondResult(t: CodeType, lens: seq<nat>, table: seq<Code>, root: nat, input: seq<Byte>, st: State, bits: nat,
                     last: Code)
    returns (s: nat)
    requires TableOk(t, lens, table, root) && st.pos + bits <= 8 * |input|
    requires Peek(input, st.pos, bits) % Pow2(root) < |table| && IsLink(last)
    requires last == table[Peek(input, st.pos, bits) % Pow2(root)]
    ensures last.bits == root && SubEntry(last, Peek(input, st.pos, bits)) < |table|
    ensures var e := table[SubEntry(last, Peek(input, st.pos, bits))];
            && (root + e.bits <= bits ==> Decodes(t, lens, input, st, e, root + e.bits, Symbol(s)))
            && (root + e.bits > bits ==> TooShort(lens, input, st.pos, bits) && bits < MAXBITS && MaxLen(lens) > 1)
  {
    hide Peek, Pow2, EntryFor, MaxLen, Decode, Avail, Rev, CodeValue, TableFor, Complete, TooShort, SubEntry;
    var v := Peek(input, st.pos, bits);
    s := Second(t, lens, table, root, v);
    EntryAnyBits(t, s, lens[s] - root, 0);
    LenAtMost(lens, s);
    if lens[s] <= bits {
      FitsFront(lens, input, st, bits, s);
    } else {
      LongerMeansShort(lens, input, st.pos, bits, s);
    }
  }

  // ----- The fixed codes -----

  lemma {:induction false} CountRepeat(n: nat, v: nat, l: nat)
    ensures Count(Repeat(n, v), l) == if v == l then n else 0
  {
    if n > 0 {
      CountRepeat(n - 1, v, l);
      assert Repeat(n, v)[..n - 1] == Repeat(n - 1, v);
    }
  }

  lemma {:induction false} CountConcat(a: seq<nat>, b: seq<nat>, l: nat)
    ensures Count(a + b, l) == Count(a, l) + Count(b, l)
  {
    if b == [] {
      assert a + b == a;
    } else {
      CountConcat(a, b[..|b| - 1], l);
      assert (a + b)[..|a + b| - 1] == a + b[..|b| - 1];
    }
  }

  lemma FixedCounts(l: nat)
    ensures Count(FixedLens(), l) == if l == 7 then 24 else if l == 8 then 152 else if l == 9 then 112 else 0
    ensures Count(FixedDist(), l) == if l == 5 then 32 else 0
  {
    var a, b, c, d := Repeat(144, 8), Repeat(112, 9), Repeat(24, 7), Repeat(8, 8);
    CountRepeat(144, 8, l);
    CountRepeat(112, 9, l);
    CountRepeat(24, 7, l);
    CountRepeat(8, 8, l);
    CountRepeat(32, 5, l);
    CountConcat(a + b + c, d, l);
    CountConcat(a + b, c, l);
    CountConcat(a, b, l);
  }

  lemma AllFixedCounts()
    ensures forall l: nat {:trigger Count(FixedLens(), l)} ::
              Count(FixedLens(), l) == if l == 7 then 24 else if l == 8 then 152 else if l == 9 then 112 else 0
    ensures forall l: nat {:trigger Count(FixedDist(), l)} :: Count(FixedDist(), l) == if l == 5 then 32 else 0
  {
    forall l: nat {
      FixedCounts(l);
    }
  }

  lemma PowersTo9()
    ensures Pow2(5) == 32 && Pow2(9) == 512
  {
    assert Pow2(4) == 16;
    assert Pow2(8) == 16 * Pow2(4) by { Pow2Add(4, 4); }
  }

  lemma FixedUsed()
    ensures Used(FixedLens(), 9) == Pow2(9) && Used(FixedDist(), 5) == Pow2(5)
  {
    AllFixedCounts();
    hide FixedLens, FixedDist, Pow2;
    var f, d := FixedLens(), FixedDist();
    PowersTo9();
    UsedScales(f, 0, 6);
    assert Used(f, 7) == 24;
    assert Used(f, 8) == 200;
    assert Used(f, 9) == 512;
    UsedScales(d, 0, 4);
    assert Used(d, 5) == 32;
  }

  lemma FixedMax()
    ensures MaxLen(FixedLens()) == 9 && MaxLen(FixedDist()) == 5
    ensures MinLenFrom(FixedLens(), 1) == 7 && MinLenFrom(FixedDist(), 1) == 5
  {
    AllFixedCounts();
    assert Count(FixedLens(), 7) == 24 && Count(FixedLens(), 9) == 112 && Count(FixedDist(), 5) == 32;
  }

  /** Both fixed codes are complete, and their tables are root tables only. */
  lemma FixedAccepted()
    ensures ValidLens(FixedLens()) && ValidLens(FixedDist()) && |FixedLens()| == 288 && |FixedDist()| == 32
    ensures Complete(FixedLens()) && Complete(FixedDist())
    ensures Verdict(LENS, FixedLens(), 9) == 0 && Verdict(DISTS, FixedDist(), 5) == 0
    ensures RootBits(FixedLens(), 9) == 9 && RootBits(FixedDist(), 5) == 5
  {
    FixedUsed();
    FixedMax();
    PowersTo9();
    UsedAtMax(FixedLens());
    UsedAtMax(FixedDist());
    hide Pow2, Used, Count, MaxLen, MinLenFrom;
  }

  // ----- What entries lead to -----

  /** The phase after a literal/length entry, and after a distance entry. */
  function AfterLen(ll: seq<nat>, dl: seq<nat>, e: Code): Phase {
    if e.op == 0 then LitP(ll, dl, e.val % 256)
    else if HasFlag(e.op, 32) then TypeP
    else if HasFlag(e.op, 64) then BadP
    else LenExtP(ll, dl, e.val, e.op % 16)
  }

  function AfterDist(ll: seq<nat>, dl: seq<nat>, length: nat, e: Code): Phase {
    if HasFlag(e.op, 64) then BadP else DistExtP(ll, dl, length, e.val, e.op % 16)
  }

  lemma LenTo(input: seq<Byte>, s: State, e: Code, n: nat, r: Sym)
    requires s.ph.LenP? && |s.ph.ll| <= 288 && Decodes(LENS, s.ph.ll, input, s, e, n, r)
    ensures Next(input, s) == Step(s.(pos := s.pos + n, ph := AfterLen(s.ph.ll, s.ph.dl, e)))
  {
    hide Peek, EntryFor, MaxLen, Decode, Avail;
  }

  lemma DistTo(input: seq<Byte>, s: State, e: Code, n: nat, r: Sym)
    requires s.ph.DistP? && |s.ph.dl| <= 32 && Decodes(DISTS, s.ph.dl, input, s, e, n, r)
    ensures Next(input, s) == Step(s.(pos := s.pos + n, ph := AfterDist(s.ph.ll, s.ph.dl, s.ph.length, e)))
  {
    hide Peek, EntryFor, MaxLen, Decode, Avail;
  }

  /** Lengths are 3..258 and literals are bytes. */
  lemma LenEntry(lens: seq<nat>, input: seq<Byte>, s: State, e: Code, n: nat, r: Sym)
    requires |lens| <= 288 && Decodes(LENS, lens, input, s, e, n, r)
    ensures e.op == 0 ==> e.val < 256
    ensures e.op != 0 && !HasFlag(e.op, 32) && !HasFlag(e.op, 64) ==>
              e.val >= 3 && e.op % 16 <= 5 && e.val + Pow2(e.op % 16) - 1 <= 258
    ensures HasFlag(e.op, 16) <==> e.op != 0 && !HasFlag(e.op, 32) && !HasFlag(e.op, 64)
  {
    hide Decode, Peek, Avail, MaxLen, Count, EntryFor, HasFlag, Pow2;
    InvalidFlags();
    if r.Symbol? { LenEntryFor(r.s); }
  }

  lemma InvalidFlags()
    ensures HasFlag(64, 64) && !HasFlag(64, 32) && !HasFlag(64, 16)
  {
  }

  lemma LenEntryFor(sym: nat)
    requires sym < 288
    ensures var e := EntryFor(LENS, sym, 0);
            && (e.op == 0 ==> e.val < 256)
            && (e.op != 0 && !HasFlag(e.op, 32) && !HasFlag(e.op, 64) ==>
                  e.val >= 3 && e.op % 16 <= 5 && e.val + Pow2(e.op % 16) - 1 <= 258)
            && (HasFlag(e.op, 16) <==> e.op != 0 && !HasFlag(e.op, 32) && !HasFlag(e.op, 64))
  {
    hide Pow2;
    if sym > 256 { LenBases(sym); }
  }

  lemma LenBases(sym: nat)
    requires 256 < sym < 288
    ensures sym >= 286 ==>
              HasFlag(LEXT[sym - 257], 64) && !HasFlag(LEXT[sym - 257], 32) && !HasFlag(LEXT[sym - 257], 16)
    ensures sym < 286 ==> LBASE[sym - 257] >= 3 && 16 <= LEXT[sym - 257] <= 21
                          && LBASE[sym - 257] + Pow2(LEXT[sym - 257] % 16) - 1 <= 258
  {
    SmallPowers();
  }

  /** Distances are 1..32768. */
  lemma DistEntry(lens: seq<nat>, input: seq<Byte>, s: State, e: Code, n: nat, r: Sym)
    requires |lens| <= 32 && Decodes(DISTS, lens, input, s, e, n, r)
    ensures !HasFlag(e.op, 64) ==>
              e.val >= 1 && e.op % 16 <= 13 && e.val + Pow2(e.op % 16) - 1 <= 32768 && 16 <= e.op < 32
    ensures HasFlag(e.op, 16) <==> !HasFlag(e.op, 64)
  {
    hide Decode, Peek, Avail, MaxLen, Count, EntryFor, HasFlag, Pow2;
    InvalidFlags();
    if r.Symbol? { DistEntryFor(r.s); }
  }

  lemma DistEntryFor(sym: nat)
    requires sym < 32
    ensures var e := EntryFor(DISTS, sym, 0);
            && (!HasFlag(e.op, 64) ==>
                  e.val >= 1 && e.op % 16 <= 13 && e.val + Pow2(e.op % 16) - 1 <= 32768 && 16 <= e.op < 32)
            && (HasFlag(e.op, 16) <==> !HasFlag(e.op, 64))
  {
    hide Pow2;
    DistBases(sym);
  }

  lemma DistBases(sym: nat)
    requires sym < 32
    ensures sym >= 30 ==> HasFlag(DEXT[sym], 64) && !HasFlag(DEXT[sym], 16)
    ensures sym < 30 ==> DBASE[sym] >= 1 && 16 <= DEXT[sym] <= 29
                         && DBASE[sym] + Pow2(DEXT[sym] % 16) - 1 <= 32768
  {
    SmallPowers();
    if sym < 30 {
      Pow2Add(DEXT[sym] % 16 / 2, DEXT[sym] % 16 - DEXT[sym] % 16 / 2);
    }
  }

  lemma SmallPowers()
    ensures Pow2(0) == 1 && Pow2(1) == 2 && Pow2(2) == 4 && Pow2(3) == 8 && Pow2(4) == 16 && Pow2(5) == 32
    ensures Pow2(6) == 64 && Pow2(7) == 128
  {
    assert Pow2(2) == 4;
    assert Pow2(4) == 16;
    assert Pow2(6) == 64;
  }

  lemma CodeLensTo(input: seq<Byte>, s: State, e: Code, n: nat, r: Sym)
    requires s.ph.CodeLensP? && |s.ph.lens| < s.ph.nlen + s.ph.ndist && |s.ph.clens| == 19
    requires Decodes(CODES, s.ph.clens, input, s, e, n, r)
    ensures Next(input, s) == CodeLenSymbol(input, s, e.val, n) && e.val < 19
  {
    hide Peek, Decode, Avail, MaxLen, CodeLenSymbol;
  }

  /** How many extra bits a repeat symbol needs, and the run it stands for. */
  function RepeatBits(sym: nat): nat { if sym == 16 then 2 else if sym == 17 then 3 else 7 }

  lemma RepeatShort(input: seq<Byte>, s: State, sym: nat, n: nat)
    requires s.ph.CodeLensP? && sym >= 16 && !Has(input, s, n + RepeatBits(sym))
    ensures CodeLenSymbol(input, s, sym, n).NeedInput?
  {
  }

  /** The phase after repeat symbol sym with value v of its extra bits. */
  function AfterRun(p: Phase, sym: nat, v: nat): Phase
    requires p.CodeLensP? && (sym == 16 ==> p.lens != [])
  {
    var copy := (if sym >= 18 then 11 else 3) + v;
    var len := if sym == 16 then p.lens[|p.lens| - 1] else 0;
    if |p.lens| + copy > p.nlen + p.ndist then BadP else p.(lens := p.lens + Repeat(copy, len))
  }

  lemma RepeatHas(input: seq<Byte>, s: State, sym: nat, n: nat)
    requires s.ph.CodeLensP? && sym >= 16 && Has(input, s, n + RepeatBits(sym))
    ensures sym == 16 && s.ph.lens == [] ==> CodeLenSymbol(input, s, sym, n) == Step(s.(pos := s.pos + n, ph := BadP))
    ensures !(sym == 16 && s.ph.lens == []) ==>
              CodeLenSymbol(input, s, sym, n) ==
                Step(s.(pos := s.pos + n + RepeatBits(sym),
                        ph := AfterRun(s.ph, sym, Peek(input, s.pos + n, RepeatBits(sym)))))
  {
    hide Peek, Repeat;
  }

  /** ORDER and PLACE are inverse permutations. */
  lemma OrderPlace()
    ensures |ORDER| == 19 == |PLACE|
    ensures forall i :: 0 <= i < 19 ==> 0 <= ORDER[i] < 19 && PLACE[ORDER[i]] == i
    ensures forall k :: 0 <= k < 19 ==> 0 <= PLACE[k] < 19 && ORDER[PLACE[k]] == k
  {
  }

  lemma CodeLengthVerdict(lens: seq<nat>)
    requires |lens| == 19 && (forall i :: 0 <= i < 19 ==> lens[i] <= 7)
    ensures ValidLens(lens)
  {
  }
}
