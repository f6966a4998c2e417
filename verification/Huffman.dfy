/** Canonical Huffman codes as section 3.2.2 of RFC 1951 defines them: a code is
    given by one length per symbol, zero meaning that the symbol is not coded. */
module Huffman {
  import opened Bits

  const MAXBITS := 15

  ghost predicate ValidLens(lens: seq<nat>) {
    forall i :: 0 <= i < |lens| ==> lens[i] <= MAXBITS
  }

  /** bl_count of the RFC: how many symbols have length l. */
  function Count(lens: seq<nat>, l: nat): nat {
    if lens == [] then 0
    else Count(lens[..|lens| - 1], l) + (if lens[|lens| - 1] == l then 1 else 0)
  }

  /** next_code of the RFC: the first code of length l. */
  function NextCode(lens: seq<nat>, l: nat): nat
    decreases l, 0
  {
    if l == 0 then 0 else 2 * Used(lens, l - 1)
  }

  /** One past the last code of length l; zero-length symbols have no code. */
  function Used(lens: seq<nat>, l: nat): nat
    decreases l, 1
  {
    if l == 0 then 0 else NextCode(lens, l) + Count(lens, l)
  }

  /** Position of a symbol among the symbols of its own length. */
  function Rank(lens: seq<nat>, s: nat): nat
    requires s < |lens|
  {
    Count(lens[..s], lens[s])
  }

  function CodeValue(lens: seq<nat>, s: nat): nat
    requires s < |lens|
  {
    NextCode(lens, lens[s]) + Rank(lens, s)
  }

  /** The stream whose bits are those of v, lowest first, begins with the code of
      s, most significant bit first. */
  predicate IsCodeFor(lens: seq<nat>, s: nat, v: nat) {
    s < |lens| && lens[s] > 0 && Rev(lens[s], v) == CodeValue(lens, s)
  }

  /** The code space is exactly filled, over-filled, or left with gaps. */
  predicate Complete(lens: seq<nat>) { Used(lens, MAXBITS) == Pow2(MAXBITS) }
  predicate Oversubscribed(lens: seq<nat>) { Used(lens, MAXBITS) > Pow2(MAXBITS) }

  /** The longest length with a symbol, among lengths up to l. */
  function MaxLenTo(lens: seq<nat>, l: nat): (m: nat)
    ensures m <= l
    ensures m > 0 ==> Count(lens, m) > 0
    ensures forall i :: m < i <= l ==> Count(lens, i) == 0
  {
    if l == 0 || Count(lens, l) != 0 then l else MaxLenTo(lens, l - 1)
  }

  function MaxLen(lens: seq<nat>): (m: nat)
    ensures m <= MAXBITS
    ensures m > 0 ==> Count(lens, m) > 0
  {
    MaxLenTo(lens, MAXBITS)
  }

  lemma {:induction false} CountPositive(lens: seq<nat>, s: nat)
    requires s < |lens|
    ensures Count(lens, lens[s]) > Rank(lens, s)
  {
    CountPrefix(lens, s + 1, lens[s]);
    assert lens[..s + 1][..s] == lens[..s];
  }

  lemma {:induction false} CountPrefix(lens: seq<nat>, n: nat, l: nat)
    requires n <= |lens|
    ensures Count(lens[..n], l) <= Count(lens, l)
  {
    if n < |lens| {
      var front := lens[..|lens| - 1];
      CountPrefix(front, n, l);
      assert front[..n] == lens[..n];
    } else {
      assert lens[..n] == lens;
    }
  }

  lemma CountStep(lens: seq<nat>, n: nat, l: nat)
    requires n < |lens|
    ensures Count(lens[..n + 1], l) == Count(lens[..n], l) + (if lens[n] == l then 1 else 0)
  {
    assert lens[..n + 1][..n] == lens[..n];
  }

  /** The j-th symbol of length l. */
  function Nth(lens: seq<nat>, l: nat, j: nat): (s: nat)
    requires j < Count(lens, l)
    ensures s < |lens| && lens[s] == l && Rank(lens, s) == j
  {
    var n := |lens| - 1;
    assert lens[..n + 1] == lens;
    if lens[n] == l && Count(lens[..n], l) == j then n
    else
      var s := Nth(lens[..n], l, j);
      assert lens[..n][..s] == lens[..s];
      s
  }

  lemma {:induction false} RankInjective(lens: seq<nat>, s: nat, r: nat)
    requires s < |lens| && r < |lens| && lens[s] == lens[r] && Rank(lens, s) == Rank(lens, r)
    ensures s == r
  {
    if s < r {
      RankStrict(lens, s, r);
    } else if r < s {
      RankStrict(lens, r, s);
    }
  }

  lemma RankStrict(lens: seq<nat>, s: nat, r: nat)
    requires s < r < |lens| && lens[s] == lens[r]
    ensures Rank(lens, s) < Rank(lens, r)
  {
    CountStep(lens, s, lens[s]);
    CountPrefix(lens[..r], s + 1, lens[s]);
    assert lens[..r][..s + 1] == lens[..s + 1];
  }

  lemma RevStep(l: nat, v: nat)
    ensures Rev(l + 1, v) / 2 == Rev(l, v)
  {
    RevPrefix(l + 1, l, v);
    Pow2One();
  }

  /** Once the bits read so far fall below the codes used up, they stay below. */
  lemma {:induction false} BelowStays(lens: seq<nat>, l: nat, m: nat, v: nat)
    requires l <= m && Rev(l, v) < Used(lens, l)
    ensures Rev(m, v) < Used(lens, m)
    ensures l < m ==> Rev(m, v) < NextCode(lens, m)
    decreases m - l
  {
    if l < m {
      RevStep(l, v);
      assert Rev(l + 1, v) < NextCode(lens, l + 1);
      if l + 1 < m { BelowStays(lens, l + 1, m, v); }
    }
  }

  lemma CodeRange(lens: seq<nat>, s: nat)
    requires s < |lens| && lens[s] > 0
    ensures NextCode(lens, lens[s]) <= CodeValue(lens, s) < Used(lens, lens[s])
  {
    CountPositive(lens, s);
  }

  /** No code is a prefix of another: a stream begins with at most one code. */
  lemma PrefixFree(lens: seq<nat>, s: nat, r: nat, v: nat)
    requires IsCodeFor(lens, s, v) && IsCodeFor(lens, r, v)
    ensures s == r
  {
    CodeRange(lens, s);
    CodeRange(lens, r);
    if lens[s] < lens[r] {
      BelowStays(lens, lens[s], lens[r], v);
    } else if lens[r] < lens[s] {
      BelowStays(lens, lens[r], lens[s], v);
    } else {
      RankInjective(lens, s, r);
    }
  }

  /** A stream that has gone below the used codes begins with some code. */
  lemma {:induction false} CodeExists(lens: seq<nat>, m: nat, v: nat) returns (s: nat)
    requires m > 0 && Rev(m, v) < Used(lens, m)
    ensures IsCodeFor(lens, s, v) && lens[s] <= m
  {
    if Rev(m, v) >= NextCode(lens, m) {
      s := Nth(lens, m, Rev(m, v) - NextCode(lens, m));
    } else {
      RevStep(m - 1, v);
      assert Used(lens, 0) == 0;
      s := CodeExists(lens, m - 1, v);
    }
  }

  lemma Doubles(u: nat, v: nat, p: nat, w: nat)
    requires 2 * u <= v && v * p <= w
    ensures u * (2 * p) <= w
  {
    MulMono(2 * u, v, p);
    assert u * (2 * p) == 2 * u * p;
  }

  lemma {:induction false} UsedGrows(lens: seq<nat>, l: nat, m: nat)
    requires l <= m
    ensures Used(lens, l) * Pow2(m - l) <= Used(lens, m)
    decreases m - l
  {
    if l < m {
      UsedGrows(lens, l + 1, m);
      Doubles(Used(lens, l), Used(lens, l + 1), Pow2(m - l - 1), Used(lens, m));
    }
  }

  /** Lengths that no symbol has only scale the used codes. */
  lemma {:induction false} UsedScales(lens: seq<nat>, l: nat, m: nat)
    requires l <= m && forall i :: l < i <= m ==> Count(lens, i) == 0
    ensures Used(lens, m) == Used(lens, l) * Pow2(m - l)
    decreases m - l
  {
    if l < m {
      UsedScales(lens, l + 1, m);
      var p := Pow2(m - l - 1);
      assert Used(lens, l) * (2 * p) == 2 * Used(lens, l) * p;
    }
  }

  lemma UsedAtMax(lens: seq<nat>)
    ensures Complete(lens) <==> Used(lens, MaxLen(lens)) == Pow2(MaxLen(lens))
    ensures Oversubscribed(lens) <==> Used(lens, MaxLen(lens)) > Pow2(MaxLen(lens))
  {
    var m := MaxLen(lens);
    UsedScales(lens, m, MAXBITS);
    Pow2Add(m, MAXBITS - m);
    ScaleCompare(Used(lens, m), Pow2(m), Pow2(MAXBITS - m));
  }

  lemma ScaleCompare(a: int, b: int, p: int)
    requires p > 0
    ensures a * p == b * p <==> a == b
    ensures a * p > b * p <==> a > b
  {
    if a > b {
      MulLower(a - b, p);
    } else if a < b {
      MulLower(b - a, p);
    }
  }

  /** A complete code decodes every stream, with a code no longer than the longest. */
  lemma CompleteDecodes(lens: seq<nat>, v: nat) returns (s: nat)
    requires Complete(lens)
    ensures IsCodeFor(lens, s, v) && lens[s] <= MaxLen(lens)
  {
    UsedAtMax(lens);
    s := CodeExists(lens, MaxLen(lens), v);
  }
}
