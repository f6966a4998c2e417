/** inflate_table: two-level decoding tables from a set of code lengths. */
module InfTrees {
  import opened Bits
  import opened Huffman

  const ENOUGH := 2048
  const MAXD := 592

  datatype CodeType = CODES | LENS | DISTS

  /** One table entry: operation, bits to drop, and value. */
  datatype Code = Code(op: nat, bits: nat, val: nat)

  const LBASE: seq<nat> := [
    3, 4, 5, 6, 7, 8, 9, 10, 11, 13, 15, 17, 19, 23, 27, 31,
    35, 43, 51, 59, 67, 83, 99, 115, 131, 163, 195, 227, 258, 0, 0]
  const LEXT: seq<nat> := [
    16, 16, 16, 16, 16, 16, 16, 16, 17, 17, 17, 17, 18, 18, 18, 18,
    19, 19, 19, 19, 20, 20, 20, 20, 21, 21, 21, 21, 16, 201, 196]
  const DBASE: seq<nat> := [
    1, 2, 3, 4, 5, 7, 9, 13, 17, 25, 33, 49, 65, 97, 129, 193,
    257, 385, 513, 769, 1025, 1537, 2049, 3073, 4097, 6145,
    8193, 12289, 16385, 24577, 0, 0]
  const DEXT: seq<nat> := [
    16, 16, 16, 16, 17, 17, 18, 18, 19, 19, 20, 20, 21, 21, 22, 22,
    23, 23, 24, 24, 25, 25, 26, 26, 27, 27,
    28, 28, 29, 29, 64, 64]

  /** How many symbols the base and extra tables of each code type cover. */
  function SymbolLimit(t: CodeType): nat {
    match t
    case CODES => 19
    case LENS => 288
    case DISTS => 32
  }

  function EntryFor(t: CodeType, sym: nat, bits: nat): Code
    requires sym < SymbolLimit(t)
  {
    match t
    case CODES => Code(0, bits, sym)
    case LENS =>
      if sym < 256 then Code(0, bits, sym)
      else if sym == 256 then Code(96, bits, 0)
      else Code(LEXT[sym - 257], bits, LBASE[sym - 257])
    case DISTS => Code(DEXT[sym], bits, DBASE[sym])
  }

  /** Marker put where no code leads. */
  function Invalid(bits: nat): Code { Code(64, bits, 0) }

  /** A root entry that points to a sub-table indexed by op more bits. */
  predicate IsLink(e: Code) { 0 < e.op < 16 }

  lemma EntryIsNoLink(t: CodeType, sym: nat, bits: nat)
    requires sym < SymbolLimit(t)
    ensures !IsLink(EntryFor(t, sym, bits)) && EntryFor(t, sym, bits).bits == bits
  {
  }

  // ----- What a finished table promises -----

  /** Following the table for stream v ends at the entry of s, the sub-table
      entry holding the bits beyond the root. */
  predicate LeadsTo(t: CodeType, lens: seq<nat>, table: seq<Code>, root: nat, s: nat, v: nat)
    requires s < |lens| <= SymbolLimit(t)
  {
    var i := v % Pow2(root);
    && i < |table|
    && if lens[s] <= root then table[i] == EntryFor(t, s, lens[s])
       else
         && IsLink(table[i]) && table[i].bits == root
         && table[i].val + Pow2(table[i].op) <= |table|
         && table[i].val + (v / Pow2(root)) % Pow2(table[i].op) < |table|
         && table[table[i].val + (v / Pow2(root)) % Pow2(table[i].op)] == EntryFor(t, s, lens[s] - root)
  }

  ghost predicate TableFor(t: CodeType, lens: seq<nat>, table: seq<Code>, root: nat)
    requires |lens| <= SymbolLimit(t)
  {
    && |table| >= Pow2(root)
    && (forall s: nat, v: nat {:trigger IsCodeFor(lens, s, v)} ::
          IsCodeFor(lens, s, v) ==> LeadsTo(t, lens, table, root, s, v))
    && (!Complete(lens) ==> forall v: nat ::
          (forall s: nat :: !IsCodeFor(lens, s, v)) ==> table[v % Pow2(root)] == Invalid(1))
  }

  // ----- The verdict on a set of lengths -----

  function MinLenFrom(lens: seq<nat>, l: nat): (m: nat)
    requires l <= MAXBITS + 1
    ensures l <= m <= MAXBITS + 1
    ensures forall i :: l <= i < m ==> Count(lens, i) == 0
    ensures m <= MAXBITS ==> Count(lens, m) > 0
    decreases MAXBITS + 1 - l
  {
    if l > MAXBITS || Count(lens, l) != 0 then l else MinLenFrom(lens, l + 1)
  }

  function RootBits(lens: seq<nat>, bits: nat): nat {
    var max := MaxLen(lens);
    var r := if bits > max then max else bits;
    var min := MinLenFrom(lens, 1);
    if max == 0 then 1 else if r < min then min else r
  }

  /** Index bits of the sub-table for root prefix p, tried from c upward. */
  function SubBits(lens: seq<nat>, root: nat, p: nat, c: nat): (r: nat)
    requires root + c <= MaxLen(lens)
    ensures c <= r && root + r <= MaxLen(lens)
    ensures root + r >= MaxLen(lens) || Used(lens, root + r) >= (p + 1) * Pow2(r)
    decreases MaxLen(lens) - root - c
  {
    if root + c >= MaxLen(lens) || Used(lens, root + c) >= (p + 1) * Pow2(c) then c
    else SubBits(lens, root, p, c + 1)
  }

  /** Entries used by the root table and the sub-tables of prefixes below p. */
  function Entries(lens: seq<nat>, root: nat, p: nat): nat
    requires root < MaxLen(lens)
    decreases p
  {
    if p <= Used(lens, root) then Pow2(root)
    else Entries(lens, root, p - 1) + Pow2(SubBits(lens, root, p - 1, 1))
  }

  function TotalEntries(lens: seq<nat>, root: nat): nat {
    if root < MaxLen(lens) then Entries(lens, root, Pow2(root)) else Pow2(root)
  }

  /** The return code: 0, -1 for a bad set of lengths, 1 for lack of space. */
  function Verdict(t: CodeType, lens: seq<nat>, bits: nat): int {
    if MaxLen(lens) == 0 then 0
    else if Oversubscribed(lens) then -1
    else if !Complete(lens) && (t.CODES? || MaxLen(lens) != 1) then -1
    else if t.LENS? && TotalEntries(lens, RootBits(lens, bits)) >= ENOUGH - MAXD then 1
    else 0
  }

  lemma {:induction false} EntriesGrow(lens: seq<nat>, root: nat, p: nat, q: nat)
    requires root < MaxLen(lens) && p <= q
    ensures Pow2(root) <= Entries(lens, root, p) <= Entries(lens, root, q)
    decreases q
  {
    if p < q {
      EntriesGrow(lens, root, p, q - 1);
    } else if p > 0 {
      EntriesGrow(lens, root, p - 1, p - 1);
    }
  }

  // ----- Counting and sorting -----

  method CountLengths(lens: seq<nat>) returns (count: array<nat>)
    requires ValidLens(lens)
    ensures fresh(count) && count.Length == MAXBITS + 1
    ensures forall l :: 0 <= l <= MAXBITS ==> count[l] == Count(lens, l)
  {
    count := new nat[MAXBITS + 1];
    var len: nat := 0;
    while len <= MAXBITS
      invariant 0 <= len <= MAXBITS + 1
      invariant forall l :: 0 <= l < len ==> count[l] == 0
    {
      count[len] := 0;
      len := len + 1;
    }
    var sym: nat := 0;
    while sym < |lens|
      invariant sym <= |lens|
      invariant forall l :: 0 <= l <= MAXBITS ==> count[l] == Count(lens[..sym], l)
    {
      forall l | 0 <= l <= MAXBITS
        ensures Count(lens[..sym + 1], l) == Count(lens[..sym], l) + (if lens[sym] == l then 1 else 0)
      {
        CountStep(lens, sym, l);
      }
      count[lens[sym]] := count[lens[sym]] + 1;
      sym := sym + 1;
    }
    assert lens[..sym] == lens;
  }

  /** Symbols with a code shorter than l: where length l starts in sorted order. */
  function Before(lens: seq<nat>, l: nat): nat {
    if l <= 1 then 0 else Before(lens, l - 1) + Count(lens, l - 1)
  }

  lemma {:induction false} BeforeMono(lens: seq<nat>, l: nat, m: nat)
    requires 1 <= l < m
    ensures Before(lens, l) + Count(lens, l) <= Before(lens, m)
  {
    if l < m - 1 { BeforeMono(lens, l, m - 1); }
  }

  lemma {:induction false} BeforeBound(lens: seq<nat>, l: nat, n: nat)
    requires l >= 1 && n <= |lens|
    ensures Before(lens[..n], l) <= n
  {
    if n == 0 {
      BeforeEmpty(l);
    } else {
      BeforeBound(lens, l, n - 1);
      BeforeStep(lens, l, n - 1);
    }
  }

  lemma {:induction false} BeforeEmpty(l: nat)
    ensures Before([], l) == 0
  {
    if l > 1 { BeforeEmpty(l - 1); }
  }

  lemma {:induction false} BeforeStep(lens: seq<nat>, l: nat, n: nat)
    requires n < |lens| && l >= 1
    ensures Before(lens[..n + 1], l) == Before(lens[..n], l) + (if 0 < lens[n] < l then 1 else 0)
  {
    if l > 1 {
      BeforeStep(lens, l - 1, n);
      CountStep(lens, n, l - 1);
    }
  }

  /** Where a coded symbol belongs in sorted order. */
  function Slot(lens: seq<nat>, s: nat): nat
    requires s < |lens|
  {
    Before(lens, lens[s]) + Rank(lens, s)
  }

  /** The coded symbols below n stand in work by length, then by symbol. */
  ghost predicate Placed(lens: seq<nat>, n: nat, work: seq<nat>)
    requires n <= |lens|
  {
    forall s :: 0 <= s < n && lens[s] != 0 ==> Slot(lens, s) < |work| && work[Slot(lens, s)] == s
  }

  method Offsets(lens: seq<nat>, count: array<nat>) returns (offs: array<nat>)
    requires count.Length == MAXBITS + 1
    requires forall l :: 0 <= l <= MAXBITS ==> count[l] == Count(lens, l)
    ensures fresh(offs) && offs.Length == MAXBITS + 1
    ensures forall l :: 1 <= l <= MAXBITS ==> offs[l] == Before(lens, l)
  {
    offs := new nat[MAXBITS + 1];
    offs[1] := 0;
    var len: nat := 1;
    while len < MAXBITS
      invariant 1 <= len <= MAXBITS
      invariant forall l :: 1 <= l <= len ==> offs[l] == Before(lens, l)
    {
      offs[len + 1] := offs[len] + count[len];
      len := len + 1;
    }
  }

  method SortSymbols(lens: seq<nat>, count: array<nat>, work: array<nat>)
    requires ValidLens(lens) && count.Length == MAXBITS + 1 && work.Length >= |lens|
    requires forall l :: 0 <= l <= MAXBITS ==> count[l] == Count(lens, l)
    modifies work
    ensures Placed(lens, |lens|, work[..])
  {
    var offs := Offsets(lens, count);
    var sym: nat := 0;
    while sym < |lens|
      invariant sym <= |lens|
      invariant OffsAt(lens, sym, offs[..])
      invariant Placed(lens, sym, work[..])
    {
      PlaceSymbol(lens, sym, offs, work);
      sym := sym + 1;
    }
  }

  ghost predicate OffsAt(lens: seq<nat>, n: nat, offs: seq<nat>)
    requires n <= |lens|
  {
    |offs| == MAXBITS + 1 &&
    forall l :: 1 <= l <= MAXBITS ==> offs[l] == Before(lens, l) + Count(lens[..n], l)
  }

  method PlaceSymbol(lens: seq<nat>, sym: nat, offs: array<nat>, work: array<nat>)
    requires ValidLens(lens) && sym < |lens| <= work.Length && offs != work
    requires OffsAt(lens, sym, offs[..]) && Placed(lens, sym, work[..])
    modifies offs, work
    ensures OffsAt(lens, sym + 1, offs[..]) && Placed(lens, sym + 1, work[..])
  {
    CountSteps(lens, sym);
    if lens[sym] != 0 {
      PlaceInRange(lens, sym);
      PlaceOne(lens, sym, work[..]);
      work[offs[lens[sym]]] := sym;
      offs[lens[sym]] := offs[lens[sym]] + 1;
    }
  }

  lemma CountSteps(lens: seq<nat>, n: nat)
    requires n < |lens|
    ensures forall l: nat {:trigger Count(lens[..n + 1], l)} ::
              Count(lens[..n + 1], l) == Count(lens[..n], l) + (if lens[n] == l then 1 else 0)
  {
    forall l: nat {
      CountStep(lens, n, l);
    }
  }

  lemma PlaceInRange(lens: seq<nat>, s: nat)
    requires s < |lens| && lens[s] != 0
    ensures Slot(lens, s) < |lens|
  {
    CountPositive(lens, s);
    BeforeMono(lens, lens[s], lens[s] + 1);
    BeforeBound(lens, lens[s] + 1, |lens|);
    assert lens[..|lens|] == lens;
  }

  lemma SlotInjective(lens: seq<nat>, s: nat, r: nat)
    requires s < |lens| && r < |lens| && lens[s] != 0 && lens[r] != 0 && s != r
    ensures Slot(lens, s) != Slot(lens, r)
  {
    CountPositive(lens, s);
    CountPositive(lens, r);
    if lens[s] < lens[r] {
      BeforeMono(lens, lens[s], lens[r]);
    } else if lens[r] < lens[s] {
      BeforeMono(lens, lens[r], lens[s]);
    } else if Rank(lens, s) == Rank(lens, r) {
      RankInjective(lens, s, r);
    }
  }

  lemma PlaceOne(lens: seq<nat>, n: nat, work: seq<nat>)
    requires n < |lens| && lens[n] != 0 && Placed(lens, n, work) && Slot(lens, n) < |work|
    ensures Placed(lens, n + 1, work[Slot(lens, n) := n])
  {
    forall s | 0 <= s < n && lens[s] != 0
      ensures Slot(lens, s) != Slot(lens, n)
    {
      SlotInjective(lens, s, n);
    }
  }

  /** left of the C code, from 1: free codes of each length; over-subscription
      shows as a negative value. */
  method CheckSpace(lens: seq<nat>, count: array<nat>) returns (left: int)
    requires count.Length == MAXBITS + 1
    requires forall l :: 0 <= l <= MAXBITS ==> count[l] == Count(lens, l)
    ensures left < 0 <==> Oversubscribed(lens)
    ensures left == 0 <==> Complete(lens)
  {
    left := 1;
    var len: nat := 1;
    while len <= MAXBITS
      invariant 1 <= len <= MAXBITS + 1
      invariant left >= 0 && left == Pow2(len - 1) - Used(lens, len - 1)
    {
      left := left * 2;
      left := left - count[len];
      if left < 0 {
        OverStays(lens, len);
        return;
      }
      len := len + 1;
    }
  }

  lemma OverStays(lens: seq<nat>, l: nat)
    requires l <= MAXBITS && Used(lens, l) > Pow2(l)
    ensures Oversubscribed(lens)
  {
    hide Pow2, Used;
    UsedGrows(lens, l, MAXBITS);
    Pow2Add(l, MAXBITS - l);
    ScaleCompare(Used(lens, l), Pow2(l), Pow2(MAXBITS - l));
  }
}
