/** The table-filling loop of inflate_table, and the method as a whole. */
module InfTable {
  import opened Bits
  import opened Huffman
  import opened InfTrees

  /** The table while it is being filled: the current (sub-)table starts at next
      and has curr index bits; when sub is set it belongs to root prefix p. */
  datatype Fill = Fill(t: CodeType, lens: seq<nat>, root: nat, table: seq<Code>,
                             next: nat, curr: nat, sub: bool, p: nat)
  {
    ghost predicate Shape() {
      && |lens| <= SymbolLimit(t)
      && next + Pow2(curr) == |table|
      && if sub then
           && Used(lens, root) <= p < Pow2(root) && Pow2(root) <= next
           && 1 <= curr <= MAXBITS && root + curr <= MaxLen(lens) && root < MaxLen(lens)
           && table[Rev(root, p)] == Code(curr, root, next)
           && curr == SubBits(lens, root, p, 1)
           && |table| == Entries(lens, root, p + 1)
         else next == 0 && curr == root
    }
  }

  predicate Done(lens: seq<nat>, len: nat, j: nat, s: nat) {
    s < |lens| && 0 < lens[s] && (lens[s] < len || (lens[s] == len && Rank(lens, s) < j))
  }

  /** What holds of stream v, which begins with the code of placed symbol s. */
  ghost predicate Good(f: Fill, s: nat, v: nat)
    requires f.Shape() && s < |f.lens|
  {
    && LeadsTo(f.t, f.lens, f.table, f.root, s, v)
    && (f.lens[s] > f.root ==>
          var e := f.table[v % Pow2(f.root)];
          && f.sub && Rev(f.root, v) <= f.p && Pow2(f.root) <= e.val
          && (e.val + Pow2(e.op) <= f.next || (e.val == f.next && e.op == f.curr && Rev(f.root, v) == f.p)))
  }

  /** Every symbol before the j-th of length len is in the table. */
  ghost predicate Filled(f: Fill, len: nat, j: nat)
    requires f.Shape()
  {
    forall s: nat, v: nat {:trigger IsCodeFor(f.lens, s, v)} ::
      IsCodeFor(f.lens, s, v) && Done(f.lens, len, j, s) ==> Good(f, s, v)
  }

  // ----- Reversed codes -----

  lemma HuffMatch(len: nat, c: nat, v: nat)
    requires c < Pow2(len)
    ensures v % Pow2(len) == Rev(len, c) <==> Rev(len, v) == c
  {
    hide *;
    RevInjective(len, v, Rev(len, c));
    RevRev(len, c);
    SmallMod(Rev(len, c), Pow2(len));
  }

  /** The low bits of a reversed code are its reversed prefix. */
  lemma RevModPrefix(n: nat, r: nat, c: nat, q: nat)
    requires r <= n && c < Pow2(n) && q == c / Pow2(n - r)
    ensures Rev(n, c) % Pow2(r) == Rev(r, q) && q < Pow2(r)
  {
    hide *;
    var w := Rev(n, c);
    RevRev(n, c);
    RevPrefix(n, r, w);
    RevLow(r, w);
    RevRev(r, w % Pow2(r));
  }

  lemma {:induction false} RevShift(l: nat, d: nat, c: nat)
    ensures Rev(l + d, c * Pow2(d)) == Rev(l, c)
  {
    if d > 0 {
      RevShift(l, d - 1, c);
      Double(c, Pow2(d - 1));
    }
  }

  lemma Double(c: nat, p: nat)
    ensures (c * (2 * p)) % 2 == 0 && (c * (2 * p)) / 2 == c * p
  {
    assert c * (2 * p) == 2 * (c * p);
  }

  lemma CodeFits(lens: seq<nat>, l: nat, j: nat)
    requires !Oversubscribed(lens) && 0 < l <= MAXBITS && j < Count(lens, l)
    ensures NextCode(lens, l) + j < Used(lens, l) <= Pow2(l)
  {
    UsedFits(lens, l);
  }

  lemma UsedFits(lens: seq<nat>, l: nat)
    requires !Oversubscribed(lens) && l <= MAXBITS
    ensures Used(lens, l) <= Pow2(l)
  {
    UsedGrows(lens, l, MAXBITS);
    Pow2Add(l, MAXBITS - l);
    ScaleCompare(Used(lens, l), Pow2(l), Pow2(MAXBITS - l));
  }

  // ----- Placing one symbol -----

  /** next[(huff >> drop) + fill] = this, for every fill that is a multiple of incr. */
  method Replicate(table: seq<Code>, at: nat, h: nat, d: nat, curr: nat, e: Code) returns (r: seq<Code>)
    requires d <= curr && h < Pow2(d) && at + Pow2(curr) <= |table|
    ensures |r| == |table|
    ensures forall i :: 0 <= i < |r| ==>
              r[i] == if at <= i < at + Pow2(curr) && (i - at) % Pow2(d) == h then e else table[i]
  {
    Pow2Add(curr - d, d);
    var incr := Pow2(d);
    var fill := Pow2(curr);
    r := table;
    ghost var m := Pow2(curr - d);
    while fill != 0
      invariant |r| == |table|
      invariant m >= 0 && fill == m * incr && 0 <= fill <= Pow2(curr)
      invariant forall i :: 0 <= i < |r| ==>
                  r[i] == if at + fill <= i < at + Pow2(curr) && (i - at) % incr == h then e else table[i]
      decreases fill
    {
      assert m >= 1;
      MulLower(m, incr);
      assert (m - 1) * incr == m * incr - incr;
      forall x | fill - incr <= x < fill
        ensures x % incr == h <==> x == h + (fill - incr)
      {
        DivModUnique(x, incr, m - 1, x - (m - 1) * incr);
      }
      fill := fill - incr;
      m := m - 1;
      r := r[at + h + fill := e];
    }
  }

  lemma SameRank(lens: seq<nat>, len: nat, j: nat, s: nat)
    requires j < Count(lens, len) && Done(lens, len, j + 1, s) && s != Nth(lens, len, j)
    ensures Done(lens, len, j, s)
  {
    if lens[s] == len && Rank(lens, s) == j {
      RankInjective(lens, s, Nth(lens, len, j));
    }
  }

  lemma PutRootAt(f: Fill, table: seq<Code>, len: nat, j: nat, s: nat, v: nat)
    requires !Oversubscribed(f.lens) && |f.lens| <= SymbolLimit(f.t)
    requires 0 < len <= f.root <= MAXBITS && j < Count(f.lens, len) && |table| == |f.table| == Pow2(f.root)
    requires forall i :: 0 <= i < |table| ==>
               table[i] == if i % Pow2(len) == Rev(len, NextCode(f.lens, len) + j)
                           then EntryFor(f.t, Nth(f.lens, len, j), len) else f.table[i]
    requires IsCodeFor(f.lens, s, v)
    requires s != Nth(f.lens, len, j) ==> f.table[v % Pow2(f.root)] == EntryFor(f.t, s, f.lens[s])
    ensures table[v % Pow2(f.root)] == EntryFor(f.t, s, f.lens[s])
  {
    hide Pow2, EntryFor, Count, Used, Rev, NextCode, Rank;
    var s0 := Nth(f.lens, len, j);
    var c := NextCode(f.lens, len) + j;
    CodeFits(f.lens, len, j);
    ModMod(v, len, f.root);
    HuffMatch(len, c, v);
    assert v % Pow2(f.root) % Pow2(len) == Rev(len, c) <==> IsCodeFor(f.lens, s0, v);
    if s != s0 && IsCodeFor(f.lens, s0, v) {
      PrefixFree(f.lens, s, s0, v);
    }
  }

  /** g is f after the j-th symbol of length len went into the current table at
      the indices that agree with its code on the lowest d bits. */
  ghost predicate Placing(f: Fill, g: Fill, len: nat, j: nat, d: nat)
    requires f.Shape() && j < Count(f.lens, len)
  {
    && g == f.(table := g.table)
    && |g.table| == |f.table|
    && d <= len
    && forall i :: 0 <= i < |f.table| ==>
         g.table[i] ==
           if f.next <= i && (i - f.next) % Pow2(d) == Rev(len, NextCode(f.lens, len) + j) / Pow2(len - d)
           then EntryFor(f.t, Nth(f.lens, len, j), d) else f.table[i]
  }

  lemma PutRootOne(f: Fill, g: Fill, len: nat, j: nat, s: nat, v: nat)
    requires !Oversubscribed(f.lens)
    requires f.Shape() && Filled(f, len, j) && !f.sub && 0 < len <= f.root <= MAXBITS && j < Count(f.lens, len)
    requires Placing(f, g, len, j, len)
    requires IsCodeFor(f.lens, s, v) && Done(f.lens, len, j + 1, s)
    ensures g.Shape() && Good(g, s, v)
  {
    hide Pow2, EntryFor, Count, Used, Entries, SubBits, MaxLen, Rev, NextCode, Rank, CodeValue;
    if s != Nth(f.lens, len, j) {
      SameRank(f.lens, len, j, s);
      assert Good(f, s, v);
    }
    Pow2One();
    PutRootAt(f, g.table, len, j, s, v);
  }

  lemma PutRoot(f: Fill, g: Fill, len: nat, j: nat)
    requires !Oversubscribed(f.lens)
    requires f.Shape() && Filled(f, len, j) && !f.sub && 0 < len <= f.root <= MAXBITS && j < Count(f.lens, len)
    requires Placing(f, g, len, j, len)
    ensures g.Shape() && Filled(g, len, j + 1)
  {
    forall s: nat, v: nat {:trigger IsCodeFor(f.lens, s, v)} | IsCodeFor(f.lens, s, v) && Done(f.lens, len, j + 1, s)
      ensures Good(g, s, v)
    {
      PutRootOne(f, g, len, j, s, v);
    }
  }

  /** Which sub-table indices of v agree with a code of length root + d. */
  lemma SubIndex(root: nat, d: nat, curr: nat, c: nat, v: nat)
    requires 0 < d <= curr && c < Pow2(root + d)
    requires v % Pow2(root) == Rev(root + d, c) % Pow2(root)
    ensures ((v / Pow2(root)) % Pow2(curr)) % Pow2(d) == Rev(root + d, c) / Pow2(root) <==> Rev(root + d, v) == c
  {
    hide *;
    var h := Rev(root + d, c);
    ModMod(v / Pow2(root), d, curr);
    HighPart(h, root, d);
    SplitEqual(v, h, root, d);
    HuffMatch(root + d, c, v);
  }

  lemma HighPart(h: nat, a: nat, b: nat)
    requires h < Pow2(a + b)
    ensures h % Pow2(a + b) == h && (h / Pow2(a)) % Pow2(b) == h / Pow2(a)
  {
    SmallMod(h, Pow2(a + b));
    DivModSwap(h, a, b);
  }

  /** Numbers that agree on the low bits agree further exactly when the next bits do. */
  lemma SplitEqual(v: nat, h: nat, a: nat, b: nat)
    requires v % Pow2(a) == h % Pow2(a)
    ensures v % Pow2(a + b) == h % Pow2(a + b) <==> (v / Pow2(a)) % Pow2(b) == (h / Pow2(a)) % Pow2(b)
  {
    DivModSwap(v, a, b);
    DivModSwap(h, a, b);
  }

  lemma PrefixAgrees(root: nat, d: nat, c: nat, v: nat)
    requires c < Pow2(root + d) && Rev(root + d, v) == c
    ensures v % Pow2(root) == Rev(root + d, c) % Pow2(root) && Rev(root, v) == c / Pow2(d)
  {
    HuffMatch(root + d, c, v);
    ModMod(v, root, root + d);
    RevPrefix(root + d, root, v);
  }

  /** Placing a code longer than the root bits into the current sub-table. */
  lemma PutSub(f: Fill, g: Fill, len: nat, j: nat)
    requires !Oversubscribed(f.lens) && f.Shape() && f.sub && Filled(f, len, j)
    requires 0 < f.root < len <= f.root + f.curr && len <= MAXBITS && j < Count(f.lens, len)
    requires (NextCode(f.lens, len) + j) / Pow2(len - f.root) == f.p
    requires Placing(f, g, len, j, len - f.root)
    ensures g.Shape() && Filled(g, len, j + 1)
  {
    PutSubShape(f, g, len, j);
    forall s: nat, v: nat {:trigger IsCodeFor(f.lens, s, v)} | IsCodeFor(f.lens, s, v) && Done(f.lens, len, j + 1, s)
      ensures Good(g, s, v)
    {
      if s == Nth(f.lens, len, j) {
        PutSubNew(f, g, len, j, v);
      } else {
        SameRank(f.lens, len, j, s);
        PutSubOld(f, g, len, j, s, v);
      }
    }
  }

  lemma PutSubShape(f: Fill, g: Fill, len: nat, j: nat)
    requires f.Shape() && f.sub && j < Count(f.lens, len)
    requires len > f.root && Placing(f, g, len, j, len - f.root)
    ensures g.Shape()
  {
    hide Pow2, EntryFor, Count, Used, Entries, SubBits, MaxLen, Rev, NextCode, Rank, CodeValue;
    RevSmall(f.root, f.p);
  }

  lemma RevSmall(n: nat, v: nat)
    ensures Rev(n, v) < Pow2(n)
  {
  }

  lemma PutSubNew(f: Fill, g: Fill, len: nat, j: nat, v: nat)
    requires !Oversubscribed(f.lens) && f.Shape() && f.sub && g.Shape()
    requires f.root < len <= f.root + f.curr && len <= MAXBITS && j < Count(f.lens, len)
    requires (NextCode(f.lens, len) + j) / Pow2(len - f.root) == f.p
    requires Placing(f, g, len, j, len - f.root)
    requires IsCodeFor(f.lens, Nth(f.lens, len, j), v)
    ensures Good(g, Nth(f.lens, len, j), v)
  {
    hide Pow2, EntryFor, Count, Used, Entries, SubBits, MaxLen, Rev, NextCode, Rank;
    var c, root, d := NextCode(f.lens, len) + j, f.root, len - f.root;
    CodeFits(f.lens, len, j);
    PrefixAgrees(root, d, c, v);
    RevModPrefix(len, root, c, c / Pow2(len - root));
    SubIndex(root, d, f.curr, c, v);
    RevSmall(root, f.p);
    ModBound(v / Pow2(root), f.curr);
    var i, x := v % Pow2(root), (v / Pow2(root)) % Pow2(f.curr);
    assert g.table[i] == Code(f.curr, root, f.next);
    assert g.table[f.next + x] == EntryFor(f.t, Nth(f.lens, len, j), d) by {
      assert (f.next + x - f.next) % Pow2(d) == Rev(len, c) / Pow2(len - d);
    }
    EntryIsNoLink(f.t, Nth(f.lens, len, j), d);
  }

  lemma ModBound(x: int, n: nat)
    ensures 0 <= x % Pow2(n) < Pow2(n)
  {
  }

  lemma PutSubOld(f: Fill, g: Fill, len: nat, j: nat, s: nat, v: nat)
    requires !Oversubscribed(f.lens) && f.Shape() && f.sub && g.Shape()
    requires f.root < len <= f.root + f.curr && len <= MAXBITS && j < Count(f.lens, len)
    requires (NextCode(f.lens, len) + j) / Pow2(len - f.root) == f.p
    requires Placing(f, g, len, j, len - f.root)
    requires IsCodeFor(f.lens, s, v) && s != Nth(f.lens, len, j) && Good(f, s, v)
    ensures Good(g, s, v)
  {
    hide Pow2, EntryFor, Count, Used, Entries, SubBits, MaxLen, Rev, NextCode, Rank;
    var c, root, d := NextCode(f.lens, len) + j, f.root, len - f.root;
    var i := v % Pow2(root);
    if f.lens[s] > root {
      var e := f.table[i];
      if e.val == f.next {
        // the current sub-table: v shares its root prefix, so a clash would make two codes match
        CodeFits(f.lens, len, j);
        RevModPrefix(len, root, c, c / Pow2(len - root));
        HuffMatch(root, f.p, v);
        SubIndex(root, d, f.curr, c, v);
        if Rev(len, v) == c {
          PrefixFree(f.lens, s, Nth(f.lens, len, j), v);
        }
      }
    }
  }

  // ----- Opening a sub-table -----

  /** g is f with a sub-table for root prefix q appended and linked in. */
  ghost predicate Opening(f: Fill, g: Fill, q: nat) {
    && f.root < MaxLen(f.lens)
    && q < Pow2(f.root)
    && q == (if f.sub then f.p + 1 else Used(f.lens, f.root))
    && g == f.(table := g.table, next := |f.table|, curr := g.curr, sub := true, p := q)
    && g.curr == SubBits(f.lens, f.root, q, 1)
    && |g.table| == |f.table| + Pow2(g.curr)
    && forall i :: 0 <= i < |f.table| ==>
         g.table[i] == if i == Rev(f.root, q) then Code(g.curr, f.root, |f.table|) else f.table[i]
  }

  lemma OpenSubShape(f: Fill, g: Fill, q: nat)
    requires f.Shape() && Opening(f, g, q)
    ensures g.Shape()
  {
    hide Pow2, EntryFor, Count, Used, SubBits, Rev, NextCode, Rank, CodeValue;
    RevSmall(f.root, q);
    assert |f.table| == Entries(f.lens, f.root, q);
  }

  lemma OpenSubOld(f: Fill, g: Fill, len: nat, j: nat, q: nat, s: nat, v: nat)
    requires f.Shape() && Opening(f, g, q) && g.Shape()
    requires IsCodeFor(f.lens, s, v) && Good(f, s, v)
    ensures Good(g, s, v)
  {
    hide Pow2, EntryFor, Count, Used, SubBits, Rev, NextCode, Rank, Entries;
    ModBound(v, f.root);
    if v % Pow2(f.root) == Rev(f.root, q) {
      HuffMatch(f.root, q, v);
      if f.lens[s] <= f.root {
        CodeRange(f.lens, s);
        BelowStays(f.lens, f.lens[s], f.root, v);
      }
      assert false;
    }
  }

  lemma OpenSub(f: Fill, g: Fill, len: nat, j: nat, q: nat)
    requires f.Shape() && Filled(f, len, j) && Opening(f, g, q)
    ensures g.Shape() && Filled(g, len, j)
  {
    OpenSubShape(f, g, q);
    forall s: nat, v: nat {:trigger IsCodeFor(f.lens, s, v)} | IsCodeFor(f.lens, s, v) && Done(f.lens, len, j, s)
      ensures Good(g, s, v)
    {
      OpenSubOld(f, g, len, j, q, s, v);
    }
  }

  // ----- Going from one code to the next -----

  /** huff & incr for a power of two incr, or for an incr shifted out to zero. */
  predicate HasBit(huff: nat, incr: nat) { incr != 0 && (huff / incr) % 2 == 1 }

  /** Backwards increment of the reversed len-bit code huff. */
  method BackIncrement(huff: nat, len: nat, ghost c: nat) returns (r: nat)
    requires len > 0 && c < Pow2(len) && huff == Rev(len, c)
    ensures r == Rev(len, (c + 1) % Pow2(len))
  {
    hide Rev;
    var incr := Pow2(len - 1);
    ghost var n: nat, x: nat := len, c;   // incr has weight 2^(n-1); x is c without its low ones
    SmallMod(huff, Pow2(len));
    while HasBit(huff, incr)
      invariant n <= len && incr == if n == 0 then 0 else Pow2(n - 1)
      invariant x < Pow2(n) && huff % Pow2(n) == Rev(n, x)
      invariant Rev(len, (c + 1) % Pow2(len)) == Rev(n, (x + 1) % Pow2(n))
      decreases n
    {
      CarryBit(huff, n, x);
      CarryStep(n, x);
      incr := incr / 2;
      n := n - 1;
      x := x / 2;
    }
    if incr != 0 {
      CarryBit(huff, n, x);
      CarryStop(n, x);
      r := huff % incr;
      r := r + incr;
    } else {
      RevNone((x + 1) % Pow2(n));
      r := 0;
    }
  }

  lemma RevNone(x: nat)
    ensures Rev(0, x) == 0
  {
  }

  /** The bit of huff of weight 2^(n-1) is the lowest bit of the remaining code. */
  lemma CarryBit(huff: nat, n: nat, x: nat)
    requires n > 0 && x < Pow2(n) && huff % Pow2(n) == Rev(n, x)
    ensures (huff / Pow2(n - 1)) % 2 == x % 2
    ensures huff % Pow2(n - 1) == Rev(n - 1, x / 2)
  {
    RevSplit(n, x);
    hide *;
    CarryBitSplit(huff, n, x % 2, Rev(n - 1, x / 2));
  }

  lemma CarryBitSplit(huff: nat, n: nat, b: nat, rest: nat)
    requires n > 0 && huff % Pow2(n) == b * Pow2(n - 1) + rest && rest < Pow2(n - 1)
    ensures (huff / Pow2(n - 1)) % 2 == b && huff % Pow2(n - 1) == rest
  {
    Pow2One();
    hide *;
    DivModSwap(huff, n - 1, 1);
    ModMod(huff, n - 1, n);
    DivModUnique(huff % Pow2(n), Pow2(n - 1), b, rest);
  }

  lemma CarryStep(n: nat, x: nat)
    requires n > 0 && x < Pow2(n) && x % 2 == 1
    ensures Rev(n, (x + 1) % Pow2(n)) == Rev(n - 1, (x / 2 + 1) % Pow2(n - 1))
    ensures x / 2 < Pow2(n - 1)
  {
    var p := Pow2(n - 1);
    if x / 2 + 1 < p {
      SmallMod(x + 1, 2 * p);
      SmallMod(x / 2 + 1, p);
    } else {
      DivModUnique(x + 1, 2 * p, 1, 0);
      DivModUnique(x / 2 + 1, p, 1, 0);
    }
    RevSplit(n, (x + 1) % Pow2(n));
  }

  lemma CarryStop(n: nat, x: nat)
    requires n > 0 && x < Pow2(n) && x % 2 == 0
    ensures Rev(n, (x + 1) % Pow2(n)) == Rev(n - 1, x / 2) + Pow2(n - 1)
  {
    var p := Pow2(n - 1);
    assert Pow2(n) == 2 * p;
    hide Pow2, Rev;
    SmallMod(x + 1, 2 * p);
    RevSplit(n, x + 1);
    OddTerm(x, p);
  }

  lemma OddTerm(x: nat, p: nat)
    requires x % 2 == 0
    ensures ((x + 1) % 2) * p == p && (x + 1) / 2 == x / 2
  {
  }

  lemma NextLen(lens: seq<nat>, len: nat) returns (l2: nat)
    requires len < MaxLen(lens)
    ensures len < l2 <= MaxLen(lens) && Count(lens, l2) > 0
    ensures forall i :: len < i < l2 ==> Count(lens, i) == 0
  {
    hide Count;
    l2 := len + 1;
    while Count(lens, l2) == 0
      invariant len < l2 <= MaxLen(lens)
      invariant forall i :: len < i < l2 ==> Count(lens, i) == 0
      decreases MaxLen(lens) - l2
    {
      l2 := l2 + 1;
    }
  }

  lemma {:induction false} BeforeGap(lens: seq<nat>, len: nat, l2: nat)
    requires 0 < len < l2 && forall i :: len < i < l2 ==> Count(lens, i) == 0
    ensures Before(lens, l2) == Before(lens, len) + Count(lens, len)
  {
    if len + 1 < l2 { BeforeGap(lens, len, l2 - 1); }
  }

  /** The next length begins where the codes of the last one end. */
  lemma NextCodeScaled(lens: seq<nat>, len: nat, l2: nat)
    requires len < l2 && forall i :: len < i < l2 ==> Count(lens, i) == 0
    ensures NextCode(lens, l2) == Used(lens, len) * Pow2(l2 - len)
  {
    UsedScales(lens, len, l2 - 1);
    var u, p := Used(lens, len), Pow2(l2 - 1 - len);
    assert Pow2(l2 - len) == 2 * p;
    hide *;
    assert u * (2 * p) == 2 * (u * p);
  }

  /** c is the code of the j-th symbol of length len. */
  predicate At(lens: seq<nat>, len: nat, j: nat, c: nat) {
    0 < len <= MaxLen(lens) && j < Count(lens, len) && c == NextCode(lens, len) + j && c < Pow2(len)
  }

  /** (l2, j2) is the code after (len, j): its value is the end of the earlier
      one, with zeros appended. */
  predicate Succ(lens: seq<nat>, len: nat, j: nat, l2: nat, j2: nat) {
    if j + 1 < Count(lens, len) then l2 == len && j2 == j + 1
    else
      && len < l2 <= MaxLen(lens) && j2 == 0 && Count(lens, l2) > 0
      && forall i :: len < i < l2 ==> Count(lens, i) == 0
  }

  lemma SuccCode(lens: seq<nat>, len: nat, j: nat, c: nat, l2: nat, j2: nat) returns (c2: nat)
    requires !Oversubscribed(lens) && At(lens, len, j, c) && Succ(lens, len, j, l2, j2)
    ensures At(lens, l2, j2, c2) && c2 == (c + 1) * Pow2(l2 - len)
    ensures Rev(l2, c2) == Rev(len, (c + 1) % Pow2(len))
    ensures Before(lens, l2) + j2 == Before(lens, len) + j + 1
  {
    c2 := NextCode(lens, l2) + j2;
    if len < l2 {
      NextCodeScaled(lens, len, l2);
      BeforeGap(lens, len, l2);
    }
    Pow2One();
    hide Pow2, Rev, Count, Used, MaxLen, Before, NextCode;
    if len < l2 { UsedAtEnd(lens, len, j, c, l2, j2); }
    CodeFits(lens, l2, j2);
    EndFits(c + 1, len, l2 - len, c2);
    RevShift(len, l2 - len, c + 1);
  }

  lemma UsedAtEnd(lens: seq<nat>, len: nat, j: nat, c: nat, l2: nat, j2: nat)
    requires At(lens, len, j, c) && Succ(lens, len, j, l2, j2) && len < l2
    ensures Used(lens, len) == c + 1
  {
  }

  lemma EndFits(e: nat, len: nat, d: nat, c2: nat)
    requires c2 == e * Pow2(d) && c2 < Pow2(len + d)
    ensures e < Pow2(len) && e % Pow2(len) == e
  {
    Pow2Add(len, d);
    ScaleCompare(e, Pow2(len), Pow2(d));
    if e >= Pow2(len) { MulMono(Pow2(len), e, Pow2(d)); }
    SmallMod(e, Pow2(len));
  }

  /** Root prefix of the code after c, when both are longer than the root. */
  lemma PrefixAfter(root: nat, len: nat, c: nat, l2: nat, c2: nat)
    requires root < len <= l2 && c2 == (c + 1) * Pow2(l2 - len)
    ensures var p, q := c / Pow2(len - root), c2 / Pow2(l2 - root);
            q == p || (q == p + 1 && c2 == q * Pow2(l2 - root))
  {
    var x, d := len - root, l2 - len;
    Pow2Add(d, x);
    hide Pow2;
    var pd, px := Pow2(d), Pow2(x);
    DivModUnique((c + 1) * pd, pd, c + 1, 0);
    SplitTwice(c2, pd, px);
    NextQuotient(c, px);
    if (c + 1) / px == c / px + 1 {
      MulAssoc(c / px + 1, px, pd);
      assert px * pd == pd * px;
    }
  }

  lemma NextQuotient(c: nat, p: int)
    requires p > 0
    ensures (c + 1) / p == c / p || ((c + 1) / p == c / p + 1 && c + 1 == (c / p + 1) * p)
  {
    var q, r := c / p, c % p;
    if r + 1 < p {
      DivModUnique(c + 1, p, q, r + 1);
    } else {
      assert c + 1 == (q + 1) * p;
      DivModUnique(c + 1, p, q + 1, 0);
    }
  }

  /** Root prefix of the first code longer than the root. */
  lemma FirstPrefix(lens: seq<nat>, root: nat, len: nat, c: nat, l2: nat, c2: nat)
    requires len <= root < l2 && c2 == (c + 1) * Pow2(l2 - len) && Used(lens, len) == c + 1
    requires forall i :: len < i < l2 ==> Count(lens, i) == 0
    ensures c2 / Pow2(l2 - root) == Used(lens, root) && c2 == Used(lens, root) * Pow2(l2 - root)
  {
    UsedScales(lens, len, root);
    Pow2Add(root - len, l2 - root);
    hide *;
    var a, b := Pow2(root - len), Pow2(l2 - root);
    MulAssoc(c + 1, a, b);
    DivModUnique(c2, b, (c + 1) * a, 0);
  }

  /** A sub-table holds every code with its root prefix. */
  lemma FitsSub(lens: seq<nat>, root: nat, p: nat, curr: nat, l2: nat, j2: nat, c2: nat)
    requires At(lens, l2, j2, c2) && root < l2 && c2 / Pow2(l2 - root) == p
    requires root + 1 <= MaxLen(lens) && curr == SubBits(lens, root, p, 1)
    ensures l2 <= root + curr
  {
    hide Pow2, Count, MaxLen, SubBits, Rev;
    if l2 > root + curr {
      var a, d := root + curr, l2 - root - curr;
      UsedGrows(lens, a, l2 - 1);
      Pow2Add(curr, d);
      TwicePow2(d);
      TooFar(Used(lens, a), Used(lens, l2 - 1), p, Pow2(curr), Pow2(d - 1), c2);
      assert false;
    }
  }

  lemma TwicePow2(d: nat)
    requires d > 0
    ensures Pow2(d) == 2 * Pow2(d - 1)
  {
  }

  lemma TooFar(ua: nat, ul: nat, p: nat, pc: nat, pd: nat, c2: nat)
    requires pc > 0 && pd > 0 && ua >= (p + 1) * pc && ua * pd <= ul && c2 >= 2 * ul
    ensures pc * (2 * pd) > 0 && c2 / (pc * (2 * pd)) > p
  {
    var w := pc * (2 * pd);
    MulMono((p + 1) * pc, ua, pd);
    MulAssoc(p + 1, pc, 2 * pd);
    TwiceProduct((p + 1) * pc, pd);
    MulLower(2 * pd, pc);
    AtLeastQuotient(c2, w, p + 1);
  }

  lemma TwiceProduct(a: int, b: int)
    ensures a * (2 * b) == 2 * (a * b)
  {
  }

  lemma AtLeastQuotient(x: int, w: int, k: int)
    requires w > 0 && x >= k * w
    ensures x / w >= k
  {
    DivAddMul(k, w, x - k * w);
  }

  // ----- The size of a sub-table -----

  /** Sizes too small for the first code of prefix q are never enough. */
  lemma {:induction false} SubBitsFrom(lens: seq<nat>, root: nat, q: nat, len: nat, j: nat, c: nat, b: nat)
    requires At(lens, len, j, c) && root < len && c == q * Pow2(len - root) && 1 <= b <= len - root
    ensures SubBits(lens, root, q, b) == SubBits(lens, root, q, len - root)
    decreases len - root - b
  {
    if b < len - root {
      SubBitsFrom(lens, root, q, len, j, c, b + 1);
      TooSmall(lens, root, q, len, j, c, b);
    }
  }

  lemma TooSmall(lens: seq<nat>, root: nat, q: nat, len: nat, j: nat, c: nat, b: nat)
    requires At(lens, len, j, c) && root < len && c == q * Pow2(len - root) && 1 <= b < len - root
    ensures Used(lens, root + b) < (q + 1) * Pow2(b)
  {
    hide Pow2, Count, MaxLen;
    var d := len - root - b;
    UsedGrows(lens, root + b, len - 1);
    TwicePow2(d);
    Pow2Add(b, d);
    TwiceProduct(Used(lens, root + b), Pow2(d - 1));
    MulAssoc(q, Pow2(b), Pow2(d));
    if Used(lens, root + b) > q * Pow2(b) {
      ScaleCompare(Used(lens, root + b), q * Pow2(b), Pow2(d));
    }
    assert (q + 1) * Pow2(b) == q * Pow2(b) + Pow2(b);
  }

  /** The counts of the symbols not yet placed. */
  ghost predicate Remaining(lens: seq<nat>, count: seq<nat>, len: nat, j: nat) {
    && |count| == MAXBITS + 1 && len <= MAXBITS && j <= Count(lens, len)
    && count[len] == Count(lens, len) - j
    && forall l :: len < l <= MAXBITS ==> count[l] == Count(lens, l)
  }

  method SubTableBits(ghost lens: seq<nat>, count: array<nat>, root: nat, max: nat, len: nat,
                      ghost j: nat, ghost c: nat, ghost q: nat)
    returns (curr: nat)
    requires At(lens, len, j, c) && Remaining(lens, count[..], len, j) && max == MaxLen(lens)
    requires root < len && c == q * Pow2(len - root)
    ensures curr == SubBits(lens, root, q, 1)
  {
    hide Pow2, SubBits, Used, Count, MaxLen, NextCode, CodesLeft;
    curr := len - root;
    var left: int := Pow2(curr);
    SubBitsFrom(lens, root, q, len, j, c, 1);
    CodesLeftAt(lens, root, q, len, j, c);
    while curr + root < max
      invariant len - root <= curr && curr + root <= max
      invariant left == CodesLeft(lens, root, q, curr) + count[curr + root]
      invariant SubBits(lens, root, q, 1) == SubBits(lens, root, q, curr)
    {
      left := left - count[curr + root];
      CodesLeftStep(lens, root, q, curr);
      if left <= 0 { break; }
      curr := curr + 1;
      left := left * 2;
    }
    if curr + root == max { SubBitsAtMax(lens, root, q, curr); }
  }

  /** Codes of length root + b under prefix q that no shorter code has taken. */
  ghost function CodesLeft(lens: seq<nat>, root: nat, q: nat, b: nat): int {
    (q + 1) * Pow2(b) - Used(lens, root + b)
  }

  lemma CodesLeftAt(lens: seq<nat>, root: nat, q: nat, len: nat, j: nat, c: nat)
    requires At(lens, len, j, c) && root < len && c == q * Pow2(len - root)
    ensures Pow2(len - root) == CodesLeft(lens, root, q, len - root) + Count(lens, len) - j
  {
    assert (q + 1) * Pow2(len - root) == q * Pow2(len - root) + Pow2(len - root);
  }

  lemma CodesLeftStep(lens: seq<nat>, root: nat, q: nat, b: nat)
    requires root + b < MaxLen(lens)
    ensures CodesLeft(lens, root, q, b + 1) == 2 * CodesLeft(lens, root, q, b) - Count(lens, root + b + 1)
    ensures SubBits(lens, root, q, b) ==
            if CodesLeft(lens, root, q, b) <= 0 then b else SubBits(lens, root, q, b + 1)
  {
    TwiceProduct(q + 1, Pow2(b));
    var l := root + b + 1;
    assert Used(lens, l) == 2 * Used(lens, l - 1) + Count(lens, l);
  }

  lemma SubBitsAtMax(lens: seq<nat>, root: nat, q: nat, b: nat)
    requires root + b == MaxLen(lens)
    ensures SubBits(lens, root, q, b) == b
  {
  }

  // ----- One turn of the main loop -----

  /** The loop is about to place the j-th symbol of length len, with code c. */
  ghost predicate Ready(f: Fill, len: nat, j: nat, c: nat) {
    && f.Shape() && !Oversubscribed(f.lens) && 0 < f.root <= MaxLen(f.lens)
    && At(f.lens, len, j, c)
    && Filled(f, len, j)
    && if len <= f.root then !f.sub
       else f.sub && c / Pow2(len - f.root) == f.p && len <= f.root + f.curr
  }

  /** The code has been placed, and c is still its value. */
  ghost predicate PlacedCode(f: Fill, len: nat, j: nat, c: nat) {
    && f.Shape() && !Oversubscribed(f.lens) && 0 < f.root <= MaxLen(f.lens)
    && At(f.lens, len, j, c)
    && Filled(f, len, j + 1)
    && if len <= f.root then !f.sub else f.sub && c / Pow2(len - f.root) == f.p
  }

  method Place(ghost f: Fill, t: CodeType, root: nat, table: seq<Code>, next: nat, curr: nat, drop: nat,
               sym: nat, len: nat, huff: nat, ghost j: nat, ghost c: nat)
    returns (r: seq<Code>, ghost g: Fill)
    requires Ready(f, len, j, c) && sym == Nth(f.lens, len, j) && huff == Rev(len, c)
    requires f.t == t && f.root == root && f.table == table && f.next == next && f.curr == curr
    requires drop == if f.sub then root else 0
    ensures PlacedCode(g, len, j, c) && g == f.(table := r) && |r| == |table|
  {
    hide Pow2, Count, MaxLen, Rev, EntryFor, Used, SubBits, Entries;
    var e := EntryFor(t, sym, len - drop);
    HuffShift(f.lens, len, j, c, drop);
    r := Replicate(table, next, huff / Pow2(drop), len - drop, curr, e);
    g := f.(table := r);
    assert Placing(f, g, len, j, len - drop) by {
      assert len - (len - drop) == drop;
    }
    PlaceDone(f, g, len, j, c);
  }

  lemma PlaceDone(f: Fill, g: Fill, len: nat, j: nat, c: nat)
    requires Ready(f, len, j, c)
    requires if f.sub then f.root < len && Placing(f, g, len, j, len - f.root) else Placing(f, g, len, j, len)
    ensures PlacedCode(g, len, j, c)
  {
    hide Pow2, Count, MaxLen, Rev, EntryFor, Used, SubBits, Entries, Filled;
    if f.sub {
      PutSub(f, g, len, j);
    } else {
      PutRoot(f, g, len, j);
    }
  }

  lemma HuffShift(lens: seq<nat>, len: nat, j: nat, c: nat, drop: nat)
    requires At(lens, len, j, c) && drop <= len
    ensures Rev(len, c) / Pow2(drop) < Pow2(len - drop)
  {
    RevSmall(len, c);
    hide Pow2, Rev, Count, MaxLen;
    Pow2Add(len - drop, drop);
    QuotientBound(Rev(len, c), Pow2(drop), Pow2(len - drop));
  }

  lemma QuotientBound(x: nat, d: int, q: int)
    requires d > 0 && x < q * d
    ensures x / d < q
  {
    if x / d >= q {
      MulMono(q, x / d, d);
    }
  }

  lemma DoneNext(lens: seq<nat>, len: nat, j: nat, l2: nat, j2: nat, s: nat)
    requires 0 < len && j < Count(lens, len) && Succ(lens, len, j, l2, j2) && Done(lens, l2, j2, s)
    ensures Done(lens, len, j + 1, s)
  {
    CountPositive(lens, s);
  }

  lemma FilledNext(f: Fill, len: nat, j: nat, l2: nat, j2: nat)
    requires f.Shape() && Filled(f, len, j + 1)
    requires 0 < len && j < Count(f.lens, len) && Succ(f.lens, len, j, l2, j2)
    ensures Filled(f, l2, j2)
  {
    hide Pow2, Count, MaxLen, Rev, EntryFor, Used, SubBits, Entries, Good, Succ, Done;
    forall s: nat, v: nat {:trigger IsCodeFor(f.lens, s, v)} | IsCodeFor(f.lens, s, v) && Done(f.lens, l2, j2, s)
      ensures Good(f, s, v)
    {
      DoneNext(f.lens, len, j, l2, j2, s);
    }
  }

  /** The root prefix q of the next code, which is the current one or opens a new sub-table. */
  ghost predicate NextPrefix(f: Fill, l2: nat, c2: nat, q: nat) {
    && l2 > f.root && q == c2 / Pow2(l2 - f.root) && q < Pow2(f.root)
    && Rev(l2, c2) % Pow2(f.root) == Rev(f.root, q)
    && if f.sub && q == f.p then l2 <= f.root + f.curr
       else q == (if f.sub then f.p + 1 else Used(f.lens, f.root)) && c2 == q * Pow2(l2 - f.root)
  }

  lemma Advance(f: Fill, len: nat, j: nat, c: nat, l2: nat, j2: nat) returns (c2: nat, q: nat)
    requires PlacedCode(f, len, j, c) && Succ(f.lens, len, j, l2, j2)
    ensures At(f.lens, l2, j2, c2) && Filled(f, l2, j2)
    ensures Rev(l2, c2) == Rev(len, (c + 1) % Pow2(len))
    ensures Before(f.lens, l2) + j2 == Before(f.lens, len) + j + 1
    ensures if l2 > f.root then NextPrefix(f, l2, c2, q) else !f.sub
  {
    hide Pow2, Count, MaxLen, Rev, EntryFor, SubBits, Entries, Filled, Before, NextPrefix, Used, NextCode;
    c2 := SuccCode(f.lens, len, j, c, l2, j2);
    FilledNext(f, len, j, l2, j2);
    q := c2 / Pow2(if l2 > f.root then l2 - f.root else 0);
    if l2 > f.root {
      if f.sub {
        PrefixWithin(f, len, j, c, l2, j2, c2, q);
      } else {
        PrefixFirst(f, len, j, c, l2, j2, c2, q);
      }
    }
  }

  lemma PrefixWithin(f: Fill, len: nat, j: nat, c: nat, l2: nat, j2: nat, c2: nat, q: nat)
    requires PlacedCode(f, len, j, c) && f.sub && len <= l2 && At(f.lens, l2, j2, c2)
    requires c2 == (c + 1) * Pow2(l2 - len)
    requires f.root < l2 && q == c2 / Pow2(l2 - f.root)
    ensures NextPrefix(f, l2, c2, q)
  {
    hide Pow2, Count, MaxLen, Rev, EntryFor, SubBits, Entries, Filled, Used, NextCode;
    RevModPrefix(l2, f.root, c2, q);
    PrefixAfter(f.root, len, c, l2, c2);
    if q == f.p { FitsSub(f.lens, f.root, f.p, f.curr, l2, j2, c2); }
  }

  lemma SuccSkips(lens: seq<nat>, len: nat, j: nat, l2: nat, j2: nat)
    requires Succ(lens, len, j, l2, j2) && len < l2
    ensures forall i :: len < i < l2 ==> Count(lens, i) == 0
  {
    hide Count;
  }

  lemma PrefixFirst(f: Fill, len: nat, j: nat, c: nat, l2: nat, j2: nat, c2: nat, q: nat)
    requires PlacedCode(f, len, j, c) && !f.sub && len <= f.root < l2 && At(f.lens, l2, j2, c2)
    requires Succ(f.lens, len, j, l2, j2) && c2 == (c + 1) * Pow2(l2 - len)
    requires f.root < l2 && q == c2 / Pow2(l2 - f.root)
    ensures NextPrefix(f, l2, c2, q)
  {
    hide Pow2, Count, MaxLen, Rev, EntryFor, SubBits, Entries, Filled, Used, NextCode;
    SuccSkips(f.lens, len, j, l2, j2);
    UsedAtEnd(f.lens, len, j, c, l2, j2);
    RevModPrefix(l2, f.root, c2, q);
    FirstPrefix(f.lens, f.root, len, c, l2, c2);
  }

  /** low of the C code: the root index of the current sub-table, or -1. */
  ghost function Low(f: Fill): int {
    if f.sub then Rev(f.root, f.p) else -1
  }

  lemma LowMeans(f: Fill, l2: nat, c2: nat, q: nat)
    requires f.Shape() && NextPrefix(f, l2, c2, q)
    ensures Rev(l2, c2) % Pow2(f.root) == Low(f) <==> f.sub && q == f.p
  {
    hide Pow2, Rev, Used, SubBits, Entries, EntryFor;
    if f.sub {
      RevRev(f.root, q);
      RevRev(f.root, f.p);
    }
  }

  method Open(ghost f: Fill, count: array<nat>, root: nat, max: nat, table: seq<Code>,
              len: nat, huff: nat, ghost j: nat, ghost c: nat, ghost q: nat)
    returns (r: seq<Code>, next: nat, curr: nat, low: nat, ghost g: Fill)
    requires f.Shape() && !Oversubscribed(f.lens) && 0 < f.root && f.table == table && f.root == root
    requires At(f.lens, len, j, c) && Filled(f, len, j) && huff == Rev(len, c)
    requires NextPrefix(f, len, c, q) && !(f.sub && q == f.p)
    requires Remaining(f.lens, count[..], len, j) && max == MaxLen(f.lens)
    ensures Ready(g, len, j, c) && g.t == f.t && g.lens == f.lens && g.root == root
    ensures g.table == r && g.next == next && g.curr == curr && g.sub && low == Low(g)
    ensures |r| == |table| + Pow2(curr)
  {
    hide Pow2, Count, MaxLen, Rev, EntryFor, Used, SubBits, Entries, Filled;
    curr := SubTableBits(f.lens, count, root, max, len, j, c, q);
    next := |table|;
    low := huff % Pow2(root);
    r := table + seq(Pow2(curr), _ => Invalid(0));
    InTable(f, q);
    r := r[low := Code(curr, root, next)];
    g := Fill(f.t, f.lens, root, r, next, curr, true, q);
    OpenSub(f, g, len, j, q);
    FitsSub(f.lens, root, q, curr, len, j, c);
  }

  lemma InTable(f: Fill, q: nat)
    requires f.Shape()
    ensures Rev(f.root, q) < Pow2(f.root) <= |f.table|
  {
    hide Rev, Used, SubBits, Entries, Pow2;
    RevSmall(f.root, q);
    if f.sub {} else { assert f.curr == f.root; }
  }

  // ----- The whole method -----

  lemma NoneShorter(lens: seq<nat>, s: nat)
    ensures !Done(lens, MinLenFrom(lens, 1), 0, s)
  {
    if s < |lens| { CountPositive(lens, s); }
  }

  /** Nothing is placed yet: the empty root table is ready for the first code. */
  lemma Start(f: Fill, len: nat)
    requires |f.lens| <= SymbolLimit(f.t) && !Oversubscribed(f.lens)
    requires !f.sub && f.next == 0 && f.curr == f.root && |f.table| == Pow2(f.root)
    requires len == MinLenFrom(f.lens, 1) && len <= f.root <= MaxLen(f.lens)
    ensures Ready(f, len, 0, 0) && Rev(len, 0) == 0 && Before(f.lens, len) == 0
  {
    hide Pow2, Rev, EntryFor, SubBits, Entries, Done, Good, Count, Oversubscribed;
    forall s: nat
      ensures !Done(f.lens, len, 0, s)
    {
      NoneShorter(f.lens, s);
    }
    UsedScales(f.lens, 0, len - 1);
    BeforeNone(f.lens, len);
    RevZero(len);
  }

  lemma {:induction false} BeforeNone(lens: seq<nat>, l: nat)
    requires forall i :: 1 <= i < l ==> Count(lens, i) == 0
    ensures Before(lens, l) == 0
  {
    if l > 1 { BeforeNone(lens, l - 1); }
  }

  lemma {:induction false} RevZero(n: nat)
    ensures Rev(n, 0) == 0
  {
    if n > 0 { RevZero(n - 1); }
  }

  /** After the last code, every symbol is in the table. */
  lemma AllPlaced(f: Fill, j: nat, c: nat, s: nat, v: nat)
    requires PlacedCode(f, MaxLen(f.lens), j, c) && j + 1 == Count(f.lens, MaxLen(f.lens))
    requires ValidLens(f.lens) && IsCodeFor(f.lens, s, v)
    ensures LeadsTo(f.t, f.lens, f.table, f.root, s, v)
  {
    CountPositive(f.lens, s);
    assert f.lens[s] <= MaxLen(f.lens);
    assert Done(f.lens, MaxLen(f.lens), j + 1, s);
    assert Good(f, s, v);
  }

  /** The last code of a complete set is all ones, so its sub-table is the last. */
  lemma LastPrefix(f: Fill, j: nat, c: nat)
    requires PlacedCode(f, MaxLen(f.lens), j, c) && j + 1 == Count(f.lens, MaxLen(f.lens)) && Complete(f.lens)
    ensures c + 1 == Pow2(MaxLen(f.lens))
    ensures |f.table| == TotalEntries(f.lens, f.root)
  {
    hide Pow2, Count, Rev, EntryFor, SubBits, Entries, Filled, Used, NextCode;
    UsedAtMax(f.lens);
    var max := MaxLen(f.lens);
    LastUsed(f, max, j, c);
    if f.sub {
      Pow2Add(f.root, max - f.root);
      LastQuotient(c, Pow2(f.root), Pow2(max - f.root));
    }
  }

  lemma LastUsed(f: Fill, len: nat, j: nat, c: nat)
    requires PlacedCode(f, len, j, c) && j + 1 == Count(f.lens, len)
    ensures Used(f.lens, len) == c + 1
  {
    hide Filled, Entries, SubBits, Rev, EntryFor;
  }

  lemma LastQuotient(c: nat, a: int, b: int)
    requires a > 0 && b > 0 && c + 1 == a * b
    ensures c / b == a - 1
  {
    assert c == (a - 1) * b + (b - 1);
    DivModUnique(c, b, a - 1, b - 1);
  }

  lemma IncompleteIsOne(lens: seq<nat>, root: nat)
    requires !Complete(lens) && !Oversubscribed(lens) && MaxLen(lens) == 1
    ensures Count(lens, 1) == 1 && Used(lens, 1) == 1
  {
    UsedAtMax(lens);
    Pow2One();
  }

  lemma OneBit(lens: seq<nat>, v: nat)
    requires ValidLens(lens) && !Complete(lens) && !Oversubscribed(lens) && MaxLen(lens) == 1
    ensures v % 2 == 0 <==> exists s: nat :: IsCodeFor(lens, s, v)
  {
    IncompleteIsOne(lens, 1);
    Pow2One();
    assert Rev(1, v) == v % 2 by { RevNone(v / 2); }
    if v % 2 == 0 {
      var s := CodeExists(lens, 1, v);
    }
    forall s: nat | IsCodeFor(lens, s, v)
      ensures v % 2 == 0
    {
      CodeOneLen(lens, s);
      CodeRange(lens, s);
    }
  }

  /** Fill the rest of the table of an incomplete code with invalid markers. The
      lengths accepted as incomplete have one code of one bit, so the code never
      is in a sub-table here (drop is zero) and the root has two entries. */
  method FillRest(ghost f: Fill, table: seq<Code>, huff: nat, len: nat, ghost c: nat, ghost j: nat)
    returns (r: seq<Code>)
    requires ValidLens(f.lens) && f.table == table && len == MaxLen(f.lens)
    requires PlacedCode(f, len, j, c) && j + 1 == Count(f.lens, len)
    requires huff == Rev(len, (c + 1) % Pow2(len))
    requires Complete(f.lens) || len == 1
    ensures |r| == |table| == TotalEntries(f.lens, f.root)
    ensures TableFor(f.t, f.lens, r, f.root)
  {
    forall s: nat, v: nat {:trigger IsCodeFor(f.lens, s, v)} | IsCodeFor(f.lens, s, v)
      ensures LeadsTo(f.t, f.lens, table, f.root, s, v)
    {
      AllPlaced(f, j, c, s, v);
    }
    if huff != 0 {
      HuffLeft(f, j, c);
      FillOne(f, table[1 := Invalid(1)]);
    } else {
      HuffDone(f, j, c);
    }
    r := table;
    var h := huff;
    while h != 0
      invariant h != 0 ==> h == 1 == huff && r == table
      invariant h == 0 && huff != 0 ==> r == table[1 := Invalid(1)]
      invariant h == 0 && huff == 0 ==> r == table
      decreases h
    {
      r := r[h := Invalid(len)];
      LastHuff();
      h := BackIncrement(h, len, 1);
    }
  }

  lemma LastHuff()
    ensures Rev(1, 1) == 1 < Pow2(1) && Rev(1, 2 % Pow2(1)) == 0
  {
    Pow2One();
    RevNone(0);
  }

  lemma IncompleteHuff(lens: seq<nat>, j: nat, c: nat)
    requires !Complete(lens) && !Oversubscribed(lens) && MaxLen(lens) == 1
    requires At(lens, 1, j, c) && j + 1 == Count(lens, 1)
    ensures c == 0 && Rev(1, (c + 1) % Pow2(1)) == 1
  {
    IncompleteIsOne(lens, 1);
    Pow2One();
    RevNone(0);
  }

  lemma HuffDone(f: Fill, j: nat, c: nat)
    requires PlacedCode(f, MaxLen(f.lens), j, c) && j + 1 == Count(f.lens, MaxLen(f.lens))
    requires Complete(f.lens) || MaxLen(f.lens) == 1
    requires Rev(MaxLen(f.lens), (c + 1) % Pow2(MaxLen(f.lens))) == 0
    ensures Complete(f.lens) && |f.table| == TotalEntries(f.lens, f.root)
    ensures Pow2(f.root) <= |f.table|
  {
    if !Complete(f.lens) { IncompleteHuff(f.lens, j, c); }
    LastPrefix(f, j, c);
    InTable(f, 0);
  }

  lemma HuffLeft(f: Fill, j: nat, c: nat)
    requires PlacedCode(f, MaxLen(f.lens), j, c) && j + 1 == Count(f.lens, MaxLen(f.lens))
    requires Complete(f.lens) || MaxLen(f.lens) == 1
    requires Rev(MaxLen(f.lens), (c + 1) % Pow2(MaxLen(f.lens))) != 0
    ensures !Complete(f.lens) && MaxLen(f.lens) == 1 && f.root == 1 && |f.table| == 2
    ensures Rev(MaxLen(f.lens), (c + 1) % Pow2(MaxLen(f.lens))) == 1
    ensures |f.table| == TotalEntries(f.lens, f.root)
  {
    if Complete(f.lens) {
      LastPrefix(f, j, c);
      RevZero(MaxLen(f.lens));
      DivModUnique(c + 1, Pow2(MaxLen(f.lens)), 1, 0);
    }
    IncompleteHuff(f.lens, j, c);
  }

  lemma FillOne(f: Fill, r: seq<Code>)
    requires f.Shape() && ValidLens(f.lens) && !Oversubscribed(f.lens)
    requires !Complete(f.lens) && MaxLen(f.lens) == 1 && f.root == 1 && |f.table| == 2
    requires r == f.table[1 := Invalid(1)]
    requires forall s: nat, v: nat {:trigger IsCodeFor(f.lens, s, v)} ::
               IsCodeFor(f.lens, s, v) ==> LeadsTo(f.t, f.lens, f.table, f.root, s, v)
    ensures TableFor(f.t, f.lens, r, f.root)
  {
    Pow2One();
    hide Rev, CodeValue, Count, EntryFor;
    forall s: nat, v: nat {:trigger IsCodeFor(f.lens, s, v)} | IsCodeFor(f.lens, s, v)
      ensures LeadsTo(f.t, f.lens, r, f.root, s, v)
    {
      OneBit(f.lens, v);
      CodeOneLen(f.lens, s);
      assert LeadsTo(f.t, f.lens, f.table, f.root, s, v);
    }
    forall v: nat | forall s: nat :: !IsCodeFor(f.lens, s, v)
      ensures r[v % Pow2(f.root)] == Invalid(1)
    {
      OneBit(f.lens, v);
    }
  }

  lemma CodeOneLen(lens: seq<nat>, s: nat)
    requires MaxLen(lens) == 1 && s < |lens| && 0 < lens[s] <= MAXBITS
    ensures lens[s] == 1
  {
    CountPositive(lens, s);
  }

  /** The symbol at work[Before(len) + j] is the j-th of length len. */
  lemma WorkHolds(lens: seq<nat>, work: seq<nat>, len: nat, j: nat)
    requires Placed(lens, |lens|, work) && 0 < len && j < Count(lens, len)
    ensures Before(lens, len) + j < |work|
    ensures work[Before(lens, len) + j] == Nth(lens, len, j)
    ensures Before(lens, len) + j < |lens|
  {
    var s := Nth(lens, len, j);
    assert Slot(lens, s) == Before(lens, len) + j;
    PlaceInRange(lens, s);
  }

  /** Remaining counts after one symbol of length len is placed. */
  lemma RemainingNext(lens: seq<nat>, count: seq<nat>, after: seq<nat>, len: nat, j: nat, l2: nat, j2: nat)
    requires Remaining(lens, count, len, j) && j < Count(lens, len) && after == count[len := count[len] - 1]
    requires Succ(lens, len, j, l2, j2) && l2 <= MAXBITS
    ensures Remaining(lens, after, l2, j2)
  {
  }

  /** Length of the next code, and its place in its length, as the loop finds it. */
  method NextSymbol(lens: seq<nat>, work: array<nat>, count: array<nat>, sym: nat, len: nat, max: nat, ghost j: nat)
    returns (last: bool, l2: nat, ghost j2: nat)
    requires Placed(lens, |lens|, work[..]) && Remaining(lens, count[..], len, j) && max == MaxLen(lens)
    requires 0 < len <= max && j < Count(lens, len) && sym == Before(lens, len) + j + 1 && count != work
    modifies count
    ensures last <==> len == max && j + 1 == Count(lens, len)
    ensures !last ==> Succ(lens, len, j, l2, j2) && Remaining(lens, count[..], l2, j2)
  {
    hide Count, MaxLen, Before, Placed;
    ghost var was := count[..];
    count[len] := count[len] - 1;
    last, l2, j2 := false, len, j + 1;
    if count[len] == 0 {
      if len == max { return true, len, j + 1; }
      ghost var n := NextLen(lens, len);
      j2 := 0;
      BeforeGap(lens, len, n);
      WorkHolds(lens, work[..], n, 0);
      l2 := lens[work[sym]];
    }
    RemainingNext(lens, was, count[..], len, j, l2, j2);
  }

  /** The next code is known, but may need a sub-table first. */
  ghost predicate Waiting(f: Fill, len: nat, j: nat, c: nat, q: nat) {
    && f.Shape() && !Oversubscribed(f.lens) && 0 < f.root <= MaxLen(f.lens)
    && At(f.lens, len, j, c) && Filled(f, len, j)
    && if len > f.root then NextPrefix(f, len, c, q) else !f.sub
  }

  lemma StayReady(f: Fill, len: nat, j: nat, c: nat, q: nat)
    requires Waiting(f, len, j, c, q)
    requires len > f.root ==> Rev(len, c) % Pow2(f.root) == Low(f)
    ensures Ready(f, len, j, c)
  {
    hide Pow2, Count, MaxLen, Rev, SubBits, Entries, Filled, NextCode, Used, Low;
    if len > f.root { LowMeans(f, len, c, q); }
  }

  lemma MustOpen(f: Fill, len: nat, j: nat, c: nat, q: nat)
    requires Waiting(f, len, j, c, q) && len > f.root
    requires Rev(len, c) % Pow2(f.root) != Low(f)
    ensures f.Shape() && !Oversubscribed(f.lens) && 0 < f.root && At(f.lens, len, j, c) && Filled(f, len, j)
    ensures NextPrefix(f, len, c, q) && !(f.sub && q == f.p)
  {
    hide Pow2, Count, MaxLen, Rev, SubBits, Entries, Filled, NextCode, Used, Low, NextPrefix;
    LowMeans(f, len, c, q);
  }

  /** Place one code and find the next one, if there is one. */
  method OneCode(ghost f: Fill, t: CodeType, lens: seq<nat>, count: array<nat>, work: array<nat>, max: nat,
                 root: nat, table: seq<Code>, next: nat, curr: nat, drop: nat, sym: nat, len: nat, huff: nat,
                 ghost j: nat, ghost c: nat)
    returns (last: bool, r: seq<Code>, h: nat, l2: nat, ghost g: Fill, ghost j2: nat, ghost c2: nat, ghost q: nat)
    requires Ready(f, len, j, c) && huff == Rev(len, c) && sym == Before(lens, len) + j
    requires f.t == t && f.lens == lens && f.root == root && f.table == table && f.next == next && f.curr == curr
    requires drop == (if f.sub then root else 0) && max == MaxLen(lens)
    requires count != work && Remaining(lens, count[..], len, j) && Placed(lens, |lens|, work[..])
    modifies count
    ensures g == f.(table := r) && |r| == |table| && sym < |lens|
    ensures last ==>
              PlacedCode(g, max, j, c) && j + 1 == Count(lens, max) && len == max && h == Rev(max, (c + 1) % Pow2(max))
    ensures !last ==> Waiting(g, l2, j2, c2, q) && h == Rev(l2, c2) && sym + 1 == Before(lens, l2) + j2
    ensures !last ==> Remaining(lens, count[..], l2, j2)
  {
    hide Pow2, Count, MaxLen, Rev, EntryFor, SubBits, Entries, Filled, Before, Placed, NextCode, Used, Remaining, Nth;
    WorkHolds(lens, work[..], len, j);
    r, g := Place(f, t, root, table, next, curr, drop, work[sym], len, huff, j, c);
    h := BackIncrement(huff, len, c);
    last, l2, j2 := NextSymbol(lens, work, count, sym + 1, len, max, j);
    c2, q := c, 0;
    if !last {
      c2, q := Advance(g, len, j, c, l2, j2);
    }
  }

  /** Fill the root table and the sub-tables of an accepted set of lengths. */
  method BuildTable(t: CodeType, lens: seq<nat>, count: array<nat>, work: array<nat>, min: nat, max: nat, root: nat)
    returns (ret: int, table: seq<Code>)
    requires ValidLens(lens) && |lens| <= SymbolLimit(t) && !Oversubscribed(lens) && count != work
    requires Complete(lens) || max == 1
    requires Placed(lens, |lens|, work[..])
    requires min == MinLenFrom(lens, 1) && max == MaxLen(lens) && 0 < min <= root <= max
    requires Remaining(lens, count[..], min, 0)
    modifies count
    ensures ret == if t.LENS? && TotalEntries(lens, root) >= ENOUGH - MAXD then 1 else 0
    ensures ret == 0 ==> |table| == TotalEntries(lens, root) && TableFor(t, lens, table, root)
  {
    hide *;
    table := seq(Pow2(root), _ => Invalid(0));
    ghost var f := Fill(t, lens, root, table, 0, root, false, 0);
    ghost var j: nat, c: nat, q: nat := 0, 0, 0;
    var huff: nat, sym: nat, len: nat := 0, 0, min;
    var next: nat, curr: nat, drop: nat := 0, root, 0;
    var low: int := -1;
    var used := Pow2(root);
    Start(f, len);
    LowOf(f);
    if t.LENS? && used >= ENOUGH - MAXD {
      TotalAtLeast(f, len, j, c);
      return 1, table;
    }
    var last := false;
    while true
      invariant Ready(f, len, j, c) && huff == Rev(len, c) && sym == Before(lens, len) + j
      invariant f.t == t && f.lens == lens && f.root == root && f.table == table
      invariant f.next == next && f.curr == curr && drop == (if f.sub then root else 0) && low == Low(f)
      invariant used == |table| && (t.LENS? ==> used < ENOUGH - MAXD)
      invariant Remaining(lens, count[..], len, j) && Placed(lens, |lens|, work[..])
      decreases |lens| - sym
    {
      ghost var c0, j0 := c, j;
      LowOf(f);
      last, table, huff, len, f, j, c, q :=
        OneCode(f, t, lens, count, work, max, root, table, next, curr, drop, sym, len, huff, j, c);
      if last {
        table := FillRest(f, table, huff, max, c0, j0);
        return 0, table;
      }
      sym := sym + 1;
      LowOf(f);
      if len > root && huff % Pow2(root) != low {
        MustOpen(f, len, j, c, q);
        drop := root;
        table, next, curr, low, f := Open(f, count, root, max, table, len, huff, j, c, q);
        used := used + Pow2(curr);
        if t.LENS? && used >= ENOUGH - MAXD {
          TotalAtLeast(f, len, j, c);
          return 1, table;
        }
      } else {
        StayReady(f, len, j, c, q);
      }
    }
  }

  lemma LowOf(f: Fill)
    ensures Low(f) == if f.sub then Rev(f.root, f.p) else -1
  {
  }

  lemma TotalAtLeast(f: Fill, len: nat, j: nat, c: nat)
    requires Ready(f, len, j, c)
    ensures TotalEntries(f.lens, f.root) >= |f.table|
  {
    if f.sub {
      EntriesGrow(f.lens, f.root, f.p + 1, Pow2(f.root));
    } else if f.root < MaxLen(f.lens) {
      EntriesGrow(f.lens, f.root, 0, Pow2(f.root));
    }
  }

  /** inflate_table: check the lengths, sort the symbols, and build the table. */
  method InflateTable(t: CodeType, lens: seq<nat>, bits: nat, work: array<nat>)
    returns (ret: int, table: seq<Code>, root: nat)
    requires ValidLens(lens) && |lens| <= SymbolLimit(t) && |lens| <= work.Length
    modifies work
    ensures ret == Verdict(t, lens, bits)
    ensures ret == 0 ==> root == RootBits(lens, bits) && TableFor(t, lens, table, root)
    ensures ret == 0 && MaxLen(lens) > 0 ==> |table| == TotalEntries(lens, root)
  {
    hide Pow2, Count, SubBits, Entries, TotalEntries, Complete, Oversubscribed, TableFor, Placed;
    var count := CountLengths(lens);
    var max: nat := MAXBITS;
    while max >= 1 && count[max] == 0
      invariant max <= MAXBITS && MaxLen(lens) == MaxLenTo(lens, max)
    {
      max := max - 1;
    }
    root := if bits > max then max else bits;
    if max == 0 {
      NoSymbols(t, lens);
      return 0, [Invalid(1), Invalid(1)], 1;
    }
    var min: nat := 1;
    while min <= MAXBITS && count[min] == 0
      invariant 1 <= min <= MAXBITS + 1 && MinLenFrom(lens, 1) == MinLenFrom(lens, min)
    {
      min := min + 1;
    }
    root := if root < min then min else root;
    var left := CheckSpace(lens, count);
    if left < 0 { return -1, [], root; }
    if left > 0 && (t.CODES? || max != 1) { return -1, [], root; }
    SortSymbols(lens, count, work);
    MinBelowMax(lens);
    ret, table := BuildTable(t, lens, count, work, min, max, root);
  }

  lemma MinBelowMax(lens: seq<nat>)
    requires MaxLen(lens) > 0
    ensures 0 < MinLenFrom(lens, 1) <= MaxLen(lens)
  {
  }

  lemma NoSymbols(t: CodeType, lens: seq<nat>)
    requires ValidLens(lens) && |lens| <= SymbolLimit(t) && MaxLen(lens) == 0
    ensures TableFor(t, lens, [Invalid(1), Invalid(1)], 1)
  {
    Pow2One();
    forall s: nat, v: nat {:trigger IsCodeFor(lens, s, v)} | IsCodeFor(lens, s, v)
      ensures false
    {
      CountPositive(lens, s);
    }
  }
}
