/** The allocator over raw memory: doubly linked block headers in the blocks themselves. */
module Heap {
  import opened HeapBlocks

  const FREE := 0
  const RESERVED := 1

  // ----- Memory: 32-bit words, at addresses that are multiples of four -----

  predicate Holds(m: seq<nat>, a: nat) { a % 4 == 0 && a / 4 + 3 < |m| }

  function Prev(m: seq<nat>, a: nat): nat requires Holds(m, a) { m[a / 4] }
  function Next(m: seq<nat>, a: nat): nat requires Holds(m, a) { m[a / 4 + 1] }

  /** The byte at a + 8, on a little-endian machine. */
  function Status(m: seq<nat>, a: nat): nat requires Holds(m, a) { m[a / 4 + 2] % 0x100 }

  /** The byte at a + 15, just below the payload. */
  function Align(m: seq<nat>, a: nat): nat requires Holds(m, a) { m[a / 4 + 3] / 0x100_0000 % 0x100 }

  function PrevOf(bs: seq<Block>, k: nat): nat requires k < |bs| { if k == 0 then 0 else bs[k - 1].addr }
  function NextOf(bs: seq<Block>, k: nat): nat requires k < |bs| { if k + 1 < |bs| then bs[k + 1].addr else 0 }

  /** The header of block k says what the list says. */
  ghost predicate HeaderIs(m: seq<nat>, bs: seq<Block>, k: nat)
    requires k < |bs|
  {
    var a := bs[k].addr;
    && Holds(m, a) && Prev(m, a) == PrevOf(bs, k) && Next(m, a) == NextOf(bs, k)
    && Status(m, a) == (if bs[k].free then 0 else 1)
  }

  /** Every header does, and the alignment byte of every block in use but one is clear. */
  ghost predicate Linked(m: seq<nat>, bs: seq<Block>, last: nat, but: int) {
    && last <= 4 * |m|
    && (forall k: nat :: k < |bs| ==> HeaderIs(m, bs, k))
    && (forall k: nat {:trigger bs[k]} :: k < |bs| && k != but && !bs[k].free ==>
          Holds(m, bs[k].addr) && Align(m, bs[k].addr) == 0)
  }

  /** Two memories hold the same header at a. */
  ghost predicate SameHeader(m: seq<nat>, m2: seq<nat>, a: nat) {
    Holds(m, a) && |m2| == |m| && forall i :: a / 4 <= i < a / 4 + 4 ==> m2[i] == m[i]
  }

  lemma Apart(bs: seq<Block>, first: nat, last: nat, j: nat, k: nat)
    requires Tiled(bs, first, last) && j < |bs| && k < |bs| && j != k
    ensures bs[j].addr / 4 + 4 <= bs[k].addr / 4 || bs[k].addr / 4 + 4 <= bs[j].addr / 4
    ensures bs[j].addr % 4 == 0 && bs[k].addr % 4 == 0
  {
    if j < k { assert Before(bs, j, k); } else { assert Before(bs, k, j); }
  }

  /** What splitting block k must have written for the new list to be linked. */
  lemma SplitLinked(m: seq<nat>, m2: seq<nat>, bs: seq<Block>, last: nat, k: nat, n: nat)
    requires k < |bs| && Splits(bs, last, k, n) && Linked(m, bs, last, -1) && |m2| == |m|
    requires forall j: nat :: j < |bs| && j != k && j != k + 1 ==> SameHeader(m, m2, bs[j].addr)
    requires var i, at := bs[k].addr, bs[k].addr + SIZE_HEADER + n;
             && Holds(m, i) && Prev(m2, i) == Prev(m, i) && Next(m2, i) == at && Status(m2, i) == RESERVED
             && Holds(m, at) && Prev(m2, at) == i && Next(m2, at) == Next(m, i) && Status(m2, at) == FREE
    requires k + 1 < |bs| ==>
               var r, at := bs[k + 1].addr, bs[k].addr + SIZE_HEADER + n;
               Holds(m, r) && Prev(m2, r) == at && Next(m2, r) == Next(m, r) && Status(m2, r) == Status(m, r)
               && Align(m2, r) == Align(m, r)
    ensures Linked(m2, Taken(bs, last, k, n), last, k)
  {
    TakenAt(bs, last, k, n);
    hide Taken, Status, Align;
    var cs := Taken(bs, last, k, n);
    forall j: nat | j < |cs|
      ensures HeaderIs(m2, cs, j) && (j != k && !cs[j].free ==> Holds(m2, cs[j].addr) && Align(m2, cs[j].addr) == 0)
    {
      var o := Origin(true, k, j);
      assert HeaderIs(m, bs, o);
      if j != k && j != k + 1 && j != k + 2 {
        assert SameHeader(m, m2, bs[o].addr);
        SameFields(m, m2, bs[o].addr);
      }
    }
  }

  /** What freeing block k must have written. */
  lemma FreedLinked(m: seq<nat>, m2: seq<nat>, bs: seq<Block>, last: nat, k: nat)
    requires k < |bs| && Linked(m, bs, last, -1) && |m2| == |m|
    requires var l, e := Start(bs, k), Start(bs, k) + Cost(bs, k) + 1;
             && (forall j: nat :: j < |bs| && (j < l || j > e) ==> SameHeader(m, m2, bs[j].addr))
             && Holds(m, bs[l].addr) && Prev(m2, bs[l].addr) == Prev(m, bs[l].addr)
             && Next(m2, bs[l].addr) == (if e < |bs| then bs[e].addr else 0) && Status(m2, bs[l].addr) == FREE
             && (e < |bs| ==>
                   var r := bs[e].addr;
                   Holds(m, r) && Prev(m2, r) == bs[l].addr && Next(m2, r) == Next(m, r)
                       && Status(m2, r) == Status(m, r)
                   && Align(m2, r) == Align(m, r))
    ensures Linked(m2, Freed(bs, k), last, -1)
  {
    hide Freed, Status, Align, Prev, Next;
    FreedAt(bs, last, k);
    var cs, l, d := Freed(bs, k), Start(bs, k), Cost(bs, k);
    forall j: nat | j < |cs|
      ensures HeaderIs(m2, cs, j) && (!cs[j].free ==> Holds(m2, cs[j].addr) && Align(m2, cs[j].addr) == 0)
    {
      var o := if j <= l then j else j + d;
      assert HeaderIs(m, bs, o);
      if j != l && j != l + 1 {
        assert SameHeader(m, m2, bs[o].addr);
        SameFields(m, m2, bs[o].addr);
      }
    }
  }

  lemma SameFields(m: seq<nat>, m2: seq<nat>, a: nat)
    requires SameHeader(m, m2, a)
    ensures Prev(m2, a) == Prev(m, a) && Next(m2, a) == Next(m, a) && Status(m2, a) == Status(m, a)
    ensures Align(m2, a) == Align(m, a)
  {
  }

  /** The words of a memory after the header at a has been given these fields; other words as in m. */
  ghost predicate Wrote(m: seq<nat>, m2: seq<nat>, i: nat, at: nat, oldNext: nat, r: nat) {
    && |m2| == |m| && Holds(m, i) && Holds(m, at) && (r != 0 ==> Holds(m, r))
    && m2[i / 4 + 1] == at && m2[i / 4 + 2] % 0x100 == RESERVED
    && m2[at / 4] == i && m2[at / 4 + 1] == oldNext && m2[at / 4 + 2] % 0x100 == FREE
    && (r != 0 ==> m2[r / 4] == at)
    && forall x: nat ::
         (x < |m| && x != i / 4 + 1 && x != i / 4 + 2 && !(at / 4 <= x < at / 4 + 3) && (r == 0 || x != r / 4)) ==>
             m2[x] == m[x]
  }

  lemma SplitWrote(m: seq<nat>, m2: seq<nat>, bs: seq<Block>, first: nat, last: nat, k: nat, n: nat)
    requires Tiled(bs, first, last) && k < |bs| && Splits(bs, last, k, n) && n % 4 == 0 && Linked(m, bs, last, -1)
    requires Wrote(m, m2, bs[k].addr, bs[k].addr + SIZE_HEADER + n, NextOf(bs, k), NextOf(bs, k))
    ensures Linked(m2, Taken(bs, last, k, n), last, k)
  {
    hide Taken;
    var i, at := bs[k].addr, bs[k].addr + SIZE_HEADER + n;
    forall j: nat | j < |bs| && j != k && j != k + 1
      ensures SameHeader(m, m2, bs[j].addr)
    {
      assert HeaderIs(m, bs, j);
      Apart(bs, first, last, j, k);
      if k + 1 < |bs| { Apart(bs, first, last, j, k + 1); }
      Beyond(bs, first, last, j, k, at);
    }
    assert HeaderIs(m, bs, k);
    if k + 1 < |bs| {
      assert HeaderIs(m, bs, k + 1);
      Apart(bs, first, last, k, k + 1);
    }
    SplitLinked(m, m2, bs, last, k, n);
  }

  /** A header inside the payload of block k is clear of every other header. */
  lemma Beyond(bs: seq<Block>, first: nat, last: nat, j: nat, k: nat, at: nat)
    requires Tiled(bs, first, last) && j < |bs| && k < |bs| && j != k && at % 4 == 0
    requires bs[k].addr + SIZE_HEADER <= at && at + SIZE_HEADER <= End(bs, last, k)
    ensures bs[j].addr / 4 + 4 <= at / 4 || at / 4 + 4 <= bs[j].addr / 4
  {
    Disjoint(bs, first, last, j, k);
    if j < k { assert Before(bs, j, k); }
  }

  /** A payload that holds so many bytes holds them rounded up. */
  lemma UpToMultiple(p: int, nbytes: nat, n: nat)
    requires p % 4 == 0 && n % 4 == 0 && n < nbytes + 4 && p >= nbytes
    ensures p >= n
  {
  }

  // ----- 32-bit sizes -----

  function Add32(a: nat, b: nat): nat { (a + b) % 0x1_0000_0000 }

  /** ((nbytes + MIN_FREE_BYTES - 1) / MIN_FREE_BYTES) * MIN_FREE_BYTES. */
  function Rounded(n: nat): nat { Add32(n, MIN_FREE_BYTES - 1) / MIN_FREE_BYTES * MIN_FREE_BYTES }

  /** Sizes whose rounding, and the test whether a block can be split for them, do not wrap around. */
  const MAX_SIZE := 0x1_0000_0000 - 24

  /** What currentNodeAlloc asks of a payload p for the rounded size n: enough to split, or else to use as it is. */
  predicate Asks(p: int, n: nat) { p >= Add32(n, SIZE_HEADER + MIN_FREE_BYTES) || p >= n }

  lemma RoundedIs(n: nat)
    requires n < 0x1_0000_0000
    ensures Rounded(n) % 4 == 0 && Rounded(n) < 0x1_0000_0000
    ensures n <= MAX_SIZE ==> n <= Rounded(n) < n + 4 && Rounded(n) + SIZE_HEADER + MIN_FREE_BYTES < 0x1_0000_0000
    ensures n > MAX_SIZE ==>
              if n > 0x1_0000_0000 - MIN_FREE_BYTES then Rounded(n) == 0
              else Rounded(n) >= n && Add32(Rounded(n), SIZE_HEADER + MIN_FREE_BYTES) <= SIZE_HEADER
                   && Rounded(n) + SIZE_HEADER + MIN_FREE_BYTES >= 0x1_0000_0000
  {
  }

  /** Sizes for which the sum in the test whether to split a block wraps around. */
  predicate WrapsInTest(nbytes: nat) { MAX_SIZE < nbytes <= 0x1_0000_0000 - MIN_FREE_BYTES }

  /** The test is whether the payload holds the bytes, for every payload there can be,
      exactly for the sizes that do not wrap; beyond them a block of 16 bytes passes. */
  lemma SizesThatWrap(nbytes: nat)
    requires nbytes < 0x1_0000_0000
    ensures nbytes <= MAX_SIZE <==>
              forall p: nat :: p % 4 == 0 && p <= MAX_SIZE ==> (Asks(p, Rounded(nbytes)) <==> p >= nbytes)
    ensures nbytes > MAX_SIZE ==> forall p: nat :: p >= SIZE_HEADER ==> Asks(p, Rounded(nbytes))
  {
    RoundedIs(nbytes);
    hide Rounded;
    if nbytes <= MAX_SIZE {
      forall p: nat | p % 4 == 0 && p <= MAX_SIZE
        ensures Asks(p, Rounded(nbytes)) <==> p >= nbytes
      {
        if p >= nbytes { UpToMultiple(p, nbytes, Rounded(nbytes)); }
      }
    } else {
      assert Asks(SIZE_HEADER, Rounded(nbytes));
    }
  }

  /** The words of a memory after the block at l has been made free up to the block at r. */
  ghost predicate Unlinked(m: seq<nat>, m2: seq<nat>, l: nat, r: nat) {
    && |m2| == |m| && Holds(m, l) && (r != 0 ==> Holds(m, r))
    && m2[l / 4 + 1] == r && m2[l / 4 + 2] % 0x100 == FREE && (r != 0 ==> m2[r / 4] == l)
    && forall x: nat :: (x < |m| && x != l / 4 + 1 && x != l / 4 + 2 && (r == 0 || x != r / 4)) ==> m2[x] == m[x]
  }

  lemma FreeWrote(m: seq<nat>, m2: seq<nat>, bs: seq<Block>, first: nat, last: nat, k: nat)
    requires Tiled(bs, first, last) && k < |bs| && Linked(m, bs, last, -1)
    requires var e := Start(bs, k) + Cost(bs, k) + 1;
             Unlinked(m, m2, bs[Start(bs, k)].addr, if e < |bs| then bs[e].addr else 0)
    ensures Linked(m2, Freed(bs, k), last, -1)
  {
    hide Freed;
    var l, e := Start(bs, k), Start(bs, k) + Cost(bs, k) + 1;
    forall j: nat | j < |bs| && (j < l || j > e)
      ensures SameHeader(m, m2, bs[j].addr)
    {
      assert HeaderIs(m, bs, j);
      Apart(bs, first, last, j, l);
      if e < |bs| { Apart(bs, first, last, j, e); }
    }
    assert HeaderIs(m, bs, l);
    if e < |bs| {
      assert HeaderIs(m, bs, e);
      Apart(bs, first, last, l, e);
      assert Before(bs, 0, e);
    }
    FreedLinked(m, m2, bs, last, k);
  }

  // ----- Splitting a block at any address -----

  /** A word with its low byte replaced. */
  function StatusWord(w: nat, v: nat): (r: nat)
    requires v < 0x100
    ensures r % 0x100 == v
  {
    w / 0x100 * 0x100 + v
  }

  /** The words after the block at i was split with a new header at address at, in the
      order in which they are written. */
  function SplitWords(m: seq<nat>, i: nat, at: nat, oldNext: nat): (r: seq<nat>)
    requires Holds(m, i) && at / 4 + 2 < |m| && (oldNext != 0 ==> Holds(m, oldNext))
    ensures |r| == |m|
  {
    var a := m[i / 4 + 1 := at];
    var b := a[i / 4 + 2 := StatusWord(a[i / 4 + 2], RESERVED)];
    var c := b[at / 4 + 1 := oldNext][at / 4 := i];
    var d := c[at / 4 + 2 := StatusWord(c[at / 4 + 2], FREE)];
    if oldNext != 0 then d[oldNext / 4 := at] else d
  }

  /** With the new header between the two others no write disturbs another. */
  lemma SplitWroteAt(m: seq<nat>, i: nat, at: nat, oldNext: nat)
    requires Holds(m, i) && Holds(m, at) && i / 4 + 4 <= at / 4
    requires oldNext != 0 ==> Holds(m, oldNext) && at / 4 + 4 <= oldNext / 4
    ensures Wrote(m, SplitWords(m, i, at, oldNext), i, at, oldNext, oldNext)
  {
  }

  /** setalign(i, 0), for the payload of the block at i. */
  function Unaligned(m: seq<nat>, i: nat): (r: seq<nat>)
    requires Holds(m, i)
    ensures |r| == |m|
  {
    m[i / 4 + 3 := m[i / 4 + 3] % 0x100_0000]
  }

  /** Block k split for the rounded size n, when the test for that wraps around. */
  ghost predicate Wrapped(m: seq<nat>, m2: seq<nat>, bs: seq<Block>, last: nat, k: nat, n: nat) {
    && k < |bs| && n + SIZE_HEADER + MIN_FREE_BYTES >= 0x1_0000_0000 && Holds(m, bs[k].addr)
    && var at := bs[k].addr + SIZE_HEADER + n - 0x1_0000_0000;
       && at >= 0 && at / 4 + 2 < |m| && (NextOf(bs, k) != 0 ==> Holds(m, NextOf(bs, k)))
       && m2 == SplitWords(m, bs[k].addr, at, NextOf(bs, k))
  }

  /** Some list of blocks is what the headers say. */
  ghost predicate Consistent(m: seq<nat>, first: nat, last: nat) {
    exists bs: seq<Block> :: Tiled(bs, first, last) && Merged(bs) && Linked(m, bs, last, -1)
  }

  /** What the header of the block at i says after its new neighbour was put w - 4 bytes behind
      it, for the sizes that wrap: 0, 4, 8, 12 or 16. */
  lemma WrappedHeader(m: seq<nat>, i: nat, w: nat, oldNext: nat)
    requires Holds(m, i) && i > 0 && w % 4 == 0 && w <= 16 && (i + w - 4) / 4 + 2 < |m|
    requires oldNext != 0 ==> Holds(m, oldNext) && oldNext >= i + SIZE_HEADER + w
    ensures var m2 := Unaligned(SplitWords(m, i, i + w - 4, oldNext), i);
            && (w == 4 ==> Prev(m2, i) == i)
            && (w >= 8 ==> i <= Next(m2, i) < i + SIZE_HEADER)
            && (w == 0 ==> Next(m2, i) == (i - 4) / 0x100 * 0x100 && Prev(m2, i) == oldNext)
            && (w == 0 ==> Status(m2, i) == RESERVED && Align(m2, i) == 0)
            && forall x: nat :: x < |m| && x < i / 4 - 1 ==> m2[x] == m[x]
  {
  }

  /** The links up to block k lead the same way. */
  lemma {:induction false} SameChain(m: seq<nat>, m2: seq<nat>, bs: seq<Block>, cs: seq<Block>, first: nat, last: nat,
                                     k: nat, j: nat)
    requires Tiled(bs, first, last) && Linked(m, bs, last, -1) && Tiled(cs, first, last) && Linked(m2, cs, last, -1)
    requires j <= k < |bs| && |m2| == |m| && forall x: nat :: x < |m| && x < bs[k].addr / 4 - 1 ==> m2[x] == m[x]
    ensures j < |cs| && cs[j].addr == bs[j].addr
  {
    if j > 0 {
      SameChain(m, m2, bs, cs, first, last, k, j - 1);
      assert HeaderIs(m, bs, j - 1) && HeaderIs(m2, cs, j - 1);
      assert Before(bs, j - 1, j);
      assert j == k || Before(bs, j, k);
      assert Before(bs, 0, j);
    }
  }

  /** When the address of the new header wraps around, no list of blocks fits the headers
      any more, except after a size that wraps to 0 in a heap that is one block and begins
      below address 260: that heap is then one block in use. */
  lemma WrapLoses(m: seq<nat>, bs: seq<Block>, first: nat, last: nat, k: nat, w: nat)
    requires Tiled(bs, first, last) && Merged(bs) && Linked(m, bs, last, -1) && k < |bs|
    requires w % 4 == 0 && w <= 16 && Payload(bs, last, k) >= w
    ensures Holds(m, bs[k].addr) && bs[k].addr >= 4 && (bs[k].addr + w - 4) / 4 + 2 < |m|
    ensures NextOf(bs, k) != 0 ==> Holds(m, NextOf(bs, k))
    ensures Consistent(Unaligned(SplitWords(m, bs[k].addr, bs[k].addr + w - 4, NextOf(bs, k)), bs[k].addr), first, last)
            <==> w == 0 && |bs| == 1 && first < 260
  {
    hide SplitWords, Unaligned, Linked, Tiled, Merged, Payload, Prev, Next, Status, Align, Consistent, PrevOf, NextOf;
    AroundBlock(m, bs, first, last, k);
    var i, oldNext := bs[k].addr, NextOf(bs, k);
    WrappedHeader(m, i, w, oldNext);
    var m2 := Unaligned(SplitWords(m, i, i + w - 4, oldNext), i);
    Ordered(bs, first, last, k);
    if Consistent(m2, first, last) { WrapMeans(m, m2, bs, first, last, k, w); }
    if w == 0 && |bs| == 1 && first < 260 { OneReserved(m2, bs, first, last); }
  }

  lemma WrapMeans(m: seq<nat>, m2: seq<nat>, bs: seq<Block>, first: nat, last: nat, k: nat, w: nat)
    requires Tiled(bs, first, last) && Linked(m, bs, last, -1) && k < |bs| && w % 4 == 0 && w <= 16
    requires |m2| == |m| && Holds(m2, bs[k].addr)
    requires forall x: nat :: x < |m| && x < bs[k].addr / 4 - 1 ==> m2[x] == m[x]
    requires w == 4 ==> Prev(m2, bs[k].addr) == bs[k].addr
    requires w >= 8 ==> bs[k].addr <= Next(m2, bs[k].addr) < bs[k].addr + SIZE_HEADER
    requires w == 0 ==>
              Next(m2, bs[k].addr) == (bs[k].addr - 4) / 0x100 * 0x100 && Prev(m2, bs[k].addr) == NextOf(bs, k)
    requires Consistent(m2, first, last)
    ensures w == 0 && |bs| == 1 && first < 260
  {
    hide Linked, Tiled, Merged, Prev, Next;
    var cs: seq<Block> :| Tiled(cs, first, last) && Merged(cs) && Linked(m2, cs, last, -1);
    SameChain(m, m2, bs, cs, first, last, k, k);
    WrapFits(m2, bs, cs, first, last, k, w);
  }

  lemma AroundBlock(m: seq<nat>, bs: seq<Block>, first: nat, last: nat, k: nat)
    requires Tiled(bs, first, last) && Linked(m, bs, last, -1) && k < |bs|
    ensures Holds(m, bs[k].addr) && bs[k].addr >= 4 && bs[k].addr % 4 == 0 && last <= 4 * |m|
    ensures bs[k].addr + SIZE_HEADER + Payload(bs, last, k) <= last
    ensures NextOf(bs, k) != 0 ==>
              Holds(m, NextOf(bs, k)) && NextOf(bs, k) == bs[k].addr + SIZE_HEADER + Payload(bs, last, k)
  {
    hide Status, Align;
    assert HeaderIs(m, bs, k);
    if k + 1 < |bs| {
      assert HeaderIs(m, bs, k + 1);
      assert Before(bs, k, k + 1);
    }
    if k > 0 { assert Before(bs, 0, k); }
  }

  lemma OneReserved(m2: seq<nat>, bs: seq<Block>, first: nat, last: nat)
    requires Tiled(bs, first, last) && |bs| == 1 && first < 260 && last <= 4 * |m2| && Holds(m2, first)
    requires Next(m2, first) == (first - 4) / 0x100 * 0x100 && Prev(m2, first) == 0
    requires Status(m2, first) == RESERVED && Align(m2, first) == 0
    ensures Consistent(m2, first, last)
  {
    hide Status, Align;
    var cs := [Block(first, false)];
    assert HeaderIs(m2, cs, 0);
    assert Tiled(cs, first, last) && Merged(cs) && Linked(m2, cs, last, -1);
  }

  /** The neighbours of a block, as its header names them. */
  lemma Ordered(bs: seq<Block>, first: nat, last: nat, k: nat)
    requires Tiled(bs, first, last) && k < |bs|
    ensures (NextOf(bs, k) == 0 <==> k + 1 == |bs|)
    ensures (NextOf(bs, k) != 0 ==> NextOf(bs, k) >= bs[k].addr + SIZE_HEADER)
    ensures (PrevOf(bs, k) == 0 <==> k == 0) && PrevOf(bs, k) < bs[k].addr && (k == 0 ==> bs[k].addr == first)
  {
    if k + 1 < |bs| { assert Before(bs, k, k + 1); }
    if k > 0 { assert Before(bs, k - 1, k); }
    if k > 1 { assert Before(bs, 0, k - 1); }
  }

  lemma WrapFits(m2: seq<nat>, bs: seq<Block>, cs: seq<Block>, first: nat, last: nat, k: nat, w: nat)
    requires Tiled(bs, first, last) && k < |bs| && w % 4 == 0 && w <= 16
    requires Tiled(cs, first, last) && Linked(m2, cs, last, -1) && k < |cs| && cs[k].addr == bs[k].addr
    requires Holds(m2, bs[k].addr)
    requires w == 4 ==> Prev(m2, bs[k].addr) == bs[k].addr
    requires w >= 8 ==> bs[k].addr <= Next(m2, bs[k].addr) < bs[k].addr + SIZE_HEADER
    requires w == 0 ==>
              Next(m2, bs[k].addr) == (bs[k].addr - 4) / 0x100 * 0x100 && Prev(m2, bs[k].addr) == NextOf(bs, k)
    ensures w == 0 && |bs| == 1 && first < 260
  {
    hide Status, Align, Tiled, PrevOf, NextOf;
    Ordered(cs, first, last, k);
    Ordered(bs, first, last, k);
    assert HeaderIs(m2, cs, k);
  }

  class Memory {
    const mem: array<nat>
    var first: nat
    var last: nat

    ghost var blocks: seq<Block>

    ghost predicate Valid()
      reads this, mem
    {
      Tiled(blocks, first, last) && Merged(blocks) && Linked(mem[..], blocks, last, -1)
    }

    // ----- Header fields -----

    method SetPrev(a: nat, v: nat)
      requires Holds(mem[..], a)
      modifies mem
      ensures mem[..] == old(mem[..])[a / 4 := v]
    {
      mem[a / 4] := v;
    }

    method SetNext(a: nat, v: nat)
      requires Holds(mem[..], a)
      modifies mem
      ensures mem[..] == old(mem[..])[a / 4 + 1 := v]
    {
      mem[a / 4 + 1] := v;
    }

    method SetStatus(a: nat, v: nat)
      requires Holds(mem[..], a) && v < 0x100
      modifies mem
      ensures mem[..] == old(mem[..])[a / 4 + 2 := StatusWord(old(mem[a / 4 + 2]), v)] && Status(mem[..], a) == v
    {
      mem[a / 4 + 2] := StatusWord(mem[a / 4 + 2], v);
    }

    /** setalign(i, 0), where i is the payload of the block at a. */
    method ClearAlign(a: nat)
      requires Holds(mem[..], a)
      modifies mem
      ensures mem[..] == Unaligned(old(mem[..]), a) && Align(mem[..], a) == 0
    {
      mem[a / 4 + 3] := mem[a / 4 + 3] % 0x100_0000;
    }

    constructor (size: nat, start: nat, end: nat)
      requires 0 < start < 0x1_0000_0000 - 3 && end <= 4 * size && end < 0x1_0000_0000
      requires (start + 3) / 4 * 4 + SIZE_HEADER <= end / 4 * 4
      ensures Valid() && blocks == [Block(first, true)] && first == (start + 3) / 4 * 4 && last == end / 4 * 4
      ensures fresh(mem)
    {
      mem := new nat[size];
      first, last, blocks := 0, 0, [];
      new;
      HeapInit(start, end);
    }

    /** heapInit(start, end): one free block. */
    method HeapInit(start: nat, end: nat)
      requires 0 < start < 0x1_0000_0000 - 3 && end <= 4 * mem.Length && end < 0x1_0000_0000
      requires (start + 3) / 4 * 4 + SIZE_HEADER <= end / 4 * 4
      modifies this, mem
      ensures Valid() && blocks == [Block(first, true)] && first == (start + 3) / 4 * 4 && last == end / 4 * 4
    {
      first := (start + 3) / 4 * 4;
      last := end / 4 * 4;
      SetPrev(first, 0);
      SetNext(first, 0);
      SetStatus(first, FREE);
      blocks := [Block(first, true)];
    }

    lemma HeaderOf(k: nat)
      requires Valid() && k < |blocks|
      ensures HeaderIs(mem[..], blocks, k)
    {
    }

    /** The payload size currentNodeAlloc computes. */
    method FreeSize(i: nat, ghost k: nat) returns (size: nat)
      requires Valid() && k < |blocks| && i == blocks[k].addr
      ensures size == Payload(blocks, last, k)
    {
      HeaderOf(k);
      hide Linked, Status, Align, Merged;
      if k + 1 < |blocks| { assert Before(blocks, k, k + 1); }
      if mem[i / 4 + 1] == 0 {
        size := last - i - SIZE_HEADER;
      } else {
        size := mem[i / 4 + 1] - i - SIZE_HEADER;
      }
    }

    /** Fix up the original block, set up the new one, and point its right neighbour to it. */
    method WriteSplit(i: nat, at: nat, oldNext: nat)
      requires Holds(mem[..], i) && at % 4 == 0 && at / 4 + 2 < mem.Length && (oldNext != 0 ==> Holds(mem[..], oldNext))
      modifies mem
      ensures mem[..] == SplitWords(old(mem[..]), i, at, oldNext)
    {
      hide Wrote;
      ghost var m := mem[..];
      var w, x, y := i / 4, at / 4, oldNext / 4;
      mem[w + 1] := at;
      assert mem[..] == m[w + 1 := at];
      mem[w + 2] := StatusWord(mem[w + 2], RESERVED);
      mem[x + 1] := oldNext;
      mem[x] := i;
      mem[x + 2] := StatusWord(mem[x + 2], FREE);
      if oldNext != 0 { mem[y] := at; }       // next(i) of the new block
    }

    /** The header writes that split block k. */
    method Split(i: nat, n: nat, ghost k: nat)
      requires Valid() && k < |blocks| && i == blocks[k].addr && Splits(blocks, last, k, n) && n % 4 == 0
      modifies mem
      ensures Linked(mem[..], Taken(blocks, last, k, n), last, k)
    {
      ghost var m := mem[..];
      AroundBlock(m, blocks, first, last, k);
      HeaderOf(k);
      hide Tiled, Merged, Taken, Linked, SplitWords, Wrote, Status, Align;
      var oldNext := mem[i / 4 + 1];
      var at := i + SIZE_HEADER + n;
      WriteSplit(i, at, oldNext);
      SplitWroteAt(m, i, at, oldNext);
      SplitWrote(m, mem[..], blocks, first, last, k, n);
    }

    lemma Bounds(k: nat)
      requires Valid() && k < |blocks|
      ensures blocks[k].addr + SIZE_HEADER <= End(blocks, last, k) <= last && last <= 4 * mem.Length
      ensures blocks[k].addr % 4 == 0 && End(blocks, last, k) % 4 == 0 && blocks[k].addr > 0
    {
      if k + 1 < |blocks| { assert Before(blocks, k, k + 1); }
      if k > 0 { assert Before(blocks, 0, k); }
    }

    /** The same writes when the address of the new block wraps around: it is w - 4 bytes
        behind the header of block k, for w the wrapped size that the test compared with. */
    method SplitWrapped(i: nat, n: nat, w: nat, ghost k: nat)
      requires Valid() && k < |blocks| && i == blocks[k].addr && n % 4 == 0 && n < 0x1_0000_0000
      requires w == n + SIZE_HEADER + MIN_FREE_BYTES - 0x1_0000_0000 && Payload(blocks, last, k) >= w
      modifies mem
      ensures Wrapped(old(mem[..]), mem[..], blocks, last, k, n)
    {
      hide Valid, Wrapped, Payload, NextOf, Holds, SplitWords;
      ghost var m := mem[..];
      RoomFor(k, w);
      WriteSplit(i, i + w - 4, mem[i / 4 + 1]);
      WrappedIs(m, mem[..], k, n);
    }

    lemma RoomFor(k: nat, w: nat)
      requires Valid() && k < |blocks| && w % 4 == 0 && Payload(blocks, last, k) >= w
      ensures var i := blocks[k].addr;
              Holds(mem[..], i) && i >= 4 && i % 4 == 0 && i / 4 + 1 < mem.Length && (i + w - 4) / 4 + 2 < mem.Length
              && mem[i / 4 + 1] == NextOf(blocks, k) && (NextOf(blocks, k) != 0 ==> Holds(mem[..], NextOf(blocks, k)))
    {
      AroundBlock(mem[..], blocks, first, last, k);
      HeaderOf(k);
      hide Tiled, Merged, Linked, Status, Align, Payload;
    }

    lemma WrappedIs(m: seq<nat>, m2: seq<nat>, k: nat, n: nat)
      requires k < |blocks| && n + SIZE_HEADER + MIN_FREE_BYTES >= 0x1_0000_0000 && blocks[k].addr >= 4
      requires Holds(m, blocks[k].addr) && (NextOf(blocks, k) != 0 ==> Holds(m, NextOf(blocks, k)))
      requires var at := blocks[k].addr + SIZE_HEADER + n - 0x1_0000_0000;
               at >= 0 && at / 4 + 2 < |m| && m2 == SplitWords(m, blocks[k].addr, at, NextOf(blocks, k))
      ensures Wrapped(m, m2, blocks, last, k, n)
    {
      hide SplitWords, NextOf, Holds;
    }

    /** currentNodeAlloc: split block k, use all of it, or fail. */
    method CurrentNodeAlloc(i: nat, n: nat, ghost k: nat) returns (ok: bool)
      requires Valid() && k < |blocks| && i == blocks[k].addr && blocks[k].free && n % 4 == 0 && n < 0x1_0000_0000
      modifies mem
      ensures ok <==> Asks(Payload(blocks, last, k), n)
      ensures ok ==> if n + SIZE_HEADER + MIN_FREE_BYTES < 0x1_0000_0000
                     then Linked(mem[..], Taken(blocks, last, k, n), last, k)
                     else Wrapped(old(mem[..]), mem[..], blocks, last, k, n)
      ensures !ok ==> mem[..] == old(mem[..])
    {
      hide Merged, Tiled, Linked, Wrapped;
      var freeSize := FreeSize(i, k);
      var needed := Add32(n, SIZE_HEADER + MIN_FREE_BYTES);
      if freeSize >= needed {
        if n + SIZE_HEADER + MIN_FREE_BYTES < 0x1_0000_0000 { Split(i, n, k); } else { SplitWrapped(i, n, needed, k); }
        ok := true;
      } else if freeSize >= n {
        Reserve(i, n, k);
        ok := true;
      } else {
        ok := false;
      }
    }

    /** Use all of block k. */
    method Reserve(i: nat, n: nat, ghost k: nat)
      requires Valid() && k < |blocks| && i == blocks[k].addr && !Splits(blocks, last, k, n)
      modifies mem
      ensures Linked(mem[..], Taken(blocks, last, k, n), last, k)
    {
      ghost var m := mem[..];
      HeaderOf(k);
      TakenAt(blocks, last, k, n);
      hide Merged, Taken, Linked;
      SetStatus(i, RESERVED);
      ghost var cs := Taken(blocks, last, k, n);
      assert Linked(mem[..], cs, last, k) by { StillLinked(m, mem[..], k, cs); }
    }

    lemma StillLinked(m: seq<nat>, m2: seq<nat>, k: nat, cs: seq<Block>)
      requires Tiled(blocks, first, last) && Linked(m, blocks, last, -1) && k < |blocks|
      requires cs == blocks[k := Block(blocks[k].addr, false)]
      requires HeaderIs(m, blocks, k) && |m2| == |m| && m2 == m[blocks[k].addr / 4 + 2 := m2[blocks[k].addr / 4 + 2]]
      requires Status(m2, blocks[k].addr) == RESERVED
      ensures Linked(m2, cs, last, k)
    {
      forall j: nat | j < |cs|
        ensures HeaderIs(m2, cs, j) && (j != k && !cs[j].free ==> Holds(m2, cs[j].addr) && Align(m2, cs[j].addr) == 0)
      {
        assert HeaderIs(m, blocks, j);
        if j != k { Apart(blocks, first, last, j, k); }
      }
    }

    // ----- Allocating -----

    /** Block k is free and passes the test for the rounded size n. */
    ghost predicate Passes(k: nat, n: nat)
      requires k < |blocks|
      reads `blocks, `last
    {
      blocks[k].free && Asks(Payload(blocks, last, k), n)
    }

    /** Block k is the first that passes. */
    ghost predicate FirstFit(k: nat, n: nat)
      reads `blocks, `last
    {
      k < |blocks| && Passes(k, n) && forall j: nat :: j < k ==> !Passes(j, n)
    }

    /** loc_alloc(nbytes): the payload of the first block that passes, or 0 if none does. */
    method LocAlloc(nbytes: nat) returns (i: nat, ghost k: nat)
      requires Valid() && nbytes < 0x1_0000_0000
      modifies mem
      ensures i == 0 ==> mem[..] == old(mem[..]) && forall j: nat :: j < |blocks| ==> !Passes(j, Rounded(nbytes))
      ensures i != 0 ==> FirstFit(k, Rounded(nbytes)) && i == blocks[k].addr + SIZE_HEADER
      ensures i != 0 ==> if Rounded(nbytes) + SIZE_HEADER + MIN_FREE_BYTES < 0x1_0000_0000
                         then Linked(mem[..], Taken(blocks, last, k, Rounded(nbytes)), last, k)
                         else Wrapped(old(mem[..]), mem[..], blocks, last, k, Rounded(nbytes))
    {
      RoundedIs(nbytes);
      var n := Rounded(nbytes);
      hide Merged, Linked, HeaderIs, Rounded, Asks, Wrapped;
      i, k := first, 0;
      while true
        invariant Valid() && k < |blocks| && i == blocks[k].addr && mem[..] == old(mem[..])
        invariant forall j: nat :: j < k ==> !Passes(j, n)
        decreases |blocks| - k
      {
        HeaderOf(k);
        Bounds(k);
        if IsFree(i, k) {
          var ok := CurrentNodeAlloc(i, n, k);
          if ok { return i + SIZE_HEADER, k; }
        }
        var next := NextBlock(i, k);
        if next == 0 { break; }
        i, k := next, k + 1;
      }
      i := 0;
    }

    lemma AllBlocks()
      requires Valid()
      ensures forall j: nat :: j < |blocks| ==> Payload(blocks, last, j) <= MAX_SIZE && Holds(mem[..], blocks[j].addr)
    {
      forall j: nat | j < |blocks|
        ensures Payload(blocks, last, j) <= MAX_SIZE && Holds(mem[..], blocks[j].addr)
      {
        PayloadAligned(j);
        HeaderOf(j);
      }
    }

    /** For sizes that do not wrap the test is whether the block is free and holds the bytes. */
    lemma PassesIs(nbytes: nat)
      requires Valid() && nbytes <= MAX_SIZE
      ensures forall j: nat :: j < |blocks| ==> (Passes(j, Rounded(nbytes)) <==> Fits(blocks, last, j, nbytes))
      ensures forall j: nat :: j < |blocks| && Passes(j, Rounded(nbytes)) ==> Fits(blocks, last, j, Rounded(nbytes))
      ensures forall j: nat :: j < |blocks| ==>
                (Fits(blocks, last, j, nbytes) <==>
                    blocks[j].free && blocks[j].addr + 16 + nbytes <= End(blocks, last, j))
    {
      hide Rounded;
      RoundedIs(nbytes);
      SizesThatWrap(nbytes);
      forall j: nat | j < |blocks|
        ensures Passes(j, Rounded(nbytes)) <==> Fits(blocks, last, j, nbytes)
        ensures Passes(j, Rounded(nbytes)) ==> Fits(blocks, last, j, Rounded(nbytes))
      {
        PayloadAligned(j);
      }
    }

    lemma PayloadAligned(j: nat)
      requires Valid() && j < |blocks|
      ensures Payload(blocks, last, j) % 4 == 0 && 0 <= Payload(blocks, last, j) <= MAX_SIZE
    {
      hide Linked, Merged;
      Bounds(j);
    }

    predicate IsFree(i: nat, ghost k: nat)
      requires Valid() && k < |blocks| && i == blocks[k].addr
      reads this, mem
      ensures IsFree(i, k) == blocks[k].free
    {
      HeaderOf(k);
      Status(mem[..], i) == FREE
    }

    method NextBlock(i: nat, ghost k: nat) returns (next: nat)
      requires Valid() && k < |blocks| && i == blocks[k].addr
      ensures if k + 1 < |blocks| then next == blocks[k + 1].addr > 0 else next == 0
    {
      HeaderOf(k);
      if k + 1 < |blocks| { Bounds(k + 1); }
      next := mem[i / 4 + 1];
    }

    /** Drv_alloc(nbytes): the payload of the first block that passes the test, or 0 if
        none does. PassesIs and PassesTooMany say which those are. The block is taken for the
        rounded size, which is 0 for the last three sizes, but for the twenty before them,
        whose sum in the test wraps around: after those no list of blocks fits the headers,
        unless the heap was one block that begins below address 260 and the sum is 0. */
    method Alloc(nbytes: nat) returns (i: nat, ghost k: nat)
      requires Valid() && nbytes < 0x1_0000_0000
      modifies mem, `blocks
      ensures i == 0 ==>
                Valid() && blocks == old(blocks) && forall j: nat :: j < |blocks| ==> !Passes(j, Rounded(nbytes))
      ensures i != 0 ==> old(FirstFit(k, Rounded(nbytes))) && i == old(blocks[k].addr) + 16
      ensures i != 0 && !WrapsInTest(nbytes) ==> Valid() && blocks == Taken(old(blocks), last, k, Rounded(nbytes))
      ensures i != 0 && WrapsInTest(nbytes) ==>
                (Consistent(mem[..], first, last) <==>
                   Rounded(nbytes) == 0x1_0000_0000 - 20 && |old(blocks)| == 1 && first < 260)
    {
      hide Rounded, Linked, Taken, Asks, Tiled, Merged, Fits, Payload, HeaderIs, Wrapped, Consistent;
      RoundedIs(nbytes);
      AllBlocks();
      TakenAll(Rounded(nbytes));
      PassesFits(Rounded(nbytes));
      ghost var m := mem[..];
      i, k := LocAlloc(nbytes);
      if i != 0 {
        if WrapsInTest(nbytes) {
          ghost var m1 := mem[..];
          ClearAlign(i - SIZE_HEADER);
          TestWraps(m, m1, mem[..], k, Rounded(nbytes));
        } else {
          blocks := Taken(blocks, last, k, Rounded(nbytes));
          SetAlign(i, k);
        }
      }
    }

    lemma PassesFits(n: nat)
      ensures n + SIZE_HEADER + MIN_FREE_BYTES < 0x1_0000_0000 ==>
                forall j: nat :: j < |blocks| && Passes(j, n) ==> Fits(blocks, last, j, n)
    {
    }

    lemma TestWraps(m: seq<nat>, m1: seq<nat>, m2: seq<nat>, k: nat, n: nat)
      requires Tiled(blocks, first, last) && Merged(blocks) && Linked(m, blocks, last, -1) && k < |blocks|
      requires Wrapped(m, m1, blocks, last, k, n) && Passes(k, n) && n % 4 == 0 && n < 0x1_0000_0000
      requires Holds(m1, blocks[k].addr) && m2 == Unaligned(m1, blocks[k].addr)
      ensures Consistent(m2, first, last) <==> n == 0x1_0000_0000 - 20 && |blocks| == 1 && first < 260
    {
      hide Linked, Tiled, Merged, SplitWords, Unaligned, Consistent;
      AroundBlock(m, blocks, first, last, k);
      WrapLoses(m, blocks, first, last, k, n + SIZE_HEADER + MIN_FREE_BYTES - 0x1_0000_0000);
    }

    lemma TakenAll(n: nat)
      requires Valid() && n % 4 == 0
      ensures forall k: nat :: k < |blocks| && Fits(blocks, last, k, n) ==>
                var cs := Taken(blocks, last, k, n);
                k < |cs| && cs[k].addr == blocks[k].addr && Tiled(cs, first, last) && Merged(cs)
    {
      forall k: nat | k < |blocks| && Fits(blocks, last, k, n)
        ensures var cs := Taken(blocks, last, k, n);
                k < |cs| && cs[k].addr == blocks[k].addr && Tiled(cs, first, last) && Merged(cs)
      {
        TakenKeeps(blocks, first, last, k, n);
        TakenAt(blocks, last, k, n);
      }
    }

    /** Sizes that wrap: every free block of 16 bytes passes, and none can hold them. */
    lemma PassesTooMany(nbytes: nat)
      requires Valid() && MAX_SIZE < nbytes < 0x1_0000_0000
      ensures forall j: nat :: j < |blocks| ==> Payload(blocks, last, j) < nbytes
      ensures forall j: nat :: j < |blocks| && blocks[j].free && Payload(blocks, last, j) >= SIZE_HEADER ==>
                Passes(j, Rounded(nbytes))
    {
      SizesThatWrap(nbytes);
      AllBlocks();
      hide Rounded, Asks, Linked, Tiled, Merged;
    }

    /** 2^32 - 1 bytes from a heap of a few words. */
    method TooSmall() returns (i: nat)
      ensures i != 0
    {
      var m := new Memory(32, 4, 128);
      hide Rounded;
      m.PassesTooMany(0xffff_ffff);
      assert m.Passes(0, Rounded(0xffff_ffff));
      ghost var k;
      i, k := m.Alloc(0xffff_ffff);
      assert i == 0 ==> !m.Passes(0, Rounded(0xffff_ffff));
    }

    /** 2^32 - 16 bytes from that heap: the header of its block then names itself as the block before it. */
    method HeadersLost() returns (m: Memory, i: nat)
      ensures i != 0 && !Consistent(m.mem[..], m.first, m.last)
    {
      m := new Memory(32, 4, 128);
      hide Rounded, Consistent, Linked;
      RoundedIs(0xffff_fff0);
      m.PassesTooMany(0xffff_fff0);
      assert m.Passes(0, Rounded(0xffff_fff0));
      ghost var k;
      i, k := m.Alloc(0xffff_fff0);
      assert i == 0 ==> !m.Passes(0, Rounded(0xffff_fff0));
    }

    /** setalign(i, 0). */
    method SetAlign(i: nat, ghost k: nat)
      requires Tiled(blocks, first, last) && Merged(blocks) && Linked(mem[..], blocks, last, k)
      requires k < |blocks| && i == blocks[k].addr + SIZE_HEADER
      modifies mem
      ensures Valid()
    {
      ghost var m := mem[..];
      assert HeaderIs(m, blocks, k);
      ClearAlign(i - SIZE_HEADER);
      forall j: nat | j < |blocks|
        ensures HeaderIs(mem[..], blocks, j)
                && (!blocks[j].free ==> Holds(mem[..], blocks[j].addr) && Align(mem[..], blocks[j].addr) == 0)
      {
        assert HeaderIs(m, blocks, j);
        if j != k { Apart(blocks, first, last, j, k); }
      }
    }

    // ----- Freeing -----

    /** next(l) = r; status(l) = FREE; if (r != 0) prev(r) = l. */
    method Unlink(l: nat, r: nat)
      requires Holds(mem[..], l) && (r != 0 ==> Holds(mem[..], r) && r != l)
      requires r != 0 ==> l / 4 + 4 <= r / 4
      modifies mem
      ensures Unlinked(old(mem[..]), mem[..], l, r)
    {
      SetNext(l, r);
      SetStatus(l, FREE);
      if r != 0 { SetPrev(r, l); }
    }

    /** The address where the free block that block k becomes part of begins, and of the block after it. */
    ghost function Low(k: nat): nat
      requires k < |blocks|
      reads `blocks
    {
      blocks[Start(blocks, k)].addr
    }

    ghost function High(k: nat): nat
      requires k < |blocks|
      reads `blocks
    {
      var e := Start(blocks, k) + Cost(blocks, k) + 1;
      if e < |blocks| then blocks[e].addr else 0
    }

    /** What loc_free finds in the headers of block k and its neighbours. */
    lemma Around(k: nat)
      requires Valid() && k < |blocks|
      ensures var i, l, r := blocks[k].addr, PrevOf(blocks, k), NextOf(blocks, k);
              && i > 0 && Holds(mem[..], i) && Prev(mem[..], i) == l && Next(mem[..], i) == r
              && (l != 0 ==> Holds(mem[..], l)) && (r != 0 ==> Holds(mem[..], r))
              && (LeftFree(blocks, k) <==> l != 0 && Status(mem[..], l) == FREE)
              && (RightFree(blocks, k) <==> r != 0 && Status(mem[..], r) == FREE)
              && Low(k) == (if LeftFree(blocks, k) then l else i)
              && High(k) == (if RightFree(blocks, k) then Next(mem[..], r) else r)
    {
      Neighbours(k);
    }

    lemma LowHigh(k: nat)
      requires Valid() && k < |blocks|
      ensures Holds(mem[..], Low(k)) && (High(k) != 0 ==> Holds(mem[..], High(k)) && Low(k) / 4 + 4 <= High(k) / 4)
    {
      var l, e := Start(blocks, k), Start(blocks, k) + Cost(blocks, k) + 1;
      HeaderOf(l);
      if e < |blocks| {
        HeaderOf(e);
        Apart(blocks, first, last, l, e);
        assert Before(blocks, l, e);
      }
    }

    /** loc_free(address): free block k, merged with its free neighbours. */
    method LocFree(address: nat, ghost k: nat)
      requires Valid() && k < |blocks| && address == blocks[k].addr + SIZE_HEADER
      modifies mem, `blocks
      ensures Valid() && blocks == Freed(old(blocks), k)
    {
      hide Tiled, Merged, Linked, Freed, Start, Cost, LeftFree, RightFree, Low, High;
      Around(k);
      LowHigh(k);
      var block: nat := address - SIZE_HEADER;
      var lblock, rblock := mem[block / 4], mem[block / 4 + 1];
      if lblock != 0 && rblock != 0 && Status(mem[..], lblock) == FREE && Status(mem[..], rblock) == FREE {
        Unlink(lblock, mem[rblock / 4 + 1]);
      } else if lblock != 0 && Status(mem[..], lblock) == FREE {
        Unlink(lblock, mem[block / 4 + 1]);
      } else if rblock != 0 && Status(mem[..], rblock) == FREE {
        Unlink(block, mem[rblock / 4 + 1]);
      } else {
        SetStatus(block, FREE);
        assert High(k) != 0 ==> mem[High(k) / 4] == old(mem[High(k) / 4]) == block by { BackLink(old(mem[..]), k); }
      }
      assert Unlinked(old(mem[..]), mem[..], Low(k), High(k));
      Commit(old(mem[..]), k);
    }

    lemma BackLink(m: seq<nat>, k: nat)
      requires Tiled(blocks, first, last) && Linked(m, blocks, last, -1) && k < |blocks| && !RightFree(blocks, k)
      requires Low(k) == blocks[k].addr
      ensures High(k) != 0 ==> Holds(m, High(k)) && Prev(m, High(k)) == blocks[k].addr
    {
      if k + 1 < |blocks| { assert HeaderIs(m, blocks, k + 1); }
    }

    ghost method Commit(m: seq<nat>, k: nat)
      requires Tiled(blocks, first, last) && Merged(blocks) && Linked(m, blocks, last, -1) && k < |blocks|
      requires Unlinked(m, mem[..], Low(k), High(k))
      modifies `blocks
      ensures Valid() && blocks == Freed(old(blocks), k)
    {
      hide Tiled, Merged, Linked, Freed, Start, Cost;
      FreeWrote(m, mem[..], blocks, first, last, k);
      FreedKeeps(blocks, first, last, k);
      blocks := Freed(blocks, k);
    }

    /** The header of block k, and those on either side. */
    lemma Neighbours(k: nat)
      requires Valid() && k < |blocks|
      ensures HeaderOf2(k) && (k > 0 ==> HeaderOf2(k - 1)) && (k + 1 < |blocks| ==> HeaderOf2(k + 1))
    {
      HeaderOf(k);
      Bounds(k);
      if k > 0 {
        HeaderOf(k - 1);
        Bounds(k - 1);
      }
      if k + 1 < |blocks| {
        HeaderOf(k + 1);
        Bounds(k + 1);
      }
    }

    ghost predicate HeaderOf2(k: nat)
      requires k < |blocks|
      reads `blocks, mem
    {
      var a := blocks[k].addr;
      && a > 0 && Holds(mem[..], a) && Prev(mem[..], a) == PrevOf(blocks, k) && Next(mem[..], a) == NextOf(blocks, k)
      && Status(mem[..], a) == (if blocks[k].free then FREE else RESERVED)
    }

    /** Drv_deAlloc(address), for the address of a block in use. */
    method DeAlloc(address: nat, ghost k: nat)
      requires Valid() && k < |blocks| && !blocks[k].free && address == blocks[k].addr + SIZE_HEADER
      modifies mem, `blocks
      ensures Valid() && blocks == Freed(old(blocks), k)
    {
      HeaderOf(k);
      var a := address - Align(mem[..], address - SIZE_HEADER);    // getalign(address)
      LocFree(a, k);
    }

    // ----- Using a block -----

    /** A store by the owner of a block, anywhere in its payload. */
    method Write(address: nat, v: nat, ghost k: nat)
      requires Valid() && k < |blocks| && address % 4 == 0
      requires blocks[k].addr + SIZE_HEADER <= address && address + 4 <= End(blocks, last, k)
      modifies mem
      ensures Valid() && mem[..] == old(mem[..])[address / 4 := v]
    {
      ghost var m := mem[..];
      Bounds(k);
      mem[address / 4] := v;
      forall j: nat | j < |blocks|
        ensures HeaderIs(mem[..], blocks, j)
                && (!blocks[j].free ==> Holds(mem[..], blocks[j].addr) && Align(mem[..], blocks[j].addr) == 0)
      {
        assert HeaderIs(m, blocks, j);
        if j < k { assert Before(blocks, j, k); }
        if j > k { Disjoint(blocks, first, last, j, k); }
      }
    }
  }
}
