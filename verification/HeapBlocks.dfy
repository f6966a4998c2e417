/** The blocks of the heap as a list, and what allocating and freeing do to it. */
module HeapBlocks {
  const SIZE_HEADER := 16
  const MIN_FREE_BYTES := 4

  datatype Block = Block(addr: nat, free: bool)

  /** Where block k ends: the next header, or the end of the heap. */
  function End(bs: seq<Block>, last: nat, k: nat): nat
    requires k < |bs|
  {
    if k + 1 < |bs| then bs[k + 1].addr else last
  }

  function Payload(bs: seq<Block>, last: nat, k: nat): int
    requires k < |bs|
  {
    End(bs, last, k) - bs[k].addr - SIZE_HEADER
  }

  ghost predicate Before(bs: seq<Block>, j: nat, k: nat)
    requires j < |bs| && k < |bs|
  {
    bs[j].addr + SIZE_HEADER <= bs[k].addr
  }

  /** The headers are 4-aligned and ascending, with room for each, and the blocks
      cover [first, last). */
  ghost predicate Tiled(bs: seq<Block>, first: nat, last: nat) {
    && |bs| > 0 && bs[0].addr == first > 0 && last < 0x1_0000_0000 && last % 4 == 0
    && (forall k :: 0 <= k < |bs| ==> bs[k].addr % 4 == 0 && bs[k].addr + SIZE_HEADER <= last)
    && (forall j: nat, k: nat :: j < k < |bs| ==> Before(bs, j, k))
  }

  /** Neighbours are never both free. */
  ghost predicate Merged(bs: seq<Block>) {
    forall k: nat {:trigger bs[k]} :: k + 1 < |bs| ==> !(bs[k].free && bs[k + 1].free)
  }

  /** Block k is free and its payload holds n bytes. */
  predicate Fits(bs: seq<Block>, last: nat, k: nat, n: nat)
    requires k < |bs|
  {
    bs[k].free && Payload(bs, last, k) >= n
  }

  /** Block k reserved for n bytes, with the rest of it split off if that is large enough. */
  function Taken(bs: seq<Block>, last: nat, k: nat, n: nat): seq<Block>
    requires k < |bs|
  {
    bs[..k] + [Block(bs[k].addr, false)]
    + (if Splits(bs, last, k, n) then [Block(bs[k].addr + SIZE_HEADER + n, true)] else [])
    + bs[k + 1..]
  }

  predicate Splits(bs: seq<Block>, last: nat, k: nat, n: nat)
    requires k < |bs|
  {
    Payload(bs, last, k) >= n + SIZE_HEADER + MIN_FREE_BYTES
  }

  /** The old index of a block of Taken; the split-off one comes from block k. */
  function Origin(split: bool, k: nat, i: nat): nat {
    if split && i > k then i - 1 else i
  }

  lemma TakenAt(bs: seq<Block>, last: nat, k: nat, n: nat)
    requires k < |bs|
    ensures var cs, split := Taken(bs, last, k, n), Splits(bs, last, k, n);
            && |cs| == |bs| + (if split then 1 else 0)
            && (forall j: nat {:trigger cs[j]} :: j < |cs| ==>
                  cs[j] == if j == k then Block(bs[k].addr, false)
                           else if split && j == k + 1 then Block(bs[k].addr + SIZE_HEADER + n, true)
                           else bs[Origin(split, k, j)])
            && (forall j: nat {:trigger Payload(cs, last, j)} :: j < |cs| && j != k && !(split && j == k + 1) ==>
                  Payload(cs, last, j) == Payload(bs, last, Origin(split, k, j)))
            && Payload(cs, last, k) == if split then n else Payload(bs, last, k)
  {
  }

  predicate LeftFree(bs: seq<Block>, k: nat) { 0 < k <= |bs| && bs[k - 1].free }
  predicate RightFree(bs: seq<Block>, k: nat) { k + 1 < |bs| && bs[k + 1].free }

  /** Where the free block that block k becomes part of begins, and how many blocks that costs. */
  function Start(bs: seq<Block>, k: nat): (l: nat)
    ensures l <= k
  {
    if LeftFree(bs, k) then k - 1 else k
  }

  function Cost(bs: seq<Block>, k: nat): nat {
    (if LeftFree(bs, k) then 1 else 0) + (if RightFree(bs, k) then 1 else 0)
  }

  /** Block k free and one with its free neighbours. */
  function Freed(bs: seq<Block>, k: nat): seq<Block>
    requires k < |bs|
  {
    bs[..Start(bs, k)] + [Block(bs[Start(bs, k)].addr, true)] + bs[Start(bs, k) + Cost(bs, k) + 1..]
  }

  lemma FreedAt(bs: seq<Block>, last: nat, k: nat)
    requires k < |bs|
    ensures var l, d := Start(bs, k), Cost(bs, k);
            && |Freed(bs, k)| == |bs| - d && l < |bs| - d
            && (forall j: nat {:trigger Freed(bs, k)[j]} :: j < |bs| - d ==>
                  Freed(bs, k)[j] == if j < l then bs[j] else if j == l then Block(bs[l].addr, true) else bs[j + d])
            && (forall j: nat {:trigger Payload(Freed(bs, k), last, j)} :: j < |bs| - d && j != l ==>
                  Payload(Freed(bs, k), last, j) == Payload(bs, last, if j < l then j else j + d))
  {
  }

  // ----- What they keep -----

  lemma TakenKeeps(bs: seq<Block>, first: nat, last: nat, k: nat, n: nat)
    requires Tiled(bs, first, last) && Merged(bs) && k < |bs| && Fits(bs, last, k, n) && n % 4 == 0
    ensures Tiled(Taken(bs, last, k, n), first, last) && Merged(Taken(bs, last, k, n))
    ensures Taken(bs, last, k, n)[k] == Block(bs[k].addr, false)
    ensures n <= Payload(Taken(bs, last, k, n), last, k) < n + 20
  {
    TakenTiled(bs, first, last, k, n);
    TakenMerged(bs, last, k, n);
    TakenAt(bs, last, k, n);
    hide Taken, Tiled, Merged;
  }

  lemma TakenMerged(bs: seq<Block>, last: nat, k: nat, n: nat)
    requires Merged(bs) && k < |bs| && bs[k].free
    ensures Merged(Taken(bs, last, k, n))
  {
    TakenAt(bs, last, k, n);
    hide Taken;
    var cs := Taken(bs, last, k, n);
    forall i: nat | i + 1 < |cs|
      ensures !(cs[i].free && cs[i + 1].free)
    {
      assert k + 1 < |bs| ==> !bs[k + 1].free;
    }
  }

  lemma TakenTiled(bs: seq<Block>, first: nat, last: nat, k: nat, n: nat)
    requires Tiled(bs, first, last) && k < |bs| && Fits(bs, last, k, n) && n % 4 == 0
    ensures Tiled(Taken(bs, last, k, n), first, last)
  {
    TakenAt(bs, last, k, n);
    hide Taken;
    var cs, split := Taken(bs, last, k, n), Splits(bs, last, k, n);
    forall i: nat, j: nat | i < j < |cs|
      ensures Before(cs, i, j)
    {
      var i2, j2 := Origin(split, k, i), Origin(split, k, j);
      if i2 < j2 { assert Before(bs, i2, j2); }
      if split && j == k + 1 && i < k { assert Before(bs, i, k); }
      if split && i == k + 1 { assert Before(bs, k, j2) && (j2 == k + 1 || Before(bs, k + 1, j2)); }
    }
  }

  lemma FreedKeeps(bs: seq<Block>, first: nat, last: nat, k: nat)
    requires Tiled(bs, first, last) && Merged(bs) && k < |bs|
    ensures Tiled(Freed(bs, k), first, last) && Merged(Freed(bs, k))
  {
    hide Freed, Payload;
    FreedAt(bs, last, k);
    var l, d, cs := Start(bs, k), Cost(bs, k), Freed(bs, k);
    forall i: nat, j: nat | i < j < |cs|
      ensures Before(cs, i, j)
    {
      assert Before(bs, if i <= l then i else i + d, if j <= l then j else j + d);
      assert cs[i].addr == bs[if i <= l then i else i + d].addr;
    }
    forall i: nat | i + 1 < |cs|
      ensures !(cs[i].free && cs[i + 1].free)
    {
      if i + 1 < l { assert cs[i] == bs[i]; } else if i > l { assert cs[i] == bs[i + d]; }
    }
  }

  // ----- What they mean -----

  /** A block and the bytes of it that belong to its owner. */
  ghost predicate Live(bs: seq<Block>, last: nat, addr: nat, size: int) {
    exists k: nat :: k < |bs| && !bs[k].free && bs[k].addr == addr && Payload(bs, last, k) == size
  }

  /** Payloads of different blocks have no byte in common, nor with any header. */
  lemma Disjoint(bs: seq<Block>, first: nat, last: nat, j: nat, k: nat)
    requires Tiled(bs, first, last) && j < |bs| && k < |bs| && j != k
    ensures if j < k then End(bs, last, j) <= bs[k].addr else End(bs, last, k) <= bs[j].addr
  {
    if j < k {
      assert j + 1 == k || Before(bs, j + 1, k);
    } else {
      assert k + 1 == j || Before(bs, k + 1, j);
    }
  }

  /** Freeing what was just allocated gives the blocks as they were before. */
  lemma AllocFree(bs: seq<Block>, first: nat, last: nat, k: nat, n: nat)
    requires Tiled(bs, first, last) && Merged(bs) && k < |bs| && Fits(bs, last, k, n)
    ensures k < |Taken(bs, last, k, n)| && Freed(Taken(bs, last, k, n), k) == bs
  {
    var cs := Taken(bs, last, k, n);
    if k > 0 { assert !bs[k - 1].free; }
    if k + 1 < |bs| { assert !bs[k + 1].free; }
    assert cs[..k] == bs[..k];
    assert bs == bs[..k] + [bs[k]] + bs[k + 1..];
  }

  /** When every block is free there is only one, the whole heap. */
  lemma AllFree(bs: seq<Block>, first: nat, last: nat)
    requires Tiled(bs, first, last) && Merged(bs) && forall k :: 0 <= k < |bs| ==> bs[k].free
    ensures bs == [Block(first, true)]
  {
    if |bs| > 1 { assert false; }
  }

  /** Allocating changes no other block in use, and adds this one. */
  lemma TakenLive(bs: seq<Block>, first: nat, last: nat, k: nat, n: nat, addr: nat, size: int)
    requires Tiled(bs, first, last) && k < |bs| && Fits(bs, last, k, n)
    ensures addr != bs[k].addr ==> (Live(Taken(bs, last, k, n), last, addr, size) <==> Live(bs, last, addr, size))
  {
    TakenAt(bs, last, k, n);
    hide Taken, Payload;
    var cs, split := Taken(bs, last, k, n), Splits(bs, last, k, n);
    if addr != bs[k].addr {
      if Live(bs, last, addr, size) {
        var i: nat :| i < |bs| && !bs[i].free && bs[i].addr == addr && Payload(bs, last, i) == size;
        var j := if split && i > k then i + 1 else i;
        assert cs[j] == bs[i] && Payload(cs, last, j) == size;
      }
      if Live(cs, last, addr, size) {
        var j: nat :| j < |cs| && !cs[j].free && cs[j].addr == addr && Payload(cs, last, j) == size;
        var i := Origin(split, k, j);
        assert cs[j] == bs[i] && Payload(bs, last, i) == size;
      }
    }
  }

  /** Freeing a block changes no other block in use, and removes this one. */
  lemma FreedLive(bs: seq<Block>, first: nat, last: nat, k: nat, addr: nat, size: int)
    requires Tiled(bs, first, last) && k < |bs|
    ensures Live(Freed(bs, k), last, addr, size) <==> addr != bs[k].addr && Live(bs, last, addr, size)
  {
    hide Freed, Payload;
    FreedAt(bs, last, k);
    var l, d, cs := Start(bs, k), Cost(bs, k), Freed(bs, k);
    if Live(cs, last, addr, size) {
      var j: nat :| j < |cs| && !cs[j].free && cs[j].addr == addr && Payload(cs, last, j) == size;
      var i := if j < l then j else j + d;
      assert cs[j] == bs[i] && Payload(bs, last, i) == size && i != k;
      if i < k { assert Before(bs, i, k); } else { assert Before(bs, k, i); }
    }
    if addr != bs[k].addr && Live(bs, last, addr, size) {
      var i: nat :| i < |bs| && !bs[i].free && bs[i].addr == addr && Payload(bs, last, i) == size;
      var j := if i < l then i else i - d;
      assert j != l && cs[j] == bs[i] && Payload(cs, last, j) == size;
    }
  }
}
