/** The circular window of inflate: a fixed block of memory that keeps the last
    bytes of a growing output. */
module Ring {
  import opened Bits

  /** Index i places before the write index, going around a block of size n. */
  function BackIndex(write: nat, n: nat, i: nat): int {
    if i <= write then write - i else write + n - i
  }

  /** w holds the last have bytes of h, ending cyclically at write. */
  ghost predicate Holds(w: seq<Byte>, write: nat, have: nat, h: seq<Byte>) {
    && write < |w| && have <= |w| && have <= |h|
    && (have < |w| ==> write == have)
    && forall i :: 1 <= i <= have ==> w[BackIndex(write, |w|, i)] == h[|h| - i]
  }

  /** Writing d at the write index, up to the end of the block at most. */
  lemma Append(w: seq<Byte>, write: nat, have: nat, h: seq<Byte>, d: seq<Byte>, w2: seq<Byte>)
    requires Holds(w, write, have, h) && |d| <= |w| - write
    requires |w2| == |w| && w2[write..write + |d|] == d
    requires forall j :: 0 <= j < |w| && !(write <= j < write + |d|) ==> w2[j] == w[j]
    ensures Holds(w2, if write + |d| == |w| then 0 else write + |d|,
                  if have + |d| >= |w| then |w| else have + |d|, h + d)
  {
    var write2 := if write + |d| == |w| then 0 else write + |d|;
    var have2 := if have + |d| >= |w| then |w| else have + |d|;
    forall i | 1 <= i <= have2
      ensures w2[BackIndex(write2, |w|, i)] == (h + d)[|h + d| - i]
    {
      if i <= |d| {
        assert BackIndex(write2, |w|, i) == write + |d| - i;
        assert w2[write..write + |d|][|d| - i] == d[|d| - i];
      } else {
        assert BackIndex(write2, |w|, i) == BackIndex(write, |w|, i - |d|);
      }
    }
  }

  /** Refilling the whole block. */
  lemma Refill(w: seq<Byte>, h: seq<Byte>)
    requires 0 < |w| <= |h| && w == h[|h| - |w|..]
    ensures Holds(w, 0, |w|, h)
  {
  }

  lemma Empty(w: seq<Byte>)
    requires 0 < |w|
    ensures Holds(w, 0, 0, [])
  {
  }

  /** zmemcpy between two blocks. */
  method MemCopy(dst: array<Byte>, at: nat, src: array<Byte>, from: nat, n: nat)
    requires dst != src && at + n <= dst.Length && from + n <= src.Length
    modifies dst
    ensures dst[at..at + n] == src[from..from + n]
    ensures forall j :: 0 <= j < dst.Length && !(at <= j < at + n) ==> dst[j] == old(dst[j])
  {
    var k: nat := 0;
    while k < n
      invariant k <= n
      invariant dst[at..at + k] == src[from..from + k]
      invariant forall j :: 0 <= j < dst.Length && !(at <= j < at + k) ==> dst[j] == old(dst[j])
    {
      dst[at + k] := src[from + k];
      assert src[from..from + k + 1] == src[from..from + k] + [src[from + k]];
      assert dst[at..at + k + 1] == dst[at..at + k] + [dst[at + k]];
      k := k + 1;
    }
  }
}
