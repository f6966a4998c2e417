/** What a length/distance pair means: length times, repeat the byte distance places back. */
module Lz77 {
  import opened Bits

  /** h followed by a match of the given distance and length. */
  function Extend(h: seq<Byte>, dist: nat, len: nat): (r: seq<Byte>)
    requires 1 <= dist <= |h|
    ensures |r| == |h| + len
    decreases len
  {
    if len == 0 then h else Extend(h + [h[|h| - dist]], dist, len - 1)
  }

  lemma {:induction false} ExtendSplit(h: seq<Byte>, dist: nat, a: nat, b: nat)
    requires 1 <= dist <= |h|
    ensures Extend(Extend(h, dist, a), dist, b) == Extend(h, dist, a + b)
    decreases a
  {
    if a > 0 { ExtendSplit(h + [h[|h| - dist]], dist, a - 1, b); }
  }

  /** Every new byte equals the one dist places before it, and the old ones stay. */
  lemma {:induction false} ExtendIs(h: seq<Byte>, dist: nat, len: nat)
    requires 1 <= dist <= |h|
    ensures Extend(h, dist, len)[..|h|] == h
    ensures forall i :: |h| <= i < |h| + len ==> Extend(h, dist, len)[i] == Extend(h, dist, len)[i - dist]
    decreases len
  {
    if len > 0 {
      var g := h + [h[|h| - dist]];
      ExtendIs(g, dist, len - 1);
      var r := Extend(h, dist, len);
      assert r[..|g|] == g;
      assert r[..|h|] == r[..|g|][..|h|];
      assert r[|h|] == r[..|g|][|h|] && r[|h| - dist] == r[..|g|][|h| - dist];
    }
  }

  /** These two facts determine the result. */
  lemma ExtendUnique(h: seq<Byte>, dist: nat, len: nat, r: seq<Byte>)
    requires 1 <= dist <= |h| && |r| == |h| + len && r[..|h|] == h
    requires forall i :: |h| <= i < |r| ==> r[i] == r[i - dist]
    ensures r == Extend(h, dist, len)
  {
    var e := Extend(h, dist, len);
    ExtendIs(h, dist, len);
    SameUpTo(h, dist, r, e, |r|);
  }

  lemma {:induction false} SameUpTo(h: seq<Byte>, dist: nat, r: seq<Byte>, e: seq<Byte>, n: nat)
    requires 1 <= dist <= |h| && |r| == |e| && n <= |r| && |h| <= |r| && r[..|h|] == h && e[..|h|] == h
    requires forall i :: |h| <= i < |r| ==> r[i] == r[i - dist]
    requires forall i :: |h| <= i < |e| ==> e[i] == e[i - dist]
    ensures r[..n] == e[..n]
  {
    if n > |h| {
      SameUpTo(h, dist, r, e, n - 1);
      assert r[n - 1 - dist] == r[..n - 1][n - 1 - dist] == e[..n - 1][n - 1 - dist];
      assert r[..n] == r[..n - 1] + [r[n - 1]] && e[..n] == e[..n - 1] + [e[n - 1]];
    } else {
      assert r[..n] == h[..n] == e[..n] by {
        assert r[..n] == r[..|h|][..n] && e[..n] == e[..|h|][..n];
      }
    }
  }
}
