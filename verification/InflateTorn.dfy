/** What becomes of a match that a call left unfinished and that reaches further back than
    the window, when the next call goes on with it all the same. */
module InflateTorn {
  import opened Bits
  import opened Ring
  import opened Lz77
  import opened InflateStates
  import opened InflateRun

  lemma LeftIs(z: Inflater)
    requires Left(z)
    ensures z.wsize == z.whave == z.W == z.window.Length && z.write < z.W < z.offset && z.window != z.out
    ensures z.Total() == z.hist
  {
    assert z.hist + z.out[..0] == z.hist;
  }

  /** The k-th byte of a match offset places back, as far as it lies in h. */
  function Wanted(h: seq<Byte>, offset: nat, k: nat): Byte
    requires k < offset <= |h|
  {
    h[|h| - offset + k]
  }

  /** That byte as the next call copies it: those that a window of w bytes has lost are
      replaced by the bytes w places later, which took their place. */
  function Copied(h: seq<Byte>, w: nat, offset: nat, k: nat): Byte
    requires w < offset <= |h| && k < offset
  {
    if k < offset - w then h[|h| - offset + w + k] else Wanted(h, offset, k)
  }

  lemma TornByte(z: Inflater, k: nat)
    requires Left(z) && z.offset <= z.W + z.write && k < z.offset - z.write
    ensures z.W < z.offset && 0 <= z.W + z.write - z.offset + k < z.window.Length
    ensures z.window[z.W + z.write - z.offset + k] == Copied(z.hist, z.W, z.offset, k)
  {
    LeftIs(z);
    var j := z.W + z.write - z.offset + k;
    if k < z.offset - z.W {
      assert BackIndex(z.write, z.W, z.offset - z.W - k) == j;
    } else {
      assert BackIndex(z.write, z.W, z.offset - k) == j;
    }
  }

  /** The bytes at the end of the window w, from index from on, are those that are copied. */
  ghost predicate Source(w: seq<Byte>, from: nat, h: seq<Byte>, size: nat, offset: nat) {
    && size < offset <= |h| && from <= |w| && |w| - from <= offset
    && forall k: nat {:trigger Copied(h, size, offset, k)} :: k < |w| - from ==>
              w[from + k] == Copied(h, size, offset, k)
  }

  lemma TornSource(z: Inflater)
    requires Left(z) && z.offset <= z.W + z.write
    ensures Source(z.window[..], z.W + z.write - z.offset, z.hist, z.W, z.offset)
  {
    LeftIs(z);
    forall k: nat | k < z.offset - z.write
      ensures z.window[..][z.W + z.write - z.offset + k] == Copied(z.hist, z.W, z.offset, k)
    {
      TornByte(z, k);
    }
  }

  /** MATCH at the start of the next call: copy from the window, as InflateStates.Match has
      it, as far as its end. The index lies in the window exactly if the distance is no
      greater than its size and the write index together. */
  method TornMatch(z: Inflater) returns (copy: nat)
    requires Left(z) && z.offset <= z.W + z.write && z.out.Length > 0
    modifies z`put, z`length, z`mode, z.out
    ensures 1 <= copy <= old(z.length) && copy <= z.offset - z.write && z.put == copy <= z.out.Length
    ensures z.length == old(z.length) - copy && (copy < z.offset - z.write ==> z.length == 0 || z.put == z.out.Length)
    ensures z.W < z.offset <= |z.hist| && z.mode == if z.length == 0 then LEN else MATCH
    ensures forall k :: 0 <= k < copy ==> z.out[k] == Copied(z.hist, z.W, z.offset, k)
  {
    LeftIs(z);
    TornSource(z);
    ghost var w := z.window[..];
    copy := z.offset - z.write;          // copy = offset - out; copy > write, so copy -= write
    var from := z.wsize - copy;
    if copy > z.length { copy := z.length; }
    if copy > z.out.Length { copy := z.out.Length; }
    Piece(z, from, copy);
    z.length := z.length - copy;
    if z.length == 0 { z.mode := LEN; }
  }

  method Piece(z: Inflater, from: nat, copy: nat)
    requires z.put == 0 && copy <= z.out.Length && from + copy <= z.window.Length && z.window != z.out
    requires Source(z.window[..], from, z.hist, z.W, z.offset)
    modifies z`put, z.out
    ensures z.put == copy && z.W < z.offset <= |z.hist| && copy <= z.offset
    ensures forall k :: 0 <= k < copy ==> z.out[k] == Copied(z.hist, z.W, z.offset, k)
  {
    hide Inflater.Total;
    ghost var w := z.window[..];
    var k := 0;
    while k < copy
      invariant k <= copy && z.put == k && z.window[..] == w
      invariant forall j :: 0 <= j < k ==> z.out[j] == Copied(z.hist, z.W, z.offset, j)
    {
      assert z.window[from + k] == w[from + k] == Copied(z.hist, z.W, z.offset, k);
      z.Emit(z.window[from + k]);
      k := k + 1;
    }
  }

  /** What is copied is the match exactly if the bytes that the window has lost are the same
      as those that took their place. */
  lemma TornRight(h: seq<Byte>, w: nat, offset: nat, copy: nat)
    requires w < offset <= |h| && copy <= offset
    ensures forall k: nat :: k < copy ==> Extend(h, offset, copy)[|h| + k] == Wanted(h, offset, k)
    ensures (forall k: nat :: k < copy ==> Copied(h, w, offset, k) == Wanted(h, offset, k)) <==>
            (forall k: nat :: k < copy && k < offset - w ==> h[|h| - offset + w + k] == Wanted(h, offset, k))
  {
    var r := Extend(h, offset, copy);
    ExtendIs(h, offset, copy);
    forall k: nat | k < copy
      ensures r[|h| + k] == Wanted(h, offset, k)
    {
      assert r[..|h|][|h| - offset + k] == h[|h| - offset + k];
    }
  }
}
