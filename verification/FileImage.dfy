/** What writing does to the bytes of a file and to the sectors of others. */
module FileImage {
  import opened Bits
  import opened Cache
  import opened FatTable
  import opened FatVolume
  import opened FileLayout

  /** All bytes of a chain. */
  ghost function Bytes(g: Geometry, chain: seq<nat>, img: seq<Sector>): (r: seq<Byte>)
    requires Clusters(g, chain, img)
    ensures |r| == Offset(g, |chain|, 0, 0)
  {
    Slice(g, chain, img, 0, Offset(g, |chain|, 0, 0))
  }

  ghost predicate Distinct(chain: seq<nat>) {
    forall i, j :: 0 <= i < j < |chain| ==> chain[i] != chain[j]
  }

  /** f2 is f1, or more than it, with b stored at q; other bytes before lim are as they were. */
  ghost predicate Wrote(f1: seq<Byte>, f2: seq<Byte>, q: nat, b: seq<Byte>, lim: nat) {
    && |f1| <= |f2| && q + |b| <= |f2| && f2[q..q + |b|] == b
    && forall p :: 0 <= p < |f1| && p < lim && !(q <= p < q + |b|) ==> f2[p] == f1[p]
  }

  lemma WroteNone(f: seq<Byte>, q: nat, lim: nat)
    requires q <= |f|
    ensures Wrote(f, f, q, [], lim)
  {
  }

  /** Nothing may be written over what was written just before. */
  lemma WroteMore(f1: seq<Byte>, f2: seq<Byte>, f3: seq<Byte>, q: nat, a: seq<Byte>, b: seq<Byte>, lim: nat)
    requires Wrote(f1, f2, q, a, lim) && Wrote(f2, f3, q + |a|, b, if lim < q + |a| then q + |a| else lim)
    ensures Wrote(f1, f3, q, a + b, lim)
  {
    forall i | 0 <= i < |a + b|
      ensures f3[q..q + |a + b|][i] == (a + b)[i]
    {
      if i < |a| {
        assert f2[q..q + |a|][i] == a[i];
      } else {
        assert f3[q + |a|..q + |a| + |b|][i - |a|] == b[i - |a|];
      }
    }
  }

  /** Sector t is sector s of cluster k of the chain. */
  ghost predicate OfChain(g: Geometry, chain: seq<nat>, k: nat, s: nat, t: nat) {
    k < |chain| && chain[k] >= CLUSTER_FIRST && s < g.spc && t == SectorOf(g, chain[k], s)
  }

  ghost predicate InChain(g: Geometry, chain: seq<nat>, t: nat) {
    exists k: nat, s: nat :: OfChain(g, chain, k, s, t)
  }

  /** The sectors outside the chain are the same. */
  ghost predicate Others(g: Geometry, chain: seq<nat>, v: seq<Sector>, w: seq<Sector>) {
    && |v| == |w|
    && forall t: nat :: t < |v| && !InChain(g, chain, t) ==> v[t] == w[t]
  }

  lemma InMore(g: Geometry, chain2: seq<nat>, chain3: seq<nat>, t: nat)
    requires chain2 <= chain3 && InChain(g, chain2, t)
    ensures InChain(g, chain3, t)
  {
    hide SectorOf;
    var k: nat, s: nat :| OfChain(g, chain2, k, s, t);
    assert OfChain(g, chain3, k, s, t);
  }

  lemma OthersMore(g: Geometry, chain2: seq<nat>, chain3: seq<nat>, u: seq<Sector>, v: seq<Sector>, w: seq<Sector>)
    requires Others(g, chain2, u, v) && Others(g, chain3, v, w) && chain2 <= chain3
    ensures Others(g, chain3, u, w)
  {
    hide InChain;
    forall t: nat | t < |u| && !InChain(g, chain3, t)
      ensures u[t] == w[t]
    {
      if InChain(g, chain2, t) { InMore(g, chain2, chain3, t); }
    }
  }

  /** A chain that has no cluster in common with the one written keeps its bytes. */
  lemma OtherChain(g: Geometry, chain: seq<nat>, v: seq<Sector>, w: seq<Sector>, other: seq<nat>)
    requires Clusters(g, other, v) && Others(g, chain, v, w)
    requires forall i, j :: 0 <= i < |chain| && 0 <= j < |other| ==> chain[i] != other[j]
    ensures Clusters(g, other, w) && Bytes(g, other, w) == Bytes(g, other, v)
  {
    forall p: nat | p < Offset(g, |other|, 0, 0)
      ensures ByteAt(g, other, w, p) == ByteAt(g, other, v, p)
    {
      NumberFits(g, other, v, p);
      var t := p / SIZE;
      Apart(g, chain, other, t / g.spc, t % g.spc);
    }
  }

  lemma Apart(g: Geometry, chain: seq<nat>, other: seq<nat>, j: nat, r: nat)
    requires j < |other| && other[j] >= CLUSTER_FIRST && r < g.spc
    requires forall i :: 0 <= i < |chain| ==> chain[i] != other[j]
    ensures !InChain(g, chain, SectorOf(g, other[j], r))
  {
    if InChain(g, chain, SectorOf(g, other[j], r)) {
      var k: nat, s: nat :| OfChain(g, chain, k, s, SectorOf(g, other[j], r));
      SectorsApart(g, chain[k], s, other[j], r);
    }
  }

  /** From (chain1, img1) to (chain2, img2): b was stored at q of the file, and nothing else but
      what is beyond lim. */
  ghost predicate Stored(g: Geometry, chain1: seq<nat>, img1: seq<Sector>, chain2: seq<nat>, img2: seq<Sector>,
                         q: nat, b: seq<Byte>, lim: nat) {
    && Clusters(g, chain1, img1) && Clusters(g, chain2, img2) && chain1 <= chain2
    && Wrote(Bytes(g, chain1, img1), Bytes(g, chain2, img2), q, b, lim)
    && Others(g, chain2, img1, img2)
  }

  lemma StoredNone(g: Geometry, chain: seq<nat>, img: seq<Sector>, q: nat, lim: nat)
    requires Clusters(g, chain, img) && q <= Offset(g, |chain|, 0, 0)
    ensures Stored(g, chain, img, chain, img, q, [], lim)
  {
    hide Offset, Bytes;
    WroteNone(Bytes(g, chain, img), q, lim);
  }

  lemma StoredMore(g: Geometry, chain1: seq<nat>, img1: seq<Sector>, chain2: seq<nat>, img2: seq<Sector>,
                   chain3: seq<nat>, img3: seq<Sector>, q: nat, a: seq<Byte>, b: seq<Byte>, lim: nat)
    requires Stored(g, chain1, img1, chain2, img2, q, a, lim)
    requires Stored(g, chain2, img2, chain3, img3, q + |a|, b, if lim < q + |a| then q + |a| else lim)
    ensures Stored(g, chain1, img1, chain3, img3, q, a + b, lim)
  {
    hide Offset, Bytes, Clusters, Wrote, SectorOf, Others;
    WroteMore(Bytes(g, chain1, img1), Bytes(g, chain2, img2), Bytes(g, chain3, img3), q, a, b, lim);
    OthersMore(g, chain2, chain3, img1, img2, img3);
  }

  lemma BytesAt(g: Geometry, chain: seq<nat>, img: seq<Sector>, p: nat)
    requires Clusters(g, chain, img) && p < Offset(g, |chain|, 0, 0)
    ensures Bytes(g, chain, img)[p] == ByteAt(g, chain, img, p)
  {
  }

  /** A longer chain has the bytes of the shorter one. */
  lemma Longer(g: Geometry, chain: seq<nat>, img: seq<Sector>, c: nat, q: nat, lim: nat)
    requires Clusters(g, chain + [c], img) && q <= Offset(g, |chain + [c]|, 0, 0)
    ensures Clusters(g, chain, img) && Stored(g, chain, img, chain + [c], img, q, [], lim)
  {
    var chain2 := chain + [c];
    assert Clusters(g, chain, img) by {
      forall k | 0 <= k < |chain|
        ensures CLUSTER_FIRST <= chain[k] && SectorOf(g, chain[k], g.spc) <= |img|
      {
        assert chain2[k] == chain[k];
      }
    }
    OffsetMono(g, |chain|, |chain2|);
    var f1, f2 := Bytes(g, chain, img), Bytes(g, chain2, img);
    hide Offset, Clusters, SectorOf;
    forall p | 0 <= p < |f1|
      ensures f2[p] == f1[p]
    {
      NumberFits(g, chain, img, p);
      BytesAt(g, chain, img, p);
      BytesAt(g, chain2, img, p);
      SameByte(g, chain, c, img, p);
    }
  }

  lemma SameByte(g: Geometry, chain: seq<nat>, c: nat, img: seq<Sector>, p: nat)
    requires Clusters(g, chain, img) && Clusters(g, chain + [c], img) && p < Offset(g, |chain|, 0, 0)
    requires p < Offset(g, |chain + [c]|, 0, 0)
    ensures ByteAt(g, chain + [c], img, p) == ByteAt(g, chain, img, p)
  {
    NumberFits(g, chain, img, p);
  }

  // ----- Sectors written -----

  /** The sector of byte p is sector s of cluster k exactly if p lies there. */
  lemma SectorOfByte(g: Geometry, chain: seq<nat>, img: seq<Sector>, k: nat, s: nat, p: nat)
    requires Clusters(g, chain, img) && Distinct(chain) && k < |chain| && s < g.spc && p < Offset(g, |chain|, 0, 0)
    ensures var t := p / SIZE;
            && t / g.spc < |chain| && chain[t / g.spc] >= CLUSTER_FIRST && Number(g, chain, t) < |img|
            && (Number(g, chain, t) == SectorOf(g, chain[k], s) <==> p == Offset(g, k, s, p % SIZE))
  {
    NumberFits(g, chain, img, p);
    var t := p / SIZE;
    Recombine(t, g.spc);
    Recombine(p, SIZE);
    SameSector(g, chain, t / g.spc, t % g.spc, k, s);
    if p == Offset(g, k, s, p % SIZE) { OffsetSplit(g, k, s, p % SIZE); }
  }

  lemma SameSector(g: Geometry, chain: seq<nat>, i: nat, r: nat, k: nat, s: nat)
    requires Distinct(chain) && i < |chain| && k < |chain| && chain[i] >= CLUSTER_FIRST && chain[k] >= CLUSTER_FIRST
    requires r < g.spc && s < g.spc
    ensures SectorOf(g, chain[i], r) == SectorOf(g, chain[k], s) <==> i == k && r == s
  {
    if SectorOf(g, chain[i], r) == SectorOf(g, chain[k], s) { SectorsApart(g, chain[i], r, chain[k], s); }
  }

  /** Part of one sector written, the rest of it kept or, at the end of the file, zeroed. */
  lemma PartStored(g: Geometry, chain: seq<nat>, img: seq<Sector>, k: nat, s: nat, off: nat, b: seq<Byte>, erase: bool,
                   lim: nat)
    requires Clusters(g, chain, img) && Distinct(chain) && k < |chain| && s < g.spc && off + |b| <= SIZE && off < SIZE
    requires erase ==> off == 0 && lim <= Offset(g, k, s, off) + |b|
    ensures SectorOf(g, chain[k], s) < |img|
    ensures var at := SectorOf(g, chain[k], s);
            Stored(g, chain, img, chain, img[at := Patched(if erase then Zeros() else img[at], off, b)],
                Offset(g, k, s, off), b, lim)
  {
    NumberAt(g, chain, img, k, s, 0);
    OffsetEnd(g, k, s, |chain|);
    OffsetAdd(g, k, s, 0, 0, off);
    OffsetAdd(g, k, s, 0, 0, SIZE);
    OffsetAdd(g, k, s, off, 0, |b|);
    var at, q := SectorOf(g, chain[k], s), Offset(g, k, s, off);
    var rest := if erase then Zeros() else img[at];
    var img2 := img[at := Patched(rest, off, b)];
    var f1, f2 := Bytes(g, chain, img), Bytes(g, chain, img2);
    forall p | 0 <= p < |f1|
      ensures if q <= p < q + |b| then f2[p] == b[p - q] else p < lim ==> f2[p] == f1[p]
    {
      PartByte(g, chain, img, k, s, off, b, erase, lim, p);
    }
    hide Offset, Bytes, Clusters;
    assert f2[q..q + |b|] == b;
    OthersPart(g, chain, img, k, s, img2[at]);
  }

  lemma PartByte(g: Geometry, chain: seq<nat>, img: seq<Sector>, k: nat, s: nat, off: nat, b: seq<Byte>, erase: bool,
                 lim: nat, p: nat)
    requires Clusters(g, chain, img) && Distinct(chain) && k < |chain| && s < g.spc && off + |b| <= SIZE && off < SIZE
    requires erase ==> off == 0 && lim <= Offset(g, k, s, off) + |b|
    requires SectorOf(g, chain[k], s) < |img| && p < Offset(g, |chain|, 0, 0)
    ensures var at, q := SectorOf(g, chain[k], s), Offset(g, k, s, off);
            var img2 := img[at := Patched(if erase then Zeros() else img[at], off, b)];
            Clusters(g, chain, img2)
            && if q <= p < q + |b| then Bytes(g, chain, img2)[p] == b[p - q]
               else p < lim ==> Bytes(g, chain, img2)[p] == Bytes(g, chain, img)[p]
  {
    var at, q := SectorOf(g, chain[k], s), Offset(g, k, s, off);
    var img2 := img[at := Patched(if erase then Zeros() else img[at], off, b)];
    SectorOfByte(g, chain, img, k, s, p);
    OffsetAdd(g, k, s, 0, 0, off);
    OffsetAdd(g, k, s, 0, 0, p % SIZE);
    Recombine(p, SIZE);
    BytesAt(g, chain, img, p);
    BytesAt(g, chain, img2, p);
    if q <= p < q + |b| {
      InSector(g, k, s, off, p);
    }
  }

  /** A place a few bytes on is in the same sector. */
  lemma InSector(g: Geometry, k: nat, s: nat, off: nat, p: nat)
    requires Offset(g, k, s, off) <= p < Offset(g, k, s, 0) + SIZE && off < SIZE
    ensures p == Offset(g, k, s, p % SIZE)
  {
    DivModUnique(p, SIZE, k * g.spc + s, p - Offset(g, k, s, 0));
  }

  lemma OthersPart(g: Geometry, chain: seq<nat>, img: seq<Sector>, k: nat, s: nat, x: Sector)
    requires Clusters(g, chain, img) && k < |chain| && s < g.spc && SectorOf(g, chain[k], s) < |img|
    ensures Others(g, chain, img, img[SectorOf(g, chain[k], s) := x])
  {
    assert OfChain(g, chain, k, s, SectorOf(g, chain[k], s));
  }

  /** Whole sectors of one cluster written. */
  lemma {:induction false} RunStored(g: Geometry, chain: seq<nat>, img: seq<Sector>, k: nat, s: nat, buf: seq<Sector>,
                                     lim: nat)
    requires Clusters(g, chain, img) && Distinct(chain) && k < |chain| && s + |buf| <= g.spc
    ensures SectorOf(g, chain[k], s) + |buf| <= |img|
    ensures Stored(g, chain, img, chain, Written(img, SectorOf(g, chain[k], s), buf), Offset(g, k, s, 0),
        Flat(buf, 0, |buf|), lim)
    decreases |buf|
  {
    hide Stored, Offset, SectorOf, Flat, Bytes, Clusters, Patched;
    ClusterIs(g, chain, img, k);
    SliceSectors(g, chain, img, k, s, |buf|);
    var at, q := SectorOf(g, chain[k], s), Offset(g, k, s, 0);
    if |buf| == 0 {
      NoneWritten(img, at, buf);
      StoredNone(g, chain, img, q, lim);
    } else {
      var m := |buf| - 1;
      var some := buf[..m];
      var img2 := Written(img, at, some);
      var l2 := if lim < q + SIZE * m then q + SIZE * m else lim;
      RunStored(g, chain, img, k, s, some, lim);
      StoredIs(g, chain, img, chain, img2, q, Flat(some, 0, m), lim);
      OffsetAdd(g, k, s, 0, m, 0);
      SectorAdd(g, chain[k], s, m);
      PartStored(g, chain, img2, k, s + m, 0, buf[m], false, l2);
      LastWritten(img, at, buf);
      FlatLast(buf);
      assert buf[m][0..SIZE] == buf[m];
      StoredMore(g, chain, img, chain, img2, chain, img2[at + m := buf[m]], q, Flat(some, 0, m), buf[m], lim);
    }
  }

  lemma ClusterIs(g: Geometry, chain: seq<nat>, img: seq<Sector>, k: nat)
    requires Clusters(g, chain, img) && k < |chain|
    ensures g.spc > 0 && chain[k] >= CLUSTER_FIRST
  {
  }

  lemma SectorAdd(g: Geometry, c: nat, s: nat, m: nat)
    requires c >= CLUSTER_FIRST
    ensures SectorOf(g, c, s + m) == SectorOf(g, c, s) + m
  {
  }

  lemma NoneWritten(img: seq<Sector>, at: nat, buf: seq<Sector>)
    requires buf == [] && at <= |img|
    ensures Written(img, at, buf) == img && Flat(buf, 0, |buf|) == []
  {
  }

  lemma LastWritten(img: seq<Sector>, at: nat, buf: seq<Sector>)
    requires |buf| > 0 && at + |buf| <= |img|
    ensures var m := |buf| - 1;
            var img2 := Written(img, at, buf[..m]);
            Patched(img2[at + m], 0, buf[m]) == buf[m] && Written(img, at, buf) == img2[at + m := buf[m]]
  {
  }

  lemma StoredIs(g: Geometry, chain1: seq<nat>, img1: seq<Sector>, chain2: seq<nat>, img2: seq<Sector>, q: nat,
                 b: seq<Byte>, lim: nat)
    requires Stored(g, chain1, img1, chain2, img2, q, b, lim)
    ensures Clusters(g, chain2, img2) && |img1| == |img2| && chain1 <= chain2 && q + |b| <= Offset(g, |chain2|, 0, 0)
  {
  }

  // ----- Sectors passed -----

  /** Sector t of the chain begins before byte q of the file. */
  ghost predicate Passed(g: Geometry, chain: seq<nat>, q: nat, t: nat) {
    exists k: nat, s: nat :: OfChain(g, chain, k, s, t) && Offset(g, k, s, 0) < q
  }

  /** Every sector in the cache was there at first, or is of a part of the file passed since. */
  ghost predicate Fetched(g: Geometry, chain: seq<nat>, q: nat, held: set<nat>, cached: set<nat>) {
    forall t: nat :: t in cached ==> t in held || Passed(g, chain, q, t)
  }

  lemma FetchedMore(g: Geometry, chain1: seq<nat>, chain2: seq<nat>, q1: nat, q2: nat, held: set<nat>,
                    cached1: set<nat>, cached2: set<nat>)
    requires Fetched(g, chain1, q1, held, cached1) && chain1 <= chain2 && q1 <= q2 && cached2 <= cached1
    ensures Fetched(g, chain2, q2, held, cached2)
  {
    hide SectorOf, Offset;
    forall t: nat | t in cached2 && t !in held
      ensures Passed(g, chain2, q2, t)
    {
      var k: nat, s: nat :| OfChain(g, chain1, k, s, t) && Offset(g, k, s, 0) < q1;
      assert OfChain(g, chain2, k, s, t);
    }
  }

  lemma FetchedPart(g: Geometry, chain: seq<nat>, k: nat, s: nat, q1: nat, q2: nat, held: set<nat>, cached1: set<nat>,
                    cached2: set<nat>)
    requires Fetched(g, chain, q1, held, cached1) && k < |chain| && chain[k] >= CLUSTER_FIRST && s < g.spc
    requires Offset(g, k, s, 0) < q2 && q1 <= q2
    requires cached2 <= cached1 + {SectorOf(g, chain[k], s)}
    ensures Fetched(g, chain, q2, held, cached2)
  {
    hide Offset;
    FetchedMore(g, chain, chain, q1, q2, held, cached1, cached1);
    assert OfChain(g, chain, k, s, SectorOf(g, chain[k], s));
  }

  /** A sector i after (k, s) begins no earlier, and has no other place in the chain. */
  lemma RunAhead(g: Geometry, chain: seq<nat>, k: nat, s: nat, i: nat, j: nat, r: nat)
    requires Distinct(chain) && k < |chain| && chain[k] >= CLUSTER_FIRST && s + i < g.spc
    requires OfChain(g, chain, j, r, SectorOf(g, chain[k], s) + i)
    ensures Offset(g, j, r, 0) >= Offset(g, k, s, 0)
  {
    SameSector(g, chain, j, r, k, s + i);
    OffsetAdd(g, k, s, 0, i, 0);
  }

  /** Sectors of the run from byte q on were in the cache at first, if they are in it. */
  lemma RunHeld(g: Geometry, chain: seq<nat>, k: nat, s: nat, m: nat, held: set<nat>, cached: set<nat>)
    requires Fetched(g, chain, Offset(g, k, s, 0), held, cached) && Distinct(chain)
    requires k < |chain| && chain[k] >= CLUSTER_FIRST && s + m <= g.spc
    ensures Run(SectorOf(g, chain[k], s), m) * cached <= held
  {
    hide Offset, OfChain, SectorOf;
    var at, q := SectorOf(g, chain[k], s), Offset(g, k, s, 0);
    forall t: nat | t in Run(at, m) && t in cached
      ensures t in held
    {
      if Passed(g, chain, q, t) {
        var j: nat, r: nat :| OfChain(g, chain, j, r, t) && Offset(g, j, r, 0) < q;
        RunAhead(g, chain, k, s, t - at, j, r);
      }
    }
  }

  // ----- The image and what the file system sees -----

  /** A part of a sector written in both. */
  lemma PartElse(img: seq<Sector>, v: seq<Sector>, w: seq<Sector>, at: nat, off: nat, b: seq<Byte>, erase: bool,
                 start: nat, n: nat, stale: set<nat>)
    requires Elsewhere(img, v, start, n, stale) && at < |v| && off + |b| <= SIZE && start + n <= at
    requires Same(v[at := Patched(if erase then Zeros() else v[at], off, b)], w, stale)
    ensures Elsewhere(img[at := Patched(if erase then Zeros() else img[at], off, b)], w, start, n, stale)
  {
    hide Patched, Zeros;
    var p, r := Patched(if erase then Zeros() else v[at], off, b), Patched(if erase then Zeros() else img[at], off, b);
    assert at !in stale ==> p == r;
    forall s | 0 <= s < |img| && !(start <= s < start + n) && s !in stale
      ensures w[s] == img[at := r][s]
    {
      assert v[at := p][s] == w[s];
    }
  }

  /** Sectors written in both but for those of keep; some that were stale may not be any more. */
  lemma RunElse(img: seq<Sector>, v: seq<Sector>, w: seq<Sector>, at: nat, buf: seq<Sector>, keep: set<nat>, start: nat,
                n: nat,
                stale: set<nat>, stale2: set<nat>)
    requires Elsewhere(img, v, start, n, stale) && at + |buf| <= |v| && Same(Overwritten(v, at, buf, keep), w, stale2)
    requires stale - (Run(at, |buf|) - keep) <= stale2
    ensures Elsewhere(Overwritten(img, at, buf, keep), w, start, n, stale2)
  {
    forall s | 0 <= s < |img| && !(start <= s < start + n) && s !in stale2
      ensures w[s] == Overwritten(img, at, buf, keep)[s]
    {
      assert Overwritten(v, at, buf, keep)[s] == w[s];
      if !(at <= s < at + |buf|) || s in keep { assert s !in stale; }
    }
  }

  lemma StaleKept(stale: set<nat>, d: Direct)
    ensures stale - (Run(d.at, d.len) - LostBy(d)) <= Outdated(stale, d)
  {
    hide MissedBy, Dirt, Run;
  }

  /** Where no sector of the file is stale the file system sees the image. */
  lemma SeenBytes(g: Geometry, chain: seq<nat>, img: seq<Sector>, v: seq<Sector>, start: nat, n: nat, stale: set<nat>)
    requires Clusters(g, chain, img) && Elsewhere(img, v, start, n, stale) && start + n <= g.dataStart
    requires forall t: nat :: InChain(g, chain, t) ==> t !in stale
    ensures Clusters(g, chain, v) && Bytes(g, chain, v) == Bytes(g, chain, img)
  {
    forall p: nat | p < Offset(g, |chain|, 0, 0)
      ensures ByteAt(g, chain, v, p) == ByteAt(g, chain, img, p)
    {
      NumberFits(g, chain, img, p);
      var t := p / SIZE;
      assert OfChain(g, chain, t / g.spc, t % g.spc, Number(g, chain, t));
      SectorBound(g, chain[t / g.spc], t % g.spc, chain[t / g.spc]);
    }
  }
}
