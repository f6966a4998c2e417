/** Where the bytes of a file are: its chain of clusters, their sectors, and positions
    in them. */
module FileLayout {
  import opened Bits
  import opened Cache
  import opened FatTable
  import opened FatVolume

  /** A position as _FAT_read_r and the others keep it. */
  datatype Position = Position(cluster: nat, sector: nat, byte: nat)

  /** Sectors per cluster, and the sector of the first cluster. */
  datatype Geometry = Geometry(spc: nat, dataStart: nat)

  /** Sector s of cluster c (_FAT_fat_clusterToSector). */
  function SectorOf(g: Geometry, c: nat, s: nat): nat
    requires c >= CLUSTER_FIRST
  {
    (c - 2) * g.spc + g.dataStart + s
  }

  /** Byte b of sector s of the k-th cluster, counted from the start of the file. */
  function Offset(g: Geometry, k: nat, s: nat, b: nat): nat { (k * g.spc + s) * SIZE + b }

  lemma OffsetNext(g: Geometry, k: nat)
    ensures Offset(g, k, g.spc, 0) == Offset(g, k + 1, 0, 0)
  {
    MulStep(k, g.spc);
  }

  lemma OffsetAdd(g: Geometry, k: nat, s: nat, b: nat, m: nat, n: nat)
    ensures Offset(g, k, s, b + n) == Offset(g, k, s, b) + n
    ensures Offset(g, k, s + m, b) == Offset(g, k, s, b) + SIZE * m
    ensures Offset(g, k, s, SIZE) == Offset(g, k, s + 1, 0)
  {
  }

  lemma OffsetMono(g: Geometry, k: nat, n: nat)
    requires k <= n
    ensures Offset(g, k, 0, 0) <= Offset(g, n, 0, 0)
  {
    MulMono(k, n, g.spc);
  }

  /** Which cluster, sector and byte a position is in. */
  lemma OffsetSplit(g: Geometry, k: nat, s: nat, b: nat)
    requires g.spc > 0 && s < g.spc && b < SIZE
    ensures var p := Offset(g, k, s, b);
            && p / SIZE == k * g.spc + s && p % SIZE == b
            && p / SIZE / g.spc == k && p / SIZE % g.spc == s
            && g.spc * SIZE > 0 && p / (g.spc * SIZE) == k && p % (g.spc * SIZE) == s * SIZE + b
  {
    var p := Offset(g, k, s, b);
    DivModUnique(p, SIZE, k * g.spc + s, b);
    DivModUnique(k * g.spc + s, g.spc, k, s);
    assert p == k * (g.spc * SIZE) + (s * SIZE + b) by { MulAssoc(k, g.spc, SIZE); }
    MulMono(s + 1, g.spc, SIZE);
    DivModUnique(p, g.spc * SIZE, k, s * SIZE + b);
  }

  lemma SectorsApart(g: Geometry, c: nat, s: nat, d: nat, t: nat)
    requires CLUSTER_FIRST <= c && CLUSTER_FIRST <= d && s < g.spc && t < g.spc
    requires SectorOf(g, c, s) == SectorOf(g, d, t)
    ensures c == d && s == t
  {
    if c < d {
      MulMono(c - 1, d - 2, g.spc);
      MulStep(c - 2, g.spc);
    } else if d < c {
      MulMono(d - 1, c - 2, g.spc);
      MulStep(d - 2, g.spc);
    }
  }

  lemma SectorBound(g: Geometry, c: nat, s: nat, last: nat)
    requires CLUSTER_FIRST <= c <= last && s <= g.spc
    ensures g.dataStart <= SectorOf(g, c, s) <= SectorOf(g, last, g.spc)
  {
    MulMono(c - 2, last - 2, g.spc);
  }

  /** The data region is cut into clusters from number 2 on, one behind the other. */
  lemma ClustersTile(g: Geometry, c: nat)
    requires c >= 2
    ensures SectorOf(g, 2, 0) == g.dataStart && SectorOf(g, c, g.spc) == SectorOf(g, c + 1, 0)
  {
    MulStep(c - 2, g.spc);
  }

  /** Every sector of the region belongs to one cluster, in one place. */
  lemma SectorHome(g: Geometry, i: nat, c: nat, s: nat)
    requires g.spc > 0 && c >= 2 && s < g.spc
    ensures SectorOf(g, c, s) == g.dataStart + i <==> c == 2 + i / g.spc && s == i % g.spc
  {
    Recombine(i, g.spc);
    if SectorOf(g, c, s) == g.dataStart + i {
      SectorsApart(g, c, s, 2 + i / g.spc, i % g.spc);
    }
  }

  // ----- The bytes of a chain -----

  /** Clusters that exist. */
  ghost predicate Clusters(g: Geometry, chain: seq<nat>, view: seq<Sector>) {
    && g.spc > 0
    && forall k :: 0 <= k < |chain| ==> CLUSTER_FIRST <= chain[k] && SectorOf(g, chain[k], g.spc) <= |view|
  }

  /** The number on the disc of sector t of the file. */
  function Number(g: Geometry, chain: seq<nat>, t: nat): nat
    requires g.spc > 0 && t / g.spc < |chain| && chain[t / g.spc] >= CLUSTER_FIRST
  {
    SectorOf(g, chain[t / g.spc], t % g.spc)
  }

  lemma NumberFits(g: Geometry, chain: seq<nat>, view: seq<Sector>, p: nat)
    requires Clusters(g, chain, view) && p < Offset(g, |chain|, 0, 0)
    ensures var t := p / SIZE; t / g.spc < |chain| && chain[t / g.spc] >= CLUSTER_FIRST && Number(g, chain, t) < |view|
  {
    var t := p / SIZE;
    var k := t / g.spc;
    assert t == k * g.spc + t % g.spc by { Recombine(t, g.spc); }
    if k >= |chain| {
      MulMono(|chain|, k, g.spc);
    }
  }

  /** Byte p of the file. */
  ghost function ByteAt(g: Geometry, chain: seq<nat>, view: seq<Sector>, p: nat): Byte
    requires Clusters(g, chain, view) && p < Offset(g, |chain|, 0, 0)
  {
    NumberFits(g, chain, view, p);
    view[Number(g, chain, p / SIZE)][p % SIZE]
  }

  /** Which byte of the disc that is: byte p % 512 of a sector, which is in the cluster that
      the chain names for it. */
  lemma ByteIs(g: Geometry, chain: seq<nat>, view: seq<Sector>, p: nat)
    requires Clusters(g, chain, view) && p / 512 / g.spc < |chain|
    ensures p < Offset(g, |chain|, 0, 0)
    ensures var t := p / 512;
            var c := chain[t / g.spc];
            && c >= 2 && g.dataStart + (c - 2) * g.spc + t % g.spc < |view|
            && ByteAt(g, chain, view, p) == view[g.dataStart + (c - 2) * g.spc + t % g.spc][p % 512]
  {
    BeforeEnd(g, |chain|, p);
    hide Offset;
    NumberFits(g, chain, view, p);
  }

  lemma BeforeEnd(g: Geometry, n: nat, p: nat)
    requires g.spc > 0 && p / 512 / g.spc < n
    ensures p < Offset(g, n, 0, 0)
  {
    Recombine(p, 512);
    Recombine(p / 512, g.spc);
    MulStep(p / 512 / g.spc, g.spc);
    MulMono(p / 512 / g.spc + 1, n, g.spc);
  }

  /** n bytes from p on. */
  ghost function Slice(g: Geometry, chain: seq<nat>, view: seq<Sector>, p: nat, n: nat): (r: seq<Byte>)
    requires Clusters(g, chain, view) && p + n <= Offset(g, |chain|, 0, 0)
    ensures |r| == n
  {
    seq<Byte>(n, i requires 0 <= i < n => ByteAt(g, chain, view, p + i))
  }

  lemma SliceSplit(g: Geometry, chain: seq<nat>, view: seq<Sector>, p: nat, m: nat, n: nat)
    requires Clusters(g, chain, view) && p + m + n <= Offset(g, |chain|, 0, 0)
    ensures Slice(g, chain, view, p, m + n) == Slice(g, chain, view, p, m) + Slice(g, chain, view, p + m, n)
  {
    hide Offset, ByteAt;
  }

  lemma NumberAt(g: Geometry, chain: seq<nat>, view: seq<Sector>, k: nat, s: nat, b: nat)
    requires Clusters(g, chain, view) && k < |chain| && s < g.spc && b < SIZE
    ensures Offset(g, k, s, b) < Offset(g, |chain|, 0, 0)
    ensures var t := Offset(g, k, s, b) / SIZE;
            t / g.spc == k && Number(g, chain, t) == SectorOf(g, chain[k], s) < |view|
    ensures ByteAt(g, chain, view, Offset(g, k, s, b)) == view[SectorOf(g, chain[k], s)][b]
  {
    OffsetSplit(g, k, s, b);
    MulMono(k + 1, |chain|, g.spc);
    MulStep(k, g.spc);
  }

  /** Part of a sector of a cluster is that part of the file. */
  lemma SlicePart(g: Geometry, chain: seq<nat>, view: seq<Sector>, k: nat, s: nat, b: nat, n: nat)
    requires Clusters(g, chain, view) && k < |chain| && s < g.spc && b + n <= SIZE && b < SIZE
    ensures Offset(g, k, s, b) + n <= Offset(g, |chain|, 0, 0) && SectorOf(g, chain[k], s) < |view|
    ensures Slice(g, chain, view, Offset(g, k, s, b), n) == view[SectorOf(g, chain[k], s)][b..b + n]
  {
    NumberAt(g, chain, view, k, s, 0);
    OffsetEnd(g, k, s, |chain|);
    OffsetAdd(g, k, s, 0, 0, b + n);
    OffsetAdd(g, k, s, 0, 0, b);
    hide Offset, ByteAt;
    OffsetAdd(g, k, s, b, 0, n);
    var r, w := Slice(g, chain, view, Offset(g, k, s, b), n), view[SectorOf(g, chain[k], s)][b..b + n];
    forall i | 0 <= i < n
      ensures r[i] == w[i]
    {
      NumberAt(g, chain, view, k, s, b + i);
      OffsetAdd(g, k, s, b, 0, i);
    }
  }

  lemma OffsetEnd(g: Geometry, k: nat, s: nat, n: nat)
    requires k < n && s < g.spc
    ensures Offset(g, k, s, SIZE) <= Offset(g, n, 0, 0)
  {
    MulMono(k + 1, n, g.spc);
    MulStep(k, g.spc);
  }

  /** Whole sectors of a cluster are that part of the file. */
  lemma {:induction false} SliceSectors(g: Geometry, chain: seq<nat>, view: seq<Sector>, k: nat, s: nat, m: nat)
    requires Clusters(g, chain, view) && k < |chain| && s + m <= g.spc
    ensures Offset(g, k, s, 0) + SIZE * m <= Offset(g, |chain|, 0, 0) && SectorOf(g, chain[k], s) + m <= |view|
    ensures Slice(g, chain, view, Offset(g, k, s, 0),
        SIZE * m) == Flat(view[SectorOf(g, chain[k], s)..SectorOf(g, chain[k], s) + m], 0, m)
    decreases m
  {
    var at := SectorOf(g, chain[k], s);
    if m == 0 {
      OffsetAll(g, k, s, |chain|);
    } else {
      SliceSectors(g, chain, view, k, s, m - 1);
      SlicePart(g, chain, view, k, s + m - 1, 0, SIZE);
      OffsetAdd(g, k, s, 0, m - 1, 0);
      SliceSplit(g, chain, view, Offset(g, k, s, 0), SIZE * (m - 1), SIZE);
      FlatLast(view[at..at + m]);
      assert view[at..at + m][..m - 1] == view[at..at + m - 1];
    }
  }

  lemma OffsetAll(g: Geometry, k: nat, s: nat, n: nat)
    requires k < n && s <= g.spc
    ensures Offset(g, k, s, 0) <= Offset(g, n, 0, 0)
  {
    MulMono(k + 1, n, g.spc);
    MulStep(k, g.spc);
  }

  lemma FlatLast(v: seq<Sector>)
    requires |v| > 0
    ensures Flat(v, 0, |v|) == Flat(v[..|v| - 1], 0, |v| - 1) + v[|v| - 1][0..SIZE]
  {
  }

  // ----- What can be read -----

  /** No sector of the range is stale, and none of those that lie in it as a whole,
      which are read from the disc directly, is dirty in the cache. */
  ghost predicate Readable(g: Geometry, chain: seq<nat>, p: nat, len: nat, stale: set<nat>, dirt: set<nat>)
    requires g.spc > 0
  {
    forall t: nat :: p / SIZE <= t && t * SIZE < p + len && t / g.spc < |chain| && chain[t / g.spc] >= CLUSTER_FIRST ==>
      && Number(g, chain, t) !in stale
      && (p <= t * SIZE && (t + 1) * SIZE <= p + len ==> Number(g, chain, t) !in dirt)
  }

  lemma PartReadable(g: Geometry, chain: seq<nat>, view: seq<Sector>, p: nat, len: nat, stale: set<nat>, dirt: set<nat>,
                     k: nat, s: nat, b: nat, n: nat)
    requires Clusters(g, chain, view) && Readable(g, chain, p, len, stale, dirt)
    requires k < |chain| && s < g.spc && 0 < n && b + n <= SIZE && p <= Offset(g, k, s, b)
    requires Offset(g, k, s, b) + n <= p + len
    ensures SectorOf(g, chain[k], s) !in stale
    ensures b == 0 && n == SIZE ==> SectorOf(g, chain[k], s) !in dirt
  {
    NumberAt(g, chain, view, k, s, b);
    OffsetSplit(g, k, s, b);
    var t := Offset(g, k, s, b) / SIZE;
    Recombine(p, SIZE);
    assert Number(g, chain, t) == SectorOf(g, chain[k], s);
  }

  lemma RunReadable(g: Geometry, chain: seq<nat>, view: seq<Sector>, p: nat, len: nat, stale: set<nat>, dirt: set<nat>,
                    k: nat, s: nat, m: nat)
    requires Clusters(g, chain, view) && Readable(g, chain, p, len, stale, dirt)
    requires k < |chain| && s + m <= g.spc && p <= Offset(g, k, s, 0) && Offset(g, k, s, 0) + SIZE * m <= p + len
    ensures forall t: nat :: SectorOf(g, chain[k], s) <= t < SectorOf(g, chain[k], s) + m ==> t !in stale && t !in dirt
  {
    forall t: nat | SectorOf(g, chain[k], s) <= t < SectorOf(g, chain[k], s) + m
      ensures t !in stale && t !in dirt
    {
      var i := t - SectorOf(g, chain[k], s);
      OffsetAdd(g, k, s, 0, i, 0);
      PartReadable(g, chain, view, p, len, stale, dirt, k, s + i, 0, SIZE);
    }
  }
}
