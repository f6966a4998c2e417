/** Reading, seeking and writing a file over its chain of clusters. */
module FatFile {
  import opened Bits
  import opened Cache
  import opened FatTable
  import opened FatVolume
  import opened FatChains
  import opened FatAlloc
  import opened FileLayout

  datatype Whence = SEEK_SET | SEEK_CUR | SEEK_END

  /** pos is byte p of the file, in cluster k of its chain; the end of a cluster may
      stand for the beginning of the next. */
  ghost predicate IsAt(g: Geometry, chain: seq<nat>, pos: Position, k: nat, p: nat) {
    && k < |chain| && pos.cluster == chain[k] && pos.sector <= g.spc && pos.byte < SIZE
    && (pos.sector == g.spc ==> pos.byte == 0) && p == Offset(g, k, pos.sector, pos.byte)
  }

  /** A read in progress: the chain of the file, what the file system saw when the read
      began, the range to be read, and the sectors that were stale or dirty then. */
  datatype Reading = Reading(g: Geometry, chain: seq<nat>, view: seq<Sector>, from: nat, len: nat, stale: set<nat>,
      dirt: set<nat>)

  ghost predicate Promised(x: Reading) {
    x.g.spc > 0 && Readable(x.g, x.chain, x.from, x.len, x.stale, x.dirt)
  }

  /** The range lies in the chain. */
  ghost predicate Proper(x: Reading) {
    x.g.spc > 0 && Clusters(x.g, x.chain, x.view) && x.from + x.len <= Offset(x.g, |x.chain|, 0, 0)
  }

  /** n bytes from p on belong to the range. */
  ghost predicate InRange(x: Reading, p: nat, n: nat) { x.from <= p && p + n <= x.from + x.len }

  /** b is what the file held from byte p on, if the range can be read. */
  ghost predicate Got(x: Reading, p: nat, b: seq<Byte>) {
    && Proper(x) && p + |b| <= Offset(x.g, |x.chain|, 0, 0)
    && (Promised(x) ==> b == Slice(x.g, x.chain, x.view, p, |b|))
  }

  lemma GotNone(x: Reading, p: nat)
    requires Proper(x) && p <= Offset(x.g, |x.chain|, 0, 0)
    ensures Got(x, p, [])
  {
  }

  lemma GotMore(x: Reading, p: nat, a: seq<Byte>, b: seq<Byte>)
    requires Got(x, p, a) && Got(x, p + |a|, b)
    ensures Got(x, p, a + b)
  {
    hide Offset;
    SliceSplit(x.g, x.chain, x.view, p, |a|, |b|);
  }

  lemma RangeFits(x: Reading, p: nat, n: nat)
    requires Proper(x) && InRange(x, p, n)
    ensures p + n <= Offset(x.g, |x.chain|, 0, 0)
    ensures x.from <= p && p + n <= x.from + x.len && x.g.spc > 0
  {
  }

  lemma WholeRange(x: Reading)
    ensures InRange(x, x.from, x.len)
  {
  }

  lemma RangePart(x: Reading, p: nat, n: nat, m: nat)
    requires InRange(x, p, n) && m <= n
    ensures InRange(x, p, m) && InRange(x, p + m, n - m)
  {
  }

  lemma AtParts(g: Geometry, chain: seq<nat>, pos: Position, k: nat, p: nat)
    requires IsAt(g, chain, pos, k, p)
    ensures k < |chain| && pos.cluster == chain[k] && pos.sector <= g.spc && pos.byte < SIZE
    ensures (pos.sector == g.spc ==> pos.byte == 0) && p == Offset(g, k, pos.sector, pos.byte)
  {
  }

  /** position.byte += n, and on to the next sector at the end of this one. */
  function Advance(pos: Position, n: nat): Position {
    if pos.byte + n >= SIZE then Position(pos.cluster, pos.sector + 1, 0) else pos.(byte := pos.byte + n)
  }

  lemma AfterSome(g: Geometry, chain: seq<nat>, pos: Position, k: nat, p: nat, n: nat)
    requires IsAt(g, chain, pos, k, p) && pos.sector < g.spc && pos.byte + n <= SIZE
    ensures IsAt(g, chain, Advance(pos, n), k, p + n)
  {
    OffsetAdd(g, k, pos.sector, pos.byte, 0, n);
    OffsetAdd(g, k, pos.sector, 0, 0, 0);
  }

  lemma AfterSectors(g: Geometry, chain: seq<nat>, pos: Position, k: nat, p: nat, m: nat)
    requires IsAt(g, chain, pos, k, p) && pos.byte == 0 && pos.sector + m <= g.spc
    ensures IsAt(g, chain, pos.(sector := pos.sector + m), k, p + SIZE * m)
  {
    OffsetAdd(g, k, pos.sector, 0, m, 0);
  }

  /** The end of a cluster is the beginning of the next. */
  lemma AtNext(g: Geometry, chain: seq<nat>, pos: Position, k: nat, p: nat)
    requires IsAt(g, chain, pos, k, p) && pos.sector == g.spc > 0
    ensures k + 1 < |chain| ==> IsAt(g, chain, Position(chain[k + 1], 0, 0), k + 1, p)
    ensures k + 1 == |chain| ==> p == Offset(g, |chain|, 0, 0)
  {
    OffsetNext(g, k);
  }

  class File {
    const v: Volume
    const g: Geometry
    const write: bool

    var filesize: nat
    var startCluster: nat
    var currentPosition: nat
    var rw: Position                // rwPosition

    ghost var chains: seq<seq<nat>> // all chains of the volume
    ghost var own: nat              // which of them is this file's
    ghost var spill: seq<nat>       // clusters written after those of the chain that nothing links to
    ghost var runs: seq<Direct>     // the direct writes of the last write

    constructor (v: Volume, g: Geometry, write: bool, filesize: nat, startCluster: nat)
      ensures this.v == v && this.g == g && this.write == write && this.filesize == filesize
      ensures this.startCluster == startCluster && currentPosition == 0 && rw == Position(startCluster, 0, 0)
      ensures spill == []
    {
      this.v, this.g, this.write := v, g, write;
      this.filesize, this.startCluster := filesize, startCluster;
      currentPosition, rw, spill := 0, Position(startCluster, 0, 0), [];
    }

    ghost function Chain(): seq<nat>
      reads `chains, `own
    {
      if own < |chains| then chains[own] else []
    }

    /** The clusters that a write goes over. */
    ghost function Whole(): seq<nat>
      reads `chains, `own, `spill
    {
      Chain() + spill
    }

    /** The volume is sound, and this file has a chain on it. */
    ghost predicate Mounted()
      reads `startCluster, `chains, `own, v, v.cache`stale, v.cache.entries, v.cache.pages, v.cache.disc.sectors
    {
      && Ready(v) && Partition(Links(v), chains) && own < |chains| && |Chain()| > 0 && Chain()[0] == startCluster
      && g.spc > 0 && v.fatStart + v.fatSectors <= g.dataStart
      && SectorOf(g, v.lastCluster, g.spc) <= v.cache.disc.sectors.Length
    }

    ghost predicate At(pos: Position, k: nat, p: nat)
      reads `chains, `own
    {
      IsAt(g, Chain(), pos, k, p)
    }

    /** The end of a file that fills its last cluster, after a seek on a file not open for writing. */
    ghost predicate AtReadOnlyEnd()
      reads `filesize, `currentPosition, `rw, `chains, `own
    {
      && !write && |Chain()| > 0 && currentPosition == filesize == Offset(g, |Chain()|, 0, 0)
      && rw == Position(Chain()[|Chain()| - 1], 0, 0)
    }

    /** The position is right except past the end of the file. */
    ghost predicate Placed()
      reads `filesize, `currentPosition, `rw, `chains, `own
    {
      currentPosition <= filesize ==> AtReadOnlyEnd() || exists k: nat :: At(rw, k, currentPosition)
    }

    ghost predicate Valid()
      reads `startCluster, `filesize, `currentPosition, `rw, `chains, `own, `spill, v, v.cache`stale, v.cache.entries,
            v.cache.pages, v.cache.disc.sectors
    {
      Mounted() && spill == [] && filesize <= Offset(g, |Chain()|, 0, 0) && Placed()
    }

    // ----- The chain -----

    lemma MountedIs()
      requires Mounted()
      ensures v.Valid() && v.cache.disc.reliable && v.cache.entries.Length == v.cache.pages.Length
      ensures own < |chains| && |Chain()| > 0 && Chain()[0] == startCluster && g.spc > 0 && Chain() == chains[own]
    {
      ReadyIs(v);
    }

    lemma ReadyAnd()
      requires Mounted()
      ensures Ready(v)
    {
    }

    lemma ClusterAt(k: nat)
      requires Mounted() && k < |Chain()|
      ensures CLUSTER_FIRST <= Chain()[k] <= v.lastCluster && Links(v)[Chain()[k]] == After(Chain(), k)
      ensures k + 1 < |Chain()| ==> CLUSTER_FIRST <= Chain()[k + 1] <= v.lastCluster < CLUSTER_EOF
    {
      ChainAt(Links(v), chains, own, k);
      if k + 1 < |Chain()| { ChainAt(Links(v), chains, own, k + 1); }
    }

    /** _FAT_fat_nextCluster from cluster k of the chain. */
    method Follow(c: nat, ghost k: nat) returns (next: nat)
      requires Mounted() && k < |Chain()| && c == Chain()[k]
      modifies v.cache.entries, v.cache.pages, v.cache.disc.sectors
      ensures Mounted() && v.Unchanged(old(v.cache.Contents()))
      ensures Dirt(v.cache.entries[..]) <= old(Dirt(v.cache.entries[..]))
      ensures next == After(Chain(), k)
      ensures k + 1 < |Chain()| ==> next == Chain()[k + 1] && CLUSTER_FIRST <= next < CLUSTER_EOF
      ensures v.Valid() && Links(v) == old(Links(v)) && Beyond(v) == old(Beyond(v)) && v.Cached() <= old(v.Cached())
    {
      hide Ready, Partition, Links, Beyond, Volume.Valid, Volume.Unchanged, Volume.Cached, SectorOf;
      MountedIs();
      ClusterAt(k);
      next := NextOf(v, c);
    }

    // ----- Seeking -----

    /** Follow links until n have been followed or the chain ends. */
    method Walk(c: nat, n: int, ghost k: nat) returns (cluster: nat, rest: int)
      requires Mounted() && k < |Chain()| && c == Chain()[k] && n >= 0
      modifies v.cache.entries, v.cache.pages, v.cache.disc.sectors
      ensures Mounted() && v.Unchanged(old(v.cache.Contents()))
      ensures k + n < |Chain()| ==> cluster == Chain()[k + n] && rest == 0
      ensures k + n >= |Chain()| ==> cluster == Chain()[|Chain()| - 1] && rest == k + n - (|Chain()| - 1)
    {
      hide Mounted, After, Same, Chain, Links, Beyond, Volume.Valid, Volume.Cached;
      MountedIs();
      cluster, rest := c, n;
      ghost var j := k;
      ghost var v0 := v.cache.Contents();
      var next := Follow(cluster, j);
      while rest > 0 && next != CLUSTER_FREE && next != CLUSTER_EOF
        invariant Mounted() && v.Unchanged(v0) && rest >= 0 && j + rest == k + n
        invariant j < |Chain()| && cluster == Chain()[j] && next == After(Chain(), j)
        invariant j + 1 < |Chain()| ==> next == Chain()[j + 1] && CLUSTER_FIRST <= next < CLUSTER_EOF
        decreases rest
      {
        AfterNext(Chain(), j);
        rest := rest - 1;
        cluster := next;
        j := j + 1;
        ghost var v1 := v.cache.Contents();
        next := Follow(cluster, j);
        SameTrans(v0, v1, v.cache.Contents(), v.cache.stale);
      }
      AfterNext(Chain(), j);
    }

    /** Where byte p of the file is, counted from the start of the chain; at the end of a
        full chain, as a file open for writing or for reading only keeps it. */
    ghost function Home(p: nat): Position
      requires g.spc > 0 && |Chain()| > 0 && p <= Offset(g, |Chain()|, 0, 0)
      reads `chains, `own
    {
      if p < Offset(g, |Chain()|, 0, 0) then
        NumberOk(p);
        Position(Chain()[p / SIZE / g.spc], p / SIZE % g.spc, p % SIZE)
      else Position(Chain()[|Chain()| - 1], if write then g.spc else 0, 0)
    }

    lemma NumberOk(p: nat)
      requires g.spc > 0 && p < Offset(g, |Chain()|, 0, 0)
      ensures p / SIZE / g.spc < |Chain()|
    {
      var t := p / SIZE;
      Recombine(t, g.spc);
      if t / g.spc >= |Chain()| { MulMono(|Chain()|, t / g.spc, g.spc); }
    }

    /** The cluster index, sector and byte of p by the divisions the code makes. */
    lemma Divisions(p: nat)
      requires g.spc > 0
      ensures var bpc := g.spc * SIZE;
              && bpc > 0 && p / bpc == p / SIZE / g.spc && p % bpc / SIZE == p / SIZE % g.spc
              && p == Offset(g, p / SIZE / g.spc, p / SIZE % g.spc, p % SIZE)
              && p / SIZE % g.spc < g.spc
    {
      var t := p / SIZE;
      Recombine(t, g.spc);
      Recombine(p, SIZE);
      OffsetSplit(g, t / g.spc, t % g.spc, p % SIZE);
    }

    /** The index of the cluster a position is in, by the division the code makes; at the end of a cluster one more. */
    lemma IndexOf(pos: Position, k: nat, p: nat)
      requires g.spc > 0 && At(pos, k, p)
      ensures g.spc * SIZE > 0 && p / (g.spc * SIZE) == if pos.sector >= g.spc then k + 1 else k
    {
      if pos.sector >= g.spc {
        OffsetNext(g, k);
        OffsetSplit(g, k + 1, 0, 0);
      } else {
        OffsetSplit(g, k, pos.sector, pos.byte);
      }
    }

    /** That is where the position belongs. */
    lemma HomeIs(p: nat)
      requires g.spc > 0 && |Chain()| > 0 && p <= Offset(g, |Chain()|, 0, 0)
      ensures if p < Offset(g, |Chain()|, 0, 0) || write then exists k: nat :: At(Home(p), k, p)
              else Home(p) == Position(Chain()[|Chain()| - 1], 0, 0)
    {
      hide Offset, Chain;
      if p < Offset(g, |Chain()|, 0, 0) {
        NumberOk(p);
        Divisions(p);
        assert At(Home(p), p / SIZE / g.spc, p);
      } else if write {
        OffsetNext(g, |Chain()| - 1);
        assert At(Home(p), |Chain()| - 1, p);
      }
    }

    lemma PlacedAtHome()
      requires g.spc > 0 && |Chain()| > 0 && currentPosition <= filesize <= Offset(g, |Chain()|, 0, 0)
      requires rw == Home(currentPosition)
      ensures Placed()
    {
      HomeIs(currentPosition);
    }

    /** _FAT_seek_r: the new position, or -1. Where the file stands then depends on that
        position alone, not on where the walk along the chain began. */
    method Seek(pos: int, dir: Whence) returns (r: int)
      requires Valid()
      modifies `currentPosition, `rw, v.cache.entries, v.cache.pages, v.cache.disc.sectors
      ensures Valid() && v.Unchanged(old(v.cache.Contents()))
      ensures var position := pos + (match dir
                                     case SEEK_SET => 0
                                     case SEEK_CUR => old(currentPosition)
                                     case SEEK_END => filesize);
              r == if position < 0 then -1 else position
      ensures currentPosition == if r < 0 then old(currentPosition) else r
      ensures rw == if 0 <= r <= filesize then Home(r) else old(rw)
    {
      hide Same, Mounted, Home, Offset, Chain;
      MountedIs();
      SameRefl(v.cache.Contents(), v.cache.stale);
      var position := match dir
        case SEEK_SET => pos
        case SEEK_CUR => currentPosition + pos
        case SEEK_END => filesize + pos;
      if position < 0 { return -1; }
      if filesize >= position {
        MoveTo(position);
        MountedIs();
        currentPosition := position;
        PlacedAtHome();
      }
      currentPosition := position;
      r := position;
    }

    /** The part of _FAT_seek_r that moves within the file. */
    method MoveTo(position: nat)
      requires Valid() && position <= filesize
      modifies `rw, v.cache.entries, v.cache.pages, v.cache.disc.sectors
      ensures Mounted() && v.Unchanged(old(v.cache.Contents())) && rw == Home(position)
    {
      hide Same, Mounted, Offset, Chain, At;
      MountedIs();
      var bpc := g.spc * SIZE;
      var clusCount, cluster; ghost var k;
      clusCount, cluster, k := Begin(position);
      Divisions(position);
      ghost var end := AtReadOnlyEnd();
      var sector, byte := position % bpc / SIZE, position % SIZE;
      HomeOf(position, end, bpc, position / bpc, sector);
      cluster, clusCount := Walk(cluster, clusCount, k);
      if clusCount > 0 && write {
        sector, byte := g.spc, 0;
      }
      rw := Position(cluster, sector, byte);
    }

    /** The divisions at the end of a full chain, and before it. */
    lemma HomeOf(p: nat, end: bool, bpc: nat, k: nat, s: nat)
      requires g.spc > 0 && |Chain()| > 0 && p <= filesize <= Offset(g, |Chain()|, 0, 0) && end == AtReadOnlyEnd()
      requires bpc == g.spc * SIZE > 0 && k == p / bpc && s == p % bpc / SIZE
      ensures if p < Offset(g, |Chain()|, 0, 0) then
                k < |Chain()| && Home(p) == Position(Chain()[k], s, p % SIZE) && (end ==> p != filesize)
              else p == filesize && k == |Chain()| && s == 0 && p % SIZE == 0
                   && Home(p) == Position(Chain()[|Chain()| - 1], if write then g.spc else 0, 0)
    {
      Divisions(p);
      if p < Offset(g, |Chain()|, 0, 0) { NumberOk(p); } else { OffsetSplit(g, |Chain()|, 0, 0); }
    }

    /** Where to begin and how many links to follow. */
    method Begin(position: nat) returns (clusCount: int, cluster: nat, ghost k: nat)
      requires Valid() && position <= filesize
      ensures k < |Chain()| && cluster == Chain()[k] && clusCount >= 0
      ensures g.spc * SIZE > 0
      ensures if AtReadOnlyEnd() && position == filesize then !write && k + clusCount == |Chain()| - 1
              else k + clusCount == position / (g.spc * SIZE)
    {
      hide Mounted, Offset, Chain, At, Volume.Valid;
      MountedIs();
      var bpc := g.spc * SIZE;
      Divisions(position);
      if position >= currentPosition {
        DivMono(currentPosition, position, bpc);
        clusCount := position / bpc - currentPosition / bpc;
        cluster := rw.cluster;
        if rw.sector >= g.spc { clusCount := clusCount + 1; }
        if AtReadOnlyEnd() {
          k := |Chain()| - 1;
        } else {
          k :| At(rw, k, currentPosition);
          IndexOf(rw, k, currentPosition);
          AtIs(rw, k, currentPosition);
        }
      } else {
        clusCount := position / bpc;
        cluster := startCluster;
        k := 0;
      }
    }

    lemma AtIs(pos: Position, k: nat, p: nat)
      requires At(pos, k, p)
      ensures k < |Chain()| && pos.cluster == Chain()[k] && pos.sector <= g.spc && pos.byte < SIZE
      ensures (pos.sector == g.spc ==> pos.byte == 0) && p == Offset(g, k, pos.sector, pos.byte)
    {
    }

    // ----- Reading -----

    ghost predicate Sound(x: Reading)
      reads `startCluster, `chains, `own, v, v.cache`stale, v.cache.entries, v.cache.pages, v.cache.disc.sectors
    {
      && Mounted() && v.cache.entries.Length == v.cache.pages.Length && x.g == g && x.chain == Chain() && Proper(x)
      && v.Unchanged(x.view) && x.stale == v.cache.stale && Dirt(v.cache.entries[..]) <= x.dirt
    }

    lemma SoundIs(x: Reading)
      requires Sound(x)
      ensures Mounted() && v.Valid() && v.cache.disc.reliable && v.cache.entries.Length == v.cache.pages.Length
      ensures own < |chains| && |x.chain| > 0 && g.spc > 0 && Clusters(g, x.chain, x.view) && Proper(x)
      ensures x.g == g && x.chain == Chain() && x.stale == v.cache.stale
    {
      MountedIs();
    }

    /** Sound, with its definition in one place. */
    lemma SoundAs(x: Reading)
      ensures Sound(x) <==>
              && Mounted() && v.cache.entries.Length == v.cache.pages.Length && x.g == g && x.chain == Chain()
              && Proper(x) && Same(x.view, v.cache.Contents(), v.cache.stale)
              && x.stale == v.cache.stale && Dirt(v.cache.entries[..]) <= x.dirt
    {
    }

    /** The sector of a place in the chain is on the disc. */
    lemma OnDisc(k: nat, s: nat, m: nat)
      requires Mounted() && k < |Chain()| && s + m <= g.spc
      ensures Chain()[k] >= CLUSTER_FIRST && v.cache.disc.sectors.Length < CACHE_FREE
      ensures v.fatStart + v.fatSectors <= SectorOf(g, Chain()[k], s)
      ensures SectorOf(g, Chain()[k], s) + m <= v.cache.disc.sectors.Length
    {
      MountedIs();
      ClusterAt(k);
      SectorBound(g, Chain()[k], s, v.lastCluster);
      SectorBound(g, Chain()[k], s + m, v.lastCluster);
      v.cache.SmallDisc();
    }

    /** The links and the reserved entries stay when the table does. */
    lemma StillMounted(links: seq<nat>)
      requires v.Valid() && v.cache.disc.reliable && v.firstFree <= v.lastCluster + 1
      requires Links(v) == links && |links| == v.lastCluster + 1 && v.lastCluster >= 1
      requires !IsCluster(links, links[0]) && !IsCluster(links, links[1]) && Partition(links, chains)
      requires own < |chains| && |Chain()| > 0 && Chain()[0] == startCluster && g.spc > 0
      requires v.fatStart + v.fatSectors <= g.dataStart
      requires SectorOf(g, v.lastCluster, g.spc) <= v.cache.disc.sectors.Length
      ensures Mounted()
    {
    }

    /** All of what Mounted says. */
    lemma MountedParts(links: seq<nat>)
      requires Mounted() && v.Valid() && links == Links(v)
      ensures v.cache.disc.reliable && v.firstFree <= v.lastCluster + 1 && |links| == v.lastCluster + 1
      ensures v.lastCluster >= 1
      ensures !IsCluster(links, links[0]) && !IsCluster(links, links[1]) && Partition(links, chains)
      ensures own < |chains| && |Chain()| > 0 && Chain()[0] == startCluster && g.spc > 0
      ensures v.fatStart + v.fatSectors <= g.dataStart
      ensures SectorOf(g, v.lastCluster, g.spc) <= v.cache.disc.sectors.Length
    {
      ReadyIs(v);
      Sizes(v);
    }

    /** _FAT_cache_readPartialSector in cluster k. */
    method ReadPart(c: nat, s: nat, offset: nat, n: nat, ghost k: nat, ghost x: Reading) returns (b: seq<Byte>)
      requires Sound(x) && k < |x.chain| && c == x.chain[k] && s < g.spc && offset + n <= SIZE && offset < SIZE && n > 0
      requires InRange(x, Offset(g, k, s, offset), n)
      modifies v.cache.entries, v.cache.pages, v.cache.disc.sectors
      ensures Sound(x) && |b| == n && Got(x, Offset(g, k, s, offset), b)
    {
      SoundIs(x);
      OnDisc(k, s, 1);
      ghost var links, v0 := Links(v), v.cache.Contents();
      MountedParts(links);
      SoundAs(x);
      hide Mounted, Volume.Valid, Links, Partition, Offset, Chain, Same, SectorOf, Clusters, IsAt, Got, Proper;
      hide Promised, Sound, View, Good, InRange;
      LinksIs(v);
      var ok;
      ok, b := v.ReadData(SectorOf(g, c, s), offset, n);
      LinksIs(v);
      SameTrans(x.view, v0, v.cache.Contents(), v.cache.stale);
      StillMounted(links);
      SoundAs(x);
      PartGot(x, v.cache.Contents(), k, s, offset, b);
    }

    /** _FAT_disc_readSectors in cluster k. */
    method ReadRun(c: nat, s: nat, m: nat, ghost k: nat, ghost x: Reading) returns (b: seq<Byte>)
      requires Sound(x) && k < |x.chain| && c == x.chain[k] && s + m <= g.spc && s < g.spc
      requires InRange(x, Offset(g, k, s, 0), SIZE * m)
      ensures |b| == SIZE * m && Got(x, Offset(g, k, s, 0), b)
    {
      SoundIs(x);
      OnDisc(k, s, m);
      v.cache.Sizes();
      assert Same(x.view, v.cache.Contents(), x.stale) && Dirt(v.cache.entries[..]) <= x.dirt;
      hide Mounted, Sound, Volume.Valid, Links, Partition, Offset, Chain, Same, SectorOf, Clusters, DirectlyRead, View;
      hide Good, Got, Proper, Promised;
      var ok, sectors := v.cache.ReadDirect(SectorOf(g, c, s), m);
      b := Flat(sectors, 0, m);
      RunGot(x, v.cache.Contents(), Dirt(v.cache.entries[..]), k, s, sectors);
    }

    /** Follow a link while reading. */
    method FollowOn(c: nat, ghost k: nat, ghost x: Reading) returns (next: nat)
      requires Sound(x) && k < |x.chain| && c == x.chain[k]
      modifies v.cache.entries, v.cache.pages, v.cache.disc.sectors
      ensures Sound(x)
      ensures if k + 1 < |x.chain| then next == x.chain[k + 1] && CLUSTER_FIRST <= next < CLUSTER_EOF
          else next == CLUSTER_EOF
    {
      hide Mounted, Offset, Same, After, Clusters, Proper;
      SoundIs(x);
      AfterNext(Chain(), k);
      ghost var v0 := v.cache.Contents();
      next := Follow(c, k);
      SameTrans(x.view, v0, v.cache.Contents(), v.cache.stale);
    }

    /** Move onto the next cluster; at the end of the chain the position stays. */
    method Cross(pos: Position, ghost k: nat, ghost p: nat, ghost x: Reading) returns (pos2: Position, ghost k2: nat)
      requires Sound(x) && IsAt(g, x.chain, pos, k, p) && pos.sector == g.spc
      modifies v.cache.entries, v.cache.pages, v.cache.disc.sectors
      ensures Sound(x) && IsAt(g, x.chain, pos2, k2, p)
      ensures p < Offset(g, |x.chain|, 0, 0) ==> pos2.sector == 0 && pos2.byte == 0
    {
      hide Mounted, Sound, Volume.Valid, Links, Partition, Offset, Chain, Same, SectorOf, Clusters, IsAt, Got, Proper;
      hide Promised, Good, View, InRange;
      SoundIs(x);
      AtParts(g, x.chain, pos, k, p);
      AtNext(g, x.chain, pos, k, p);
      var next := FollowOn(pos.cluster, k, x);
      if next == CLUSTER_EOF {
        pos2, k2 := pos, k;
      } else {
        pos2, k2 := Position(next, 0, 0), k + 1;
      }
    }

    /** Align to sector: the rest of a sector begun, unless a whole sector is wanted. */
    method ReadAlign(pos: Position, remain: nat, ghost k: nat, ghost p: nat, ghost x: Reading)
      returns (pos2: Position, b: seq<Byte>)
      requires Sound(x) && IsAt(g, x.chain, pos, k, p) && pos.sector < g.spc && InRange(x, p, remain) && remain > 0
      modifies v.cache.entries, v.cache.pages, v.cache.disc.sectors
      ensures Sound(x) && |b| <= remain && IsAt(g, x.chain, pos2, k, p + |b|) && Got(x, p, b)
      ensures |b| < remain ==> pos2.byte == 0
    {
      hide Mounted, Sound, Volume.Valid, Links, Partition, Offset, Chain, Same, SectorOf, Clusters, IsAt, Got, Proper;
      hide Promised, Good, View, InRange;
      SoundIs(x);
      AtParts(g, x.chain, pos, k, p);
      RangeFits(x, p, remain);
      GotNone(x, p);
      var n := SIZE - pos.byte;
      if n > remain { n := remain; }
      pos2, b := pos, [];
      if n < SIZE {
        AfterSome(g, x.chain, pos, k, p, n);
        RangePart(x, p, remain, n);
        b := ReadPart(pos.cluster, pos.sector, pos.byte, n, k, x);
        pos2 := Advance(pos, n);
      }
    }

    /** Align to cluster: the whole sectors wanted that are left in the cluster. */
    method ReadCluster(pos: Position, remain: nat, ghost k: nat, ghost p: nat, ghost x: Reading)
      returns (pos2: Position, b: seq<Byte>)
      requires Sound(x) && IsAt(g, x.chain, pos, k, p) && InRange(x, p, remain) && (remain > 0 ==> pos.byte == 0)
      ensures |b| <= remain && IsAt(g, x.chain, pos2, k, p + |b|) && Got(x, p, b)
      ensures remain - |b| > 0 ==> pos2.byte == 0
      ensures remain - |b| >= SIZE ==> pos2.sector == g.spc
    {
      hide Mounted, Sound, Volume.Valid, Links, Partition, Offset, Chain, Same, SectorOf, Clusters, IsAt, Got, Proper;
      hide Promised, Good, View, InRange;
      SoundIs(x);
      AtParts(g, x.chain, pos, k, p);
      RangeFits(x, p, remain);
      GotNone(x, p);
      pos2, b := pos, [];
      if remain >= SIZE && pos.sector < g.spc {
        var m := remain / SIZE;
        if m > g.spc - pos.sector { m := g.spc - pos.sector; }
        AfterSectors(g, x.chain, pos, k, p, m);
        RangePart(x, p, remain, SIZE * m);
        b := ReadRun(pos.cluster, pos.sector, m, k, x);
        pos2 := pos.(sector := pos.sector + m);
      }
    }

    /** One whole cluster, and on to the next. */
    method ReadOneCluster(pos: Position, remain: nat, ghost k: nat, ghost p: nat, ghost x: Reading)
      returns (pos2: Position, b: seq<Byte>, ghost k2: nat)
      requires Sound(x) && IsAt(g, x.chain, pos, k, p) && InRange(x, p, remain) && pos.byte == 0 && pos.sector == 0
      requires remain >= g.spc * SIZE
      modifies v.cache.entries, v.cache.pages, v.cache.disc.sectors
      ensures Sound(x) && |b| == g.spc * SIZE && IsAt(g, x.chain, pos2, k2, p + |b|) && Got(x, p, b)
      ensures remain - |b| > 0 ==> pos2.byte == 0 && pos2.sector == 0 && pos2.sector < g.spc
    {
      hide Mounted, Sound, Volume.Valid, Links, Partition, Offset, Chain, Same, SectorOf, Clusters, IsAt, Got, Proper;
      hide Promised, Good, View, InRange;
      SoundIs(x);
      AtParts(g, x.chain, pos, k, p);
      RangeFits(x, p, remain);
      AfterSectors(g, x.chain, pos, k, p, g.spc);
      ghost var end := pos.(sector := g.spc);
      AtNext(g, x.chain, end, k, p + SIZE * g.spc);
      RangePart(x, p, remain, SIZE * g.spc);
      if remain > SIZE * g.spc { assert p + SIZE * g.spc < Offset(g, |x.chain|, 0, 0); }
      b := ReadRun(pos.cluster, 0, g.spc, k, x);
      var next := FollowOn(pos.cluster, k, x);
      if remain - g.spc * SIZE == 0 && next == CLUSTER_EOF {
        pos2, k2 := pos.(sector := g.spc), k;
      } else {
        pos2, k2 := Position(next, 0, 0), k + 1;
      }
    }

    /** Whole clusters. */
    method ReadClusters(pos: Position, remain0: nat, ghost k: nat, ghost p: nat, ghost x: Reading)
      returns (pos2: Position, b: seq<Byte>, ghost k2: nat)
      requires Sound(x) && IsAt(g, x.chain, pos, k, p) && InRange(x, p, remain0)
      requires (remain0 > 0 ==> pos.byte == 0 && pos.sector < g.spc) && (remain0 >= SIZE ==> pos.sector == 0)
      modifies v.cache.entries, v.cache.pages, v.cache.disc.sectors
      ensures Sound(x) && |b| <= remain0 && remain0 - |b| < g.spc * SIZE && IsAt(g, x.chain, pos2, k2, p + |b|)
      ensures Got(x, p, b)
      ensures remain0 - |b| > 0 ==> pos2.byte == 0 && pos2.sector < g.spc
      ensures remain0 - |b| >= SIZE ==> pos2.sector == 0
    {
      hide Mounted, Sound, Volume.Valid, Links, Partition, Offset, Chain, Same, SectorOf, Clusters, IsAt, Got, Proper;
      hide Promised, Good, View, InRange;
      SoundIs(x);
      RangeFits(x, p, remain0);
      GotNone(x, p);
      pos2, b, k2 := pos, [], k;
      var remain: nat := remain0;
      var bpc := g.spc * SIZE;
      while remain >= bpc
        invariant Sound(x) && |b| + remain == remain0 && IsAt(g, x.chain, pos2, k2, p + |b|) && Got(x, p, b)
        invariant remain > 0 ==> pos2.byte == 0 && pos2.sector < g.spc
        invariant remain >= SIZE ==> pos2.sector == 0
        decreases remain
      {
        var d;
        RangePart(x, p, remain0, |b|);
        pos2, d, k2 := ReadOneCluster(pos2, remain, k2, p + |b|, x);
        GotMore(x, p, b, d);
        b := b + d;
        remain := remain - bpc;
      }
    }

    /** The whole sectors that remain, and then what remains of the last one. */
    method ReadRest(pos: Position, remain0: nat, ghost k: nat, ghost p: nat, ghost x: Reading)
      returns (pos2: Position, b: seq<Byte>)
      requires Sound(x) && IsAt(g, x.chain, pos, k, p) && InRange(x, p, remain0) && remain0 < g.spc * SIZE
      requires (remain0 > 0 ==> pos.byte == 0 && pos.sector < g.spc) && (remain0 >= SIZE ==> pos.sector == 0)
      modifies v.cache.entries, v.cache.pages, v.cache.disc.sectors
      ensures Sound(x) && |b| == remain0 && IsAt(g, x.chain, pos2, k, p + |b|) && Got(x, p, b)
    {
      hide Mounted, Sound, Volume.Valid, Links, Partition, Offset, Chain, Same, SectorOf, Clusters, IsAt, Got, Proper;
      hide Promised, Good, View, InRange;
      SoundIs(x);
      RangeFits(x, p, remain0);
      GotNone(x, p);
      pos2, b := pos, [];
      var m := remain0 / SIZE;
      FewSectors(remain0, g.spc);
      AtParts(g, x.chain, pos, k, p);
      if m > 0 {
        AfterSectors(g, x.chain, pos, k, p, m);
        RangePart(x, p, remain0, SIZE * m);
        b := ReadRun(pos.cluster, 0, m, k, x);
        pos2 := pos.(sector := pos.sector + m);
      }
      var remain: nat := remain0 - SIZE * m;
      if remain > 0 {
        ghost var q := p + |b|;
        RangePart(x, p, remain0, |b|);
        var d := ReadLast(pos2, remain, k, q, x);
        GotMore(x, p, b, d);
        b := b + d;
        pos2 := pos2.(byte := pos2.byte + remain);
      }
    }

    /** The last partial sector. */
    method ReadLast(pos: Position, remain: nat, ghost k: nat, ghost p: nat, ghost x: Reading) returns (b: seq<Byte>)
      requires Sound(x) && IsAt(g, x.chain, pos, k, p) && InRange(x, p, remain) && 0 < remain < SIZE
      requires pos.byte == 0 && pos.sector < g.spc
      modifies v.cache.entries, v.cache.pages, v.cache.disc.sectors
      ensures Sound(x) && |b| == remain && Got(x, p, b)
      ensures IsAt(g, x.chain, pos.(byte := pos.byte + remain), k, p + remain)
    {
      hide Mounted, Sound, Volume.Valid, Links, Partition, Offset, Chain, Same, SectorOf, Clusters, IsAt, Got, Proper;
      hide Promised, Good, View, InRange;
      AtParts(g, x.chain, pos, k, p);
      AfterSome(g, x.chain, pos, k, p, remain);
      SoundIs(x);
      b := ReadPart(pos.cluster, pos.sector, 0, remain, k, x);
    }

    /** From the first byte wanted to the last, when there is one. */
    method ReadAll(pos0: Position, len: nat, ghost k0: nat, ghost x: Reading)
      returns (pos: Position, b: seq<Byte>, ghost k: nat)
      requires Sound(x) && IsAt(g, x.chain, pos0, k0, x.from) && len == x.len > 0
      modifies v.cache.entries, v.cache.pages, v.cache.disc.sectors
      ensures Sound(x) && |b| == len && IsAt(g, x.chain, pos, k, x.from + len) && Got(x, x.from, b)
    {
      hide Mounted, Sound, Volume.Valid, Links, Partition, Offset, Chain, Same, SectorOf, Clusters, IsAt, Got, Proper;
      hide Promised, Good, View, InRange;
      SoundIs(x);
      WholeRange(x);
      RangeFits(x, x.from, len);
      AtParts(g, x.chain, pos0, k0, x.from);
      pos, k := pos0, k0;
      if pos.sector >= g.spc {
        pos, k := Cross(pos, k, x.from, x);
      }
      pos, b := ReadAlign(pos, len, k, x.from, x);
      RangePart(x, x.from, len, |b|);
      AtParts(g, x.chain, pos, k, x.from + |b|);
      var d;
      pos, d := ReadCluster(pos, len - |b|, k, x.from + |b|, x);
      GotMore(x, x.from, b, d);
      b := b + d;
      RangePart(x, x.from, len, |b|);
      AtParts(g, x.chain, pos, k, x.from + |b|);
      if len - |b| > 0 && pos.sector >= g.spc {
        pos, k := Cross(pos, k, x.from + |b|, x);
      }
      pos, d, k := ReadClusters(pos, len - |b|, k, x.from + |b|, x);
      GotMore(x, x.from, b, d);
      b := b + d;
      RangePart(x, x.from, len, |b|);
      pos, d := ReadRest(pos, len - |b|, k, x.from + |b|, x);
      GotMore(x, x.from, b, d);
      b := b + d;
    }

    /** _FAT_read_r: the bytes from the current position to the end of the file at most,
        and the position moves past them. */
    method Read(len0: nat) returns (n: nat, b: seq<Byte>)
      requires Valid() && len0 > 0
      modifies `currentPosition, `rw, v.cache.entries, v.cache.pages, v.cache.disc.sectors
      ensures Valid() && v.Unchanged(old(v.cache.Contents()))
      ensures var p := old(currentPosition);
              && n == |b| == (if p >= filesize then 0 else if p + len0 > filesize then filesize - p else len0)
              && currentPosition == p + n
      ensures n > 0 ==> exists k: nat :: At(rw, k, currentPosition)
      ensures n > 0 ==> g.spc > 0 && Clusters(g, Chain(), old(v.cache.Contents()))
      ensures n > 0 ==> old(currentPosition) + n <= Offset(g, |Chain()|, 0, 0)
      ensures n > 0 && Readable(g, Chain(), old(currentPosition), n, v.cache.stale, old(Dirt(v.cache.entries[..]))) ==>
                b == Slice(g, Chain(), old(v.cache.Contents()), old(currentPosition), n)
    {
      hide Mounted, Sound, Volume.Valid, Links, Partition, Offset, Chain, Same, SectorOf, Clusters, IsAt, Got, Proper;
      hide Promised, Good, View, InRange;
      MountedIs();
      SameRefl(v.cache.Contents(), v.cache.stale);
      if currentPosition >= filesize { return 0, []; }
      var len := len0;
      if len + currentPosition > filesize { len := filesize - currentPosition; }
      ghost var x := Reading(g, Chain(), v.cache.Contents(), currentPosition, len, v.cache.stale,
                             Dirt(v.cache.entries[..]));
      ghost var k := StartSound(x);
      rw, b, k := ReadAll(rw, len, k, x);
      n := len;
      currentPosition := currentPosition + len;
      EndSound(x, k, b);
    }

    /** A read may begin. */
    lemma StartSound(x: Reading) returns (k: nat)
      requires Valid() && currentPosition < filesize && v.cache.entries.Length == v.cache.pages.Length
      requires x == Reading(g, Chain(), v.cache.Contents(), currentPosition, x.len, v.cache.stale,
          Dirt(v.cache.entries[..]))
      requires currentPosition + x.len <= filesize
      ensures Sound(x) && IsAt(g, x.chain, rw, k, x.from)
    {
      hide Ready, Partition, Links, Offset, SectorOf;
      k :| At(rw, k, currentPosition);
      ClustersExist();
      MountedIs();
      SameRefl(x.view, x.stale);
    }

    /** Every cluster of the chain is on the disc. */
    lemma ClustersExist()
      requires Mounted() && v.cache.entries.Length == v.cache.pages.Length
      ensures Clusters(g, Chain(), v.cache.Contents())
    {
      MountedIs();
      forall k | 0 <= k < |Chain()|
        ensures CLUSTER_FIRST <= Chain()[k] && SectorOf(g, Chain()[k], g.spc) <= |v.cache.Contents()|
      {
        OnDisc(k, g.spc, 0);
      }
    }

    lemma EndSound(x: Reading, k: nat, b: seq<Byte>)
      requires Sound(x) && IsAt(g, x.chain, rw, k, currentPosition) && Got(x, x.from, b) && |b| == x.len
      requires currentPosition <= filesize <= Offset(g, |Chain()|, 0, 0)
      requires v.cache.entries.Length == v.cache.pages.Length && spill == []
      ensures Valid() && v.Unchanged(x.view) && exists k: nat :: At(rw, k, currentPosition)
      ensures Clusters(g, Chain(), x.view) && x.from + x.len <= Offset(g, |Chain()|, 0, 0) && g.spc > 0
      ensures Readable(g, Chain(), x.from, x.len, v.cache.stale, x.dirt) ==>
                b == Slice(g, Chain(), x.view, x.from, x.len)
    {
      hide Mounted, Offset, Clusters;
      assert At(rw, k, currentPosition);
    }
  }

  lemma PartGot(x: Reading, v: seq<Sector>, k: nat, s: nat, offset: nat, b: seq<Byte>)
    requires Proper(x) && k < |x.chain| && x.chain[k] >= CLUSTER_FIRST && s < x.g.spc && offset + |b| <= SIZE
    requires offset < SIZE && |b| > 0
    requires InRange(x, Offset(x.g, k, s, offset), |b|) && Same(x.view, v, x.stale)
    requires SectorOf(x.g, x.chain[k], s) < |v| && b == v[SectorOf(x.g, x.chain[k], s)][offset..offset + |b|]
    ensures Got(x, Offset(x.g, k, s, offset), b)
  {
    SlicePart(x.g, x.chain, x.view, k, s, offset, |b|);
    if Promised(x) {
      PartReadable(x.g, x.chain, x.view, x.from, x.len, x.stale, x.dirt, k, s, offset, |b|);
    }
  }

  /** Sectors of a range that can be read, read directly, are those of the file. */
  lemma RunGot(x: Reading, v: seq<Sector>, dirt: set<nat>, k: nat, s: nat, buf: seq<Sector>)
    requires Proper(x) && dirt <= x.dirt && k < |x.chain| && x.chain[k] >= CLUSTER_FIRST && s + |buf| <= x.g.spc
    requires InRange(x, Offset(x.g, k, s, 0), SIZE * |buf|)
    requires Same(x.view, v, x.stale) && DirectlyRead(buf, SectorOf(x.g, x.chain[k], s), v, x.stale, dirt)
    ensures Got(x, Offset(x.g, k, s, 0), Flat(buf, 0, |buf|))
  {
    var at := SectorOf(x.g, x.chain[k], s);
    SliceSectors(x.g, x.chain, x.view, k, s, |buf|);
    if Promised(x) {
      RunReadable(x.g, x.chain, x.view, x.from, x.len, x.stale, x.dirt, k, s, |buf|);
      hide Offset, SectorOf, Readable, Clusters;
      forall i: nat | i < |buf|
        ensures buf[i] == x.view[at + i]
      {
        assert at + i !in x.stale && at + i !in dirt;
      }
      assert buf == x.view[at..at + |buf|];
    }
  }

  lemma FewSectors(n: nat, spc: nat)
    requires n < spc * SIZE
    ensures n / SIZE < spc && n == SIZE * (n / SIZE) + n % SIZE
  {
  }

  lemma DivMono(a: nat, b: nat, d: nat)
    requires a <= b && d > 0
    ensures a / d <= b / d
  {
    Recombine(a, d);
    Recombine(b, d);
    if a / d > b / d { MulMono(b / d + 1, a / d, d); }
  }

  lemma SameRefl(v: seq<Sector>, stale: set<nat>)
    ensures Same(v, v, stale)
  {
  }

  lemma SameTrans(u: seq<Sector>, v: seq<Sector>, w: seq<Sector>, stale: set<nat>)
    requires Same(u, v, stale) && Same(v, w, stale)
    ensures Same(u, w, stale)
  {
  }
}
