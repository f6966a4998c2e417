/** Directories on a volume: the entries of a chain of clusters or of the fixed root
    directory, in order, and long names written to them and found again. */
module Directory {
  import opened Bits
  import opened Cache
  import opened FatTable
  import opened FatVolume
  import opened FatChains
  import opened FatAlloc
  import opened FileLayout
  import opened Unicode
  import opened LongName

  const PER_SECTOR := 16               // BYTES_PER_READ / DIR_ENTRY_DATA_SIZE
  const FAT16_ROOT_DIR_CLUSTER := 0

  /** DIR_ENTRY_POSITION; the offset is -1 before the first entry. */
  datatype DirPosition = DirPosition(cluster: nat, sector: nat, offset: int)

  /** The fields of a partition that directories need besides the table. */
  datatype Region = Region(g: Geometry, rootDirStart: nat, rootDirCluster: nat)

  /** How many sectors a directory has; no chain stands for the fixed root directory. */
  ghost function Count(d: Region, chain: seq<nat>): nat {
    if chain == [] then (if d.rootDirStart <= d.g.dataStart then d.g.dataStart - d.rootDirStart else 0)
        else |chain| * d.g.spc
  }

  /** Which cluster of a chain sector t is in, and which sector of it. */
  function Which(d: Region, t: nat): nat { if d.g.spc > 0 then t / d.g.spc else 0 }
  function Inner(d: Region, t: nat): nat { if d.g.spc > 0 then t % d.g.spc else 0 }

  ghost predicate HasSector(d: Region, chain: seq<nat>, t: nat) {
    chain == [] || (Which(d, t) < |chain| && chain[Which(d, t)] >= CLUSTER_FIRST)
  }

  /** The number on the disc of sector t of a directory. */
  ghost function SectorNo(d: Region, chain: seq<nat>, t: nat): nat
    requires HasSector(d, chain, t)
  {
    if chain == [] then d.rootDirStart + t else SectorOf(d.g, chain[Which(d, t)], Inner(d, t))
  }

  /** Before the end of a chain a sector is in one of its clusters. */
  lemma WhichIs(d: Region, chain: seq<nat>, t: nat)
    requires chain != [] && d.g.spc > 0 && t < Count(d, chain)
    ensures Which(d, t) < |chain| && Inner(d, t) < d.g.spc && t == Which(d, t) * d.g.spc + Inner(d, t)
  {
    Recombine(t, d.g.spc);
    if t / d.g.spc >= |chain| { MulMono(|chain|, t / d.g.spc, d.g.spc); }
  }

  /** A directory on a sound volume. */
  ghost predicate Sound(v: Volume, d: Region, chains: seq<seq<nat>>, chain: seq<nat>)
    reads v, v.cache`stale, v.cache.entries, v.cache.pages, v.cache.disc.sectors
  {
    && Ready(v) && d.g.spc > 0 && v.fatStart + v.fatSectors <= d.rootDirStart <= d.g.dataStart
    && SectorOf(d.g, v.lastCluster, d.g.spc) <= v.cache.disc.sectors.Length
    && (chain != [] ==> chain in chains && Partition(Links(v), chains))
  }

  lemma SoundIs(v: Volume, d: Region, chains: seq<seq<nat>>, chain: seq<nat>)
    requires Sound(v, d, chains, chain)
    ensures Ready(v) && v.Valid() && v.cache.disc.reliable && v.cache.entries.Length == v.cache.pages.Length
    ensures d.g.spc > 0
    ensures v.fatStart + v.fatSectors <= d.rootDirStart <= d.g.dataStart <= v.cache.disc.sectors.Length < CACHE_FREE
    ensures |v.cache.Contents()| == v.cache.disc.sectors.Length
  {
    v.cache.SmallDisc();
    SectorBound(d.g, v.lastCluster, d.g.spc, v.lastCluster);
  }

  /** What follows cluster k of a directory. */
  lemma ChainIn(v: Volume, d: Region, chains: seq<seq<nat>>, chain: seq<nat>, k: nat)
    requires Sound(v, d, chains, chain) && k < |chain|
    ensures CLUSTER_FIRST <= chain[k] <= v.lastCluster && Links(v)[chain[k]] == After(chain, k)
    ensures k + 1 < |chain| ==> CLUSTER_FIRST <= chain[k + 1] <= v.lastCluster < CLUSTER_EOF
  {
    hide Ready, Volume.Valid, Links, Partition;
    ReadyIs(v);
    Sizes(v);
    var l: nat :| l < |chains| && chains[l] == chain;
    ChainAt(Links(v), chains, l, k);
    if k + 1 < |chain| { ChainAt(Links(v), chains, l, k + 1); }
  }

  /** Every sector of a directory is on the disc, outside the table. */
  lemma SectorIn(v: Volume, d: Region, chains: seq<seq<nat>>, chain: seq<nat>, t: nat)
    requires Sound(v, d, chains, chain) && t < Count(d, chain)
    ensures HasSector(d, chain, t)
    ensures v.fatStart + v.fatSectors <= SectorNo(d, chain, t) < v.cache.disc.sectors.Length
  {
    hide Ready, Volume.Valid, Links, Partition, SectorOf, Which, Inner;
    SoundIs(v, d, chains, chain);
    if chain != [] {
      WhichIs(d, chain, t);
      var c := chain[Which(d, t)];
      ChainIn(v, d, chains, chain, Which(d, t));
      SectorBound(d.g, c, Inner(d, t), v.lastCluster);
      SectorBound(d.g, c, Inner(d, t) + 1, v.lastCluster);
      SectorNext(d.g, c, Inner(d, t));
    }
  }

  lemma SectorNext(g: Geometry, c: nat, s: nat)
    requires c >= CLUSTER_FIRST
    ensures SectorOf(g, c, s + 1) == SectorOf(g, c, s) + 1
  {
  }

  /** No two sectors of a directory are the same. */
  lemma SectorsDiffer(v: Volume, d: Region, chains: seq<seq<nat>>, chain: seq<nat>, t: nat, u: nat)
    requires Sound(v, d, chains, chain) && t < Count(d, chain) && u < Count(d, chain) && t != u
    ensures HasSector(d, chain, t) && HasSector(d, chain, u) && SectorNo(d, chain, t) != SectorNo(d, chain, u)
  {
    hide Sound, SectorOf, Count, Which, Inner;
    SectorIn(v, d, chains, chain, t);
    SectorIn(v, d, chains, chain, u);
    SoundIs(v, d, chains, chain);
    if chain != [] && SectorNo(d, chain, t) == SectorNo(d, chain, u) {
      WhichIs(d, chain, t);
      WhichIs(d, chain, u);
      SectorsApart(d.g, chain[Which(d, t)], Inner(d, t), chain[Which(d, u)], Inner(d, u));
      OneEach(v, d, chains, chain, Which(d, t), Which(d, u));
    }
  }

  lemma OneEach(v: Volume, d: Region, chains: seq<seq<nat>>, chain: seq<nat>, k: nat, j: nat)
    requires Sound(v, d, chains, chain) && k < |chain| && j < |chain| && chain[k] == chain[j]
    ensures k == j
  {
    hide Ready, Volume.Valid, Links, ChainIs;
    var l: nat :| l < |chains| && chains[l] == chain;
    assert Member(chains, chain[k], l, k) && Member(chains, chain[j], l, j);
  }

  // ----- Entries -----

  /** The entry at an offset of a sector. */
  function EntryIn(p: Sector, offset: nat): DirEntry
    requires offset < PER_SECTOR
  {
    p[ENTRY_SIZE * offset..ENTRY_SIZE * offset + ENTRY_SIZE]
  }

  /** The directory's sectors are on the disc. */
  ghost predicate OnView(d: Region, chain: seq<nat>, view: seq<Sector>) {
    forall t: nat :: t < Count(d, chain) ==> HasSector(d, chain, t) && SectorNo(d, chain, t) < |view|
  }

  /** The entries of a directory in order. */
  ghost function Entries(d: Region, chain: seq<nat>, view: seq<Sector>): (r: seq<DirEntry>)
    requires OnView(d, chain, view)
    ensures |r| == PER_SECTOR * Count(d, chain)
  {
    seq(PER_SECTOR * Count(d, chain), i requires 0 <= i < PER_SECTOR * Count(d, chain) =>
      EntryIn(view[SectorNo(d, chain, i / PER_SECTOR)], i % PER_SECTOR))
  }

  /** Sixteen entries of 32 bytes to a sector; the sectors are those of the root directory's own
      region, or those of the clusters of the chain. */
  lemma EntryPlace(d: Region, chain: seq<nat>, view: seq<Sector>, i: nat)
    requires OnView(d, chain, view) && i < 16 * Count(d, chain) && d.g.spc > 0
    ensures var t, o := i / 16, 32 * (i % 16);
            && (chain != [] ==> t / d.g.spc < |chain| && chain[t / d.g.spc] >= 2)
            && var n := if chain == [] then d.rootDirStart + t
                        else d.g.dataStart + (chain[t / d.g.spc] - 2) * d.g.spc + t % d.g.spc;
               0 <= n < |view| && o + 32 <= 512 && Entries(d, chain, view)[i] == view[n][o..o + 32]
  {
    assert i / 16 < Count(d, chain);
    hide Count;
    assert HasSector(d, chain, i / 16) && SectorNo(d, chain, i / 16) < |view|;
  }

  /** No sector of the directory is stale. */
  ghost predicate Fresh(d: Region, chain: seq<nat>, view: seq<Sector>, stale: set<nat>)
    requires OnView(d, chain, view)
  {
    forall t: nat :: t < Count(d, chain) ==> SectorNo(d, chain, t) !in stale
  }

  /** What the entries are depends only on the sectors that are not stale. */
  lemma EntriesSame(d: Region, chain: seq<nat>, v: seq<Sector>, w: seq<Sector>, stale: set<nat>)
    requires OnView(d, chain, v) && Fresh(d, chain, v, stale) && Same(v, w, stale)
    ensures OnView(d, chain, w) && Fresh(d, chain, w, stale) && Entries(d, chain, w) == Entries(d, chain, v)
  {
    hide EntryIn, SectorNo, HasSector, Count;
    forall i | 0 <= i < PER_SECTOR * Count(d, chain)
      ensures Entries(d, chain, w)[i] == Entries(d, chain, v)[i]
    {
      assert i / PER_SECTOR < Count(d, chain);
    }
  }

  /** The sector of a position, counted from the start of the directory. */
  ghost function Line(d: Region, chain: seq<nat>, k: nat, s: nat): nat { if chain == [] then s else k * d.g.spc + s }

  /** The position is in a sector of the directory: in cluster k of its chain, if it has one. */
  ghost predicate Stands(d: Region, chain: seq<nat>, k: nat, pos: DirPosition) {
    && -1 <= pos.offset < PER_SECTOR
    && if chain == [] then pos.cluster == FAT16_ROOT_DIR_CLUSTER && pos.sector < Count(d, chain)
       else k < |chain| && pos.cluster == chain[k] && pos.sector < d.g.spc
  }

  /** Position pos is that of entry i; before the first entry i is -1. */
  ghost predicate At(d: Region, chain: seq<nat>, k: nat, pos: DirPosition, i: int) {
    Stands(d, chain, k, pos) && i == PER_SECTOR * Line(d, chain, k, pos.sector) + pos.offset
  }

  /** _FAT_fat_clusterToSector. */
  function ToSector(d: Region, cluster: nat): nat {
    if cluster >= CLUSTER_FIRST then SectorOf(d.g, cluster, 0) else d.rootDirStart
  }

  lemma LineIn(d: Region, chain: seq<nat>, k: nat, s: nat)
    requires chain != [] ==> k < |chain| && s < d.g.spc
    ensures var t := Line(d, chain, k, s);
            if chain == [] then t == s else t < Count(d, chain) && Which(d, t) == k && Inner(d, t) == s
  {
    if chain != [] {
      MulMono(k + 1, |chain|, d.g.spc);
      MulStep(k, d.g.spc);
      DivModUnique(k * d.g.spc + s, d.g.spc, k, s);
    }
  }

  lemma SectorFrom(g: Geometry, c: nat, s: nat)
    requires c >= CLUSTER_FIRST
    ensures SectorOf(g, c, s) == SectorOf(g, c, 0) + s
  {
  }

  lemma LineIs(v: Volume, d: Region, chains: seq<seq<nat>>, chain: seq<nat>, k: nat, pos: DirPosition)
    requires Sound(v, d, chains, chain) && Stands(d, chain, k, pos)
    ensures var t := Line(d, chain, k, pos.sector);
            t < Count(d, chain) && HasSector(d, chain, t)
                && SectorNo(d, chain, t) == ToSector(d, pos.cluster) + pos.sector
  {
    hide Sound, Which, Inner, Count, SectorOf, Line;
    SoundIs(v, d, chains, chain);
    LineIn(d, chain, k, pos.sector);
    if chain != [] {
      ChainIn(v, d, chains, chain, k);
      SectorFrom(d.g, pos.cluster, pos.sector);
    }
  }

  /** The sector and offset of a position are those of its entry. */
  lemma AtSector(v: Volume, d: Region, chains: seq<seq<nat>>, chain: seq<nat>, k: nat, pos: DirPosition, i: nat)
    requires Sound(v, d, chains, chain) && At(d, chain, k, pos, i) && pos.offset >= 0
    ensures i < PER_SECTOR * Count(d, chain) && i % PER_SECTOR == pos.offset && HasSector(d, chain, i / PER_SECTOR)
    ensures SectorNo(d, chain, i / PER_SECTOR) == ToSector(d, pos.cluster) + pos.sector
  {
    hide Sound, Line, Count, SectorNo, ToSector, HasSector;
    LineIs(v, d, chains, chain, k, pos);
  }

  // ----- Moving, reading and writing -----

  /** The directory holds these entries, as the file system sees it. */
  ghost predicate Lists(v: Volume, d: Region, chains: seq<seq<nat>>, chain: seq<nat>, es: seq<DirEntry>)
    reads v, v.cache`stale, v.cache.entries, v.cache.pages, v.cache.disc.sectors
  {
    && Sound(v, d, chains, chain) && v.cache.entries.Length == v.cache.pages.Length
    && OnView(d, chain, v.cache.Contents())
    && Fresh(d, chain, v.cache.Contents(), v.cache.stale) && Entries(d, chain, v.cache.Contents()) == es
  }

  lemma ListsIs(v: Volume, d: Region, chains: seq<seq<nat>>, chain: seq<nat>, es: seq<DirEntry>)
    requires Lists(v, d, chains, chain, es)
    ensures Sound(v, d, chains, chain) && Ready(v) && v.Valid() && v.cache.disc.reliable
    ensures v.cache.entries.Length == v.cache.pages.Length
    ensures OnView(d, chain, v.cache.Contents()) && Fresh(d, chain, v.cache.Contents(), v.cache.stale)
    ensures Entries(d, chain, v.cache.Contents()) == es && |es| == PER_SECTOR * Count(d, chain)
    ensures v.fatStart + v.fatSectors <= d.rootDirStart <= d.g.dataStart && v.cache.disc.sectors.Length < CACHE_FREE
    ensures d.g.spc > 0
  {
    hide Sound, OnView, Fresh, Count;
    SoundIs(v, d, chains, chain);
  }

  /** The same links keep the volume sound. */
  lemma StillSound(v: Volume, d: Region, chains: seq<seq<nat>>, chain: seq<nat>, links: seq<nat>)
    requires Ready(v) && d.g.spc > 0 && v.fatStart + v.fatSectors <= d.rootDirStart <= d.g.dataStart
    requires links == Links(v)
    requires SectorOf(d.g, v.lastCluster, d.g.spc) <= v.cache.disc.sectors.Length
    requires (chain != [] ==> chain in chains && Partition(links, chains))
    ensures Sound(v, d, chains, chain)
  {
  }

  lemma SoundParts(v: Volume, d: Region, chains: seq<seq<nat>>, chain: seq<nat>)
    requires Sound(v, d, chains, chain)
    ensures Ready(v) && v.Valid() && v.lastCluster >= CLUSTER_FIRST
    ensures SectorOf(d.g, v.lastCluster, d.g.spc) <= v.cache.disc.sectors.Length
    ensures chain != [] ==> chain in chains && Partition(Links(v), chains)
  {
    Sizes(v);
  }

  /** Ready needs no more than the links. */
  lemma StillReady(v: Volume, links: seq<nat>)
    requires v.Valid() && v.cache.disc.reliable && v.firstFree <= v.lastCluster + 1 && Links(v) == links
    requires |links| == v.lastCluster + 1
    requires v.lastCluster >= 1 && !IsCluster(links, links[0]) && !IsCluster(links, links[1])
    ensures Ready(v)
  {
  }

  /** The cluster after one of the directory. */
  method NextIn(v: Volume, d: Region, c: nat, ghost chains: seq<seq<nat>>, ghost chain: seq<nat>, ghost k: nat,
                ghost es: seq<DirEntry>) returns (next: nat)
    requires Lists(v, d, chains, chain, es) && k < |chain| && c == chain[k]
    modifies v.cache.entries, v.cache.pages, v.cache.disc.sectors
    ensures Lists(v, d, chains, chain, es) && c >= CLUSTER_FIRST
    ensures if k + 1 < |chain| then next == chain[k + 1] && next != CLUSTER_EOF else next == CLUSTER_EOF
  {
    hide Sound, OnView, Fresh, Entries, Ready, Volume.Valid, Links, Beyond, Partition, After, SectorOf, Same;
    ListsIs(v, d, chains, chain, es);
    SoundParts(v, d, chains, chain);
    ChainIn(v, d, chains, chain, k);
    AfterNext(chain, k);
    ghost var v0, links := v.cache.Contents(), Links(v);
    next := NextOf(v, c);
    StillSound(v, d, chains, chain, links);
    SoundIs(v, d, chains, chain);
    EntriesSame(d, chain, v0, v.cache.Contents(), v.cache.stale);
  }

  lemma LineMoves(d: Region, chain: seq<nat>, k: nat, s: nat)
    ensures Line(d, chain, k, s + 1) == Line(d, chain, k, s) + 1
    ensures chain != [] ==> Line(d, chain, k + 1, 0) == Line(d, chain, k, d.g.spc)
    ensures chain != [] && k + 1 == |chain| ==> Line(d, chain, k, d.g.spc) == Count(d, chain)
    ensures chain == [] ==> Line(d, chain, k, s) == s
  {
    MulStep(k, d.g.spc);
  }

  /** The next entry in the same sector. */
  lemma AtNext(v: Volume, d: Region, chains: seq<seq<nat>>, chain: seq<nat>, k: nat, pos: DirPosition, i: int)
    requires Sound(v, d, chains, chain) && At(d, chain, k, pos, i) && pos.offset + 1 < PER_SECTOR
    ensures At(d, chain, k, pos.(offset := pos.offset + 1), i + 1) && i + 1 < PER_SECTOR * Count(d, chain)
  {
    hide Sound, Line, Count, HasSector, SectorNo, ToSector;
    LineIs(v, d, chains, chain, k, pos);
  }

  /** The first entry of the next sector. */
  lemma AtLine(v: Volume, d: Region, chains: seq<seq<nat>>, chain: seq<nat>, k: nat, pos: DirPosition, i: int, k2: nat,
               pos2: DirPosition)
    requires Sound(v, d, chains, chain) && At(d, chain, k, pos, i) && pos.offset + 1 == PER_SECTOR
    requires Stands(d, chain, k2, pos2) && pos2.offset == 0
    requires Line(d, chain, k2, pos2.sector) == Line(d, chain, k, pos.sector) + 1
    ensures At(d, chain, k2, pos2, i + 1) && i + 1 < PER_SECTOR * Count(d, chain)
  {
    hide Sound, Line, Count, HasSector, SectorNo, ToSector;
    LineIs(v, d, chains, chain, k2, pos2);
  }

  /** The end of the last sector. */
  lemma AtEnd(d: Region, chain: seq<nat>, k: nat, pos: DirPosition, i: int)
    requires At(d, chain, k, pos, i) && pos.offset + 1 == PER_SECTOR
    requires Line(d, chain, k, pos.sector) + 1 == Count(d, chain)
    ensures i + 1 == PER_SECTOR * Count(d, chain)
  {
    hide Line, Count;
  }

  lemma StandsIs(d: Region, chain: seq<nat>, k: nat, pos: DirPosition, i: int)
    requires At(d, chain, k, pos, i)
    ensures -1 <= pos.offset < PER_SECTOR
    ensures if chain == [] then pos.cluster == FAT16_ROOT_DIR_CLUSTER && pos.sector < Count(d, chain)
            else k < |chain| && pos.cluster == chain[k] && pos.sector < d.g.spc
  {
  }

  lemma ToStand(d: Region, chain: seq<nat>, k: nat, pos: DirPosition)
    requires -1 <= pos.offset < PER_SECTOR
    requires if chain == [] then pos.cluster == FAT16_ROOT_DIR_CLUSTER && pos.sector < Count(d, chain)
             else k < |chain| && pos.cluster == chain[k] && pos.sector < d.g.spc
    ensures Stands(d, chain, k, pos)
  {
  }

  lemma RootCount(d: Region, chain: seq<nat>)
    requires d.rootDirStart <= d.g.dataStart && chain == []
    ensures Count(d, chain) == d.g.dataStart - d.rootDirStart
  {
  }

  /** _FAT_directory_incrementDirEntryPosition, for a directory that is not to be extended:
      the position of the next entry, if there is one. */
  method Increment(v: Volume, d: Region, pos: DirPosition, ghost chains: seq<seq<nat>>, ghost chain: seq<nat>,
                   ghost k: nat, ghost i: int,
                   ghost es: seq<DirEntry>)
    returns (ok: bool, pos2: DirPosition, ghost k2: nat)
    requires Lists(v, d, chains, chain, es) && At(d, chain, k, pos, i)
    modifies v.cache.entries, v.cache.pages, v.cache.disc.sectors
    ensures Lists(v, d, chains, chain, es) && (ok <==> i + 1 < |es|)
    ensures if ok then At(d, chain, k2, pos2, i + 1) && pos2.offset >= 0 else pos2 == pos && k2 == k
  {
    hide Lists, Line, HasSector, SectorNo, Sound, At, Stands, Count, OnView, Fresh, Entries, Ready, Volume.Valid;
    ListsIs(v, d, chains, chain, es);
    StandsIs(d, chain, k, pos, i);
    LineMoves(d, chain, k, pos.sector);
    if chain != [] { ChainIn(v, d, chains, chain, k); } else { RootCount(d, chain); }
    ok, pos2, k2 := true, pos.(offset := pos.offset + 1), k;
    if pos2.offset != PER_SECTOR {
      AtNext(v, d, chains, chain, k, pos, i);
    } else {
      pos2 := pos2.(offset := 0, sector := pos2.sector + 1);
      if pos2.sector == d.g.spc && pos2.cluster != FAT16_ROOT_DIR_CLUSTER {
        pos2 := pos2.(sector := 0);
        var tempCluster := NextIn(v, d, pos2.cluster, chains, chain, k, es);
        ListsIs(v, d, chains, chain, es);
        if tempCluster == CLUSTER_EOF {
          AtEnd(d, chain, k, pos, i);
          return false, pos, k;
        }
        pos2, k2 := pos2.(cluster := tempCluster), k + 1;
      } else if pos2.cluster == FAT16_ROOT_DIR_CLUSTER && pos2.sector == d.g.dataStart - d.rootDirStart {
        AtEnd(d, chain, k, pos, i);
        return false, pos, k;
      }
      ToStand(d, chain, k2, pos2);
      AtLine(v, d, chains, chain, k, pos, i, k2, pos2);
    }
  }

  /** _FAT_cache_readPartialSector of the entry at a position. */
  method ReadEntry(v: Volume, d: Region, pos: DirPosition, ghost chains: seq<seq<nat>>, ghost chain: seq<nat>,
                   ghost k: nat, ghost i: nat,
                   ghost es: seq<DirEntry>)
    returns (e: DirEntry)
    requires Lists(v, d, chains, chain, es) && At(d, chain, k, pos, i) && pos.offset >= 0
    modifies v.cache.entries, v.cache.pages, v.cache.disc.sectors
    ensures Lists(v, d, chains, chain, es) && i < |es| && e == es[i]
  {
    hide Sound, OnView, Fresh, Ready, Volume.Valid, Links, LinksOf, Beyond, Partition, SectorOf, Same, At, Count;
    hide HasSector, SectorNo, ToSector, Flat, View;
    StandsIs(d, chain, k, pos, i);
    ListsIs(v, d, chains, chain, es);
    SoundParts(v, d, chains, chain);
    AtSector(v, d, chains, chain, k, pos, i);
    SectorIn(v, d, chains, chain, i / PER_SECTOR);
    ghost var v0, links := v.cache.Contents(), Links(v);
    ReadyIs(v);
    LinksIs(v);
    var ok, b := v.ReadData(ToSector(d, pos.cluster) + pos.sector, pos.offset * ENTRY_SIZE, ENTRY_SIZE);
    LinksIs(v);
    StillReady(v, links);
    StillSound(v, d, chains, chain, links);
    SoundIs(v, d, chains, chain);
    EntriesSame(d, chain, v0, v.cache.Contents(), v.cache.stale);
    e := b;
  }

  lemma EntryPatched(p: Sector, o: nat, e: DirEntry, q: nat)
    requires o < PER_SECTOR && q < PER_SECTOR
    ensures EntryIn(Patched(p, ENTRY_SIZE * o, e), q) == if q == o then e else EntryIn(p, q)
  {
  }

  /** One entry written. */
  lemma EntriesSet(v: Volume, d: Region, chains: seq<seq<nat>>, chain: seq<nat>, view: seq<Sector>, i: nat, e: DirEntry)
    requires Sound(v, d, chains, chain) && OnView(d, chain, view) && i < PER_SECTOR * Count(d, chain)
    ensures HasSector(d, chain, i / PER_SECTOR) && SectorNo(d, chain, i / PER_SECTOR) < |view|
    ensures var s := SectorNo(d, chain, i / PER_SECTOR);
            var view2 := view[s := Patched(view[s], ENTRY_SIZE * (i % PER_SECTOR), e)];
            OnView(d, chain, view2) && Entries(d, chain, view2) == Entries(d, chain, view)[i := e]
  {
    hide Sound, HasSector, SectorNo, Count, EntryIn, Patched;
    var t := i / PER_SECTOR;
    assert t < Count(d, chain);
    var s := SectorNo(d, chain, t);
    var view2 := view[s := Patched(view[s], ENTRY_SIZE * (i % PER_SECTOR), e)];
    forall j | 0 <= j < PER_SECTOR * Count(d, chain)
      ensures Entries(d, chain, view2)[j] == Entries(d, chain, view)[i := e][j]
    {
      assert j / PER_SECTOR < Count(d, chain);
      if j / PER_SECTOR == t {
        EntryPatched(view[s], i % PER_SECTOR, e, j % PER_SECTOR);
      } else {
        SectorsDiffer(v, d, chains, chain, j / PER_SECTOR, t);
      }
    }
  }

  lemma FreshSame(d: Region, chain: seq<nat>, v: seq<Sector>, w: seq<Sector>, stale: set<nat>)
    requires OnView(d, chain, v) && OnView(d, chain, w) && Fresh(d, chain, v, stale)
    ensures Fresh(d, chain, w, stale)
  {
  }

  /** _FAT_cache_writePartialSector of the entry at a position: that entry changes, and no other. */
  method WriteEntry(v: Volume, d: Region, pos: DirPosition, e: DirEntry, ghost chains: seq<seq<nat>>,
                    ghost chain: seq<nat>, ghost k: nat, ghost i: nat,
                    ghost es: seq<DirEntry>)
    requires Lists(v, d, chains, chain, es) && At(d, chain, k, pos, i) && pos.offset >= 0
    modifies v.cache.entries, v.cache.pages, v.cache.disc.sectors
    ensures i < |es| && Lists(v, d, chains, chain, es[i := e])
  {
    hide Sound, OnView, Fresh, Ready, Volume.Valid, Links, LinksOf, Beyond, Partition, SectorOf, Same, At, Count,
        HasSector, SectorNo, ToSector, Flat, View,
      Patched, Entries;
    StandsIs(d, chain, k, pos, i);
    ListsIs(v, d, chains, chain, es);
    SoundParts(v, d, chains, chain);
    AtSector(v, d, chains, chain, k, pos, i);
    SectorIn(v, d, chains, chain, i / PER_SECTOR);
    ghost var v0, links := v.cache.Contents(), Links(v);
    EntriesSet(v, d, chains, chain, v0, i, e);
    ReadyIs(v);
    LinksIs(v);
    var at := ToSector(d, pos.cluster) + pos.sector;
    ghost var v1 := v0[at := Patched(v0[at], pos.offset * ENTRY_SIZE, e)];
    var ok := v.WriteData(e, at, pos.offset * ENTRY_SIZE, false);
    LinksIs(v);
    StillReady(v, links);
    StillSound(v, d, chains, chain, links);
    SoundIs(v, d, chains, chain);
    FreshSame(d, chain, v0, v1, v.cache.stale);
    EntriesSame(d, chain, v1, v.cache.Contents(), v.cache.stale);
  }

  // ----- getNextEntry -----

  /** unicodeFilename[lfnPos + i] for one long entry. */
  method TakeUnits(units: array<Unit>, p: nat, e: DirEntry)
    requires units.Length == NAME_UNITS && 1 <= p <= MOST
    modifies units
    ensures units[..] == Filled(old(units[..]), p, e)
  {
    var lfnPos := (p - 1) * LFN_LENGTH;
    var i: nat := 0;
    while i < LFN_LENGTH
      invariant i <= LFN_LENGTH
      invariant forall k: nat :: k < units.Length ==>
                units[k] == if lfnPos <= k < lfnPos + i then Char(e, k - lfnPos) else old(units[k])
    {
      units[lfnPos + i] := Char(e, i);
      i := i + 1;
    }
    FilledAt(old(units[..]), p, e);
  }

  /** What one long entry does to the name being put together. */
  method Take(units: array<Unit>, has0: bool, sum0: Byte, e: DirEntry) returns (has: bool, sum: Byte)
    requires units.Length == NAME_UNITS && IsLong(e) && Fits(e)
    modifies units
    ensures Memory(units[..], has, sum) == Learn(Memory(old(units[..]), has0, sum0), e) && (has ==> has0 || IsEnd(e))
  {
    hide Filled;
    has, sum := has0, sum0;
    if IsDeleted(e) {
      has := false;
    } else if IsEnd(e) {
      has := true;
      units[Part(e) * LFN_LENGTH] := 0;
      sum := CheckSum(e);
      assert units[..] == old(units[..])[Part(e) * LFN_LENGTH := 0];
    }
    if sum != CheckSum(e) { has := false; }
    if has { TakeUnits(units, Part(e), e); }
  }

  function NoUnits(): seq<Unit> { seq(NAME_UNITS, _ => 0) }

  lemma {:induction false} EncodeSize(u: seq<Unit>)
    ensures |Encode(u)| <= 3 * |u|
  {
    if u != [] { EncodeSize(u[1..]); }
  }

  /** The array as UTF-8 in d_name. */
  method NameOf(units: seq<Unit>, name: array<Byte>)
    requires Ends(units) && name.Length == 3 * NAME_UNITS
    modifies name
    ensures var b := Encode(Text(units)); |b| < name.Length && name[..|b|] == b && name[|b|] == 0
  {
    hide Text, Encode;
    TextEnds(units);
    EncodeSize(Text(units));
    Unicode16ToUtf8(units, name);
  }

  lemma TextEnds(units: seq<Unit>)
    requires Ends(units)
    ensures 0 in units && |Text(units)| <= MOST * LFN_LENGTH
  {
    assert units[MOST * LFN_LENGTH] == 0;
    TextAt(units, MOST * LFN_LENGTH);
  }

  lemma {:induction false} TextAt(units: seq<Unit>, k: nat)
    requires k < |units| && units[k] == 0
    ensures |Text(units)| <= k
  {
    if k > 0 { TextAt(units[1..], k - 1); }
  }

  /** What getNextEntry has found so far of what a scan finds. */
  ghost predicate Sofar(r: Found, es: seq<DirEntry>, i: int, units: seq<Unit>, has: bool, sum: Byte, s: nat,
                        found: bool, notFound: bool)
    requires (forall k :: 0 <= k < |es| ==> Fits(es[k])) && -1 <= i < |es| && |units| == NAME_UNITS
  {
    if notFound then r.NotFound?
    else if found then r.Found? && r.end == i && r.long == has && r.start == s && (has ==> r.name == Text(units))
    else r == Scan(es, i + 1, Memory(units, has, sum), s)
  }

  /** _FAT_directory_getNextEntry, from the end of the entry before: what a scan of the
      entries after it finds. */
  method GetNextEntry(v: Volume, d: Region, dataEnd: DirPosition, d_name: array<Byte>, ghost chains: seq<seq<nat>>,
                      ghost chain: seq<nat>,
                      ghost k0: nat, ghost i0: int, ghost es: seq<DirEntry>)
    returns (ok: bool, data: DirEntry, start: DirPosition, end: DirPosition, long: bool, ghost ks: nat, ghost ke: nat)
    requires Lists(v, d, chains, chain, es) && d_name.Length == 3 * NAME_UNITS
    requires forall k :: 0 <= k < |es| ==> Fits(es[k])
    requires At(d, chain, k0, if dataEnd.cluster == FAT16_ROOT_DIR_CLUSTER then dataEnd.(cluster := d.rootDirCluster)
        else dataEnd, i0)
    requires -1 <= i0 < |es| && (i0 == -1 || dataEnd.offset >= 0) && |es| > 0
    modifies v.cache.entries, v.cache.pages, v.cache.disc.sectors, d_name
    ensures Lists(v, d, chains, chain, es)
    ensures var r := Scan(es, i0 + 1, Memory(NoUnits(), false, 0), 0);
            && (ok <==> r.Found?)
            && (ok ==> data == es[r.end] && long == r.long)
            && (ok ==> At(d, chain, ke, end, r.end) && At(d, chain, ks, start, r.start))
            && (ok && long ==> var b := Encode(r.name); |b| < d_name.Length && d_name[..|b|] == b && d_name[|b|] == 0)
  {
    hide Lists, At, Scan, Learn, Sum, IsLong, IsEnd, IsVolume, IsFile, Fits, Text, Encode;
    var entryStart := dataEnd;
    if entryStart.cluster == FAT16_ROOT_DIR_CLUSTER { entryStart := entryStart.(cluster := d.rootDirCluster); }
    var entryEnd := entryStart;
    var unicodeFilename := new Unit[NAME_UNITS](_ => 0);
    assert unicodeFilename[..] == NoUnits();
    var found, notFound, lfnExists, lfnChkSum: Byte := false, false, false, 0;
    data := seq(ENTRY_SIZE, _ => 0);
    ke, ks := k0, k0;
    ghost var i: int, s: nat := i0, 0;
    ghost var r := Scan(es, i0 + 1, Memory(NoUnits(), false, 0), 0);
    while !found && !notFound
      invariant Lists(v, d, chains, chain, es) && fresh(unicodeFilename) && Ends(unicodeFilename[..])
      invariant -1 <= i < |es| && At(d, chain, ke, entryEnd, i) && (i == -1 || entryEnd.offset >= 0)
      invariant lfnExists || found ==> At(d, chain, ks, entryStart, s)
      invariant Sofar(r, es, i, unicodeFilename[..], lfnExists, lfnChkSum, s, found, notFound)
      invariant found && !notFound ==> data == es[i]
      invariant found && lfnExists ==>
                var b := Encode(Text(unicodeFilename[..]));
                |b| < d_name.Length && d_name[..|b|] == b && d_name[|b|] == 0
      decreases if found || notFound then 0 else 1, |es| - i
    {
      ScanOne(es, i + 1, Memory(unicodeFilename[..], lfnExists, lfnChkSum), s);
      var more;
      more, entryEnd, ke := Increment(v, d, entryEnd, chains, chain, ke, i, es);
      if more { i := i + 1; } else { notFound := true; }
      data := ReadEntry(v, d, entryEnd, chains, chain, ke, i, es);
      if IsLong(data) {
        LearnEnds(Memory(unicodeFilename[..], lfnExists, lfnChkSum), data);
        if IsEnd(data) { entryStart, ks, s := entryEnd, ke, i; }
        lfnExists, lfnChkSum := Take(unicodeFilename, lfnExists, lfnChkSum, data);
      } else if IsVolume(data) {
      } else if data[0] == 0 {
        notFound := true;
      } else if data[0] != ENTRY_FREE && data[0] > 0x20 {
        if lfnExists {
          var chkSum := AliasSum(data);
          if chkSum != lfnChkSum { lfnExists := false; }
        }
        if !lfnExists {
          entryStart, ks, s := entryEnd, ke, i;
          unicodeFilename[0] := 0;
        } else {
          NameOf(unicodeFilename[..], d_name);
        }
        found := true;
      }
    }
    ok, start, end, long := !notFound, entryStart, entryEnd, lfnExists;
  }

  // ----- The long-name branch of addEntry -----

  /** The name as units, with zeros after it. */
  method UnitsOf(d_name: seq<Byte>) returns (units: array<Unit>)
    requires Inside(d_name, 0) && |Decode(d_name, 0)| < NAME_UNITS
    ensures fresh(units) && units.Length == NAME_UNITS && units[..] == Named256(Decode(d_name, 0))
  {
    units := new Unit[NAME_UNITS](_ => 0);
    ghost var n := Utf8ToUnicode16(d_name, units);
  }

  /** What addEntry writes for a file with a long name, once it has an alias and a place
      for the entries: those of the name, and the alias. Where there is no room for all of
      them, as many of the first as there is room for. */
  method AddLong(v: Volume, d: Region, d_name: seq<Byte>, entryData: DirEntry, dataStart: DirPosition,
                 ghost chains: seq<seq<nat>>, ghost chain: seq<nat>, ghost k0: nat, ghost start: nat,
                     ghost es: seq<DirEntry>)
    returns (ghost es2: seq<DirEntry>)
    requires Lists(v, d, chains, chain, es) && At(d, chain, k0, dataStart, start) && dataStart.offset >= 0
    requires start < |es|
    requires Inside(d_name, 0) && |Decode(d_name, 0)| < NAME_UNITS && NameLength(Decode(d_name, 0)) <= MOST * LFN_LENGTH
    modifies v.cache.entries, v.cache.pages, v.cache.disc.sectors
    ensures Lists(v, d, chains, chain, es2) && |es2| == |es|
    ensures var u := Decode(d_name, 0);
            && Named(Named256(u), NameLength(u))
            && (forall j :: 0 <= j < |es| && !(start <= j <= start + Parts(NameLength(u))) ==> es2[j] == es[j])
            && if start + Parts(NameLength(u)) < |es| then Laid(es2, start, Named256(u), NameLength(u), entryData)
               else LaidSome(es2, start, Named256(u), NameLength(u), entryData, |es| - start)
  {
    hide Lists, At, Sum, Decode, Inside, LaidSome, PartOf, Holds, Laid, Named, Named256, Text;
    ghost var u := Decode(d_name, 0);
    NamedIs(u);
    var unicodeFilename := UnitsOf(d_name);
    ghost var units, n := unicodeFilename[..], NameLength(u);
    var length := UniStrnLen(unicodeFilename[..], NAME_UNITS);
    var entrySize := (length + LFN_LENGTH - 1) / LFN_LENGTH + 1;
    var aliasCheckSum := AliasSum(entryData);
    var lfnEntry := new Byte[ENTRY_SIZE](_ => 0);
    var curEntryPos, entryStillValid, i: nat := dataStart, true, entrySize;
    ghost var k, at := k0, start;
    es2 := es;
    LaidNone(es, start, units, n, entryData);
    while entryStillValid && i > 0
      invariant i <= entrySize && at == start + (entrySize - i) && fresh(lfnEntry) && unicodeFilename[..] == units
      invariant Lists(v, d, chains, chain, es2) && |es2| == |es| && at <= |es|
      invariant entryStillValid ==> i == 0 || (at < |es| && At(d, chain, k, curEntryPos, at) && curEntryPos.offset >= 0)
      invariant !entryStillValid ==> at == |es|
      invariant LaidSome(es2, start, units, n, entryData, entrySize - i)
      invariant forall j :: 0 <= j < |es| && !(start <= j <= start + Parts(n)) ==> es2[j] == es[j]
      decreases i
    {
      if i > 1 {
        FillEntry(lfnEntry, unicodeFilename[..], i, entrySize, aliasCheckSum);
        PartMade(lfnEntry[..], units, n, i - 1, aliasCheckSum);
        LaidOne(es2, start, units, n, entryData, entrySize - i, lfnEntry[..]);
        WriteEntry(v, d, curEntryPos, lfnEntry[..], chains, chain, k, at, es2);
        es2 := es2[at := lfnEntry[..]];
      } else {
        LaidOne(es2, start, units, n, entryData, entrySize - i, entryData);
        WriteEntry(v, d, curEntryPos, entryData, chains, chain, k, at, es2);
        es2 := es2[at := entryData];
      }
      entryStillValid, curEntryPos, k := Increment(v, d, curEntryPos, chains, chain, k, at, es2);
      i := i - 1;
      at := at + 1;
    }
    if i == 0 { LaidAll(es2, start, units, n, entryData); }
  }

  lemma LaidNone(es: seq<DirEntry>, start: nat, units: seq<Unit>, n: nat, alias: DirEntry)
    requires Named(units, n) && start <= |es|
    ensures LaidSome(es, start, units, n, alias, 0)
  {
  }

  lemma PartMade(e: DirEntry, units: seq<Unit>, n: nat, p: nat, sum: Byte)
    requires Named(units, n) && 1 <= p <= Parts(n) && Holds(e, units, p, p == Parts(n), sum)
    ensures PartOf(e, units, n, p, sum)
  {
  }
}
