/** Writing a file, and extending it with zeros, on a disc whose transfers succeed. */
module FileWrite {
  import opened Bits
  import opened Cache
  import opened FatTable
  import opened FatVolume
  import opened FatChains
  import opened FatFree
  import opened FatAlloc
  import opened FileLayout
  import opened FileImage
  import opened FileJob
  import opened FatFile

  /** What there would be if every write went through, and what the file system sees. */
  datatype Images = Images(img: seq<Sector>, now: seq<Sector>)

  // ----- Chains that grow -----

  /** Clusters that nothing links to are a chain of their own, the last one. */
  ghost predicate SpillOk(chains: seq<seq<nat>>, own: nat, spill: seq<nat>) {
    && own < |chains| && |chains[own]| > 0
    && (spill == [] || (own + 1 < |chains| && spill == chains[|chains| - 1]))
  }

  /** The chains after cluster r was taken for the end of the file: linked to it, unless
      that is the last cluster of the volume, which is not linked. */
  ghost function Grown(chains: seq<seq<nat>>, own: nat, spill: seq<nat>, last: nat, r: nat): (seq<seq<nat>>, seq<nat>)
    requires SpillOk(chains, own, spill)
  {
    var whole := chains[own] + spill;
    if whole[|whole| - 1] == last then (chains + [[r]], [r])
    else if spill == [] then (chains[own := chains[own] + [r]], [])
    else (chains[|chains| - 1 := spill + [r]], spill + [r])
  }

  lemma GrownKeeps(links: seq<nat>, chains: seq<seq<nat>>, own: nat, spill: seq<nat>, r: nat)
    requires Partition(links, chains) && SpillOk(chains, own, spill) && IsCluster(links, r) && links[r] == CLUSTER_FREE
    requires (chains[own] + spill)[|chains[own] + spill| - 1] == |links| - 1 ==> spill == []
    ensures var whole := chains[own] + spill;
            var end := whole[|whole| - 1];
            var (chains2, spill2) := Grown(chains, own, spill, |links| - 1, r);
            && Partition(Linked(links, end, r), chains2) && SpillOk(chains2, own, spill2)
            && chains2[own] + spill2 == whole + [r] && chains2[own][0] == chains[own][0]
            && Taken(links, Linked(links, end, r), r)
  {
    hide Partition;
    var whole := chains[own] + spill;
    var l := if spill == [] then own else |chains| - 1;
    ChainAt(links, chains, own, 0);
    ChainAt(links, chains, l, |chains[l]| - 1);
    AppendKeeps(links, chains, l, r);
    LinkedTaken(links, whole[|whole| - 1], r);
  }

  ghost function Tail(spill: seq<nat>): seq<seq<nat>> { if spill == [] then [] else [spill] }

  /** The chains there were, with that of the file, and the one that its data went on in. */
  ghost predicate Arranged(x: Job, chains: seq<seq<nat>>, chain: seq<nat>, spill: seq<nat>) {
    && x.own < |x.chains| && chains == x.chains[x.own := chain] + Tail(spill)
    && (spill != [] <==> 0 < x.turn < |chain + spill|) && (spill != [] ==> |chain| == x.turn)
  }

  lemma ArrangedGrows(x: Job, chains: seq<seq<nat>>, spill: seq<nat>, last: nat, r: nat)
    requires x.own < |chains| && Arranged(x, chains, chains[x.own], spill) && SpillOk(chains, x.own, spill)
    requires (chains[x.own] + spill)[|chains[x.own] + spill| - 1] == last <==> |chains[x.own] + spill| == x.turn
    ensures var (chains2, spill2) := Grown(chains, x.own, spill, last, r);
            x.own < |chains2| && Arranged(x, chains2, chains2[x.own], spill2)
  {
    var a := x.chains[x.own := chains[x.own]];
    assert chains == a + Tail(spill);
    if (chains[x.own] + spill)[|chains[x.own] + spill| - 1] == last {
      assert chains + [[r]] == a + Tail([r]);
    } else if spill == [] {
      assert chains[x.own := chains[x.own] + [r]] == x.chains[x.own := chains[x.own] + [r]] + Tail([]);
    } else {
      assert chains[|chains| - 1 := spill + [r]] == a + Tail(spill + [r]);
    }
  }

  // ----- The state of a file being written -----

  /** What the file system sees is now, but for the table and stale sectors. */
  ghost predicate Pictured(f: File, now: seq<Sector>)
    reads f`startCluster, f`chains, f`own, f`spill, f.v, f.v.cache`stale, f.v.cache.entries, f.v.cache.pages,
          f.v.cache.disc.sectors
  {
    && f.Mounted() && f.v.cache.entries.Length == f.v.cache.pages.Length && |now| == f.v.cache.disc.sectors.Length
    && SpillOk(f.chains, f.own, f.spill)
    && Elsewhere(now, f.v.cache.Contents(), f.v.fatStart, f.v.fatSectors, f.v.cache.stale)
  }

  /** The search for a free cluster will not be misled. */
  ghost predicate Guided(f: File)
    requires f.v.Valid()
    reads f.v, f.v.cache`stale, f.v.cache.entries, f.v.cache.pages, f.v.cache.disc.sectors
  {
    !Misled(f.v)
  }

  lemma PicturedIs(f: File, now: seq<Sector>)
    requires Pictured(f, now)
    ensures f.Mounted() && f.v.Valid() && f.v.cache.disc.reliable && f.v.cache.entries.Length == f.v.cache.pages.Length
    ensures |now| == f.v.cache.disc.sectors.Length == |f.v.cache.Contents()|
    ensures Elsewhere(now, f.v.cache.Contents(), f.v.fatStart, f.v.fatSectors, f.v.cache.stale)
    ensures f.own < |f.chains| && |f.Chain()| > 0 && f.g.spc > 0 && f.v.fatStart + f.v.fatSectors <= f.g.dataStart
    ensures f.v.cache.disc.sectors.Length < CACHE_FREE && f.Chain() == f.chains[f.own] && f.Chain()[0] == f.startCluster
    ensures SpillOk(f.chains, f.own, f.spill) && f.Whole() == f.chains[f.own] + f.spill && |f.Whole()| > 0
  {
    f.MountedIs();
    f.v.cache.SmallDisc();
  }

  /** Where a cluster that is written leads. */
  lemma WholeAt(f: File, now: seq<Sector>, k: nat)
    requires Pictured(f, now) && k < |f.Whole()|
    ensures CLUSTER_FIRST <= f.Whole()[k] <= f.v.lastCluster < CLUSTER_EOF && |Links(f.v)| == f.v.lastCluster + 1
    ensures (f.spill != [] ==> k >= |f.Chain()|) ==> Links(f.v)[f.Whole()[k]] == After(f.Whole(), k)
    ensures k + 1 < |f.Whole()| ==> CLUSTER_FIRST <= f.Whole()[k + 1] < CLUSTER_EOF
  {
    hide Pictured, File.Mounted, Partition, Links, Member;
    PicturedIs(f, now);
    f.MountedParts(Links(f.v));
    Sizes(f.v);
    AnyAt(f.chains, f.own, f.spill, Links(f.v), k);
    if k + 1 < |f.Whole()| { AnyAt(f.chains, f.own, f.spill, Links(f.v), k + 1); }
  }

  /** Which chain it belongs to. */
  lemma AnyAt(chains: seq<seq<nat>>, own: nat, spill: seq<nat>, links: seq<nat>, k: nat)
    requires SpillOk(chains, own, spill) && Partition(links, chains) && k < |chains[own] + spill|
    ensures var whole := chains[own] + spill;
            var l, i := if k < |chains[own]| then own else |chains| - 1, if k < |chains[own]| then k
                else k - |chains[own]|;
            && l < |chains| && Member(chains, whole[k], l, i) && IsCluster(links, whole[k])
            && links[whole[k]] == After(chains[l], i)
            && ((spill != [] ==> k >= |chains[own]|) ==> links[whole[k]] == After(whole, k))
  {
    hide Partition;
    var l, i := if k < |chains[own]| then own else |chains| - 1, if k < |chains[own]| then k else k - |chains[own]|;
    ChainAt(links, chains, l, i);
  }

  lemma AllOnce(chains: seq<seq<nat>>, own: nat, spill: seq<nat>, links: seq<nat>)
    requires SpillOk(chains, own, spill) && Partition(links, chains)
    ensures Distinct(chains[own] + spill)
  {
    hide ChainIs, Chained;
    var w := chains[own] + spill;
    forall i, j | 0 <= i < j < |w|
      ensures w[i] != w[j]
    {
      AnyAt(chains, own, spill, links, i);
      AnyAt(chains, own, spill, links, j);
    }
  }

  /** The file has each of its clusters once, and all of them are on the disc. */
  lemma PicturedChain(f: File, now: seq<Sector>)
    requires Pictured(f, now)
    ensures Distinct(f.Whole()) && Clusters(f.g, f.Whole(), now)
  {
    hide Pictured, File.Mounted, Partition, Links, Distinct, SectorOf;
    PicturedIs(f, now);
    f.MountedParts(Links(f.v));
    AllOnce(f.chains, f.own, f.spill, Links(f.v));
    var w := f.Whole();
    forall k | 0 <= k < |w|
      ensures CLUSTER_FIRST <= w[k] && SectorOf(f.g, w[k], f.g.spc) <= |now|
    {
      WholeAt(f, now, k);
      SectorBound(f.g, w[k], f.g.spc, f.v.lastCluster);
    }
  }

  lemma WholeOnDisc(f: File, now: seq<Sector>, k: nat, s: nat, m: nat)
    requires Pictured(f, now) && k < |f.Whole()| && s + m <= f.g.spc
    ensures var c := f.Whole()[k];
            && c >= CLUSTER_FIRST && f.v.fatStart + f.v.fatSectors <= SectorOf(f.g, c, s)
            && SectorOf(f.g, c, s) + m <= f.v.cache.disc.sectors.Length < CACHE_FREE
  {
    hide Pictured, File.Mounted, Partition, Links, SectorOf, File.Whole;
    PicturedIs(f, now);
    f.MountedParts(Links(f.v));
    WholeAt(f, now, k);
    var c := f.Whole()[k];
    SectorBound(f.g, c, s, f.v.lastCluster);
    SectorBound(f.g, c, s + m, f.v.lastCluster);
    SectorAdd(f.g, c, s, m);
  }

  lemma GuidedIs(f: File)
    requires f.v.Valid()
    ensures Guided(f) <==> !(f.v.firstFree == f.v.lastCluster + 1 && Beyond(f.v) == CLUSTER_FREE)
    ensures |Links(f.v)| == f.v.lastCluster + 1 > CLUSTER_FIRST
  {
  }

  lemma ToPictured(f: File, now: seq<Sector>)
    requires f.Mounted() && f.v.cache.entries.Length == f.v.cache.pages.Length && |now| == f.v.cache.disc.sectors.Length
    requires SpillOk(f.chains, f.own, f.spill)
    requires Elsewhere(now, f.v.cache.Contents(), f.v.fatStart, f.v.fatSectors, f.v.cache.stale)
    ensures Pictured(f, now)
  {
  }

  /** _FAT_cache_writePartialSector or _FAT_cache_eraseWritePartialSector in cluster k. */
  method PutPart(f: File, c: nat, s: nat, off: nat, b: seq<Byte>, erase: bool, ghost k: nat, ghost now: seq<Sector>)
    returns (ghost now2: seq<Sector>)
    requires Pictured(f, now) && f.v.Valid() && k < |f.Whole()| && c == f.Whole()[k] && s < f.g.spc && off + |b| <= SIZE
    modifies f.v.cache.entries, f.v.cache.pages, f.v.cache.disc.sectors
    ensures c >= CLUSTER_FIRST && SectorOf(f.g, c, s) < |now|
    ensures var at := SectorOf(f.g, c, s); now2 == now[at := Patched(if erase then Zeros() else now[at], off, b)]
    ensures Pictured(f, now2) && f.v.Valid() && f.v.Cached() <= old(f.v.Cached()) + {SectorOf(f.g, c, s)}
    ensures Links(f.v) == old(Links(f.v)) && Beyond(f.v) == old(Beyond(f.v))
  {
    hide Pictured, File.Mounted, Volume.Valid, Links, Beyond, Partition, File.Chain, File.Whole, Same, SectorOf;
    hide Elsewhere, Patched, Zeros, Volume.Cached, LinksOf, View, Flat;
    PicturedIs(f, now);
    WholeOnDisc(f, now, k, s, 1);
    ghost var links, v0 := Links(f.v), f.v.cache.Contents();
    f.MountedParts(links);
    LinksIs(f.v);
    var at := SectorOf(f.g, c, s);
    var ok := f.v.WriteData(b, at, off, erase);
    LinksIs(f.v);
    f.StillMounted(links);
    now2 := now[at := Patched(if erase then Zeros() else now[at], off, b)];
    PartElse(now, v0, f.v.cache.Contents(), at, off, b, erase, f.v.fatStart, f.v.fatSectors, f.v.cache.stale);
    ToPictured(f, now2);
  }

  /** _FAT_disc_writeSectors and _FAT_cache_writePartialSector_check in cluster k. */
  method PutRun(f: File, c: nat, s: nat, buf: seq<Sector>, ghost k: nat, ghost now: seq<Sector>)
    returns (ghost now2: seq<Sector>, ghost d: Direct)
    requires Pictured(f, now) && f.v.Valid() && k < |f.Whole()| && c == f.Whole()[k] && s + |buf| <= f.g.spc
    modifies f`runs, f.v.cache`stale, f.v.cache.entries, f.v.cache.pages, f.v.cache.disc.sectors
    ensures c >= CLUSTER_FIRST && d.at == SectorOf(f.g, c, s) && d.len == |buf| && d.at + |buf| <= |now|
    ensures f.runs == old(f.runs) + [d] && Recorded(d) && d.es == old(f.v.cache.entries[..])
    ensures now2 == Overwritten(now, d.at, buf, LostBy(d)) && f.v.cache.stale == Outdated(old(f.v.cache.stale), d)
    ensures f.v.Valid() && f.v.cache.entries.Length == f.v.cache.pages.Length
    ensures f.v.cache.Contents() == Overwritten(old(f.v.cache.Contents()), d.at, buf, MissedBy(d))
    ensures Pictured(f, now2) && f.v.Cached() == old(f.v.Cached()) && MissedBy(d) <= Run(d.at, d.len) * f.v.Cached()
    ensures Links(f.v) == old(Links(f.v)) && Beyond(f.v) == old(Beyond(f.v))
  {
    hide Pictured, File.Mounted, Volume.Valid, Links, Beyond, Partition, File.Chain, File.Whole, Same, SectorOf;
    hide Elsewhere, Overwritten, Volume.Cached, LinksOf, View, Flat, Run, MissedBy, LostBy, Outdated, IsLead, Good;
    hide CacheState.Contents;
    PicturedIs(f, now);
    WholeOnDisc(f, now, k, s, |buf|);
    ghost var links, v0, stale := Links(f.v), f.v.cache.Contents(), f.v.cache.stale;
    f.MountedParts(links);
    LinksIs(f.v);
    var at := SectorOf(f.g, c, s);
    var ok;
    ok, d := f.v.WriteDataDirect(at, buf);
    f.runs := f.runs + [d];
    LinksIs(f.v);
    f.StillMounted(links);
    now2 := Overwritten(now, at, buf, LostBy(d));
    StaleKept(stale, d);
    RunElse(now, v0, f.v.cache.Contents(), at, buf, LostBy(d), f.v.fatStart, f.v.fatSectors, stale, f.v.cache.stale);
    ToPictured(f, now2);
  }

  /** _FAT_disc_writeSectors of one sector, without the mirror step. */
  method PutRaw(f: File, c: nat, s: nat, p: Sector, ghost k: nat, ghost now: seq<Sector>)
    returns (ghost now2: seq<Sector>, ghost d: Direct)
    requires Pictured(f, now) && f.v.Valid() && k < |f.Whole()| && c == f.Whole()[k] && s < f.g.spc
    modifies f`runs, f.v.cache`stale, f.v.cache.disc.sectors
    ensures c >= CLUSTER_FIRST && d.at == SectorOf(f.g, c, s) && d.len == 1 && d.at + 1 <= |now|
    ensures f.runs == old(f.runs) + [d] && Recorded(d) && d.es == old(f.v.cache.entries[..])
    ensures now2 == Overwritten(now, d.at, [p], LostBy(d)) && f.v.cache.stale == Outdated(old(f.v.cache.stale), d)
    ensures f.v.Valid() && f.v.cache.entries.Length == f.v.cache.pages.Length
    ensures f.v.cache.Contents() == Overwritten(old(f.v.cache.Contents()), d.at, [p], MissedBy(d))
    ensures Pictured(f, now2) && f.v.Cached() == old(f.v.Cached()) && MissedBy(d) <= Run(d.at, d.len) * f.v.Cached()
    ensures Links(f.v) == old(Links(f.v)) && Beyond(f.v) == old(Beyond(f.v))
  {
    hide Pictured, File.Mounted, Volume.Valid, Links, Beyond, Partition, File.Chain, File.Whole, Same, SectorOf;
    hide Elsewhere, Overwritten, Volume.Cached, LinksOf, View, Flat, Run, MissedBy, LostBy, Outdated, Good;
    hide CacheState.Contents;
    PicturedIs(f, now);
    WholeOnDisc(f, now, k, s, 1);
    ghost var links, v0, stale := Links(f.v), f.v.cache.Contents(), f.v.cache.stale;
    f.MountedParts(links);
    LinksIs(f.v);
    var at := SectorOf(f.g, c, s);
    var ok;
    ok, d := f.v.WriteDataRaw(at, p);
    f.runs := f.runs + [d];
    LinksIs(f.v);
    f.StillMounted(links);
    now2 := Overwritten(now, at, [p], LostBy(d));
    StaleKept(stale, d);
    RunElse(now, v0, f.v.cache.Contents(), at, [p], LostBy(d), f.v.fatStart, f.v.fatSectors, stale, f.v.cache.stale);
    ToPictured(f, now2);
  }

  // ----- The next cluster, or a new one -----

  /** Cluster next follows cluster k of those written, or was the first free one and is
      their new end; it is CLUSTER_FREE exactly when a new one is needed and none is free. */
  ghost predicate Onward(chains: seq<seq<nat>>, own: nat, spill: seq<nat>, links: seq<nat>, firstFree: nat, k: nat,
                         next: nat,
                         chains2: seq<seq<nat>>, spill2: seq<nat>, links2: seq<nat>, firstFree2: nat) {
    && SpillOk(chains, own, spill)
    && var whole := chains[own] + spill;
       if k + 1 < |whole| then
         next == whole[k + 1] && next != CLUSTER_FREE && chains2 == chains && spill2 == spill && links2 == links
             && firstFree2 == firstFree
       else if NoneFree(links) then
         next == CLUSTER_FREE && chains2 == chains && spill2 == spill && links2 == links && firstFree2 == |links|
       else
         && FirstFrom(links, Start(links, firstFree), next) && Taken(links, links2, next) && firstFree2 == next
         && (chains2, spill2) == Grown(chains, own, spill, |links| - 1, next)
  }

  /** tempNextCluster in _FAT_write_r and file_extend_r: the next cluster of the chain, or
      a new one at its end. */
  method NextOrNew(f: File, c: nat, ghost k: nat, ghost now: seq<Sector>) returns (next: nat)
    requires Pictured(f, now) && f.v.Valid() && Guided(f) && k < |f.Whole()| && c == f.Whole()[k]
    requires f.spill != [] ==> k >= |f.Chain()| && f.Whole()[|f.Whole()| - 1] != f.v.lastCluster
    modifies f`chains, f`spill, f.v`firstFree, f.v.cache.entries, f.v.cache.pages, f.v.cache.disc.sectors
    ensures Pictured(f, now) && f.v.Valid() && f.own < |f.chains| && f.v.Cached() <= old(f.v.Cached())
    ensures next != CLUSTER_FREE ==> Guided(f)
    ensures Onward(old(f.chains), f.own, old(f.spill), old(Links(f.v)), old(f.v.firstFree), k, next, f.chains, f.spill,
        Links(f.v), f.v.firstFree)
  {
    hide Pictured, File.Mounted, Volume.Valid, Links, Beyond, Partition, File.Chain, File.Whole, Same, SectorOf;
    hide Elsewhere, Volume.Cached, Guided, LinksOf, View, Flat, Linked, NoneFree, Misled, After, FirstFrom, Start;
    hide Taken, Grown, SpillOk, IsCluster;
    PicturedIs(f, now);
    WholeAt(f, now, k);
    WholeIs(f);
    ghost var links, v0, chains0, spill0, whole := Links(f.v), f.v.cache.Contents(), f.chains, f.spill, f.Whole();
    f.MountedParts(links);
    GuidedIs(f);
    next := NextOf(f.v, c);
    f.StillMounted(links);
    GuidedIs(f);
    ghost var v1 := f.v.cache.Contents();
    ElsewhereSame(now, v0, v1, f.v.fatStart, f.v.fatSectors, f.v.cache.stale);
    AfterNext(whole, k);
    if next == CLUSTER_EOF || next == CLUSTER_FREE {
      next := NewEnd(f, c, now, links);
    } else {
      ToPictured(f, now);
    }
  }

  lemma WholeIs(f: File)
    requires f.own < |f.chains|
    ensures f.Whole() == f.chains[f.own] + f.spill && f.Chain() == f.chains[f.own]
  {
  }

  /** _FAT_fat_linkFreeCluster after the last cluster that is written. */
  method NewEnd(f: File, c: nat, ghost now: seq<Sector>, ghost links: seq<nat>) returns (next: nat)
    requires f.Mounted() && f.v.Valid() && links == Links(f.v) && Guided(f) && |f.Whole()| > 0
    requires c == f.Whole()[|f.Whole()| - 1]
    requires f.v.cache.entries.Length == f.v.cache.pages.Length && |now| == f.v.cache.disc.sectors.Length
    requires Elsewhere(now, f.v.cache.Contents(), f.v.fatStart, f.v.fatSectors, f.v.cache.stale)
    requires SpillOk(f.chains, f.own, f.spill)
    requires CLUSTER_FIRST <= c <= f.v.lastCluster < CLUSTER_EOF && links[c] == CLUSTER_EOF
    requires (f.spill != [] ==> c != f.v.lastCluster)
    modifies f`chains, f`spill, f.v`firstFree, f.v.cache.entries, f.v.cache.pages, f.v.cache.disc.sectors
    ensures Pictured(f, now) && f.v.Valid() && f.own < |f.chains| && f.v.Cached() <= old(f.v.Cached())
    ensures next != CLUSTER_FREE ==> Guided(f)
    ensures if NoneFree(links) then
              next == CLUSTER_FREE && f.chains == old(f.chains) && f.spill == old(f.spill) && Links(f.v) == links
                  && f.v.firstFree == |links|
            else
              && FirstFrom(links, Start(links, old(f.v.firstFree)), next) && Taken(links, Links(f.v), next)
              && f.v.firstFree == next
              && (f.chains, f.spill) == Grown(old(f.chains), f.own, old(f.spill), |links| - 1, next)
  {
    hide Pictured, File.Mounted, Volume.Valid, Links, Beyond, Partition, File.Chain, Same, SectorOf, Elsewhere;
    hide Volume.Cached, Guided, LinksOf, View, Flat, Linked, NoneFree, Misled, After, FirstFrom, Start, Taken, Grown;
    hide SpillOk;
    f.MountedParts(links);
    f.ReadyAnd();
    GuidedIs(f);
    MisledIs(f.v);
    OwnIs(f);
    ghost var v1, chains0, spill0, firstFree := f.v.cache.Contents(), f.chains, f.spill, f.v.firstFree;
    next := LinkFreeCluster(f.v, c);
    ElsewhereTrans(now, v1, f.v.cache.Contents(), f.v.fatStart, f.v.fatSectors, f.v.cache.stale);
    ReadyIs(f.v);
    NoneFirst(links, Start(links, firstFree));
    if next != CLUSTER_FREE {
      FirstIs(links, Start(links, firstFree), next);
      GrownKeeps(links, chains0, f.own, spill0, next);
      ghost var grown := Grown(chains0, f.own, spill0, |links| - 1, next);
      f.chains, f.spill := grown.0, grown.1;
      OwnIs(f);
      LinkedSame(links, c, next);
    }
    f.StillMounted(Links(f.v));
    ToPictured(f, now);
    GuidedIs(f);
  }

  lemma FirstIs(links: seq<nat>, start: nat, r: nat)
    requires FirstFrom(links, start, r)
    ensures IsCluster(links, r) && links[r] == CLUSTER_FREE && !NoneFree(links)
  {
  }

  lemma NoneFirst(links: seq<nat>, start: nat)
    ensures !FirstFrom(links, start, CLUSTER_FREE)
  {
  }

  lemma OwnIs(f: File)
    requires SpillOk(f.chains, f.own, f.spill)
    ensures f.own < |f.chains| && f.Chain() == f.chains[f.own] && |f.Chain()| > 0
    ensures f.Whole() == f.chains[f.own] + f.spill
  {
  }

  lemma LinkedSame(links: seq<nat>, c: nat, r: nat)
    requires IsCluster(links, r) && CLUSTER_FIRST <= c < |links|
    ensures |Linked(links, c, r)| == |links| && Linked(links, c, r)[0] == links[0] && Linked(links, c, r)[1] == links[1]
  {
  }

  lemma MisledIs(v: Volume)
    requires v.Valid()
    ensures Misled(v) <==> v.firstFree == v.lastCluster + 1 && Beyond(v) == CLUSTER_FREE
  {
  }

  // ----- A write in progress -----

  ghost function StageOf(f: File, y: Images): Stage
    reads f`chains, f`own, f`spill, f`runs, f.v, f.v.cache`stale, f.v.cache.entries
  {
    Stage(f.Whole(), y.img, y.now, f.v.cache.stale, f.v.Cached(), f.runs)
  }

  /** The chains of the volume are those there were, but for the one of the file, and n
      bytes have been written. */
  ghost predicate Progress(f: File, x: Job, y: Images, n: nat)
    reads f`startCluster, f`chains, f`own, f`spill, f`runs, f.v, f.v.cache`stale, f.v.cache.entries, f.v.cache.pages,
          f.v.cache.disc.sectors
  {
    && Pictured(f, y.now) && f.v.Valid() && x.own == f.own && Arranged(x, f.chains, f.Chain(), f.spill)
    && Course(Links(f.v), f.v.firstFree, f.Whole(), x.room, x.turn)
    && Reached(x, f.g, StageOf(f, y), n)
  }

  ghost predicate Working(f: File, x: Job, y: Images, n: nat)
    reads f`startCluster, f`chains, f`own, f`spill, f`runs, f.v, f.v.cache`stale, f.v.cache.entries, f.v.cache.pages,
          f.v.cache.disc.sectors
  {
    Progress(f, x, y, n) && Guided(f)
  }

  lemma ProgressIs(f: File, x: Job, y: Images, n: nat)
    requires Progress(f, x, y, n)
    ensures Pictured(f, y.now) && f.v.Valid() && x.own == f.own && Arranged(x, f.chains, f.Chain(), f.spill)
    ensures Course(Links(f.v), f.v.firstFree, f.Whole(), x.room, x.turn) && Reached(x, f.g, StageOf(f, y), n)
    ensures f.own < |f.chains| && f.Chain() == f.chains[f.own] && SpillOk(f.chains, f.own, f.spill)
    ensures f.Whole() == f.chains[f.own] + f.spill && |f.Whole()| > 0 && f.g.spc > 0
    ensures |Links(f.v)| == f.v.lastCluster + 1 > CLUSTER_FIRST
  {
    hide Pictured, Reached, Arranged, Course;
    PicturedIs(f, y.now);
    GuidedIs(f);
  }

  lemma ToProgress(f: File, x: Job, y: Images, n: nat)
    requires Pictured(f, y.now) && f.v.Valid() && x.own == f.own && Arranged(x, f.chains, f.Chain(), f.spill)
    requires Course(Links(f.v), f.v.firstFree, f.Whole(), x.room, x.turn) && Reached(x, f.g, StageOf(f, y), n)
    ensures Progress(f, x, y, n) && (Guided(f) ==> Working(f, x, y, n))
  {
  }

  /** n bytes have been written, and pos is where the next one goes. */
  ghost predicate Here(f: File, x: Job, y: Images, n: nat, pos: Position, k: nat)
    reads f`startCluster, f`chains, f`own, f`spill, f`runs, f.v, f.v.cache`stale, f.v.cache.entries, f.v.cache.pages,
          f.v.cache.disc.sectors
  {
    Working(f, x, y, n) && IsAt(f.g, f.Whole(), pos, k, x.from + n) && (f.spill != [] ==> k >= |f.Chain()|)
  }

  /** n bytes have been written up to the end of the last cluster, and there is no free one.
      The position is left at the beginning of that cluster, and the next search begins
      beyond the last cluster of the volume. */
  ghost predicate Stopped(f: File, x: Job, y: Images, n: nat, pos: Position)
    reads f`startCluster, f`chains, f`own, f`spill, f`runs, f.v, f.v.cache`stale, f.v.cache.entries, f.v.cache.pages,
          f.v.cache.disc.sectors
  {
    && Progress(f, x, y, n) && NoneFree(Links(f.v)) && |f.Whole()| > 0 && f.v.firstFree == f.v.lastCluster + 1
    && n < |x.data|
    && pos == Position(f.Whole()[|f.Whole()| - 1], 0, 0) && x.from + n == Offset(f.g, |f.Whole()|, 0, 0)
  }

  /** What a step may rely on. */
  lemma HereAll(f: File, x: Job, y: Images, n: nat, pos: Position, k: nat)
    requires Here(f, x, y, n, pos, k)
    ensures Progress(f, x, y, n) && Guided(f) && Pictured(f, y.now) && f.v.Valid() && x.own == f.own
    ensures Reached(x, f.g, StageOf(f, y), n) && n <= |x.data| && |y.img| == |y.now|
    ensures Arranged(x, f.chains, f.Chain(), f.spill) && Course(Links(f.v), f.v.firstFree, f.Whole(), x.room, x.turn)
    ensures IsAt(f.g, f.Whole(), pos, k, x.from + n) && Distinct(f.Whole()) && Clusters(f.g, f.Whole(), y.now)
    ensures Clusters(f.g, f.Whole(), y.img)
    ensures k < |f.Whole()| && pos.cluster == f.Whole()[k] >= CLUSTER_FIRST && pos.sector <= f.g.spc && pos.byte < SIZE
    ensures (pos.sector == f.g.spc ==> pos.byte == 0) && x.from + n == Offset(f.g, k, pos.sector, pos.byte)
    ensures f.g.spc > 0
    ensures f.own < |f.chains| && f.Chain() == f.chains[f.own] && SpillOk(f.chains, f.own, f.spill) && |f.Chain()| > 0
    ensures (f.spill != [] ==> k >= |f.Chain()|) && f.Whole() == f.chains[f.own] + f.spill
    ensures |Links(f.v)| == f.v.lastCluster + 1
  {
    hide Pictured, Offset, Volume.Valid, Guided, Reached, Arranged, Course, Distinct, Links, SpillOk;
    PicturedChain(f, y.now);
    PicturedIs(f, y.now);
    ProgressIs(f, x, y, n);
    OwnIs(f);
    ReachedIs(x, f.g, StageOf(f, y), n);
  }

  lemma NowHere(f: File, x: Job, y: Images, n: nat, pos: Position, k: nat)
    requires Pictured(f, y.now) && f.v.Valid() && Guided(f) && x.own == f.own
    requires Arranged(x, f.chains, f.Chain(), f.spill)
    requires Course(Links(f.v), f.v.firstFree, f.Whole(), x.room, x.turn) && Reached(x, f.g, StageOf(f, y), n)
    requires IsAt(f.g, f.Whole(), pos, k, x.from + n) && (f.spill != [] ==> k >= |f.Chain()|)
    ensures Here(f, x, y, n, pos, k)
  {
  }

  lemma ToStopped(f: File, x: Job, y: Images, n: nat, pos: Position)
    requires Pictured(f, y.now) && f.v.Valid() && x.own == f.own && Arranged(x, f.chains, f.Chain(), f.spill)
    requires n < |x.data|
    requires Course(Links(f.v), f.v.firstFree, f.Whole(), x.room, x.turn) && Reached(x, f.g, StageOf(f, y), n)
    requires NoneFree(Links(f.v)) && |f.Whole()| > 0 && f.v.firstFree == f.v.lastCluster + 1
    requires pos == Position(f.Whole()[|f.Whole()| - 1], 0, 0) && x.from + n == Offset(f.g, |f.Whole()|, 0, 0)
    ensures Stopped(f, x, y, n, pos)
  {
  }

  /** With no cluster free the end of the growth does not depend on where a search begins. */
  lemma CourseFull(links: seq<nat>, firstFree: nat, chain: seq<nat>, room: nat, turn: nat, firstFree2: nat)
    requires Course(links, firstFree, chain, room, turn) && NoneFree(links)
    ensures Course(links, firstFree2, chain, room, turn)
  {
  }

  lemma CourseEnd(links: seq<nat>, firstFree: nat, chain: seq<nat>, room: nat, turn: nat)
    requires Course(links, firstFree, chain, room, turn)
    ensures |chain| > 0 && |links| > CLUSTER_FIRST && (chain[|chain| - 1] == |links| - 1 <==> |chain| == turn)
  {
  }

  /** Move onto the next cluster, as file_extend_r and _FAT_write_r have it in several places. */
  method Cross(f: File, pos: Position, ghost k: nat, ghost x: Job, ghost y: Images, ghost n: nat)
    returns (ok: bool, pos2: Position, ghost k2: nat)
    requires Here(f, x, y, n, pos, k) && pos.sector == f.g.spc && n < |x.data|
    modifies f`chains, f`spill, f.v`firstFree, f.v.cache.entries, f.v.cache.pages, f.v.cache.disc.sectors
    ensures ok ==> Here(f, x, y, n, pos2, k2) && pos2.sector == 0 && pos2.byte == 0 && f.g.spc > 0
    ensures !ok ==> Stopped(f, x, y, n, pos2)
  {
    hide *;
    HereAll(f, x, y, n, pos, k);
    ghost var z := StageOf(f, y);
    StageParts(f, y);
    ghost var links, firstFree, chains0, spill0 := Links(f.v), f.v.firstFree, f.chains, f.spill;
    AtNext(f.g, f.Whole(), pos, k, x.from + n);
    CourseEnd(links, firstFree, f.Whole(), x.room, x.turn);
    ArrangedIs(x, chains0, f.Chain(), spill0);
    var next := NextOrNew(f, pos.cluster, k, y.now);
    PicturedIs(f, y.now);
    PicturedChain(f, y.now);
    Crossed(x, f.g, z, n, k, chains0, f.own, spill0, links, firstFree, next, f.chains, f.spill, Links(f.v),
        f.v.firstFree, f.v.Cached(), pos);
    StageIs(f, y, z);
    ok := next != CLUSTER_FREE;
    if next == CLUSTER_FREE {
      pos2, k2 := Position(pos.cluster, 0, 0), k;
      ToStopped(f, x, y, n, pos2);
    } else {
      pos2, k2 := Position(next, 0, 0), k + 1;
      NowHere(f, x, y, n, pos2, k2);
    }
  }

  lemma ArrangedIs(x: Job, chains: seq<seq<nat>>, chain: seq<nat>, spill: seq<nat>)
    requires Arranged(x, chains, chain, spill)
    ensures spill != [] ==> |chain + spill| != x.turn
  {
  }

  lemma StageParts(f: File, y: Images)
    ensures var z := StageOf(f, y);
            z.chain == f.Whole() && z.img == y.img && z.now == y.now && z.stale == f.v.cache.stale
                && z.cached == f.v.Cached() && z.runs == f.runs
  {
  }

  /** The stage after other clusters and other sectors in the cache. */
  lemma StageIs(f: File, y: Images, z: Stage)
    requires z.img == y.img && z.now == y.now && z.stale == f.v.cache.stale && z.runs == f.runs
    ensures StageOf(f, y) == z.(chain := f.Whole(), cached := f.v.Cached())
  {
  }

  /** All that moving on to the next cluster changes. */
  lemma Crossed(x: Job, g: Geometry, z: Stage, n: nat, k: nat, chains: seq<seq<nat>>, own: nat, spill: seq<nat>,
                links: seq<nat>, firstFree: nat,
                next: nat, chains2: seq<seq<nat>>, spill2: seq<nat>, links2: seq<nat>, firstFree2: nat,
                    cached2: set<nat>, pos: Position)
    requires Onward(chains, own, spill, links, firstFree, k, next, chains2, spill2, links2, firstFree2)
    requires x.own == own && Arranged(x, chains, chains[own], spill) && SpillOk(chains, own, spill)
    requires SpillOk(chains2, own, spill2)
    requires z.chain == chains[own] + spill && Course(links, firstFree, z.chain, x.room, x.turn) && Reached(x, g, z, n)
    requires cached2 <= z.cached
    requires Clusters(g, chains2[own] + spill2, z.now) && IsAt(g, z.chain, pos, k, x.from + n) && pos.sector == g.spc
    requires n < |x.data|
    requires spill != [] ==> k >= |chains[own]|
    ensures Arranged(x, chains2, chains2[own], spill2)
    ensures Course(links2, firstFree2, chains2[own] + spill2, x.room, x.turn)
    ensures Reached(x, g, z.(chain := chains2[own] + spill2, cached := cached2), n) && g.spc > 0
    ensures next == CLUSTER_FREE ==>
              && NoneFree(links2) && firstFree2 == |links| && chains2[own] + spill2 == z.chain
              && pos.cluster == z.chain[|z.chain| - 1]
              && x.from + n == Offset(g, |z.chain|, 0, 0)
    ensures next != CLUSTER_FREE ==>
              && IsAt(g, chains2[own] + spill2, Position(next, 0, 0), k + 1, x.from + n)
              && (spill2 != [] ==> k + 1 >= |chains2[own]|)
  {
    hide Reached, Offset, Clusters, Arranged, Course, NoneFree, FirstFrom, Taken, Start, IsAt;
    ClustersSpc(g, chains2[own] + spill2, z.now);
    ReachedIs(x, g, z, n);
    AtParts(g, z.chain, pos, k, x.from + n);
    AtNext(g, z.chain, pos, k, x.from + n);
    ReachedFewer(x, g, z, n, cached2);
    if k + 1 < |z.chain| {
    } else if NoneFree(links) {
      CourseFull(links, firstFree, z.chain, x.room, x.turn, firstFree2);
    } else {
      NoneFirst(links, Start(links, firstFree));
      CourseEnd(links, firstFree, z.chain, x.room, x.turn);
      ArrangedGrows(x, chains, spill, |links| - 1, next);
      GrownIs(chains, own, spill, |links| - 1, next, x);
      CourseGoes(links, firstFree, z.chain, x.room, x.turn, links2, next);
      ClustersSame(g, z.chain + [next], z.now, z.img);
      ReachedLonger(x, g, z, n, next, cached2);
      AtFirst(g, z.chain + [next], k + 1, x.from + n);
    }
  }

  lemma ClustersSpc(g: Geometry, chain: seq<nat>, v: seq<Sector>)
    requires Clusters(g, chain, v)
    ensures g.spc > 0
  {
  }

  lemma ClustersSame(g: Geometry, chain: seq<nat>, v: seq<Sector>, w: seq<Sector>)
    requires Clusters(g, chain, v) && |v| == |w|
    ensures Clusters(g, chain, w)
  {
  }

  lemma GrownIs(chains: seq<seq<nat>>, own: nat, spill: seq<nat>, last: nat, r: nat, x: Job)
    requires SpillOk(chains, own, spill) && x.own == own && Arranged(x, chains, chains[own], spill)
    requires (chains[own] + spill)[|chains[own] + spill| - 1] == last <==> |chains[own] + spill| == x.turn
    ensures var (chains2, spill2) := Grown(chains, own, spill, last, r);
            && own < |chains2| && chains2[own] + spill2 == chains[own] + spill + [r]
            && (spill2 != [] ==> |chains2[own]| <= |chains[own] + spill|)
  {
  }

  lemma AtFirst(g: Geometry, chain: seq<nat>, k: nat, p: nat)
    requires k < |chain| && p == Offset(g, k, 0, 0) && g.spc > 0
    ensures IsAt(g, chain, Position(chain[k], 0, 0), k, p)
  {
  }

  // ----- Steps of a write -----

  /** The rest of the sector at a position is zero. */
  ghost predicate ZeroTail(g: Geometry, y: Images, pos: Position) {
    && pos.cluster >= CLUSTER_FIRST && SectorOf(g, pos.cluster, pos.sector) < |y.now|
    && forall i: nat :: pos.byte <= i < SIZE ==> y.now[SectorOf(g, pos.cluster, pos.sector)][i] == 0
  }

  /** The last bytes are written by themselves, from the start of a sector and not to its end. */
  ghost predicate LastPart(from: Position, n: nat, to: Position) {
    to.byte > 0 && (from.byte == 0 || from.byte + n >= SIZE)
  }

  lemma TailErased(g: Geometry, y: Images, pos: Position, now: seq<Sector>, b: seq<Byte>)
    requires pos.cluster >= CLUSTER_FIRST && SectorOf(g, pos.cluster, pos.sector) < |now| && |b| <= SIZE
    requires y.now == now[SectorOf(g, pos.cluster, pos.sector) := Patched(Zeros(), 0, b)]
    ensures ZeroTail(g, y, pos.(byte := |b|))
  {
    forall i: nat | |b| <= i < SIZE
      ensures Patched(Zeros(), 0, b)[i] == 0
    {
      PatchedAt(Zeros(), 0, b, i);
    }
  }

  /** Some bytes of the sector at the position. */
  method WritePart(f: File, pos: Position, b: seq<Byte>, erase: bool, ghost k: nat, ghost x: Job, ghost y: Images,
                   ghost n: nat)
    returns (ghost y2: Images)
    requires Here(f, x, y, n, pos, k) && pos.sector < f.g.spc && pos.byte + |b| <= SIZE && |b| > 0
    requires n + |b| <= |x.data| && b == x.data[n..n + |b|] && (erase ==> pos.byte == 0 && x.lim <= x.from + n + |b|)
    modifies f.v.cache.entries, f.v.cache.pages, f.v.cache.disc.sectors
    ensures Here(f, x, y2, n + |b|, Advance(pos, |b|), k)
    ensures erase ==> ZeroTail(f.g, y2, pos.(byte := |b|))
  {
    hide ZeroTail;
    hide Here, Pictured, Volume.Valid, Volume.Cached, Links, Beyond, Guided, Reached, File.Chain, File.Whole, IsAt;
    hide Offset, Clusters, Distinct, SectorOf, Patched, Zeros, Advance, Progress, Arranged, Course, SpillOk;
    HereAll(f, x, y, n, pos, k);
    GuidedIs(f);
    ghost var z := StageOf(f, y);
    var now2 := PutPart(f, pos.cluster, pos.sector, pos.byte, b, erase, k, y.now);
    GuidedIs(f);
    ReachedPart(x, f.g, z, n, k, pos.sector, pos.byte, b, erase, f.v.Cached());
    ghost var at := SectorOf(f.g, pos.cluster, pos.sector);
    y2 := Images(y.img[at := Patched(if erase then Zeros() else y.img[at], pos.byte, b)], now2);
    if erase { TailErased(f.g, y2, pos, y.now, b); }
    AfterSome(f.g, f.Whole(), pos, k, x.from + n, |b|);
    NowHere(f, x, y2, n + |b|, Advance(pos, |b|), k);
  }

  /** Whole sectors from the position on. */
  method WriteRun(f: File, pos: Position, buf: seq<Sector>, ghost k: nat, ghost x: Job, ghost y: Images, ghost n: nat)
    returns (ghost y2: Images)
    requires Here(f, x, y, n, pos, k) && pos.byte == 0 && pos.sector + |buf| <= f.g.spc
    requires n + SIZE * |buf| <= |x.data| && Flat(buf, 0, |buf|) == x.data[n..n + SIZE * |buf|]
    modifies f`runs, f.v.cache`stale, f.v.cache.entries, f.v.cache.pages, f.v.cache.disc.sectors
    ensures Here(f, x, y2, n + SIZE * |buf|, pos.(sector := pos.sector + |buf|), k)
  {
    hide Here, Pictured, Volume.Valid, Volume.Cached, Links, Beyond, Guided, Reached, File.Chain, File.Whole, IsAt;
    hide Offset, Clusters, Distinct, SectorOf, Written, Overwritten, Run, Flat, Progress, Arranged, Course, SpillOk;
    hide Recorded, Outdated, MissedBy, LostBy, CacheState.Contents;
    HereAll(f, x, y, n, pos, k);
    GuidedIs(f);
    ghost var z := StageOf(f, y);
    ghost var now2, d;
    now2, d := PutRun(f, pos.cluster, pos.sector, buf, k, y.now);
    GuidedIs(f);
    ReachedRun(x, f.g, z, n, k, pos.sector, buf, d);
    y2 := Images(Written(y.img, d.at, buf), now2);
    AfterSectors(f.g, f.Whole(), pos, k, x.from + n, |buf|);
    NowHere(f, x, y2, n + SIZE * |buf|, pos.(sector := pos.sector + |buf|), k);
  }

  /** One sector, without the mirror step. */
  method WriteRaw(f: File, pos: Position, p: Sector, ghost k: nat, ghost x: Job, ghost y: Images, ghost n: nat)
    returns (ghost y2: Images)
    requires Here(f, x, y, n, pos, k) && pos.byte == 0 && pos.sector < f.g.spc
    requires n + SIZE <= |x.data| && p == x.data[n..n + SIZE]
    modifies f`runs, f.v.cache`stale, f.v.cache.disc.sectors
    ensures Here(f, x, y2, n + SIZE, pos.(sector := pos.sector + 1), k)
  {
    hide Here, Pictured, Volume.Valid, Volume.Cached, Links, Beyond, Guided, Reached, File.Chain, File.Whole, IsAt;
    hide Offset, Clusters, Distinct, SectorOf, Written, Overwritten, Run, Flat, Progress, Arranged, Course, SpillOk;
    hide Recorded, Outdated, MissedBy, LostBy, CacheState.Contents;
    HereAll(f, x, y, n, pos, k);
    GuidedIs(f);
    ghost var z := StageOf(f, y);
    ghost var now2, d;
    now2, d := PutRaw(f, pos.cluster, pos.sector, p, k, y.now);
    GuidedIs(f);
    FlatOne(p);
    ReachedRun(x, f.g, z, n, k, pos.sector, [p], d);
    y2 := Images(Written(y.img, d.at, [p]), now2);
    AfterSectors(f.g, f.Whole(), pos, k, x.from + n, 1);
    NowHere(f, x, y2, n + SIZE, pos.(sector := pos.sector + 1), k);
  }

  lemma FlatOne(p: Sector)
    ensures Flat([p], 0, 1) == p
  {
  }

  // ----- _FAT_write_r -----

  /** The bytes of a buffer as sectors. */
  function Sectors(b: seq<Byte>, m: nat): (r: seq<Sector>)
    requires SIZE * m <= |b|
    ensures |r| == m
  {
    seq(m, i requires 0 <= i < m => b[SIZE * i..SIZE * i + SIZE])
  }

  lemma FlatSectors(b: seq<Byte>, m: nat)
    requires SIZE * m <= |b|
    ensures Flat(Sectors(b, m), 0, m) == b[..SIZE * m]
  {
    forall k | 0 <= k < SIZE * m
      ensures Flat(Sectors(b, m), 0, m)[k] == b[..SIZE * m][k]
    {
      assert SIZE * (k / SIZE) + k % SIZE == k;
    }
  }

  /** b is what remains to be written. */
  ghost predicate Remains(x: Job, n: nat, b: seq<Byte>) { n <= |x.data| && b == x.data[n..] }

  lemma RemainsPart(x: Job, n: nat, b: seq<Byte>, m: nat)
    requires Remains(x, n, b) && m <= |b|
    ensures n + m <= |x.data| && |b| == |x.data| - n && b[..m] == x.data[n..n + m] && Remains(x, n + m, b[m..])
  {
  }

  /** Align to sector. */
  method WriteAlign(f: File, pos: Position, b: seq<Byte>, ghost k: nat, ghost x: Job, ghost y: Images, ghost n: nat)
    returns (pos2: Position, m: nat, ghost y2: Images)
    requires Here(f, x, y, n, pos, k) && pos.sector < f.g.spc && Remains(x, n, b) && |b| > 0
    modifies f.v.cache.entries, f.v.cache.pages, f.v.cache.disc.sectors
    ensures Here(f, x, y2, n + m, pos2, k) && m <= |b| && (m < |b| ==> pos2.byte == 0)
    ensures pos.byte == 0 || pos.byte + |b| >= SIZE ==> pos2.byte == 0
  {
    hide Here, Remains;
    HereByte(f, x, y, n, pos, k);
    pos2, m, y2 := pos, 0, y;
    if pos.byte > 0 {
      m := SIZE - pos.byte;
      if m > |b| { m := |b|; }
      RemainsPart(x, n, b, m);
      y2 := WritePart(f, pos, b[..m], false, k, x, y, n);
      pos2 := Advance(pos, m);
    }
  }

  lemma HereByte(f: File, x: Job, y: Images, n: nat, pos: Position, k: nat)
    requires Here(f, x, y, n, pos, k)
    ensures pos.byte < SIZE && pos.sector <= f.g.spc && f.g.spc > 0
  {
    hide Here;
    HereAll(f, x, y, n, pos, k);
  }

  /** Whole sectors of the buffer. */
  method WriteSome(f: File, pos: Position, b: seq<Byte>, m: nat, ghost k: nat, ghost x: Job, ghost y: Images,
                   ghost n: nat)
    returns (ghost y2: Images)
    requires Here(f, x, y, n, pos, k) && Remains(x, n, b) && pos.byte == 0 && pos.sector + m <= f.g.spc
    requires SIZE * m <= |b|
    modifies f`runs, f.v.cache`stale, f.v.cache.entries, f.v.cache.pages, f.v.cache.disc.sectors
    ensures Here(f, x, y2, n + SIZE * m, pos.(sector := pos.sector + m), k)
  {
    hide Here, Remains, Flat;
    RemainsPart(x, n, b, SIZE * m);
    FlatSectors(b, m);
    y2 := WriteRun(f, pos, Sectors(b, m), k, x, y, n);
  }

  /** Align to cluster. */
  method WriteCluster(f: File, pos: Position, b: seq<Byte>, ghost k: nat, ghost x: Job, ghost y: Images, ghost n: nat)
    returns (pos2: Position, m: nat, ghost y2: Images)
    requires Here(f, x, y, n, pos, k) && Remains(x, n, b) && (|b| > 0 ==> pos.byte == 0)
    modifies f`runs, f.v.cache`stale, f.v.cache.entries, f.v.cache.pages, f.v.cache.disc.sectors
    ensures Here(f, x, y2, n + m, pos2, k) && m <= |b|
    ensures (|b| - m > 0 ==> pos2.byte == 0) && (|b| - m >= SIZE ==> pos2.sector == f.g.spc)
    ensures pos2.byte == pos.byte
  {
    hide Here, Remains;
    HereByte(f, x, y, n, pos, k);
    pos2, m, y2 := pos, 0, y;
    if |b| >= SIZE && pos.sector < f.g.spc {
      var t: nat := |b| / SIZE;
      if t > f.g.spc - pos.sector { t := f.g.spc - pos.sector; }
      y2 := WriteSome(f, pos, b, t, k, x, y, n);
      m := SIZE * t;
      pos2 := pos.(sector := pos.sector + t);
    }
  }

  /** One whole cluster, and on to the next if more is to be written. */
  method WriteOneCluster(f: File, pos: Position, b: seq<Byte>, ghost k: nat, ghost x: Job, ghost y: Images,
                         ghost n: nat)
    returns (ok: bool, pos2: Position, ghost k2: nat, ghost y2: Images)
    requires Here(f, x, y, n, pos, k) && Remains(x, n, b) && pos.byte == 0 && pos.sector == 0 && |b| >= f.g.spc * SIZE
    modifies f`chains, f`spill, f`runs, f.v`firstFree, f.v.cache`stale, f.v.cache.entries, f.v.cache.pages,
             f.v.cache.disc.sectors
    ensures ok ==> Here(f, x, y2, n + f.g.spc * SIZE, pos2, k2) && f.g.spc > 0
    ensures ok && |b| > f.g.spc * SIZE ==> pos2.sector == 0
    ensures ok ==> pos2.byte == 0
    ensures !ok ==> Stopped(f, x, y2, n + f.g.spc * SIZE, pos2) && |b| > f.g.spc * SIZE
  {
    hide Here, Remains, Stopped;
    HereByte(f, x, y, n, pos, k);
    RemainsPart(x, n, b, f.g.spc * SIZE);
    y2 := WriteSome(f, pos, b, f.g.spc, k, x, y, n);
    ok, pos2, k2 := true, pos.(sector := f.g.spc), k;
    if |b| - f.g.spc * SIZE > 0 {
      ok, pos2, k2 := Cross(f, pos2, k, x, y2, n + f.g.spc * SIZE);
    }
  }

  /** Whole clusters. */
  method WriteClusters(f: File, pos: Position, b: seq<Byte>, ghost k: nat, ghost x: Job, ghost y: Images, ghost n: nat)
    returns (ok: bool, pos2: Position, m: nat, ghost k2: nat, ghost y2: Images)
    requires Here(f, x, y, n, pos, k) && Remains(x, n, b)
    requires (|b| > 0 ==> pos.byte == 0 && pos.sector < f.g.spc) && (|b| >= SIZE ==> pos.sector == 0)
    modifies f`chains, f`spill, f`runs, f.v`firstFree, f.v.cache`stale, f.v.cache.entries, f.v.cache.pages,
             f.v.cache.disc.sectors
    ensures m <= |b| && if ok then Here(f, x, y2, n + m, pos2, k2) else m < |b| && Stopped(f, x, y2, n + m, pos2)
    ensures ok ==> |b| - m < f.g.spc * SIZE && (|b| - m > 0 ==> pos2.byte == 0 && pos2.sector < f.g.spc)
    ensures ok && |b| - m >= SIZE ==> pos2.sector == 0
    ensures ok && pos.byte == 0 ==> pos2.byte == 0
  {
    hide Here, Remains, Stopped;
    HereByte(f, x, y, n, pos, k);
    ok, pos2, m, k2, y2 := true, pos, 0, k, y;
    var bpc := f.g.spc * SIZE;
    while ok && |b| - m >= bpc
      invariant m <= |b| && if ok then Here(f, x, y2, n + m, pos2, k2) else m < |b| && Stopped(f, x, y2, n + m, pos2)
      invariant ok && |b| - m > 0 ==> pos2.byte == 0 && pos2.sector < f.g.spc
      invariant ok && |b| - m >= SIZE ==> pos2.sector == 0
      invariant ok && pos.byte == 0 ==> pos2.byte == 0
      decreases |b| - m
    {
      RemainsPart(x, n, b, m);
      ok, pos2, k2, y2 := WriteOneCluster(f, pos2, b[m..], k2, x, y2, n + m);
      m := m + bpc;
    }
  }

  /** The remaining whole sectors, and then the last partial one; when the write goes past
      the end of the file the rest of that sector is zeroed. */
  method WriteRest(f: File, pos: Position, b: seq<Byte>, appending: bool, ghost k: nat, ghost x: Job, ghost y: Images,
                   ghost n: nat)
    returns (pos2: Position, ghost y2: Images)
    requires Here(f, x, y, n, pos, k) && Remains(x, n, b) && |b| < f.g.spc * SIZE
    requires (appending ==> x.lim <= x.from + |x.data|)
    requires (|b| > 0 ==> pos.byte == 0 && pos.sector < f.g.spc) && (|b| >= SIZE ==> pos.sector == 0)
    modifies f`runs, f.v.cache`stale, f.v.cache.entries, f.v.cache.pages, f.v.cache.disc.sectors
    ensures Here(f, x, y2, |x.data|, pos2, k)
    ensures pos.byte == 0 && pos2.byte > 0 && appending ==> ZeroTail(f.g, y2, pos2)
  {
    hide Here, Remains, ZeroTail;
    RemainsPart(x, n, b, |b|);
    var t: nat := |b| / SIZE;
    FewSectors(|b|, f.g.spc);
    pos2, y2 := pos, y;
    if t > 0 {
      y2 := WriteSome(f, pos, b, t, k, x, y, n);
      pos2 := pos.(sector := pos.sector + t);
    }
    RemainsPart(x, n, b, SIZE * t);
    var last := b[SIZE * t..];
    if |last| > 0 {
      RemainsPart(x, n + SIZE * t, last, |last|);
      assert last[..|last|] == last;
      y2 := WritePart(f, pos2, last, appending, k, x, y2, n + SIZE * t);
      pos2 := pos2.(byte := pos2.byte + |last|);
    }
  }

  /** From the first byte to the last, or to the first cluster that cannot be had. */
  method WriteAll(f: File, pos: Position, b: seq<Byte>, appending: bool, ghost k: nat, ghost x: Job, ghost y: Images,
                  ghost n: nat)
    returns (ok: bool, pos2: Position, m: nat, ghost k2: nat, ghost y2: Images)
    requires Here(f, x, y, n, pos, k) && Remains(x, n, b) && |b| > 0 && (appending ==> x.lim <= x.from + |x.data|)
    modifies f`chains, f`spill, f`runs, f.v`firstFree, f.v.cache`stale, f.v.cache.entries, f.v.cache.pages,
             f.v.cache.disc.sectors
    ensures if ok then m == |b| && Here(f, x, y2, n + m, pos2, k2) else m < |b| && Stopped(f, x, y2, n + m, pos2)
    ensures ok && appending && LastPart(pos, |b|, pos2) ==> ZeroTail(f.g, y2, pos2)
  {
    hide Here, Remains, Stopped, ZeroTail;
    HereByte(f, x, y, n, pos, k);
    RemainsPart(x, n, b, 0);
    ok, pos2, m, k2, y2 := true, pos, 0, k, y;
    if pos2.sector >= f.g.spc {
      ok, pos2, k2 := Cross(f, pos2, k2, x, y2, n);
    }
    if ok {
      pos2, m, y2 := WriteAlign(f, pos2, b, k2, x, y2, n);
      RemainsPart(x, n, b, m);
      var d;
      pos2, d, y2 := WriteCluster(f, pos2, b[m..], k2, x, y2, n + m);
      m := m + d;
      RemainsPart(x, n, b, m);
      HereByte(f, x, y2, n + m, pos2, k2);
      if pos2.sector >= f.g.spc && |b| - m > 0 {
        ok, pos2, k2 := Cross(f, pos2, k2, x, y2, n + m);
      }
      if ok {
        ok, pos2, d, k2, y2 := WriteClusters(f, pos2, b[m..], k2, x, y2, n + m);
        m := m + d;
        RemainsPart(x, n, b, m);
        if ok {
          pos2, y2 := WriteRest(f, pos2, b[m..], appending, k2, x, y2, n + m);
          m := |b|;
        }
      }
    }
  }

  // ----- file_extend_r -----

  function Nulls(n: nat): (r: seq<Byte>)
    ensures |r| == n && forall i :: 0 <= i < n ==> r[i] == 0
  {
    seq(n, _ => 0)
  }

  /** The first bytes to be written are zeros, and some more follow. */
  ghost predicate Padded(x: Job, pad: nat) { pad < |x.data| && x.data[..pad] == Nulls(pad) }

  lemma PaddedPart(x: Job, pad: nat, n: nat, m: nat)
    requires Padded(x, pad) && n + m <= pad
    ensures n + m < |x.data| && x.data[n..n + m] == Nulls(m) && (m == SIZE ==> Zeros() == Nulls(m))
  {
    assert x.data[n..n + m] == x.data[..pad][n..n + m];
  }

  /** The chain is no longer than the file needs; an empty file has one cluster. */
  ghost predicate Tight(f: File)
    reads f`filesize, f`chains, f`own
  {
    |f.Chain()| == 1 || (|f.Chain()| > 1 && Offset(f.g, |f.Chain()| - 1, 0, 0) < f.filesize)
  }

  /** What of the file lies in the cluster it ends in. */
  function Part(g: Geometry, size: nat): nat
    requires g.spc > 0
  {
    var bpc := g.spc * SIZE;
    if size % bpc == 0 && size != 0 then bpc else size % bpc
  }

  /** The byte that file_extend_r takes for the end of a file of n clusters: as if it ended
      in the last of them. */
  function EndOf(g: Geometry, n: nat, size: nat): nat
    requires g.spc > 0 && n > 0
  {
    Offset(g, n - 1, 0, 0) + Part(g, size)
  }

  /** That is the end of the file exactly if the chain is no longer than the file needs;
      otherwise it lies beyond. */
  lemma EndAt(g: Geometry, chain: seq<nat>, size: nat)
    requires g.spc > 0 && |chain| > 0 && size <= Offset(g, |chain|, 0, 0)
    ensures var pos := Position(chain[|chain| - 1], Part(g, size) / SIZE, size % SIZE);
            && IsAt(g, chain, pos, |chain| - 1, EndOf(g, |chain|, size))
            && (IsAt(g, chain, pos, |chain| - 1, size) <==> |chain| == 1 || Offset(g, |chain| - 1, 0, 0) < size)
    ensures size <= EndOf(g, |chain|, size) <= Offset(g, |chain|, 0, 0)
    ensures EndOf(g, |chain|, size) == size <==> |chain| == 1 || Offset(g, |chain| - 1, 0, 0) < size
  {
    var k, b := |chain| - 1, Part(g, size);
    PartIs(g, size);
    OffsetBytes(g, k);
    OffsetBytes(g, k + 1);
    OffsetBytes(g, 0);
    OffsetNext(g, k);
    OffsetAdd(g, k, 0, 0, b / SIZE, b % SIZE);
    InLast(k, g.spc * SIZE, size, b);
    hide Part;
    if b < g.spc * SIZE { FewSectors(b, g.spc); }
  }

  /** A file of 100 bytes with two clusters of one sector: its end is taken to be at byte 612. */
  lemma EndMissed(first: nat, second: nat)
    ensures var g, chain := Geometry(1, 1), [first, second];
            EndOf(g, |chain|, 100) == 612 && !IsAt(g, chain, Position(second, 0, 100), 1, 100)
  {
  }

  lemma PartIs(g: Geometry, size: nat)
    requires g.spc > 0
    ensures var b := Part(g, size);
            && b <= g.spc * SIZE && b % SIZE == size % SIZE && (b == 0 <==> size == 0)
            && exists q: nat :: size == q * (g.spc * SIZE) + b
  {
    var bpc, b := g.spc * SIZE, Part(g, size);
    Recombine(size, bpc);
    var q: nat := if size % bpc == 0 && size != 0 then size / bpc - 1 else size / bpc;
    if size % bpc == 0 && size != 0 { MulStep(size / bpc - 1, bpc); }
    assert size == q * bpc + b;
    SameRest(q, g.spc, b);
  }

  lemma SameRest(q: nat, spc: nat, b: nat)
    ensures (q * (spc * SIZE) + b) % SIZE == b % SIZE
  {
    MulAssoc(q, spc, SIZE);
    Recombine(b, SIZE);
    DivModUnique(q * spc * SIZE + b, SIZE, q * spc + b / SIZE, b % SIZE);
  }

  /** A size that leaves b in its last cluster, seen from the last cluster of the chain. */
  lemma InLast(k: nat, bpc: nat, size: nat, b: nat)
    requires bpc > 0 && b <= bpc && (b == 0 <==> size == 0) && (exists q: nat :: size == q * bpc + b)
    requires size <= (k + 1) * bpc
    ensures size <= k * bpc + b <= (k + 1) * bpc
    ensures k * bpc + b == size <==> k == 0 || k * bpc < size
  {
    var q: nat :| size == q * bpc + b;
    MulStep(k, bpc);
    if q > k {
      MulMono(k + 1, q, bpc);
    } else if q < k {
      MulMono(q + 1, k, bpc);
      MulStep(q, bpc);
    }
  }

  /** _FAT_fat_lastCluster of the file. */
  method FindLast(f: File, ghost x: Job, ghost y: Images, ghost n: nat) returns (c: nat)
    requires Working(f, x, y, n)
    modifies f.v.cache.entries, f.v.cache.pages, f.v.cache.disc.sectors
    ensures Working(f, x, y, n) && |f.Chain()| > 0 && c == f.Chain()[|f.Chain()| - 1]
  {
    hide *;
    WorkingIs(f, x, y, n);
    ProgressIs(f, x, y, n);
    PicturedIs(f, y.now);
    GuidedIs(f);
    ghost var links, v0, z := Links(f.v), f.v.cache.Contents(), StageOf(f, y);
    StageParts(f, y);
    f.MountedParts(links);
    f.ReadyAnd();
    MemberFirst(f.chains, f.own, f.startCluster);
    c := LastCluster(f.v, f.startCluster, f.chains, f.own, 0);
    ReadyIs(f.v);
    f.StillMounted(links);
    GuidedIs(f);
    UnchangedIs(f.v, v0);
    ElsewhereSame(y.now, v0, f.v.cache.Contents(), f.v.fatStart, f.v.fatSectors, f.v.cache.stale);
    ToPictured(f, y.now);
    ReachedFewer(x, f.g, z, n, f.v.Cached());
    StageIs(f, y, z);
    WithChain(z, f.Whole(), f.v.Cached());
    ToProgress(f, x, y, n);
  }

  lemma WithChain(z: Stage, chain: seq<nat>, cached: set<nat>)
    requires chain == z.chain
    ensures z.(chain := chain, cached := cached) == z.(cached := cached)
  {
  }

  lemma UnchangedIs(v: Volume, v0: seq<Sector>)
    requires v.cache.entries.Length == v.cache.pages.Length && v.Unchanged(v0)
    ensures Same(v0, v.cache.Contents(), v.cache.stale)
  {
  }

  lemma WorkingIs(f: File, x: Job, y: Images, n: nat)
    requires Working(f, x, y, n)
    ensures Progress(f, x, y, n) && f.v.Valid() && Guided(f)
  {
  }

  lemma MemberFirst(chains: seq<seq<nat>>, own: nat, c: nat)
    requires own < |chains| && |chains[own]| > 0 && chains[own][0] == c
    ensures Member(chains, c, own, 0)
  {
  }

  /** Zeros to the end of the sector, or to the last of them. */
  method ZeroPart(f: File, pos: Position, m: nat, ghost pad: nat, ghost k: nat, ghost x: Job, ghost y: Images,
                  ghost n: nat)
    returns (ghost y2: Images)
    requires Here(f, x, y, n, pos, k) && Padded(x, pad) && pos.sector < f.g.spc && pos.byte + m <= SIZE && m > 0
    requires n + m <= pad
    modifies f.v.cache.entries, f.v.cache.pages, f.v.cache.disc.sectors
    ensures Here(f, x, y2, n + m, Advance(pos, m), k)
  {
    hide Here, Padded, Advance;
    PaddedPart(x, pad, n, m);
    y2 := WritePart(f, pos, Nulls(m), false, k, x, y, n);
  }

  /** Whole sectors of zeros, written directly. */
  method ZeroSectors(f: File, pos: Position, remain0: nat, ghost pad: nat, ghost k: nat, ghost x: Job, ghost y: Images,
                     ghost n: nat)
    returns (ok: bool, pos2: Position, remain: nat, ghost k2: nat, ghost y2: Images)
    requires Here(f, x, y, n, pos, k) && Padded(x, pad) && pos.byte == 0 && n + remain0 == pad
    modifies f`chains, f`spill, f`runs, f.v`firstFree, f.v.cache`stale, f.v.cache.entries, f.v.cache.pages,
             f.v.cache.disc.sectors
    ensures remain <= remain0 && (ok ==> Here(f, x, y2, pad - remain, pos2, k2) && remain < SIZE && pos2.byte == 0)
    ensures !ok ==> Stopped(f, x, y2, pad - remain, pos2)
  {
    hide Here, Padded, Stopped;
    ok, pos2, remain, k2, y2 := true, pos, remain0, k, y;
    while ok && remain >= SIZE
      invariant remain <= remain0 && (ok ==> Here(f, x, y2, pad - remain, pos2, k2) && pos2.byte == 0)
      invariant !ok ==> Stopped(f, x, y2, pad - remain, pos2)
      decreases ok, remain
    {
      HereByte(f, x, y2, pad - remain, pos2, k2);
      PaddedPart(x, pad, pad - remain, SIZE);
      if pos2.sector >= f.g.spc {
        ok, pos2, k2 := Cross(f, pos2, k2, x, y2, pad - remain);
      }
      if ok {
        y2 := WriteRaw(f, pos2, Zeros(), k2, x, y2, pad - remain);
        remain := remain - SIZE;
        pos2 := pos2.(sector := pos2.sector + 1);
      }
    }
  }

  /** Zeros in the sector where they begin, if they fill it, the sectors after it, and the last one. */
  method ZeroRest(f: File, pos: Position, ghost pad: nat, remain0: nat, ghost k: nat, ghost x: Job, ghost y: Images)
    returns (ok: bool, pos2: Position, ghost k2: nat, ghost y2: Images, ghost n: nat)
    requires Here(f, x, y, 0, pos, k) && Padded(x, pad) && pad == remain0 && pos.sector < f.g.spc
    requires pos.byte + remain0 >= SIZE
    modifies f`chains, f`spill, f`runs, f.v`firstFree, f.v.cache`stale, f.v.cache.entries, f.v.cache.pages,
             f.v.cache.disc.sectors
    ensures if ok then n == pad && Here(f, x, y2, pad, pos2, k2) else n <= pad && Stopped(f, x, y2, n, pos2)
  {
    hide Here, Padded, Stopped;
    HereByte(f, x, y, 0, pos, k);
    pos2, k2, y2 := pos, k, y;
    var remain := remain0;
    if pos.byte > 0 {
      y2 := ZeroPart(f, pos, SIZE - pos.byte, pad, k2, x, y2, 0);
      remain := remain - (SIZE - pos.byte);
      pos2 := Position(pos.cluster, pos.sector + 1, 0);
    }
    ok, pos2, remain, k2, y2 := ZeroSectors(f, pos2, remain, pad, k2, x, y2, pad - remain);
    n := pad - remain;
    if ok {
      HereByte(f, x, y2, n, pos2, k2);
      PaddedPart(x, pad, n, 0);
      if pos2.sector >= f.g.spc {
        ok, pos2, k2 := Cross(f, pos2, k2, x, y2, n);
      }
      if ok && remain > 0 {
        y2 := ZeroPart(f, pos2, remain, pad, k2, x, y2, n);
        pos2 := pos2.(byte := remain);
        n := pad;
      }
    }
  }

  /** file_extend_r: the file has the size of the current position, and zeros from what was
      taken for its end; or there was no cluster for them, and it keeps its size and position. */
  method Extend(f: File, ghost x: Job, ghost y: Images)
    returns (ok: bool, ghost k: nat, ghost y2: Images, ghost n: nat, ghost at: Position)
    requires Working(f, x, y, 0) && f.spill == [] && f.filesize < f.currentPosition
    requires f.filesize <= Offset(f.g, |f.Chain()|, 0, 0)
    requires f.g.spc > 0 && |f.Chain()| > 0 && x.from == EndOf(f.g, |f.Chain()|, f.filesize)
    requires Padded(x, f.currentPosition - f.filesize)
    modifies f`rw, f`filesize, f`chains, f`spill, f`runs, f.v`firstFree, f.v.cache`stale, f.v.cache.entries,
             f.v.cache.pages, f.v.cache.disc.sectors
    ensures ok ==>
              n == f.currentPosition - old(f.filesize) && Here(f, x, y2, n, f.rw, k) && f.filesize == f.currentPosition
    ensures !ok ==>
              n <= f.currentPosition - f.filesize && Stopped(f, x, y2, n, at) && f.rw == old(f.rw)
                  && f.filesize == old(f.filesize)
  {
    hide Here, Padded, Stopped, Working, Progress, Offset, Links, NoneFree, Volume.Valid, IsAt, File.Chain, File.Whole;
    hide EndOf;
    var byte := f.filesize % SIZE;
    var bpc := f.g.spc * SIZE;
    var partCluster := f.filesize % bpc;
    if partCluster == 0 && f.filesize != 0 { partCluster := bpc; }
    EndAt(f.g, f.Chain(), f.filesize);
    var last := FindLast(f, x, y, 0);
    var pos := Position(last, partCluster / SIZE, byte);
    k, y2, ok, n, at := |f.Chain()| - 1, y, true, 0, pos;
    BeginExtend(f, x, y, pos, k);
    HereByte(f, x, y, 0, pos, k);
    ghost var pad := f.currentPosition - f.filesize;
    var remain := f.currentPosition - f.filesize;
    PaddedPart(x, pad, 0, 0);
    if pos.sector >= f.g.spc {
      ok, pos, k := Cross(f, pos, k, x, y, 0);
    }
    if ok {
      HereByte(f, x, y, 0, pos, k);
      if remain + pos.byte < SIZE {
        y2 := ZeroPart(f, pos, remain, pad, k, x, y, 0);
        pos := pos.(byte := pos.byte + remain);
        n := pad;
      } else {
        ok, pos, k, y2, n := ZeroRest(f, pos, pad, remain, k, x, y);
      }
    }
    at := pos;
    if ok {
      f.rw := pos;
      f.filesize := f.currentPosition;
    }
  }

  lemma BeginExtend(f: File, x: Job, y: Images, pos: Position, k: nat)
    requires Working(f, x, y, 0) && f.spill == [] && IsAt(f.g, f.Chain(), pos, k, x.from)
    ensures Here(f, x, y, 0, pos, k)
  {
    hide IsAt, Progress, Guided;
    assert f.Whole() == f.Chain();
  }

  // ----- The whole of _FAT_write_r -----

  /** Where the write begins: at the position, or, if that is past the end of the file, at
      what is taken for its end. */
  ghost function From(f: File): nat
    requires f.g.spc > 0 && |f.Chain()| > 0
    reads f`filesize, f`currentPosition, f`chains, f`own
  {
    if f.currentPosition > f.filesize then EndOf(f.g, |f.Chain()|, f.filesize) else f.currentPosition
  }

  /** How far p is past the end of the file. */
  function Gap(size: nat, p: nat): nat { if p > size then p - size else 0 }

  /** How many clusters the write needs beyond those of the file. */
  ghost function Wanted(f: File, data: seq<Byte>): nat
    requires f.g.spc > 0 && |f.Chain()| > 0
    reads f`filesize, f`currentPosition, f`chains, f`own
  {
    Need(f.g, |f.Chain()|, From(f) + Gap(f.filesize, f.currentPosition) + |data|)
  }

  /** The write of data at the position: zeros first, if that is past the end of the file. */
  ghost function JobOf(f: File, now: seq<Sector>, data: seq<Byte>): Job
    requires f.v.Valid() && f.g.spc > 0 && |f.Chain()| > 0
    reads f`filesize, f`currentPosition, f`chains, f`own, f.v, f.v.cache`stale, f.v.cache.entries, f.v.cache.pages,
          f.v.cache.disc.sectors
  {
    Job(f.chains, f.own, now, From(f), Nulls(Gap(f.filesize, f.currentPosition)) + data, f.filesize,
        f.v.cache.stale, f.v.Cached(), FreeCount(Links(f.v)) + |f.Chain()|, Turn(Links(f.v), f.v.firstFree, f.Chain()))
  }

  lemma BeginJob(f: File, now: seq<Sector>, data: seq<Byte>)
    requires f.Valid() && f.v.Valid() && Pictured(f, now) && Guided(f) && |data| > 0 && f.runs == [] && f.g.spc > 0
    requires |f.Chain()| > 0
    ensures var x := JobOf(f, now, data);
            && Working(f, x, Images(now, now), 0) && f.filesize <= Offset(f.g, |f.Chain()|, 0, 0) && f.spill == []
            && Padded(x, Gap(f.filesize, f.currentPosition)) && Remains(x, Gap(f.filesize, f.currentPosition), data)
  {
    hide File.Mounted, Volume.Valid, Guided, Offset, Links, Partition, Pictured, Course, Turn, FreeCount, Reached;
    hide EndOf, SpillOk;
    PicturedIs(f, now);
    PicturedChain(f, now);
    GuidedIs(f);
    OwnIs(f);
    WholeAt(f, now, |f.Chain()| - 1);
    EndAt(f.g, f.Chain(), f.filesize);
    var x := JobOf(f, now, data);
    LastInUse(f, now);
    CourseBegins(Links(f.v), f.v.firstFree, f.Chain());
    assert f.Whole() == f.Chain();
    ReachedNone(x, f.g);
    assert f.chains == f.chains[f.own := f.Chain()] + Tail([]);
    TurnIs(Links(f.v), f.v.firstFree, f.Chain());
    assert x.data[..Gap(f.filesize, f.currentPosition)] == Nulls(Gap(f.filesize, f.currentPosition));
    assert x.data[Gap(f.filesize, f.currentPosition)..] == data;
    ToProgress(f, x, Images(now, now), 0);
  }

  /** The end of the chain is not free. */
  lemma LastInUse(f: File, now: seq<Sector>)
    requires Pictured(f, now)
    ensures |f.Whole()| > 0 && f.Whole()[|f.Whole()| - 1] < |Links(f.v)|
    ensures Links(f.v)[f.Whole()[|f.Whole()| - 1]] != CLUSTER_FREE
  {
    hide Pictured, Links;
    PicturedIs(f, now);
    WholeAt(f, now, |f.Whole()| - 1);
  }

  lemma TurnIs(links: seq<nat>, firstFree: nat, chain: seq<nat>)
    requires |links| > CLUSTER_FIRST && |chain| > 0
    ensures !(0 < Turn(links, firstFree, chain) < |chain|)
  {
  }

  /** Where the file stands, for a position within it. */
  lemma StandsAt(f: File, x: Job, y: Images) returns (k: nat)
    requires f.Valid() && f.write && Working(f, x, y, 0) && x.from == f.currentPosition <= f.filesize
    ensures Here(f, x, y, 0, f.rw, k)
  {
    hide File.Mounted, Progress, Guided, Offset, IsAt;
    assert f.Whole() == f.Chain();
    k :| f.At(f.rw, k, f.currentPosition);
  }

  /** After all has been written: as many clusters were added as were needed. */
  lemma Finished(f: File, x: Job, y: Images, k: nat, chain0: seq<nat>, free0: nat)
    requires Here(f, x, y, |x.data|, f.rw, k) && x.own < |x.chains| && chain0 == x.chains[x.own]
    requires x.room == free0 + |chain0| && f.g.spc > 0
    ensures |f.Whole()| == |chain0| + Need(f.g, |chain0|, x.from + |x.data|)
    ensures Need(f.g, |chain0|, x.from + |x.data|) <= free0
    ensures Progress(f, x, y, |x.data|) && f.v.Valid() && Guided(f) && IsAt(f.g, f.Whole(), f.rw, k, x.from + |x.data|)
  {
    hide Here, Offset, Volume.Valid, Guided, Links, Need, Reached, Stored, Fetched, Shown, Traced, Pictured, Arranged;
    hide File.Whole, SpillOk, IsAt, Progress;
    HereAll(f, x, y, |x.data|, f.rw, k);
    var z, end := StageOf(f, y), x.from + |x.data|;
    ReachedIs(x, f.g, z, |x.data|);
    NeedIs(f.g, |chain0|, end, |f.Whole()|);
    if |f.Whole()| > |chain0| { NeedIs(f.g, |chain0|, end, |f.Whole()| - 1); }
  }

  /** After the write stopped: all free clusters were added, and they were not enough. */
  lemma Ended(f: File, x: Job, y: Images, n: nat, pos: Position, chain0: seq<nat>, free0: nat)
    requires Stopped(f, x, y, n, pos) && x.own < |x.chains| && chain0 == x.chains[x.own] && x.room == free0 + |chain0|
    requires f.g.spc > 0
    ensures |f.Whole()| == |chain0| + free0 && free0 < Need(f.g, |chain0|, x.from + |x.data|)
    ensures Progress(f, x, y, n) && f.v.Valid() && NoneFree(Links(f.v)) && f.v.firstFree == f.v.lastCluster + 1
    ensures |f.Whole()| > 0 && pos == Position(f.Whole()[|f.Whole()| - 1], 0, 0)
    ensures x.from + n == Offset(f.g, |f.Whole()|, 0, 0)
    ensures Offset(f.g, |chain0|, 0, 0) <= x.from + n && chain0 <= f.Whole()
  {
    hide Offset, Volume.Valid, Guided, Need, Reached, Stored, Fetched, Shown, Traced, Pictured, Arranged, File.Whole;
    hide SpillOk, NoneFree, FreeCount, Links;
    var z := StageOf(f, y);
    ProgressIs(f, x, y, n);
    ReachedIs(x, f.g, z, n);
    NoneCounted(Links(f.v));
    NeedIs(f.g, |chain0|, x.from + |x.data|, |f.Whole()|);
    OffsetMono(f.g, |chain0|, |f.Whole()|);
  }

  /** The file is in order after a write exactly if nothing was spilled and it stands where
      its position says. */
  lemma InOrder(f: File, now: seq<Sector>, k: nat, p: nat)
    requires Pictured(f, now) && f.write && IsAt(f.g, f.Whole(), f.rw, k, p) && f.currentPosition <= f.filesize
    requires f.spill == [] ==> f.filesize <= Offset(f.g, |f.Chain()|, 0, 0)
    ensures f.Valid() <==> f.spill == [] && f.currentPosition == p
  {
    hide Offset, Partition, Links, SectorOf, Ready;
    PicturedIs(f, now);
    PicturedChain(f, now);
    if f.spill == [] {
      assert f.Whole() == f.Chain();
      if f.currentPosition == p { assert f.At(f.rw, k, f.currentPosition); }
    }
  }

  lemma AtEnd(g: Geometry, chain: seq<nat>, p: nat)
    requires |chain| > 0 && g.spc > 0 && p == Offset(g, |chain| - 1, 0, 0)
    ensures IsAt(g, chain, Position(chain[|chain| - 1], 0, 0), |chain| - 1, p)
  {
  }

  /** Past the end of the file any place will do. */
  lemma PastEnd(f: File, now: seq<Sector>)
    requires Pictured(f, now) && f.currentPosition > f.filesize && f.filesize <= Offset(f.g, |f.Chain()|, 0, 0)
    ensures f.Valid() <==> f.spill == []
  {
  }

  lemma WriteParts(f: File, now: seq<Sector>)
    requires f.Valid() && Pictured(f, now)
    ensures f.g.spc > 0 && |f.Chain()| > 0 && f.own < |f.chains| && f.Chain() == f.chains[f.own]
    ensures f.Whole() == f.Chain() && f.spill == []
    ensures f.filesize <= Offset(f.g, |f.Chain()|, 0, 0)
  {
    PicturedIs(f, now);
  }

  /** pos is byte p of the file. */
  ghost predicate Stands(g: Geometry, chain: seq<nat>, pos: Position, p: nat) {
    exists k: nat :: IsAt(g, chain, pos, k, p)
  }

  lemma StandsIs(g: Geometry, chain: seq<nat>, pos: Position, k: nat, p: nat)
    requires IsAt(g, chain, pos, k, p)
    ensures Stands(g, chain, pos, p)
  {
  }

  lemma LargerIs(a: nat, b: nat)
    ensures Larger(a, b) == if a < b then b else a
  {
  }

  lemma SmallerIs(a: nat, b: nat)
    ensures Smaller(a, b) == if a < b then a else b
  {
  }

  lemma JobIs(f: File, now: seq<Sector>, data: seq<Byte>)
    requires f.v.Valid() && f.g.spc > 0 && |f.Chain()| > 0 && f.own < |f.chains| && f.Chain() == f.chains[f.own]
    ensures var x := JobOf(f, now, data);
            && x.chains == f.chains && x.own == f.own && x.own < |x.chains| && x.chains[x.own] == f.Chain()
            && x.from == From(f) && x.lim == f.filesize && |x.data| == Gap(f.filesize, f.currentPosition) + |data|
            && x.room == FreeCount(Links(f.v)) + |f.Chain()|
            && Wanted(f, data) == Need(f.g, |f.Chain()|, x.from + |x.data|)
  {
    hide Need, FreeCount, Links, Turn, EndOf;
  }

  /** The write begins at the position, or past the end of the file at its end, if the
      chain is no longer than it needs, and otherwise beyond. */
  lemma FromIs(f: File)
    requires f.g.spc > 0 && |f.Chain()| > 0 && f.filesize <= Offset(f.g, |f.Chain()|, 0, 0)
    ensures f.currentPosition <= f.filesize ==> From(f) == f.currentPosition && Gap(f.filesize, f.currentPosition) == 0
    ensures f.currentPosition > f.filesize ==>
              && f.filesize <= From(f) == EndOf(f.g, |f.Chain()|, f.filesize)
              && Gap(f.filesize, f.currentPosition) == f.currentPosition - f.filesize
              && (From(f) == f.filesize <==> Tight(f))
  {
    hide Offset, EndOf;
    EndAt(f.g, f.Chain(), f.filesize);
  }

  /** The extension failed. */
  lemma NoMore(f: File, x: Job, y: Images, n: nat, chain0: seq<nat>)
    requires Progress(f, x, y, n) && f.currentPosition > f.filesize && f.filesize <= Offset(f.g, |chain0|, 0, 0)
    requires x.own < |x.chains| && chain0 == x.chains[x.own]
    ensures f.Valid() <==> f.spill == []
  {
    hide Offset, Pictured, Stored, Shown, Traced, Fetched, Arranged, Course;
    ProgressIs(f, x, y, n);
    ReachedIs(x, f.g, StageOf(f, y), n);
    PicturedIs(f, y.now);
    OffsetMono(f.g, |chain0|, |f.Whole()|);
    if f.spill == [] {
      assert f.Whole() == f.Chain();
      PastEnd(f, y.now);
    }
  }

  lemma Fits(f: File, x: Job, y: Images, k: nat, p: nat, chain0: seq<nat>, size0: nat)
    requires Progress(f, x, y, |x.data|) && p == x.from + |x.data| && f.filesize == Larger(size0, f.currentPosition)
    requires f.currentPosition <= p
    requires x.own < |x.chains| && chain0 == x.chains[x.own] && size0 <= Offset(f.g, |chain0|, 0, 0)
    ensures Pictured(f, y.now) && f.currentPosition <= f.filesize
    ensures f.spill == [] ==> f.filesize <= Offset(f.g, |f.Chain()|, 0, 0)
  {
    hide Offset, Pictured, Stored, Shown, Traced, Fetched, Arranged, Course;
    ProgressIs(f, x, y, |x.data|);
    ReachedIs(x, f.g, StageOf(f, y), |x.data|);
    OffsetMono(f.g, |chain0|, |f.Whole()|);
    if f.spill == [] { assert f.Whole() == f.Chain(); }
  }

  /** The write stopped at the end of the chain, which the position is at or short of. */
  lemma EndFits(f: File, x: Job, y: Images, n: nat, chain0: seq<nat>, size0: nat)
    requires Progress(f, x, y, n) && f.write && f.filesize == f.currentPosition
    requires f.currentPosition <= x.from + n == Offset(f.g, |f.Whole()|, 0, 0)
    requires |f.Whole()| > 0 && f.rw == Position(f.Whole()[|f.Whole()| - 1], 0, 0)
    ensures f.Valid() <==> f.spill == [] && f.currentPosition == Offset(f.g, |f.Whole()| - 1, 0, 0)
  {
    hide Offset, Pictured, Reached, Arranged, Course;
    ProgressIs(f, x, y, n);
    if f.spill == [] { assert f.Whole() == f.Chain(); }
    AtEnd(f.g, f.Whole(), Offset(f.g, |f.Whole()| - 1, 0, 0));
    InOrder(f, y.now, |f.Whole()| - 1, Offset(f.g, |f.Whole()| - 1, 0, 0));
  }

  /** _FAT_write_r from the point where the position is within the file. */
  method WriteOn(f: File, data: seq<Byte>, ghost x: Job, ghost y: Images, ghost k: nat, ghost pad: nat,
                 ghost free0: nat, ghost size0: nat)
    returns (n: nat, ghost y2: Images)
    requires Here(f, x, y, pad, f.rw, k) && Remains(x, pad, data) && |data| > 0 && |x.data| == pad + |data| && f.write
    requires f.g.spc > 0
    requires x.own < |x.chains| && x.room == free0 + |x.chains[x.own]|
    requires x.lim == size0 <= Offset(f.g, |x.chains[x.own]|, 0, 0)
    requires || (f.currentPosition == x.from + pad <= size0 == f.filesize)
             || (size0 < f.currentPosition == f.filesize <= x.from + pad)
    modifies f`rw, f`filesize, f`currentPosition, f`chains, f`spill, f`runs, f.v`firstFree, f.v.cache`stale,
             f.v.cache.entries, f.v.cache.pages, f.v.cache.disc.sectors
    ensures n <= |data| && Progress(f, x, y2, pad + n) && f.v.Valid() && f.currentPosition == old(f.currentPosition) + n
    ensures n < |data| <==> free0 < Need(f.g, |x.chains[x.own]|, x.from + |x.data|)
    ensures |f.Whole()| == |x.chains[x.own]| + Smaller(free0, Need(f.g, |x.chains[x.own]|, x.from + |x.data|))
    ensures f.currentPosition <= f.filesize == Larger(size0, f.currentPosition)
    ensures n == |data| ==> Guided(f) && Stands(f.g, f.Whole(), f.rw, x.from + |x.data|)
    ensures n == |data| ==> (f.Valid() <==> f.spill == [] && f.currentPosition == x.from + |x.data|)
    ensures n < |data| ==> NoneFree(Links(f.v)) && f.v.firstFree == f.v.lastCluster + 1 && |f.Whole()| > 0
    ensures n < |data| ==> f.filesize == f.currentPosition
    ensures n < |data| ==>
              x.from + pad + n == Offset(f.g, |f.Whole()|, 0, 0) && f.rw == Position(f.Whole()[|f.Whole()| - 1], 0, 0)
    ensures n < |data| ==> (f.Valid() <==> f.spill == [] && f.currentPosition == Offset(f.g, |f.Whole()| - 1, 0, 0))
    ensures n == |data| && old(f.currentPosition) + |data| > old(f.filesize) && LastPart(old(f.rw), |data|, f.rw) ==>
              ZeroTail(f.g, y2, f.rw)
  {
    hide *;
    var position, appending := f.rw, false;
    if |data| + f.currentPosition > f.filesize { appending := true; }
    LargerIs(size0, f.currentPosition);
    ghost var chain0, need := x.chains[x.own], Need(f.g, |x.chains[x.own]|, x.from + |x.data|);
    SmallerIs(free0, need);
    var ok, d; ghost var k2;
    ok, position, d, k2, y2 := WriteAll(f, position, data, appending, k, x, y, pad);
    n := d;
    f.rw := position;
    f.currentPosition := f.currentPosition + d;
    if f.filesize < f.currentPosition { f.filesize := f.currentPosition; }
    LargerIs(size0, f.currentPosition);
    if ok {
      Finished(f, x, y2, k2, chain0, free0);
      StandsIs(f.g, f.Whole(), f.rw, k2, x.from + |x.data|);
      Fits(f, x, y2, k2, x.from + |x.data|, chain0, size0);
      InOrder(f, y2.now, k2, x.from + |x.data|);
    } else {
      Ended(f, x, y2, pad + n, position, chain0, free0);
      EndFits(f, x, y2, pad + n, chain0, size0);
    }
  }

  /** _FAT_write_r, not in append mode. now is what the file system sees, and y2 what it sees
      afterwards beside what it would if every write went through: m bytes of what is to be
      written, which begins with zeros if the position is past the end of the file, are
      stored. All of them are unless fewer clusters are free than are needed. The file is in
      order afterwards exactly if all were stored, no cluster had to be linked after the last
      one of the volume, and the chain was no longer than the file needed if it was extended. */
  method Write(f: File, data: seq<Byte>, ghost now: seq<Sector>) returns (n: int, ghost m: nat, ghost y: Images)
    requires f.Valid() && f.v.Valid() && Pictured(f, now) && Guided(f) && |data| > 0
    modifies f`rw, f`filesize, f`currentPosition, f`chains, f`spill, f`runs, f.v`firstFree, f.v.cache`stale,
             f.v.cache.entries, f.v.cache.pages, f.v.cache.disc.sectors
    ensures n == -1 <==> !f.write
    ensures n == -1 ==>
              f.Valid() && y == Images(now, now) && f.currentPosition == old(f.currentPosition)
                  && f.filesize == old(f.filesize)
    ensures n != -1 ==> 0 <= n <= |data| && Progress(f, old(JobOf(f, now, data)), y, m)
    ensures n != -1 ==> (n < |data| <==> old(FreeCount(Links(f.v))) < old(Wanted(f, data)))
    ensures n != -1 ==> |f.Whole()| == old(|f.Chain()|) + Smaller(old(FreeCount(Links(f.v))), old(Wanted(f, data)))
    ensures n == |data| ==> f.v.Valid() && Guided(f) && m == old(Gap(f.filesize, f.currentPosition)) + |data|
    ensures n == |data| ==>
              f.currentPosition == old(f.currentPosition) + n
                  && f.filesize == Larger(old(f.filesize), f.currentPosition)
    ensures n == |data| ==> Stands(f.g, f.Whole(), f.rw, old(From(f)) + m)
    ensures n == |data| && old(f.currentPosition) <= old(f.filesize) < f.currentPosition
            && LastPart(old(f.rw), |data|, f.rw) ==>
              ZeroTail(f.g, y, f.rw)
    ensures n == |data| ==> (f.Valid() <==> f.spill == [] && (old(f.currentPosition <= f.filesize) || old(Tight(f))))
    ensures 0 <= n < |data| ==> f.v.Valid() && NoneFree(Links(f.v)) && f.v.firstFree == f.v.lastCluster + 1
    ensures 0 <= n < |data| ==> |f.Whole()| > 0 && old(From(f)) + m == Offset(f.g, |f.Whole()|, 0, 0)
    ensures 0 <= n < |data| && f.filesize < f.currentPosition ==>
              n == 0 && m <= old(Gap(f.filesize, f.currentPosition)) && f.rw == old(f.rw)
                  && (f.Valid() <==> f.spill == [])
              && f.filesize == old(f.filesize) && f.currentPosition == old(f.currentPosition)
    ensures 0 <= n < |data| && f.filesize >= f.currentPosition ==>
              m == old(Gap(f.filesize, f.currentPosition)) + n
                  && f.filesize == f.currentPosition == old(f.currentPosition) + n
              && f.rw == Position(f.Whole()[|f.Whole()| - 1], 0, 0)
              && (f.Valid() <==> f.spill == [] && f.currentPosition == Offset(f.g, |f.Whole()| - 1, 0, 0))
  {
    hide *;
    n, m, y := -1, 0, Images(now, now);
    if !f.write { return; }
    f.runs := [];
    WriteParts(f, now);
    BeginJob(f, now, data);
    JobIs(f, now, data);
    FromIs(f);
    ghost var x, pad, chain0, free0, size0, p0 := JobOf(f, now, data), Gap(f.filesize, f.currentPosition), f.Chain(),
        FreeCount(Links(f.v)), f.filesize, f.currentPosition;
    ghost var k, at;
    if f.currentPosition > f.filesize {
      var ok;
      ok, k, y, m, at := Extend(f, x, y);
      if !ok {
        Ended(f, x, y, m, at, chain0, free0);
        SmallerIs(free0, Need(f.g, |chain0|, x.from + |x.data|));
        NoMore(f, x, y, m, chain0);
        return 0, m, y;
      }
    } else {
      k := StandsAt(f, x, y);
    }
    n, y := WriteOn(f, data, x, y, k, pad, free0, size0);
    m := pad + n;
  }
}
