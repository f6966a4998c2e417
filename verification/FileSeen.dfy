/** What a write means: when the file system sees what was written, what a later write may
    rely on, and what becomes of other files. */
module FileSeen {
  import opened Bits
  import opened Cache
  import opened FatTable
  import opened FatVolume
  import opened FatChains
  import opened FatFree
  import opened FatAlloc
  import opened FileLayout
  import opened FileImage
  import opened FileJob
  import opened FatFile
  import opened FileWrite

  /** Before a write the picture may be what the file system sees. */
  lemma PictureBegins(f: File)
    requires f.Mounted() && f.v.cache.entries.Length == f.v.cache.pages.Length && f.spill == []
    ensures Pictured(f, f.v.cache.Contents())
  {
    f.MountedIs();
  }

  // ----- Which sectors show what was written -----

  /** No sector of the clusters has one of these numbers. */
  ghost predicate Clear(g: Geometry, chain: seq<nat>, ts: set<nat>) {
    forall t: nat :: InChain(g, chain, t) ==> t !in ts
  }

  /** The same for sectors that begin at byte q or later. */
  ghost predicate ClearFrom(g: Geometry, chain: seq<nat>, q: nat, ts: set<nat>) {
    forall t: nat :: InChain(g, chain, t) && !Passed(g, chain, q, t) ==> t !in ts
  }

  /** What was unseen holds what was to be written already. */
  ghost predicate HeldBefore(img0: seq<Sector>, img: seq<Sector>, unseen: set<nat>) {
    forall t: nat :: t in unseen && t < |img0| && t < |img| ==> img0[t] == img[t]
  }

  lemma ShownAll(g: Geometry, chain: seq<nat>, from: nat, q: nat, img0: seq<Sector>, img: seq<Sector>, now: seq<Sector>,
                 unseen: set<nat>)
    requires Shown(g, chain, from, q, img0, img, now, unseen) && HeldBefore(img0, img, unseen)
    ensures now == img
  {
    hide Done, Passed;
  }

  /** A sector that lies between bytes from and q has the bytes of that part of the file. */
  lemma DoneBytes(g: Geometry, chain: seq<nat>, from: nat, q: nat, t: nat, v: seq<Sector>, w: seq<Sector>)
    requires Done(g, chain, from, q, t) && Clusters(g, chain, v) && Clusters(g, chain, w)
    requires q <= Offset(g, |chain|, 0, 0)
    requires Bytes(g, chain, v)[from..q] == Bytes(g, chain, w)[from..q]
    ensures t < |v| && t < |w| && v[t] == w[t]
  {
    hide SectorOf, Offset, Bytes;
    var k: nat, s: nat :| OfChain(g, chain, k, s, t) && from <= Offset(g, k, s, 0) && Offset(g, k, s, 0) + SIZE <= q;
    NumberAt(g, chain, v, k, s, 0);
    NumberAt(g, chain, w, k, s, 0);
    forall b: nat | b < SIZE
      ensures v[t][b] == w[t][b]
    {
      var p := Offset(g, k, s, b);
      OffsetAdd(g, k, s, 0, 0, b);
      NumberAt(g, chain, v, k, s, b);
      NumberAt(g, chain, w, k, s, b);
      BytesAt(g, chain, v, p);
      BytesAt(g, chain, w, p);
      SamePlace(Bytes(g, chain, v), Bytes(g, chain, w), from, q, p);
    }
  }

  lemma SamePlace(a: seq<Byte>, b: seq<Byte>, from: nat, q: nat, p: nat)
    requires from <= p < q <= |a| && q <= |b| && a[from..q] == b[from..q]
    ensures a[p] == b[p]
  {
    assert a[from..q][p - from] == b[from..q][p - from];
  }

  /** Seen as written exactly if every sector that kept its old contents held what was to
      be written already. */
  lemma ShownWritten(g: Geometry, chain0: seq<nat>, img0: seq<Sector>, chain: seq<nat>, img: seq<Sector>,
                     now: seq<Sector>,
                     from: nat, b: seq<Byte>, lim: nat, unseen: set<nat>)
    requires Stored(g, chain0, img0, chain, img, from, b, lim) && Clusters(g, chain, now)
    requires Shown(g, chain, from, from + |b|, img0, img, now, unseen)
    ensures Wrote(Bytes(g, chain0, img0), Bytes(g, chain, now), from, b, lim) <==> HeldBefore(img0, img, unseen)
  {
    hide Done, Passed, Bytes, Offset, Others;
    StoredIs(g, chain0, img0, chain, img, from, b, lim);
    if HeldBefore(img0, img, unseen) { ShownAll(g, chain, from, from + |b|, img0, img, now, unseen); }
    if Wrote(Bytes(g, chain0, img0), Bytes(g, chain, now), from, b, lim) {
      forall t: nat | t in unseen && t < |img0| && t < |img|
        ensures img0[t] == img[t]
      {
        DoneBytes(g, chain, from, from + |b|, t, now, img);
      }
    }
  }

  /** Where no sector of the file is stale, the file system sees what was written, and
      every other byte before the old end of the file as it was, exactly if each sector that
      a direct write missed in a dirty page held what was to be written already. */
  lemma WriteSeen(f: File, x: Job, y: Images, n: nat)
    requires Progress(f, x, y, n) && f.v.cache.entries.Length == f.v.cache.pages.Length && x.own < |x.chains|
    requires n <= |x.data|
    requires Clear(f.g, f.Whole(), f.v.cache.stale)
    ensures Clusters(f.g, f.Whole(), f.v.cache.Contents()) && Clusters(f.g, x.chains[x.own], x.img)
    ensures Wrote(Bytes(f.g, x.chains[x.own], x.img), Bytes(f.g, f.Whole(), f.v.cache.Contents()), x.from, x.data[..n],
        x.lim)
            <==> HeldBefore(x.img, y.img, Unseen(f.runs))
  {
    hide InChain, Fetched, Wrote, File.Mounted, Elsewhere, Volume.Valid, Bytes, Clusters, Others, Shown, Traced;
    hide HeldBefore, Lean, Arranged, Course, File.Whole, Unseen, SpillOk;
    ProgressIs(f, x, y, n);
    PicturedIs(f, y.now);
    ReachedIs(x, f.g, StageOf(f, y), n);
    ClustersSame(f.g, f.Whole(), y.img, y.now);
    ShownWritten(f.g, x.chains[x.own], x.img, f.Whole(), y.img, y.now, x.from, x.data[..n], x.lim, Unseen(f.runs));
    SeenBytes(f.g, f.Whole(), y.now, f.v.cache.Contents(), f.v.fatStart, f.v.fatSectors, f.v.cache.stale);
  }

  /** Of the sectors that were not stale before, exactly those are stale afterwards that a
      direct write missed in a clean page; there are none exactly if every missed sector
      was in a dirty page. */
  lemma StaleExactly(f: File, x: Job, y: Images, n: nat)
    requires Progress(f, x, y, n)
    ensures f.v.cache.stale == StaleAfter(x.stale, f.runs)
    ensures forall t: nat :: t !in x.stale ==> (t in f.v.cache.stale <==> t in Dropped(f.runs))
    ensures Dropped(f.runs) == {} <==> forall i :: 0 <= i < |f.runs| ==> MissedBy(f.runs[i]) <= Dirt(f.runs[i].es)
  {
    hide Pictured, Stored, Shown, Fetched, Arranged, Course, Dropped, MissedBy, Dirt, StaleAfter, Logged, Swept, Lean;
    StaleBound(x.stale, f.runs);
    DroppedNone(f.runs);
  }

  /** If no direct write missed a sector the file system sees all that was written. */
  lemma SeenIfNoneMissed(f: File, x: Job, y: Images, n: nat)
    requires Progress(f, x, y, n) && f.v.cache.entries.Length == f.v.cache.pages.Length && x.own < |x.chains|
    requires n <= |x.data|
    requires NoneMissed(f.runs) && Clear(f.g, f.Whole(), x.stale)
    ensures Clear(f.g, f.Whole(), f.v.cache.stale)
    ensures Clusters(f.g, f.Whole(), f.v.cache.Contents()) && Clusters(f.g, x.chains[x.own], x.img)
    ensures Wrote(Bytes(f.g, x.chains[x.own], x.img), Bytes(f.g, f.Whole(), f.v.cache.Contents()), x.from, x.data[..n],
        x.lim)
  {
    hide Progress, InChain, Wrote, Bytes, Clusters, Unseen, Dropped, MissedBy, Dirt, StaleAfter;
    NoneMissedNone(f.runs);
    StaleExactly(f, x, y, n);
    WriteSeen(f, x, y, n);
  }

  /** A direct write misses no sector exactly if it goes on to the mirror step wherever a
      page holds one of its sectors, and those come first. */
  lemma MissesNone(d: Direct)
    requires Recorded(d)
    ensures MissedBy(d) == {} <==> IsLead(d.es, d.at, d.len, d.n) && CachedFirst(d.es, d.at, d.len)
  {
    hide Find, CachedFirst;
    if IsLead(d.es, d.at, d.len, d.n) {
      MissedNone(d.es, d.at, d.len, d.n);
    } else {
      assert d.at in Missed(d.es, d.at, d.len, d.n);
    }
  }

  // ----- What a later write may rely on -----

  lemma NotPassedBefore(g: Geometry, chain: seq<nat>, q: nat, q2: nat, t: nat)
    requires q <= q2 && !Passed(g, chain, q2, t)
    ensures !Passed(g, chain, q, t)
  {
    hide OfChain, Offset;
  }

  /** Sectors of a run begin no earlier than the write. */
  lemma RunClear(g: Geometry, chain: seq<nat>, from: nat, q: nat, d: Direct, t: nat)
    requires RunIn(g, chain, from, q, d) && Distinct(chain) && t in Run(d.at, d.len)
    ensures InChain(g, chain, t) && !Passed(g, chain, from, t)
  {
    hide Offset, SectorOf;
    var k: nat, s: nat :| RunAt(g, chain, k, s, d) && from <= Offset(g, k, s, 0)
        && Offset(g, k, s, 0) + SIZE * d.len <= q;
    RunPassed(g, chain, from, k, s, d.len, t);
    NotPassedBefore(g, chain, from, Offset(g, k, s, 0), t);
    var j: nat, r: nat :| OfChain(g, chain, j, r, t) && from <= Offset(g, j, r, 0)
        && Offset(g, j, r, 0) + SIZE <= Offset(g, k, s, 0) + SIZE * d.len;
    assert OfChain(g, chain, j, r, t);
  }

  /** If no sector of the file that begins where the write does or later was cached, no
      direct write misses one, and where the write ends that is true again: the next write
      can be made from there. */
  lemma FreshStays(f: File, x: Job, y: Images, n: nat)
    requires Progress(f, x, y, n) && ClearFrom(f.g, f.Whole(), x.from, x.held)
    ensures NoneMissed(f.runs) && ClearFrom(f.g, f.Whole(), x.from + n, f.v.Cached())
  {
    hide Pictured, Stored, Shown, Arranged, Course, MissedBy, InChain, Passed, RunIn, Recorded, Volume.Cached, Dropped;
    hide StaleAfter, Swept, Lean, Run, File.Whole;
    ProgressIs(f, x, y, n);
    PicturedChain(f, y.now);
    forall i | 0 <= i < |f.runs|
      ensures MissedBy(f.runs[i]) == {}
    {
      var d := f.runs[i];
      MissedWithin(d);
      forall t: nat | t in MissedBy(d)
        ensures false
      {
        RunClear(f.g, f.Whole(), x.from, x.from + n, d, t);
      }
    }
    forall t: nat | InChain(f.g, f.Whole(), t) && !Passed(f.g, f.Whole(), x.from + n, t)
      ensures t !in f.v.Cached()
    {
      if Passed(f.g, f.Whole(), x.from, t) { PassedMore(f.g, f.Whole(), f.Whole(), x.from, x.from + n, t); }
    }
  }

  lemma MissedWithin(d: Direct)
    ensures MissedBy(d) <= Run(d.at, d.len)
  {
    MissedInRun(d.es, d.at, d.len, d.n);
  }

  // ----- Clusters that are lost -----

  /** Data goes on in clusters that nothing links to exactly if the file, or as much of it
      as there were clusters for, is longer than when the last cluster of the volume was
      its end. */
  lemma SpilledWhen(f: File, x: Job, y: Images, n: nat)
    requires Progress(f, x, y, n)
    ensures f.spill != [] <==> 0 < x.turn < |f.Whole()|
    ensures f.spill != [] ==> |f.Chain()| == x.turn
  {
    hide Pictured, Reached, FreeCount, Ahead, Arranged;
    ProgressIs(f, x, y, n);
    ArrangedSpill(x, f.chains, f.Chain(), f.spill);
  }

  lemma ArrangedSpill(x: Job, chains: seq<seq<nat>>, chain: seq<nat>, spill: seq<nat>)
    requires Arranged(x, chains, chain, spill)
    ensures spill != [] <==> 0 < x.turn < |chain + spill|
    ensures spill != [] ==> |chain| == x.turn
  {
  }

  /** After an extension that failed the chain is longer than the file needs exactly if a
      cluster was added to it; the next extension then begins beyond the end of the file. */
  lemma StillTight(f: File, chain0: seq<nat>)
    requires chain0 <= f.Chain() && |chain0| > 0 && f.filesize <= Offset(f.g, |chain0|, 0, 0)
    requires |chain0| == 1 || Offset(f.g, |chain0| - 1, 0, 0) < f.filesize
    ensures Tight(f) <==> |f.Chain()| == |chain0|
  {
    hide Offset;
    if |f.Chain()| > |chain0| { OffsetMono(f.g, |chain0|, |f.Chain()| - 1); }
  }

  // ----- Other files -----

  /** The chains of other files are the same, and hold the same bytes. */
  lemma OtherFiles(f: File, x: Job, y: Images, n: nat, l: nat)
    requires Progress(f, x, y, n) && l < |x.chains| && l != x.own
    ensures l < |f.chains| && f.chains[l] == x.chains[l]
    ensures Clusters(f.g, f.chains[l], x.img) && Clusters(f.g, f.chains[l], y.now)
    ensures Bytes(f.g, f.chains[l], y.now) == Bytes(f.g, f.chains[l], x.img)
  {
    hide Pictured, Stored, Traced, Fetched, Lean, Unseen, Bytes, Clusters, Course, File.Whole, SpillOk, Shown;
    ProgressIs(f, x, y, n);
    ReachedIs(x, f.g, StageOf(f, y), n);
    ChainsApart(f, y.now, l);
    SameOthers(f.g, f.Whole(), x.from, x.from + n, x.img, y.img, y.now, Unseen(f.runs));
    OtherChain(f.g, f.Whole(), y.now, x.img, f.chains[l]);
  }

  lemma SameOthers(g: Geometry, chain: seq<nat>, from: nat, q: nat, img0: seq<Sector>, img: seq<Sector>,
                   now: seq<Sector>, unseen: set<nat>)
    requires Shown(g, chain, from, q, img0, img, now, unseen)
    ensures Others(g, chain, now, img0)
  {
    hide OfChain, Offset;
    forall t: nat | t < |now| && !InChain(g, chain, t)
      ensures now[t] == img0[t]
    {
      assert !Passed(g, chain, q, t);
    }
  }

  lemma ChainsApart(f: File, now: seq<Sector>, l: nat)
    requires Pictured(f, now) && l < |f.chains| && l != f.own && (f.spill != [] ==> l < |f.chains| - 1)
    ensures Clusters(f.g, f.chains[l], now)
    ensures forall i, j :: 0 <= i < |f.Whole()| && 0 <= j < |f.chains[l]| ==> f.Whole()[i] != f.chains[l][j]
  {
    hide Pictured, File.Mounted, Links, ChainIs, Chained, SectorOf;
    PicturedIs(f, now);
    f.MountedParts(Links(f.v));
    var w, other := f.Whole(), f.chains[l];
    forall k | 0 <= k < |other|
      ensures CLUSTER_FIRST <= other[k] && SectorOf(f.g, other[k], f.g.spc) <= |now|
    {
      ChainAt(Links(f.v), f.chains, l, k);
      SectorBound(f.g, other[k], f.g.spc, f.v.lastCluster);
    }
    forall i, j | 0 <= i < |w| && 0 <= j < |other|
      ensures w[i] != other[j]
    {
      AnyAt(f.chains, f.own, f.spill, Links(f.v), i);
      assert Member(f.chains, other[j], l, j);
    }
  }

  // ----- Writes one after another -----

  /** The cache holds no data sector but of the part of the file before the position, and
      nothing is stale. */
  ghost predicate Recent(f: File)
    reads f`currentPosition, f`chains, f`own, f.v, f.v.cache`stale, f.v.cache.entries
  {
    f.v.cache.stale == {} && Fetched(f.g, f.Chain(), f.currentPosition, {}, f.v.Cached())
  }

  lemma RecentClear(g: Geometry, chain1: seq<nat>, chain2: seq<nat>, q: nat, cached: set<nat>)
    requires Fetched(g, chain1, q, {}, cached) && chain1 <= chain2
    ensures ClearFrom(g, chain2, q, cached)
  {
    hide Passed, InChain;
    forall t: nat | t in cached
      ensures Passed(g, chain2, q, t)
    {
      PassedMore(g, chain1, chain2, q, q, t);
    }
  }

  lemma RecentMore(g: Geometry, chain1: seq<nat>, chain2: seq<nat>, q1: nat, q2: nat, held: set<nat>, cached: set<nat>)
    requires Fetched(g, chain1, q1, {}, held) && Fetched(g, chain2, q2, held, cached) && chain1 <= chain2 && q1 <= q2
    ensures Fetched(g, chain2, q2, {}, cached)
  {
    hide Passed;
    forall t: nat | t in cached
      ensures Passed(g, chain2, q2, t)
    {
      if t in held { PassedMore(g, chain1, chain2, q1, q2, t); }
    }
  }

  /** From the file with chain0 on contents v0 to that with chain on contents v: b was
      stored at q, and nothing else before lim. */
  ghost predicate NowHolds(g: Geometry, chain0: seq<nat>, v0: seq<Sector>, chain: seq<nat>, v: seq<Sector>, q: nat,
                           b: seq<Byte>, lim: nat) {
    Clusters(g, chain0, v0) && Clusters(g, chain, v) && Wrote(Bytes(g, chain0, v0), Bytes(g, chain, v), q, b, lim)
  }

  lemma AfterRecent(f: File, x: Job, y: Images, n: nat, chain0: seq<nat>)
    requires Progress(f, x, y, n) && f.v.cache.entries.Length == f.v.cache.pages.Length && x.own < |x.chains|
    requires chain0 == x.chains[x.own]
    requires n == |x.data| && f.spill == [] && f.currentPosition == x.from + n && x.stale == {}
    requires Fetched(f.g, chain0, x.from, {}, x.held)
    ensures Recent(f) && NowHolds(f.g, chain0, x.img, f.Chain(), f.v.cache.Contents(), x.from, x.data, x.lim)
  {
    hide *;
    ProgressIs(f, x, y, n);
    var z := StageOf(f, y);
    StageParts(f, y);
    ReachedIs(x, f.g, z, n);
    assert f.chains[f.own] + [] == f.chains[f.own];
    RecentClear(f.g, chain0, f.Whole(), x.from, x.held);
    FreshStays(f, x, y, n);
    ClearNone(f.g, f.Whole());
    SeenIfNoneMissed(f, x, y, n);
    NoneMissedNone(f.runs);
    StaleBound(x.stale, f.runs);
    StaleExactly(f, x, y, n);
    RecentMore(f.g, chain0, f.Whole(), x.from, x.from + n, x.held, f.v.Cached());
    assert x.data[..n] == x.data;
    ToRecent(f);
    ToHolds(f.g, chain0, x.img, f.Chain(), f.v.cache.Contents(), x.from, x.data, x.lim);
  }

  lemma ClearNone(g: Geometry, chain: seq<nat>)
    ensures Clear(g, chain, {})
  {
  }

  lemma ToRecent(f: File)
    requires f.v.cache.stale == {} && Fetched(f.g, f.Chain(), f.currentPosition, {}, f.v.Cached())
    ensures Recent(f)
  {
  }

  lemma ToHolds(g: Geometry, chain0: seq<nat>, v0: seq<Sector>, chain: seq<nat>, v: seq<Sector>, q: nat, b: seq<Byte>,
                lim: nat)
    requires Clusters(g, chain0, v0) && Clusters(g, chain, v)
    requires Wrote(Bytes(g, chain0, v0), Bytes(g, chain, v), q, b, lim)
    ensures NowHolds(g, chain0, v0, chain, v, q, b, lim)
  {
  }

  lemma RecentIs(f: File)
    requires Recent(f)
    ensures f.v.cache.stale == {} && Fetched(f.g, f.Chain(), f.currentPosition, {}, f.v.Cached())
  {
  }

  lemma DataIs(f: File, now: seq<Sector>, data: seq<Byte>)
    requires f.v.Valid() && f.g.spc > 0 && |f.Chain()| > 0 && f.currentPosition <= f.filesize
    ensures var x := JobOf(f, now, data);
            x.data == data && x.from == f.currentPosition && x.img == now && x.stale == f.v.cache.stale
                && x.held == f.v.Cached()
    ensures Gap(f.filesize, f.currentPosition) == 0 && From(f) == f.currentPosition
  {
    hide Links, FreeCount, Turn, Need, EndOf, Volume.Cached;
    assert Nulls(0) + data == data;
  }

  lemma ValidIs(f: File)
    requires f.Valid()
    ensures f.Mounted() && f.spill == []
  {
  }

  lemma KeepsChain(f: File, x: Job, y: Images, n: nat)
    requires Progress(f, x, y, n) && x.own < |x.chains|
    ensures f.spill == [] ==> x.chains[x.own] <= f.Chain()
    ensures f.v.cache.entries.Length == f.v.cache.pages.Length
  {
    hide *;
    ProgressIs(f, x, y, n);
    PicturedIs(f, y.now);
    StageParts(f, y);
    ReachedIs(x, f.g, StageOf(f, y), n);
    if f.spill == [] { assert f.chains[f.own] + [] == f.chains[f.own]; }
  }

  /** A write within the file or at its end. If it goes through, and into clusters that are
      linked, the file system sees all of it, and the next write can follow from there. */
  method WriteNext(f: File, data: seq<Byte>) returns (n: int)
    requires f.Valid() && f.v.Valid() && Guided(f) && f.write && Recent(f) && |data| > 0
    requires f.currentPosition <= f.filesize
    requires f.v.cache.entries.Length == f.v.cache.pages.Length
    modifies f`rw, f`filesize, f`currentPosition, f`chains, f`spill, f`runs, f.v`firstFree, f.v.cache`stale,
             f.v.cache.entries, f.v.cache.pages, f.v.cache.disc.sectors
    ensures f.v.Valid() && f.v.cache.entries.Length == f.v.cache.pages.Length && 0 <= n <= |data|
    ensures n < |data| ==> NoneFree(Links(f.v))
    ensures n == |data| && f.spill == [] ==> f.Valid() && Guided(f) && Recent(f) && old(f.Chain()) <= f.Chain()
    ensures n == |data| && f.spill == [] ==>
              f.currentPosition == old(f.currentPosition) + |data| <= f.filesize == Larger(old(f.filesize),
                  f.currentPosition)
              && NowHolds(f.g, old(f.Chain()), old(f.v.cache.Contents()), f.Chain(), f.v.cache.Contents(),
                          old(f.currentPosition), data, old(f.filesize))
  {
    hide *;
    ValidIs(f);
    PictureBegins(f);
    ghost var v0, chain0 := f.v.cache.Contents(), f.Chain();
    WriteParts(f, v0);
    JobIs(f, v0, data);
    DataIs(f, v0, data);
    RecentIs(f);
    ghost var x := JobOf(f, v0, data);
    ghost var m, y;
    n, m, y := Write(f, data, v0);
    KeepsChain(f, x, y, m);
    LargerIs(x.lim, f.currentPosition);
    if n == |data| {
      ghost var k: nat := |data|;
      if f.spill == [] { AfterRecent(f, x, y, k, chain0); }
    }
  }

  /** What two such writes in a row store, one after the other, is stored by both. */
  lemma HoldsMore(g: Geometry, chain0: seq<nat>, v0: seq<Sector>, chain1: seq<nat>, v1: seq<Sector>, chain2: seq<nat>,
                  v2: seq<Sector>,
                  q: nat, a: seq<Byte>, b: seq<Byte>, lim: nat)
    requires NowHolds(g, chain0, v0, chain1, v1, q, a, lim)
    requires NowHolds(g, chain1, v1, chain2, v2, q + |a|, b, Larger(lim, q + |a|))
    ensures NowHolds(g, chain0, v0, chain2, v2, q, a + b, lim)
  {
    hide Clusters, Bytes, Wrote;
    WroteMore(Bytes(g, chain0, v0), Bytes(g, chain1, v1), Bytes(g, chain2, v2), q, a, b, lim);
  }
}
