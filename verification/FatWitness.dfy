/** Small volumes on which the allocation of clusters and the writing of files go wrong in
    the ways that FatAlloc and FileWrite describe. */
module FatWitness {
  import opened Bits
  import opened Cache
  import opened FatTable
  import opened FatVolume
  import opened FatChains
  import opened FatFree
  import opened FatAlloc
  import opened FileLayout
  import opened FileImage
  import opened FileJob
  import opened FatFile
  import opened FileWrite
  import opened FileSeen

  ghost predicate Blank(v: seq<Sector>) { forall s :: 0 <= s < |v| ==> v[s] == Zeros() }

  lemma BlankFlat(v: seq<Sector>, start: nat, n: nat)
    requires Blank(v) && start + n <= |v|
    ensures forall k :: 0 <= k < |Flat(v, start, n)| ==> Flat(v, start, n)[k] == 0
  {
    forall k | 0 <= k < |Flat(v, start, n)|
      ensures Flat(v, start, n)[k] == 0
    {
      assert v[start + k / SIZE] == Zeros();
    }
  }

  /** A table of zeros: every cluster is free, and the entry after the last reads as free. */
  lemma BlankLinks(v: Volume)
    requires v.Valid() && v.kind == FAT12 && Blank(v.cache.Contents())
    ensures forall c: nat :: c <= v.lastCluster ==> Links(v)[c] == CLUSTER_FREE
    ensures Beyond(v) == CLUSTER_FREE
  {
    hide Blank, Flat, Links, Beyond;
    ghost var f := v.Fat();
    v.Sized();
    LinksIs(v);
    BlankFlat(v.cache.Contents(), v.fatStart, v.fatSectors);
    forall c: nat | c <= v.lastCluster + 1
      ensures Place(v.kind, c) + Width(v.kind) <= |f| && Next(v.kind, f, c) == CLUSTER_FREE
    {
      v.Within(c);
    }
  }

  /** A blank volume of 12-bit entries on a reliable disc of four sectors, the first of which
      holds the table. */
  method BlankVolume(last: nat, firstFree: nat) returns (v: Volume)
    requires 2 <= last <= 3 && firstFree <= last
    ensures fresh(v) && fresh(v.cache) && fresh(v.cache.entries) && fresh(v.cache.pages) && fresh(v.cache.disc.sectors)
    ensures Ready(v) && v.Valid() && v.lastCluster == last && v.firstFree == firstFree
    ensures v.cache.disc.sectors.Length == 4
    ensures v.kind == FAT12 && v.fatStart == 0 && v.fatSectors == 1 && v.cache.entries.Length == v.cache.pages.Length
    ensures (forall c: nat :: c <= last ==> Links(v)[c] == CLUSTER_FREE) && Beyond(v) == CLUSTER_FREE
  {
    hide Good, View, Flat, Links, Beyond, CacheState.Contents;
    var disc := new Disc(4, true);
    var cache := new CacheState(2, disc);
    cache.Sizes();
    v := new Volume(cache, FAT12, 0, 1, last, firstFree);
    BlankLinks(v);
  }

  // ----- A search that is misled -----

  /** A volume of two clusters, the first of which begins a chain: when the second is in use
      too a request for one to link to the first finds none, and the next request gets, and
      links to the first, a cluster that the volume does not have. */
  method MisledReached() returns (r1: nat, r2: nat, r3: nat, r4: nat, next: nat)
    ensures r1 == 2 && r2 == 3 && r3 == CLUSTER_FREE && r4 == 4 && next == 4
  {
    var v := BlankVolume(3, 2);
    hide Ready, Volume.Valid, Links, Beyond, Linked, NoneFree, FirstFrom, Start, LinkedBeyond, LinksOf;
    LinksSize(v);
    OneFree(Links(v), 2);
    r1 := LinkFreeCluster(v, CLUSTER_FREE);
    LastFree(Links(v));
    r2 := LinkFreeCluster(v, CLUSTER_FREE);
    LinksSize(v);
    r3 := LinkFreeCluster(v, 2);
    BeyondThree(Links(v));
    r4 := LinkFreeCluster(v, 2);
    ReadyIs(v);
    next := NextOf(v, 2);
  }

  /** All clusters free: the search finds the one it begins with. */
  lemma OneFree(links: seq<nat>, start: nat)
    requires 3 <= |links| && (forall c: nat :: c < |links| ==> links[c] == CLUSTER_FREE)
    requires CLUSTER_FIRST <= start < |links|
    ensures !NoneFree(links) && !IsCluster(links, links[0]) && !IsCluster(links, links[1])
    ensures forall r: nat :: FirstFrom(links, Start(links, start), r) ==> r == start
    ensures Linked(links, CLUSTER_FREE, start) == links[start := CLUSTER_EOF]
  {
    assert links[start] == CLUSTER_FREE;
    forall r: nat | FirstFrom(links, Start(links, start), r)
      ensures r == start
    {
      assert links[start] == CLUSTER_FREE;
    }
  }

  /** Only the last cluster free. */
  lemma LastFree(links: seq<nat>)
    requires |links| == 4 && links[2] == CLUSTER_EOF && links[3] == CLUSTER_FREE
    requires links[0] == CLUSTER_FREE && links[1] == CLUSTER_FREE
    ensures !NoneFree(links) && !IsCluster(links, links[0]) && !IsCluster(links, links[2])
    ensures forall r: nat :: FirstFrom(links, Start(links, 2), r) ==> r == 3
    ensures Linked(links, CLUSTER_FREE, 3) == links[3 := CLUSTER_EOF]
  {
  }

  lemma BeyondThree(links: seq<nat>)
    requires |links| == 4
    ensures LinkedBeyond(links, 2, FAT12) == links[2 := 4]
  {
    KeptLink(FAT12, 4);
  }

  lemma LinksSize(v: Volume)
    requires v.Valid()
    ensures |Links(v)| == v.lastCluster + 1
    ensures v.lastCluster == 3 && Links(v)[2] != CLUSTER_FREE && Links(v)[3] != CLUSTER_FREE ==> NoneFree(Links(v))
  {
  }

  // ----- A write that is cut short, and one that is lost -----

  /** An empty file on a blank volume with clusters 2 and 3 of one sector each; the file has
      the cluster that the search begins with. */
  method NewFile(firstFree: nat) returns (f: File)
    requires 2 <= firstFree <= 3
    ensures fresh(f) && fresh(f.v) && fresh(f.v.cache) && fresh(f.v.cache.entries) && fresh(f.v.cache.pages)
    ensures fresh(f.v.cache.disc.sectors)
    ensures f.Valid() && f.v.Valid() && Guided(f) && f.write && f.g == Geometry(1, 1) && f.v.lastCluster == 3
    ensures f.v.firstFree == firstFree
    ensures f.chains == [[firstFree]] && f.own == 0 && f.filesize == 0 && f.currentPosition == 0
    ensures f.startCluster == firstFree
    ensures |Links(f.v)| == 4 && Links(f.v)[firstFree] == CLUSTER_EOF != CLUSTER_FREE
    ensures Links(f.v)[5 - firstFree] == CLUSTER_FREE
    ensures f.v.cache.entries.Length == f.v.cache.pages.Length
  {
    hide Ready, Volume.Valid, Links, Beyond, Linked, NoneFree, FirstFrom, Start, Partition, LinksOf, View, Flat, Good;
    var v := BlankVolume(3, firstFree);
    ghost var links := Links(v);
    OneFree(links, firstFree);
    NoChains(links);
    var c := LinkFreeCluster(v, CLUSTER_FREE);
    NewKeeps(links, [], firstFree);
    assert [] + [[firstFree]] == [[firstFree]];
    f := new File(v, Geometry(1, 1), true, 0, c);
    f.chains, f.own := [[firstFree]], 0;
    SameLength(v);
    Standing(f, firstFree);
  }

  lemma NoChains(links: seq<nat>)
    requires |links| < CLUSTER_EOF && forall c: nat :: c < |links| ==> links[c] == CLUSTER_FREE
    ensures Partition(links, [])
  {
  }

  lemma Standing(f: File, c: nat)
    requires Ready(f.v) && f.v.Valid() && Partition(Links(f.v), f.chains) && f.chains == [[c]] && f.own == 0
    requires f.startCluster == c && f.spill == []
    requires f.g == Geometry(1, 1) && f.v.fatStart == 0 && f.v.fatSectors == 1 && f.v.lastCluster == 3
    requires f.v.cache.disc.sectors.Length == 4
    requires f.filesize == 0 && f.currentPosition == 0 && f.rw == Position(c, 0, 0) && f.v.firstFree <= 3
    ensures f.Valid() && Guided(f)
  {
    hide Ready, Volume.Valid, Links, Beyond, Partition;
    assert f.At(f.rw, 0, 0);
    GuidedIs(f);
  }

  /** 1025 bytes for a file with one free cluster of 512 bytes beside its own: fewer are
      written than were given, and the position is then at the beginning of the last
      cluster and not at the end of the file. */
  method ShortWrite() returns (n: int, filesize: nat, rw: Position)
    ensures n == 1024 && filesize == 1024 && rw == Position(3, 0, 0)
  {
    hide *;
    var f := NewFile(2);
    ValidIs(f);
    PictureBegins(f);
    OneLeft(f);
    ghost var m, y, now := 0, Images([], []), f.v.cache.Contents();
    ghost var x := JobOf(f, now, Nulls(1025));
    WriteParts(f, now);
    JobIs(f, now, Nulls(1025));
    n, m, y := Write(f, Nulls(1025), now);
    SmallerIs(1, 2);
    TwoClusters(f, x, y, m);
    filesize, rw := f.filesize, f.rw;
  }

  /** A file that began with cluster 2 goes on in cluster 3, or the other way round. */
  lemma TwoClusters(f: File, x: Job, y: Images, n: nat)
    requires Progress(f, x, y, n) && f.v.lastCluster == 3 && |f.Whole()| == 2 && x.own < |x.chains|
    requires x.chains[x.own] == [2] || x.chains[x.own] == [3]
    ensures f.Whole()[0] == x.chains[x.own][0] && f.Whole()[1] == 5 - f.Whole()[0]
  {
    hide Pictured, File.Whole, Arranged, Course, Stored, Shown, Traced, Fetched, Lean, Unseen;
    ProgressIs(f, x, y, n);
    PicturedChain(f, y.now);
    ReachedIs(x, f.g, StageOf(f, y), n);
    WholeAt(f, y.now, 0);
    WholeAt(f, y.now, 1);
  }

  /** One cluster is free, and two more, or one more, are needed. */
  lemma OneLeft(f: File)
    requires f.Valid() && f.v.Valid() && f.g == Geometry(1, 1) && f.v.lastCluster == 3 && |Links(f.v)| == 4
    requires f.spill == []
    requires f.filesize == 0 && f.currentPosition == 0 && f.own == 0 && |f.chains| == 1 && |f.chains[0]| == 1
    requires (Links(f.v)[2] == CLUSTER_FREE) != (Links(f.v)[3] == CLUSTER_FREE)
    ensures |f.Chain()| == 1 && From(f) == 0 && Gap(f.filesize, f.currentPosition) == 0 && FreeCount(Links(f.v)) == 1
    ensures Wanted(f, Nulls(1025)) == 2 && Wanted(f, Nulls(513)) == 1
    ensures Offset(f.g, 1, 0, 0) == 512 && Offset(f.g, 2, 0, 0) == 1024
  {
    hide File.Valid, Volume.Valid, Links;
    var links := Links(f.v);
    assert CountFree(links, 4, 4) == 0;
    assert CountFree(links, 3, 4) == if links[3] == CLUSTER_FREE then 1 else 0;
  }

  /** 513 bytes for a file whose one cluster is the last of the volume, with cluster 2 free:
      all of them are written, but the chain still ends with its first cluster, and byte
      512 cannot be found again. */
  method LostWrite() returns (n: int, filesize: nat, next: nat)
    ensures n == 513 && filesize == 513 && next == CLUSTER_EOF
  {
    hide *;
    var f := NewFile(3);
    ValidIs(f);
    PictureBegins(f);
    OneLeft(f);
    ghost var m, y, now := 0, Images([], []), f.v.cache.Contents();
    ghost var x := JobOf(f, now, Nulls(513));
    WriteParts(f, now);
    JobIs(f, now, Nulls(513));
    LastTurn(f, now, Nulls(513));
    n, m, y := Write(f, Nulls(513), now);
    SmallerIs(1, 1);
    LargerIs(0, 513);
    SpilledWhen(f, x, y, m);
    LostEnd(f, x, y, m);
    filesize := f.filesize;
    next := NextOf(f.v, 3);
  }

  /** The last cluster of the volume is the end of the chain already. */
  lemma LastTurn(f: File, now: seq<Sector>, data: seq<Byte>)
    requires f.v.Valid() && f.g.spc > 0 && f.Chain() == [3] && |Links(f.v)| == 4 && Links(f.v)[3] == CLUSTER_EOF
    ensures JobOf(f, now, data).turn == 1
  {
    hide Links, FreeCount, Need, EndOf, Volume.Valid;
  }

  lemma LostEnd(f: File, x: Job, y: Images, n: nat)
    requires Progress(f, x, y, n) && f.spill != [] && |f.Chain()| == 1 && x.own < |x.chains| && x.chains[x.own] == [3]
    ensures f.v.Valid() && f.v.cache.disc.reliable && 3 <= f.v.lastCluster && Links(f.v)[3] == CLUSTER_EOF
  {
    hide Pictured, Arranged, Course, Stored, Shown, Traced, Fetched, Lean, Unseen, Links, Partition;
    ProgressIs(f, x, y, n);
    PicturedIs(f, y.now);
    ReachedIs(x, f.g, StageOf(f, y), n);
    f.ClusterAt(0);
    assert f.Whole()[0] == f.Chain()[0];
  }
}
