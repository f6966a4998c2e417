/** Allocating and freeing clusters, on a disc whose transfers succeed. */
module FatAlloc {
  import opened Bits
  import opened Cache
  import opened FatTable
  import opened FatVolume
  import opened FatChains
  import opened FatFree

  /** A volume on a reliable disc. The two entries before the first cluster are
      reserved and link to no cluster; firstFree is a hint. */
  ghost predicate Ready(v: Volume)
    reads v, v.cache`stale, v.cache.entries, v.cache.pages, v.cache.disc.sectors
  {
    && v.Valid() && v.cache.disc.reliable && v.firstFree <= v.lastCluster + 1
    && !IsCluster(Links(v), Links(v)[0]) && !IsCluster(Links(v), Links(v)[1])
  }

  ghost function Links(v: Volume): (r: seq<nat>)
    requires v.Valid()
    reads v.cache`stale, v.cache.entries, v.cache.pages, v.cache.disc.sectors
    ensures |r| == v.lastCluster + 1
  {
    v.Within(v.lastCluster);
    LinksOf(v.kind, v.Fat(), v.lastCluster)
  }

  /** The entry after that of the last cluster, which belongs to no cluster. */
  ghost function Beyond(v: Volume): nat
    requires v.Valid()
    reads v.cache`stale, v.cache.entries, v.cache.pages, v.cache.disc.sectors
  {
    Next(v.kind, v.Fat(), v.lastCluster + 1)
  }

  lemma LinksIs(v: Volume)
    requires v.Valid()
    ensures Place(v.kind, v.lastCluster) + Width(v.kind) <= |v.Fat()|
    ensures Place(v.kind, v.lastCluster + 1) + Width(v.kind) <= |v.Fat()|
    ensures Links(v) == LinksOf(v.kind, v.Fat(), v.lastCluster) && Beyond(v) == Next(v.kind, v.Fat(), v.lastCluster + 1)
  {
    v.Within(v.lastCluster);
    v.Within(v.lastCluster + 1);
  }

  method NextOf(v: Volume, c: nat) returns (next: nat)
    requires v.Valid() && v.cache.disc.reliable && c <= v.lastCluster + 1
    modifies v.cache.entries, v.cache.pages, v.cache.disc.sectors
    ensures v.Valid() && v.Unchanged(old(v.cache.Contents())) && Links(v) == old(Links(v))
    ensures Beyond(v) == old(Beyond(v))
    ensures next == if c <= v.lastCluster then Links(v)[c] else Beyond(v)
    ensures (old(Ready(v)) ==> Ready(v)) && Dirt(v.cache.entries[..]) <= old(Dirt(v.cache.entries[..]))
    ensures v.Cached() <= old(v.Cached())
  {
    hide Flat, View, Good, Outside, Place, Next;
    v.Within(c);
    ghost var ok;
    next, ok := v.NextCluster(c);
  }


  /** Set the entry of a cluster to a link or an end of chain. */
  method SetLink(v: Volume, c: nat, to: nat)
    requires v.Valid() && v.cache.disc.reliable && CLUSTER_FIRST <= c <= v.lastCluster && to < 0x1_0000_0000
    modifies v.cache.entries, v.cache.pages, v.cache.disc.sectors
    ensures v.Valid() && Links(v) == old(Links(v))[c := Kept(v.kind, to)] && v.SameElsewhere(old(v.cache.Contents()))
    ensures Beyond(v) == old(Beyond(v))
    ensures v.Cached() <= old(v.Cached())
  {
    hide *;
    SameLength(v);
    LinksIs(v);
    v.Within(c);
    v.Sized();
    LastIs(v);
    ghost var f := v.Fat();
    ghost var ok;
    var r;
    r, ok := v.WriteFatEntry(c, to);
    EntrySet(v.kind, f, v.lastCluster, c, to);
    LinksIs(v);
  }

  lemma LastIs(v: Volume)
    requires v.Valid()
    ensures CLUSTER_FIRST <= v.lastCluster && Covers(v.kind, v.Fat(), v.lastCluster)
  {
    v.Within(v.lastCluster);
  }

  lemma EntrySet(kind: Kind, fat: seq<Byte>, last: nat, c: nat, to: nat)
    requires Covers(kind, fat, last) && c <= last && Place(kind, c) + Width(kind) <= |fat| && to < 0x1_0000_0000
    requires Place(kind, last + 1) + Width(kind) <= |fat|
    ensures LinksOf(kind, Set(kind, fat, c, to), last) == LinksOf(kind, fat, last)[c := Kept(kind, to)]
    ensures Next(kind, Set(kind, fat, c, to), last + 1) == Next(kind, fat, last + 1)
  {
    hide LinksOf, Set, Next, Kept;
    LinksSet(kind, fat, last, c, to);
    ReadOther(kind, fat, c, to, last + 1);
  }

  lemma Sizes(v: Volume)
    requires v.Valid()
    ensures CLUSTER_FIRST <= v.lastCluster < Limit(v.kind) <= CLUSTER_EOF
    ensures forall to: nat :: to < Limit(v.kind) || to == CLUSTER_EOF ==> Kept(v.kind, to) == to
  {
    forall to: nat | to < Limit(v.kind) || to == CLUSTER_EOF
      ensures Kept(v.kind, to) == to
    {
      KeptLink(v.kind, to);
    }
  }

  lemma ReadyIs(v: Volume)
    requires Ready(v)
    ensures v.Valid() && v.cache.disc.reliable && v.firstFree <= v.lastCluster + 1
    ensures v.cache.entries.Length == v.cache.pages.Length
    ensures !IsCluster(Links(v), Links(v)[0]) && !IsCluster(Links(v), Links(v)[1])
  {
  }

  // ----- Allocating -----

  lemma BusyNone(links: seq<nat>, a: nat)
    ensures Busy(links, a, a)
  {
  }

  lemma BusyNext(links: seq<nat>, a: nat, b: nat)
    requires b < |links| ==> links[b] != CLUSTER_FREE
    ensures Busy(links, a, b) ==> Busy(links, a, b + 1)
  {
  }

  lemma BusyEnd(links: seq<nat>, a: nat, b: nat)
    requires b >= |links|
    ensures Busy(links, a, b) ==> Busy(links, a, |links|)
  {
  }

  lemma BusyAll(links: seq<nat>, b: nat)
    requires Busy(links, CLUSTER_FIRST, b) && b >= |links|
    ensures NoneFree(links)
  {
  }

  /** The search for a free cluster: the first one from firstFree on, going around the
      table once. It may begin one beyond the last cluster, and be misled by what is there. */
  method Search(v: Volume) returns (f: nat, found: bool)
    requires Ready(v)
    modifies v.cache.entries, v.cache.pages, v.cache.disc.sectors
    ensures Ready(v) && v.Unchanged(old(v.cache.Contents())) && Links(v) == old(Links(v)) && Beyond(v) == old(Beyond(v))
    ensures found && f > v.lastCluster <==> old(Misled(v))
    ensures found && f <= v.lastCluster ==> FirstFrom(Links(v), Start(Links(v), v.firstFree), f)
    ensures !found ==> NoneFree(Links(v))
    ensures !found || old(Misled(v)) ==> f == v.lastCluster + 1
    ensures v.Cached() <= old(v.Cached())
  {
    ReadyIs(v);
    Sizes(v);
    ghost var links, beyond := Links(v), Beyond(v);
    hide Volume.Valid, Volume.Cached, Links, Beyond, Kept, Limit;
    f := v.firstFree;
    if f < CLUSTER_FIRST { f := CLUSTER_FIRST; }
    var start: nat, looped := f, false;
    hide Ready, Busy, NoneFree;
    BusyNone(links, f);
    while true
      invariant Ready(v) && v.Valid() && v.cache.disc.reliable && v.Unchanged(old(v.cache.Contents()))
      invariant v.Cached() <= old(v.Cached())
      invariant Links(v) == links && Beyond(v) == beyond && |links| == v.lastCluster + 1
      invariant CLUSTER_FIRST <= f && (looped ==> f <= v.lastCluster)
      invariant !looped ==> start <= f && (f <= v.lastCluster || (f == start == v.firstFree == v.lastCluster + 1))
      invariant !looped ==> Busy(links, start, f)
      invariant looped ==> Busy(links, start, |links|) && Busy(links, CLUSTER_FIRST, f)
      invariant looped ==> !(v.firstFree == v.lastCluster + 1 && beyond == CLUSTER_FREE)
      decreases if looped then 0 else 1, v.lastCluster + 2 - f
    {
      var next := NextOf(v, f);
      if next == CLUSTER_FREE {
        if f <= v.lastCluster { BusyUpTo(links, start, f, v.firstFree, looped); }
        return f, true;
      }
      BusyNext(links, start, f);
      BusyNext(links, CLUSTER_FIRST, f);
      f := f + 1;
      if f > v.lastCluster {
        BusyEnd(links, start, f);
        if looped {
          BusyAll(links, f);
          return f, false;
        }
        f := CLUSTER_FIRST;
        looped := true;
        BusyNone(links, f);
      }
    }
  }

  lemma BusyUpTo(links: seq<nat>, start: nat, f: nat, firstFree: nat, looped: bool)
    requires IsCluster(links, f) && links[f] == CLUSTER_FREE
    requires start == (if firstFree < CLUSTER_FIRST then CLUSTER_FIRST else firstFree)
    requires if looped then Busy(links, start, |links|) && Busy(links, CLUSTER_FIRST, f)
             else start <= f && Busy(links, start, f)
    ensures FirstFrom(links, Start(links, firstFree), f)
  {
    if looped && start <= f { assert false; }
  }

  /** firstFree was left beyond the last cluster by a failed search, and the entry there reads as free. */
  ghost predicate Misled(v: Volume)
    requires v.Valid()
    reads v, v.cache`stale, v.cache.entries, v.cache.pages, v.cache.disc.sectors
  {
    v.firstFree == v.lastCluster + 1 && Beyond(v) == CLUSTER_FREE
  }

  /** The links with the one of cluster, if it can be set, leading to where there is no cluster. */
  function LinkedBeyond(links: seq<nat>, cluster: nat, kind: Kind): seq<nat> {
    if CLUSTER_FIRST <= cluster < |links| - 1 then links[cluster := FatChains.Kept(kind, |links|)] else links
  }

  /** _FAT_fat_linkFreeCluster: the cluster that cluster links to already, or else the first
      free one, made the end of a chain and linked from cluster unless that is no cluster or
      the last one; CLUSTER_FREE exactly when there is none. This holds exactly when
      the search is not misled; if it is, the result is not a cluster of the volume, and
      cluster is linked to it all the same. */
  method LinkFreeCluster(v: Volume, cluster: nat) returns (r: nat)
    requires Ready(v)
    modifies v`firstFree, v.cache.entries, v.cache.pages, v.cache.disc.sectors
    ensures v.SameElsewhere(old(v.cache.Contents())) && v.Valid()
    ensures var links := old(Links(v));
            if cluster > v.lastCluster then r == CLUSTER_FREE && Links(v) == links && v.firstFree == old(v.firstFree)
            else if IsCluster(links, links[cluster]) then r == links[cluster] && Links(v) == links
                && v.firstFree == old(v.firstFree)
            else if old(Misled(v)) then
              r == v.lastCluster + 1 == v.firstFree && Links(v) == LinkedBeyond(links, cluster, v.kind)
            else if NoneFree(links) then
              r == CLUSTER_FREE && Links(v) == links && v.firstFree == v.lastCluster + 1
            else
              && FirstFrom(links, Start(links, old(v.firstFree)), r)
              && Links(v) == Linked(links, cluster, r) && v.firstFree == r
    ensures Ready(v) && v.Cached() <= old(v.Cached()) && Beyond(v) == old(Beyond(v))
  {
    Sizes(v);
    SameLength(v);
    ghost var c0 := v.cache.Contents();
    ElsewhereRefl(c0, v.fatStart, v.fatSectors, v.cache.stale);
    hide Volume.Valid, Volume.Cached, Links, Beyond, NoneFree, Kept, Limit, Elsewhere, Same, Busy;
    r := CLUSTER_FREE;
    if cluster > v.lastCluster { return; }
    var curLink := NextOf(v, cluster);
    ghost var c1 := v.cache.Contents();
    ElsewhereSame(c0, c0, c1, v.fatStart, v.fatSectors, v.cache.stale);
    if curLink >= CLUSTER_FIRST && curLink <= v.lastCluster { return curLink; }
    var f, found := Search(v);
    ghost var c2 := v.cache.Contents();
    ElsewhereSame(c0, c1, c2, v.fatStart, v.fatSectors, v.cache.stale);
    v.firstFree := f;
    if !found { return CLUSTER_FREE; }
    SomeFree(Links(v), f);
    Attach(v, cluster, f);
    ElsewhereTrans(c0, c2, v.cache.Contents(), v.fatStart, v.fatSectors, v.cache.stale);
    r := f;
  }

  /** Link the free cluster f from cluster, if that can be linked, and make it an end. */
  method Attach(v: Volume, cluster: nat, f: nat)
    requires Ready(v) && v.Valid() && cluster <= v.lastCluster && (IsCluster(Links(v), f) || f == v.lastCluster + 1)
    modifies v.cache.entries, v.cache.pages, v.cache.disc.sectors
    ensures v.Valid() && Ready(v) && v.cache.entries.Length == v.cache.pages.Length && v.Cached() <= old(v.Cached())
    ensures Elsewhere(old(v.cache.Contents()), v.cache.Contents(), v.fatStart, v.fatSectors, v.cache.stale)
    ensures IsCluster(old(Links(v)), f) ==> Links(v) == Linked(old(Links(v)), cluster, f)
    ensures f == v.lastCluster + 1 ==> Links(v) == LinkedBeyond(old(Links(v)), cluster, v.kind)
    ensures Beyond(v) == old(Beyond(v))
  {
    Sizes(v);
    SameLength(v);
    ghost var c2 := v.cache.Contents();
    ElsewhereRefl(c2, v.fatStart, v.fatSectors, v.cache.stale);
    hide Volume.Valid, Volume.Cached, Links, Beyond, NoneFree, Kept, Limit, Elsewhere, Same, Busy;
    if cluster >= CLUSTER_FIRST && cluster < v.lastCluster {
      SetLink(v, cluster, f);
    }
    ghost var c3 := v.cache.Contents();
    if f <= v.lastCluster {
      SetLink(v, f, CLUSTER_EOF);
      ElsewhereTrans(c2, c3, v.cache.Contents(), v.fatStart, v.fatSectors, v.cache.stale);
    }
  }

  lemma SomeFree(links: seq<nat>, f: nat)
    ensures IsCluster(links, f) && links[f] == CLUSTER_FREE ==> !NoneFree(links)
  {
  }

  // ----- Freeing and following -----

  /** _FAT_fat_clearLinks(partition, cluster), from the head of a chain: exactly that chain is freed. */
  method ClearLinks(v: Volume, cluster: nat, ghost chains: seq<seq<nat>>, ghost k: nat) returns (r: bool)
    requires Ready(v) && Partition(Links(v), chains)
    requires IsCluster(Links(v), cluster) ==> k < |chains| && cluster == chains[k][0]
    modifies v`firstFree, v.cache.entries, v.cache.pages, v.cache.disc.sectors
    ensures Ready(v) && v.SameElsewhere(old(v.cache.Contents())) && (r <==> IsCluster(old(Links(v)), cluster))
    ensures if r then Links(v) == Cleared(old(Links(v)), chains[k]) && Partition(Links(v), Without(chains, k))
            else Links(v) == old(Links(v))
    ensures v.firstFree == if r && cluster < old(v.firstFree) then cluster else old(v.firstFree)
  {
    ReadyIs(v);
    ghost var links, contents := Links(v), v.cache.Contents();
    ElsewhereRefl(contents, v.fatStart, v.fatSectors, v.cache.stale);
    if cluster < CLUSTER_FIRST || cluster > v.lastCluster { return false; }
    if cluster < v.firstFree { v.firstFree := cluster; }
    Free(v, cluster, chains, k);
    ClearKeeps(links, chains, k);
    Reserved(v, links, chains[k]);
    r := true;
  }

  /** while ((cluster != CLUSTER_EOF) && (cluster != CLUSTER_FREE)): erase the link and move on. */
  method Free(v: Volume, cluster: nat, ghost chains: seq<seq<nat>>, ghost k: nat)
    requires v.Valid() && v.cache.disc.reliable && Partition(Links(v), chains)
    requires k < |chains| && |chains[k]| > 0 && cluster == chains[k][0]
    modifies v.cache.entries, v.cache.pages, v.cache.disc.sectors
    ensures v.Valid() && v.SameElsewhere(old(v.cache.Contents())) && Links(v) == Cleared(old(Links(v)), chains[k])
  {
    Sizes(v);
    SameLength(v);
    ghost var links, ch, contents := Links(v), chains[k], v.cache.Contents();
    ChainAt(links, chains, k, 0);
    ElsewhereRefl(contents, v.fatStart, v.fatSectors, v.cache.stale);
    ghost var i: nat := 0;
    var c := cluster;
    ClearedNone(links);
    hide Volume.Valid, Volume.Cached, Links, Beyond, Kept, Limit, Partition, Cleared, Elsewhere, After;
    assert After(ch, |ch| - 1) == CLUSTER_EOF by { AfterLast(ch); }
    while c != CLUSTER_EOF && c != CLUSTER_FREE
      invariant v.Valid() && v.cache.disc.reliable && i <= |ch| && c == (if i < |ch| then ch[i] else CLUSTER_EOF)
      invariant Links(v) == Cleared(links, ch[..i])
      invariant Elsewhere(contents, v.cache.Contents(), v.fatStart, v.fatSectors, v.cache.stale)
      invariant i < |ch| ==> CLUSTER_FIRST <= c < CLUSTER_EOF
      decreases |ch| - i
    {
      ClearNext(links, chains, k, i);
      AfterNext(ch, i);
      ghost var now := v.cache.Contents();
      var next := NextOf(v, c);
      SetLink(v, c, CLUSTER_FREE);
      ElsewhereTrans(contents, now, v.cache.Contents(), v.fatStart, v.fatSectors, v.cache.stale);
      c := next;
      i := i + 1;
    }
    assert ch[..i] == ch;
  }

  lemma AfterLast(ch: seq<nat>)
    requires |ch| > 0
    ensures After(ch, |ch| - 1) == CLUSTER_EOF
  {
  }

  lemma AfterNext(ch: seq<nat>, i: nat)
    requires i < |ch|
    ensures After(ch, i) == if i + 1 < |ch| then ch[i + 1] else CLUSTER_EOF
  {
  }

  lemma SameLength(v: Volume)
    requires v.Valid()
    ensures v.cache.entries.Length == v.cache.pages.Length
  {
  }

  lemma Reserved(v: Volume, links: seq<nat>, ch: seq<nat>)
    requires v.Valid() && v.cache.disc.reliable && v.firstFree <= v.lastCluster + 1
    requires |links| == v.lastCluster + 1 && Links(v) == Cleared(links, ch)
    requires !IsCluster(links, links[0]) && !IsCluster(links, links[1])
    ensures Ready(v)
  {
  }

  lemma MemberIs(chains: seq<seq<nat>>, c: nat, k: nat, i: nat)
    requires Member(chains, c, k, i)
    ensures k < |chains| && i < |chains[k]| && chains[k][i] == c
  {
  }

  /** _FAT_fat_lastCluster(partition, cluster): the last cluster of the chain. */
  method LastCluster(v: Volume, cluster: nat, ghost chains: seq<seq<nat>>, ghost k: nat, ghost i0: nat) returns (c: nat)
    requires Ready(v) && Partition(Links(v), chains) && Member(chains, cluster, k, i0)
    modifies v.cache.entries, v.cache.pages, v.cache.disc.sectors
    ensures Ready(v) && v.Unchanged(old(v.cache.Contents())) && Links(v) == old(Links(v))
    ensures |chains[k]| > 0 && c == chains[k][|chains[k]| - 1]
    ensures v.Cached() <= old(v.Cached()) && Beyond(v) == old(Beyond(v))
  {
    hide Ready, Volume.Valid, Volume.Cached, Links, Beyond, Kept, Limit, Partition, After, Member, ChainIs;
    ReadyIs(v);
    Sizes(v);
    MemberIs(chains, cluster, k, i0);
    ghost var links, ch, i := Links(v), chains[k], i0;
    c := cluster;
    ChainAt(links, chains, k, i);
    var next := NextOf(v, c);
    while next != CLUSTER_FREE && next != CLUSTER_EOF
      invariant Ready(v) && v.Valid() && v.cache.disc.reliable && v.Unchanged(old(v.cache.Contents()))
      invariant Links(v) == links
      invariant v.Cached() <= old(v.Cached()) && Beyond(v) == old(Beyond(v))
      invariant i < |ch| && c == ch[i] && next == After(ch, i) && c <= v.lastCluster
      invariant i + 1 < |ch| ==> CLUSTER_FIRST <= next < CLUSTER_EOF
      decreases |ch| - i
    {
      AfterNext(ch, i);
      c := next;
      i := i + 1;
      ChainAt(links, chains, k, i);
      next := NextOf(v, c);
    }
  }
}
