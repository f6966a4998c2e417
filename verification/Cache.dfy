/** The write-back sector cache: which contents each sector has, whatever is held in
    the pages, on the disc, or in both. */
module Cache {
  import opened Bits

  const SIZE := 512                    // BYTES_PER_READ
  const CACHE_FREE := 0xffff_ffff
  const DIRTY := 0xc33c_a55a

  type Sector = s: seq<Byte> | |s| == SIZE witness seq(SIZE, _ => 0)

  datatype Entry = Entry(sector: nat, count: nat, dirty: nat)

  // ----- The contents of the disc as the file system sees them -----

  /** The first page that holds sector s, or the number of pages. */
  function Find(es: seq<Entry>, s: nat): (i: nat)
    ensures i <= |es| && (i < |es| ==> es[i].sector == s)
    ensures forall j :: 0 <= j < i ==> es[j].sector != s
  {
    if es == [] then 0 else if es[0].sector == s then 0 else 1 + Find(es[1..], s)
  }

  ghost function View(es: seq<Entry>, ps: seq<Sector>, ds: seq<Sector>): (v: seq<Sector>)
    requires |es| == |ps|
    ensures |v| == |ds|
  {
    seq(|ds|, s requires 0 <= s < |ds| => if Find(es, s) < |es| then ps[Find(es, s)] else ds[s])
  }

  /** Page v is the one to be given up: a free one if there is any, as long as the free ones are
      counted 0; and without free pages none is counted lower, below the largest count. */
  ghost predicate LeastUsed(es: seq<Entry>, v: nat) {
    && v < |es|
    && ((forall j :: 0 <= j < |es| && es[j].sector == CACHE_FREE ==> es[j].count == 0) ==>
          forall j :: 0 <= j < |es| && es[j].sector == CACHE_FREE ==> es[v].sector == CACHE_FREE)
    && ((forall j :: 0 <= j < |es| ==> es[j].sector != CACHE_FREE) ==>
          forall j :: 0 <= j < |es| && es[j].count < 0xffff_ffff ==> es[v].count <= es[j].count)
  }

  /** No sector in two pages. */
  ghost predicate Unique(es: seq<Entry>) {
    forall i, j :: 0 <= i < j < |es| && es[i].sector != CACHE_FREE ==> es[i].sector != es[j].sector
  }

  /** A page in use holds a sector of the disc, and a clean one the same contents unless
      the disc was written behind its back; a free page is clean. */
  ghost predicate Faithful(es: seq<Entry>, ps: seq<Sector>, ds: seq<Sector>, stale: set<nat>)
    requires |es| == |ps|
  {
    forall i :: 0 <= i < |es| ==>
      if es[i].sector == CACHE_FREE then es[i].dirty != DIRTY
      else es[i].sector < |ds| && (es[i].dirty != DIRTY && es[i].sector !in stale ==> ps[i] == ds[es[i].sector])
  }

  ghost predicate Good(es: seq<Entry>, ps: seq<Sector>, ds: seq<Sector>, stale: set<nat>) {
    2 <= |es| == |ps| < CACHE_FREE && |ds| < CACHE_FREE && Unique(es) && Faithful(es, ps, ds, stale)
  }

  /** The same contents but for stale sectors. */
  ghost predicate Same(v: seq<Sector>, w: seq<Sector>, stale: set<nat>) {
    |v| == |w| && forall s :: 0 <= s < |v| && s !in stale ==> v[s] == w[s]
  }

  /** Sectors with contents in the cache that the disc does not have. */
  ghost function Dirt(es: seq<Entry>): set<nat> {
    set i | 0 <= i < |es| && es[i].dirty == DIRTY :: es[i].sector
  }

  /** The sectors held in pages. */
  ghost function InPages(es: seq<Entry>): set<nat> {
    set i | 0 <= i < |es| && es[i].sector != CACHE_FREE :: es[i].sector
  }

  lemma InPagesSet(es: seq<Entry>, i: nat, e: Entry)
    requires i < |es|
    ensures InPages(es[i := e]) <= InPages(es) + {e.sector}
    ensures e.sector == es[i].sector ==> InPages(es[i := e]) <= InPages(es)
  {
    assert forall j :: 0 <= j < |es| && es[j].sector != CACHE_FREE ==> es[j].sector in InPages(es);
  }

  lemma InPagesIs(es: seq<Entry>, i: nat)
    requires i < |es| && es[i].sector != CACHE_FREE
    ensures es[i].sector in InPages(es)
  {
  }

  lemma NotInPages(es: seq<Entry>, s: nat)
    requires Find(es, s) == |es|
    ensures s !in InPages(es)
  {
  }

  lemma FindUnique(es: seq<Entry>, i: nat)
    requires Unique(es) && i < |es| && es[i].sector != CACHE_FREE
    ensures Find(es, es[i].sector) == i
  {
  }

  /** Replacing a page whose contents the disc has by another sector from the disc. */
  lemma Replace(es: seq<Entry>, ps: seq<Sector>, ds: seq<Sector>, stale: set<nat>, i: nat, s: nat, e: Entry)
    requires Good(es, ps, ds, stale) && i < |es| && es[i].dirty != DIRTY && s < |ds| && Find(es, s) == |es|
    requires e.sector == s && e.dirty != DIRTY
    ensures Good(es[i := e], ps[i := ds[s]], ds, stale)
    ensures Same(View(es[i := e], ps[i := ds[s]], ds), View(es, ps, ds), stale) && Dirt(es[i := e]) <= Dirt(es)
  {
    var es2, ps2 := es[i := e], ps[i := ds[s]];
    forall t | 0 <= t < |ds| && t !in stale
      ensures View(es2, ps2, ds)[t] == View(es, ps, ds)[t]
    {
      var j, k := Find(es, t), Find(es2, t);
      if j < |es| && j != i { FindUnique(es2, j); }
      if k < |es| && k != i { FindUnique(es, k); }
    }
  }

  /** Writing a page back. */
  lemma WriteBack(es: seq<Entry>, ps: seq<Sector>, ds: seq<Sector>, stale: set<nat>, i: nat, e: Entry)
    requires Good(es, ps, ds, stale) && i < |es| && es[i].sector != CACHE_FREE
    requires e.sector == es[i].sector && e.dirty != DIRTY
    ensures es[i].sector < |ds|
    ensures Good(es[i := e], ps, ds[es[i].sector := ps[i]], stale)
    ensures View(es[i := e], ps, ds[es[i].sector := ps[i]]) == View(es, ps, ds)
  {
    var s := es[i].sector;
    var es2, ds2 := es[i := e], ds[s := ps[i]];
    FindUnique(es, i);
    forall t | 0 <= t < |ds|
      ensures View(es2, ps, ds2)[t] == View(es, ps, ds)[t]
    {
      SameSectors(es, es2, t);
    }
    forall k | 0 <= k < |es2| && es2[k].sector != CACHE_FREE && es2[k].dirty != DIRTY && es2[k].sector !in stale
      ensures ps[k] == ds2[es2[k].sector]
    {
      if k != i { FindUnique(es, k); }
    }
  }

  lemma {:induction false} SameSectors(es: seq<Entry>, es2: seq<Entry>, s: nat)
    requires |es| == |es2| && forall i :: 0 <= i < |es| ==> es[i].sector == es2[i].sector
    ensures Find(es, s) == Find(es2, s)
  {
    if es != [] { SameSectors(es[1..], es2[1..], s); }
  }

  /** Changing a page and marking it dirty changes that sector and no other. */
  lemma Change(es: seq<Entry>, ps: seq<Sector>, ds: seq<Sector>, stale: set<nat>, i: nat, e: Entry, p: Sector)
    requires Good(es, ps, ds, stale) && i < |es| && es[i].sector != CACHE_FREE && e.sector == es[i].sector
    requires e.dirty == DIRTY
    ensures Good(es[i := e], ps[i := p], ds, stale) && es[i].sector < |ds|
    ensures View(es[i := e], ps[i := p], ds) == View(es, ps, ds)[es[i].sector := p]
    ensures View(es, ps, ds)[es[i].sector] == ps[i]
  {
    var es2, ps2 := es[i := e], ps[i := p];
    FindUnique(es, i);
    forall t | 0 <= t < |ds|
      ensures View(es2, ps2, ds)[t] == View(es, ps, ds)[es[i].sector := p][t]
    {
      SameSectors(es, es2, t);
    }
  }

  /** What is read from the disc directly is what the cache would show, unless the
      sector is dirty in the cache. */
  lemma DirectRead(es: seq<Entry>, ps: seq<Sector>, ds: seq<Sector>, stale: set<nat>, s: nat)
    requires Good(es, ps, ds, stale) && s < |ds|
    ensures s !in stale && s !in Dirt(es) ==> View(es, ps, ds)[s] == ds[s]
    ensures Find(es, s) < |es| ==> View(es, ps, ds)[s] == ps[Find(es, s)]
  {
  }

  /** Sectors read directly are what the file system sees, unless they are stale or dirty. */
  ghost predicate DirectlyRead(buf: seq<Sector>, s: nat, v: seq<Sector>, stale: set<nat>, dirt: set<nat>) {
    && s + |buf| <= |v|
    && forall i: nat {:trigger buf[i]} :: i < |buf| && s + i !in stale && s + i !in dirt ==> buf[i] == v[s + i]
  }

  // ----- The disc -----

  class Disc {
    const sectors: array<Sector>
    const reliable: bool          // transfers within the disc never fail

    constructor (n: nat, reliable: bool)
      requires n < CACHE_FREE
      ensures sectors.Length == n && this.reliable == reliable && fresh(sectors)
      ensures forall i :: 0 <= i < n ==> sectors[i] == Zeros()
    {
      sectors := new Sector[n](_ => seq(SIZE, _ => 0));
      this.reliable := reliable;
    }

    /** A transfer of one sector may fail at any time, and then does nothing. */
    method WriteSector(s: nat, p: Sector) returns (ok: bool)
      modifies sectors
      ensures ok ==> s < sectors.Length && sectors[..] == old(sectors[..])[s := p]
      ensures !ok ==> sectors[..] == old(sectors[..])
      ensures reliable && s < sectors.Length ==> ok
    {
      ok := *;
      if reliable { ok := true; }
      if s >= sectors.Length { ok := false; }
      if ok { sectors[s] := p; }
    }

    method ReadSector(s: nat) returns (ok: bool, p: Sector)
      ensures ok ==> s < sectors.Length && p == sectors[s]
      ensures reliable && s < sectors.Length ==> ok
    {
      ok := *;
      if reliable { ok := true; }
      p := seq(SIZE, _ => 0);
      if s >= sectors.Length { ok := false; }
      if ok { p := sectors[s]; }
    }

    /** A transfer of several sectors succeeds as a whole or does nothing. */
    method WriteSectors(s: nat, buf: seq<Sector>) returns (ok: bool)
      modifies sectors
      ensures ok ==> s + |buf| <= sectors.Length && sectors[..] == Written(old(sectors[..]), s, buf)
      ensures !ok ==> sectors[..] == old(sectors[..])
      ensures reliable && s + |buf| <= sectors.Length ==> ok
    {
      ok := *;
      if reliable { ok := true; }
      if s + |buf| > sectors.Length { ok := false; }
      if ok {
        var i := 0;
        while i < |buf|
          invariant 0 <= i <= |buf|
          invariant forall j :: 0 <= j < sectors.Length ==>
                    sectors[j] == if s <= j < s + i then buf[j - s] else old(sectors[j])
        {
          sectors[s + i] := buf[i];
          i := i + 1;
        }
      }
    }

    method ReadSectors(s: nat, n: nat) returns (ok: bool, buf: seq<Sector>)
      ensures ok ==> s + n <= sectors.Length && buf == sectors[s..s + n]
      ensures reliable && s + n <= sectors.Length ==> ok
    {
      ok, buf := *, [];
      if reliable { ok := true; }
      if s + n > sectors.Length { ok := false; }
      if ok { buf := sectors[s..s + n]; }
    }
  }

  // ----- The cache -----

  /** Part of a sector replaced. */
  function Patched(p: Sector, offset: nat, data: seq<Byte>): Sector
    requires offset + |data| <= SIZE
  {
    p[..offset] + data + p[offset + |data|..]
  }

  /** The named bytes are the new ones and the others as before. */
  lemma PatchedAt(p: Sector, offset: nat, data: seq<Byte>, i: nat)
    requires offset + |data| <= 512 && i < 512
    ensures Patched(p, offset, data)[i] == if offset <= i < offset + |data| then data[i - offset] else p[i]
    ensures Zeros()[i] == 0
  {
  }

  class CacheState {
    const disc: Disc
    const entries: array<Entry>
    const pages: array<Sector>

    /** Sectors written to the disc directly while a clean page held older contents and was
        not brought up to date: the older contents are seen until the page is given up. */
    ghost var stale: set<nat>

    ghost predicate Valid()
      reads `stale, entries, pages, disc.sectors
    {
      pages != disc.sectors && Good(entries[..], pages[..], disc.sectors[..], stale)
    }

    ghost function Contents(): seq<Sector>
      requires entries.Length == pages.Length
      reads entries, pages, disc.sectors
    {
      View(entries[..], pages[..], disc.sectors[..])
    }

    /** _FAT_cache_constructor(numberOfPages, discInterface). */
    constructor (numberOfPages: nat, disc: Disc)
      requires numberOfPages < CACHE_FREE && disc.sectors.Length < CACHE_FREE
      ensures Valid() && Contents() == disc.sectors[..] && this.disc == disc && stale == {}
      ensures InPages(entries[..]) == {} && Dirt(entries[..]) == {}
      ensures forall i :: 0 <= i < entries.Length ==> entries[i] == Entry(CACHE_FREE, 0, 0)
      ensures fresh(entries) && fresh(pages) && entries.Length == if numberOfPages < 2 then 2 else numberOfPages
    {
      this.disc := disc;
      var n := if numberOfPages < 2 then 2 else numberOfPages;
      entries := new Entry[n](_ => Entry(CACHE_FREE, 0, 0));
      pages := new Sector[n];
      stale := {};
      new;
      NoneHeld(entries[..], pages[..], disc.sectors[..], stale);
    }

    /** The page that holds the sector, or if none does, the one to replace. */
    method Search(sector: nat) returns (i: nat, leastUsed: nat)
      requires entries.Length >= 2
      ensures i == Find(entries[..], sector) && leastUsed < entries.Length
      ensures i == entries.Length ==> LeastUsed(entries[..], leastUsed)
    {
      var lowestCount := 0xffff_ffff;
      i, leastUsed := 0, 0;
      ghost var chosen := false;
      while i < entries.Length && entries[i].sector != sector
        invariant i <= entries.Length && leastUsed < entries.Length
        invariant forall j :: 0 <= j < i ==> entries[j].sector != sector
        invariant if chosen then leastUsed < i && lowestCount == entries[leastUsed].count
                  else lowestCount == 0xffff_ffff
                       && forall j :: 0 <= j < i ==> entries[j].sector != CACHE_FREE && entries[j].count >= 0xffff_ffff
        invariant (forall j :: 0 <= j < i ==> entries[j].sector != CACHE_FREE) ==>
                    forall j :: 0 <= j < i ==> lowestCount <= entries[j].count
        invariant (forall j :: 0 <= j < i && entries[j].sector == CACHE_FREE ==> entries[j].count == 0) ==>
                  forall j :: 0 <= j < i && entries[j].sector == CACHE_FREE ==>
                    chosen && lowestCount == 0 && entries[leastUsed].sector == CACHE_FREE
      {
        if entries[i].sector == CACHE_FREE || entries[i].count < lowestCount {
          leastUsed, chosen := i, true;
          lowestCount := entries[i].count;
        }
        i := i + 1;
      }
    }

    /** cacheEntries[i].count += 1, in 32 bits. */
    function Used(e: Entry): Entry { e.(count := (e.count + 1) % 0x1_0000_0000) }

    /** Only one page has changed. */
    ghost predicate Elsewhere(es: seq<Entry>, ps: seq<Sector>, page: nat)
      reads entries, pages
    {
      && |es| == entries.Length && |ps| == pages.Length
      && (forall j :: 0 <= j < |es| && j != page ==> entries[j] == es[j])
      && (forall j :: 0 <= j < |ps| && j != page ==> pages[j] == ps[j])
    }

    /** _FAT_cache_getSector(cache, sector): the page that holds the sector now, or
        CACHE_FREE after a failed transfer. What the file system sees does not change. */
    method GetSector(sector: nat) returns (page: nat)
      requires Valid() && sector < CACHE_FREE
      modifies entries, pages, disc.sectors
      ensures Valid() && Same(old(Contents()), Contents(), stale) && Dirt(entries[..]) <= old(Dirt(entries[..]))
      ensures page == CACHE_FREE || (page < entries.Length && entries[page].sector == sector
          && sector < disc.sectors.Length)
      ensures disc.reliable && sector < disc.sectors.Length ==> page != CACHE_FREE
      ensures InPages(entries[..]) <= old(InPages(entries[..])) + {sector}
      ensures old(sector in InPages(entries[..])) ==> Contents() == old(Contents())
      // a hit, and a miss
      ensures old(Find(entries[..], sector)) < entries.Length ==>
                && page == old(Find(entries[..], sector)) && pages[..] == old(pages[..])
                && disc.sectors[..] == old(disc.sectors[..])
                && entries[..] == old(entries[..])[page := Used(old(entries[..])[page])]
      ensures old(Find(entries[..], sector)) == entries.Length && page != CACHE_FREE ==>
                && LeastUsed(old(entries[..]), page) && Elsewhere(old(entries[..]), old(pages[..]), page)
                && entries[page].count == Used(old(entries[..])[page]).count && pages[page] == disc.sectors[sector]
    {
      hide Good, View, InPages, LeastUsed;
      Sizes();
      var i, leastUsed := Search(sector);
      if i < entries.Length {
        Touch(i);
        return i;
      }
      NotInPages(entries[..], sector);
      if entries[leastUsed].sector != CACHE_FREE && entries[leastUsed].dirty == DIRTY {
        var ok := Evict(leastUsed);
        if !ok { return CACHE_FREE; }
      }
      FreeIsClean(leastUsed);
      var ok := Load(leastUsed, sector);
      page := if ok then leastUsed else CACHE_FREE;
    }

    lemma Sizes()
      requires Valid()
      ensures 2 <= entries.Length == pages.Length < CACHE_FREE
    {
    }

    lemma InRange(i: nat)
      requires Valid() && i < entries.Length && entries[i].sector != CACHE_FREE
      ensures entries[i].sector < disc.sectors.Length
    {
      assert entries[..][i] == entries[i];
    }

    lemma FreeIsClean(i: nat)
      requires Valid() && i < entries.Length
      ensures entries[i].sector == CACHE_FREE ==> entries[i].dirty != DIRTY
    {
      assert entries[..][i] == entries[i];
    }

    /** Sectors written directly, and then the mirror step, as fatfile does it. Of the
        sectors of the run exactly the missed ones do not show what was written, and those
        that a dirty page holds never will. */
    method WriteDirect(sector: nat, buffer: seq<Sector>) returns (ok: bool, ghost d: Direct)
      requires Valid() && entries.Length == pages.Length && sector + |buffer| < CACHE_FREE
      modifies `stale, entries, pages, disc.sectors
      ensures Valid() && Dirt(entries[..]) <= old(Dirt(entries[..])) && stale <= old(stale) + Run(sector, |buffer|)
      ensures ok ==> sector + |buffer| <= disc.sectors.Length
      ensures d.es == old(entries[..]) && d.at == sector && d.len == |buffer| && IsLead(d.es, d.at, d.len, d.n)
      ensures ok ==> stale == Outdated(old(stale), d)
      ensures ok ==> Contents() == Overwritten(old(Contents()), sector, buffer, MissedBy(d))
      ensures ok ==> Same(Overwritten(old(Contents()), sector, buffer, LostBy(d)), Contents(), stale)
      ensures !ok ==> Same(old(Contents()), Contents(), stale)
      ensures disc.reliable && sector + |buffer| <= disc.sectors.Length ==> ok
      ensures InPages(entries[..]) == old(InPages(entries[..]))
    {
      Sizes();
      hide Good, View, Unique, Mirrors, IsLead, Missed, Same, Find, InPages, Overwritten, LostBy, Dirt;
      IsUnique();
      ghost var es, ps, ds := entries[..], pages[..], disc.sectors[..];
      ok := disc.WriteSectors(sector, buffer);
      ghost var n := WritePartialSectorCheck(sector, buffer);
      d := Direct(es, sector, |buffer|, n);
      MirrorHeld(es, ps, entries[..], pages[..], sector, buffer, n);
      if ok {
        LeadIs(es, sector, |buffer|, n);
        DirectWriteShows(es, ps, ds, entries[..], pages[..], sector, buffer, n);
        DirectWriteSeen(es, ps, ds, stale, entries[..], pages[..], sector, buffer, n);
        stale := Outdated(stale, d);
        MissedInRun(es, sector, |buffer|, n);
      } else {
        FailedWrite(es, ps, ds, stale, entries[..], pages[..], sector, buffer, n);
        stale := stale + Run(sector, |buffer|);
      }
    }

    lemma IsUnique()
      requires Valid()
      ensures Unique(entries[..]) && pages != disc.sectors
    {
    }

    /** One sector written directly without the mirror step, as file_extend_r does it: a
        page that holds the sector keeps the old contents. */
    method WriteRaw(sector: nat, p: Sector) returns (ok: bool, ghost d: Direct)
      requires Valid() && entries.Length == pages.Length
      modifies `stale, disc.sectors
      ensures ok ==> sector < disc.sectors.Length
      ensures d == Direct(entries[..], sector, 1, 0)
      ensures Valid() && stale == (if ok then Outdated(old(stale), d) else old(stale))
      ensures stale <= old(stale) + Run(sector, 1)
      ensures ok ==> Contents() == Overwritten(old(Contents()), sector, [p], MissedBy(d))
      ensures ok ==> Same(Overwritten(old(Contents()), sector, [p], LostBy(d)), Contents(), stale)
      ensures !ok ==> Contents() == old(Contents())
      ensures disc.reliable && sector < disc.sectors.Length ==> ok
    {
      hide Good, View, Unique, Mirrors, Missed, Same, Find, InPages, Overwritten, LostBy, Dirt;
      ghost var es, ps, ds := entries[..], pages[..], disc.sectors[..];
      IsUnique();
      SmallDisc();
      d := Direct(es, sector, 1, 0);
      ok := disc.WriteSector(sector, p);
      if ok {
        NoMirror(es, ps, sector, [p]);
        OneWritten(ds, sector, p);
        DirectWriteShows(es, ps, ds, es, ps, sector, [p], 0);
        DirectWriteSeen(es, ps, ds, stale, es, ps, sector, [p], 0);
        stale := Outdated(stale, d);
        MissedInRun(es, sector, 1, 0);
      }
    }

    /** Sectors read directly: what the file system sees, unless one is stale or dirty. */
    method ReadDirect(sector: nat, n: nat) returns (ok: bool, buffer: seq<Sector>)
      requires Valid() && entries.Length == pages.Length
      ensures ok ==> sector + n <= disc.sectors.Length && |buffer| == n
      ensures ok ==> DirectlyRead(buffer, sector, Contents(), stale, Dirt(entries[..]))
      ensures disc.reliable && sector + n <= disc.sectors.Length ==> ok
    {
      ok, buffer := disc.ReadSectors(sector, n);
      if ok {
        forall i: nat | i < n && sector + i !in stale && sector + i !in Dirt(entries[..])
          ensures buffer[i] == Contents()[sector + i]
        {
          DirectRead(entries[..], pages[..], disc.sectors[..], stale, sector + i);
        }
      }
    }

    /** Increment the usage counter of a page that holds what is wanted. */
    method Touch(i: nat)
      requires Valid() && i < entries.Length && entries[i].sector != CACHE_FREE
      modifies entries
      ensures Valid() && Contents() == old(Contents()) && Dirt(entries[..]) <= old(Dirt(entries[..]))
      ensures entries[..] == old(entries[..])[i := Used(old(entries[i]))]
      ensures entries[i].sector < disc.sectors.Length && InPages(entries[..]) <= old(InPages(entries[..]))
    {
      ghost var es := entries[..];
      InPagesSet(es, i, Used(es[i]));
      entries[i] := Used(entries[i]);
      assert entries[..] == es[i := entries[i]];
      Count(es, pages[..], disc.sectors[..], stale, i, entries[i]);
    }

    /** Write a dirty page back. */
    method Evict(i: nat) returns (ok: bool)
      requires Valid() && i < entries.Length && entries[i].sector != CACHE_FREE
      modifies entries, disc.sectors
      ensures Valid() && Contents() == old(Contents()) && Dirt(entries[..]) <= old(Dirt(entries[..]))
      ensures entries[..] == if ok then old(entries[..])[i := old(entries[i]).(dirty := 0)] else old(entries[..])
      ensures ok ==>
                disc.sectors[..] == old(disc.sectors[..])[entries[i].sector := pages[i]]
                    && entries[i].sector < disc.sectors.Length
      ensures !ok ==> disc.sectors[..] == old(disc.sectors[..])
      ensures (disc.reliable ==> ok) && InPages(entries[..]) <= old(InPages(entries[..]))
    {
      Sizes();
      InRange(i);
      hide Good, View, InPages;
      ghost var es, ds := entries[..], disc.sectors[..];
      InPagesSet(es, i, es[i].(dirty := 0));
      ok := disc.WriteSector(entries[i].sector, pages[i]);
      if ok {
        WriteBack(es, pages[..], ds, stale, i, entries[i].(dirty := 0));
        entries[i] := entries[i].(dirty := 0);
        assert entries[..] == es[i := entries[i]];
      }
    }

    /** Load a sector that no page holds into a clean page. */
    method Load(i: nat, sector: nat) returns (ok: bool)
      requires Valid() && i < entries.Length && entries[i].dirty != DIRTY && Find(entries[..], sector) == entries.Length
      modifies entries, pages
      ensures Valid() && Same(old(Contents()), Contents(), stale) && Dirt(entries[..]) <= old(Dirt(entries[..]))
      ensures ok ==> entries[i].sector == sector < disc.sectors.Length
      ensures disc.reliable && sector < disc.sectors.Length ==> ok
      ensures InPages(entries[..]) <= old(InPages(entries[..])) + {sector}
      ensures ok ==>
                && entries[..] == old(entries[..])[i := Used(old(entries[i])).(sector := sector)]
                && pages[..] == old(pages[..])[i := disc.sectors[sector]]
      ensures !ok ==> entries[..] == old(entries[..]) && pages[..] == old(pages[..])
    {
      Sizes();
      hide Good, View, Find, InPages;
      ghost var es, ps := entries[..], pages[..];
      InPagesSet(es, i, Used(es[i]).(sector := sector));
      var p;
      ok, p := disc.ReadSector(sector);
      if ok {
        var e := Used(entries[i]).(sector := sector);
        Replace(es, ps, disc.sectors[..], stale, i, sector, e);
        pages[i] := p;
        entries[i] := e;
        assert entries[..] == es[i := e] && pages[..] == ps[i := p];
      }
    }

    lemma Held(page: nat)
      requires Valid() && page < entries.Length && entries[page].sector < disc.sectors.Length
      ensures Contents()[entries[page].sector] == pages[page]
    {
      FindUnique(entries[..], page);
    }

    /** _FAT_cache_readPartialSector. */
    method ReadPartialSector(sector: nat, offset: nat, size: nat) returns (ok: bool, buffer: seq<Byte>)
      requires Valid() && sector < CACHE_FREE
      modifies entries, pages, disc.sectors
      ensures Valid() && Same(old(Contents()), Contents(), stale) && Dirt(entries[..]) <= old(Dirt(entries[..]))
      ensures ok ==>
                sector < disc.sectors.Length && offset + size <= SIZE
                    && buffer == Contents()[sector][offset..offset + size]
      ensures ok ==> sector in InPages(entries[..])
      ensures old(sector in InPages(entries[..])) ==> Contents() == old(Contents())
      ensures disc.reliable && sector < disc.sectors.Length && offset + size <= SIZE ==> ok
      ensures old(sector in InPages(entries[..])) && offset + size <= SIZE ==> ok
      ensures InPages(entries[..]) <= old(InPages(entries[..])) + {sector}
    {
      hide Good, View, InPages;
      Sizes();
      FoundInPages(sector);
      if offset + size > SIZE { return false, []; }
      var page := GetSector(sector);
      if page == CACHE_FREE { return false, []; }
      Sizes();
      Held(page);
      InPagesIs(entries[..], page);
      ok, buffer := true, pages[page][offset..offset + size];
    }

    lemma FoundInPages(sector: nat)
      requires sector < CACHE_FREE
      ensures sector in InPages(entries[..]) ==> Find(entries[..], sector) < entries.Length
    {
    }

    /** The page of a sector gets new contents, and is dirty. */
    method Put(page: nat, p: Sector)
      requires Valid() && page < entries.Length && entries[page].sector < disc.sectors.Length
      modifies entries, pages
      ensures Valid() && Contents() == old(Contents())[old(entries[page].sector) := p]
      ensures Dirt(entries[..]) <= old(Dirt(entries[..])) + {old(entries[page].sector)}
      ensures InPages(entries[..]) <= old(InPages(entries[..]))
    {
      Sizes();
      SmallDisc();
      hide Good, View, InPages;
      ghost var es, ps := entries[..], pages[..];
      InPagesSet(es, page, es[page].(dirty := DIRTY));
      Change(es, ps, disc.sectors[..], stale, page, entries[page].(dirty := DIRTY), p);
      pages[page] := p;
      entries[page] := entries[page].(dirty := DIRTY);
      assert entries[..] == es[page := entries[page]] && pages[..] == ps[page := p];
    }

    lemma SmallDisc()
      requires Valid()
      ensures disc.sectors.Length < CACHE_FREE
    {
    }

    /** _FAT_cache_writePartialSector: exactly the named bytes of the sector change. */
    method WritePartialSector(buffer: seq<Byte>, sector: nat, offset: nat) returns (ok: bool)
      requires Valid() && sector < CACHE_FREE
      modifies entries, pages, disc.sectors
      ensures Valid()
      ensures ok ==> sector < disc.sectors.Length && offset + |buffer| <= SIZE
                     && Same(old(Contents())[sector := Patched(old(Contents())[sector], offset, buffer)], Contents(),
                        stale)
      ensures !ok ==> Same(old(Contents()), Contents(), stale)
      ensures disc.reliable && sector < disc.sectors.Length && offset + |buffer| <= SIZE ==> ok
      ensures old(sector in InPages(entries[..])) && offset + |buffer| <= SIZE ==> ok
      ensures InPages(entries[..]) <= old(InPages(entries[..])) + {sector}
    {
      hide Good, View, InPages;
      Sizes();
      FoundInPages(sector);
      if offset + |buffer| > SIZE { return false; }
      var page := GetSector(sector);
      if page == CACHE_FREE { return false; }
      Sizes();
      Held(page);
      Put(page, Patched(pages[page], offset, buffer));
      ok := true;
    }

    /** _FAT_cache_eraseWritePartialSector: the named bytes change and the rest are zeroed. */
    method EraseWritePartialSector(buffer: seq<Byte>, sector: nat, offset: nat) returns (ok: bool)
      requires Valid() && sector < CACHE_FREE
      modifies entries, pages, disc.sectors
      ensures Valid()
      ensures ok ==> sector < disc.sectors.Length && offset + |buffer| <= SIZE
                     && Same(old(Contents())[sector := Patched(Zeros(), offset, buffer)], Contents(), stale)
      ensures !ok ==> Same(old(Contents()), Contents(), stale)
      ensures disc.reliable && sector < disc.sectors.Length && offset + |buffer| <= SIZE ==> ok
      ensures old(sector in InPages(entries[..])) && offset + |buffer| <= SIZE ==> ok
      ensures InPages(entries[..]) <= old(InPages(entries[..])) + {sector}
    {
      hide Good, View, InPages;
      Sizes();
      FoundInPages(sector);
      if offset + |buffer| > SIZE { return false; }
      var page := GetSector(sector);
      if page == CACHE_FREE { return false; }
      Sizes();
      Put(page, Patched(Zeros(), offset, buffer));
      ok := true;
    }

    /** _FAT_cache_flush: the result is 1, or the nonzero CACHE_FREE after a failed
        transfer. What the file system sees does not change in either case, and after
        success the disc holds all of it. */
    method Flush() returns (ret: nat)
      requires Valid()
      modifies entries, disc.sectors
      ensures Valid() && Contents() == old(Contents()) && (ret == 1 || ret == CACHE_FREE)
      ensures ret == 1 ==>
                Same(Contents(), disc.sectors[..], stale) && forall i :: 0 <= i < entries.Length ==>
                    entries[i] == Entry(old(entries[i].sector), 0, 0)
      ensures disc.reliable ==> ret == 1
    {
      Sizes();
      hide Good, View;
      var i := 0;
      while i < entries.Length
        invariant 0 <= i <= entries.Length && Valid() && Contents() == old(Contents())
        invariant forall j :: 0 <= j < i ==> entries[j] == Entry(old(entries[j].sector), 0, 0)
        invariant forall j :: i <= j < entries.Length ==> entries[j] == old(entries[j])
      {
        FreeIsClean(i);
        if entries[i].dirty == DIRTY {
          var ok := Evict(i);
          if !ok { return CACHE_FREE; }
        }
        Reset(i);
        i := i + 1;
      }
      AllClean(entries[..], pages[..], disc.sectors[..], stale);
      ret := 1;
    }

    /** count = 0 for a page that is clean. */
    method Reset(i: nat)
      requires Valid() && i < entries.Length && entries[i].dirty != DIRTY
      modifies entries
      ensures Valid() && Contents() == old(Contents())
      ensures entries[..] == old(entries[..])[i := Entry(old(entries[i].sector), 0, 0)]
    {
      Sizes();
      ghost var es := entries[..];
      entries[i] := Entry(entries[i].sector, 0, 0);
      assert entries[..] == es[i := entries[i]];
      Clean(es, pages[..], disc.sectors[..], stale, i, entries[i]);
    }

    /** _FAT_cache_invalidate: what was not written back is lost. */
    method Invalidate()
      requires Valid()
      modifies entries, `stale
      ensures Valid() && Contents() == disc.sectors[..] && stale == {}
      ensures forall i :: 0 <= i < entries.Length ==> entries[i] == Entry(CACHE_FREE, 0, 0)
    {
      Sizes();
      SmallDisc();
      hide Good, View;
      var i := 0;
      while i < entries.Length
        invariant 0 <= i <= entries.Length
        invariant forall j :: 0 <= j < i ==> entries[j] == Entry(CACHE_FREE, 0, 0)
      {
        entries[i] := Entry(CACHE_FREE, 0, 0);
        i := i + 1;
      }
      stale := {};
      NoneHeld(entries[..], pages[..], disc.sectors[..], stale);
    }

    /** _FAT_cache_writePartialSector_check, after buffer was written to the disc from
        sector on: the pages of the leading sectors that are cached are brought up to
        date, and the loop ends at the first one that is not. */
    method WritePartialSectorCheck(sector: nat, buffer: seq<Sector>) returns (ghost n: nat)
      requires entries.Length == pages.Length && Unique(entries[..]) && sector + |buffer| < CACHE_FREE
      modifies entries, pages
      ensures IsLead(old(entries[..]), sector, |buffer|, n)
      ensures Mirrors(old(entries[..]), old(pages[..]), entries[..], pages[..], sector, buffer, n)
    {
      n := 0;
      var m := 0;
      while m < |buffer|
        invariant 0 <= m == n <= |buffer|
        invariant forall t: nat :: sector <= t < sector + n ==> Find(old(entries[..]), t) < entries.Length
        invariant Mirrors(old(entries[..]), old(pages[..]), entries[..], pages[..], sector, buffer, n)
      {
        var i := Locate(sector + m);
        ghost var es, ps := entries[..], pages[..];
        SameSectors(old(entries[..]), es, sector + m);
        if i >= entries.Length { return; }
        pages[i] := buffer[m];
        entries[i] := entries[i].(dirty := 0);
        assert entries[..] == es[i := entries[i]] && pages[..] == ps[i := buffer[m]];
        MirrorNext(old(entries[..]), old(pages[..]), es, ps, sector, buffer, n, i);
        n := n + 1;
        m := m + 1;
      }
    }

    method Locate(s: nat) returns (i: nat)
      ensures i == Find(entries[..], s)
    {
      i := 0;
      while i < entries.Length
        invariant i <= entries.Length && forall j :: 0 <= j < i ==> entries[j].sector != s
      {
        if entries[i].sector == s { break; }
        i := i + 1;
      }
    }
  }

  lemma NoneHeld(es: seq<Entry>, ps: seq<Sector>, ds: seq<Sector>, stale: set<nat>)
    requires 2 <= |es| == |ps| < CACHE_FREE && |ds| < CACHE_FREE
    requires forall i :: 0 <= i < |es| ==> es[i].sector == CACHE_FREE && es[i].dirty != DIRTY
    ensures Good(es, ps, ds, stale) && View(es, ps, ds) == ds
  {
  }

  function Zeros(): Sector { seq(SIZE, _ => 0) }

  /** When every page is clean the disc holds everything. */
  lemma AllClean(es: seq<Entry>, ps: seq<Sector>, ds: seq<Sector>, stale: set<nat>)
    requires Good(es, ps, ds, stale) && forall i :: 0 <= i < |es| ==> es[i].dirty != DIRTY
    ensures Same(View(es, ps, ds), ds, stale)
  {
  }

  lemma Clean(es: seq<Entry>, ps: seq<Sector>, ds: seq<Sector>, stale: set<nat>, i: nat, e: Entry)
    requires Good(es, ps, ds, stale) && i < |es| && es[i].dirty != DIRTY && e.sector == es[i].sector && e.dirty != DIRTY
    ensures Good(es[i := e], ps, ds, stale) && View(es[i := e], ps, ds) == View(es, ps, ds)
  {
    var es2 := es[i := e];
    forall t | 0 <= t < |ds|
      ensures View(es2, ps, ds)[t] == View(es, ps, ds)[t]
    {
      SameSectors(es, es2, t);
    }
  }

  lemma Count(es: seq<Entry>, ps: seq<Sector>, ds: seq<Sector>, stale: set<nat>, i: nat, e: Entry)
    requires Good(es, ps, ds, stale) && i < |es| && es[i].sector != CACHE_FREE && e == es[i].(count := e.count)
    ensures Good(es[i := e], ps, ds, stale) && View(es[i := e], ps, ds) == View(es, ps, ds) && e.sector < |ds|
  {
    var es2 := es[i := e];
    forall t | 0 <= t < |ds|
      ensures View(es2, ps, ds)[t] == View(es, ps, ds)[t]
    {
      SameSectors(es, es2, t);
    }
  }

  // ----- Sectors written to the disc directly -----

  /** The first n sectors from s on are cached. */
  ghost predicate Leading(es: seq<Entry>, s: nat, n: nat) {
    forall t: nat :: s <= t < s + n ==> Find(es, t) < |es|
  }

  /** The first n sectors from s on are cached, and the next of the run, if any, is not. */
  ghost predicate IsLead(es: seq<Entry>, s: nat, len: nat, n: nat) {
    n <= len && Leading(es, s, n) && (n < len ==> Find(es, s + n) == |es|)
  }

  lemma LeadIs(es: seq<Entry>, s: nat, len: nat, n: nat)
    requires IsLead(es, s, len, n)
    ensures n <= len && Leading(es, s, n)
  {
  }

  /** The pages of the first n sectors from s on are made clean and hold the buffer; others are unchanged. */
  ghost predicate Mirrors(es: seq<Entry>, ps: seq<Sector>, es2: seq<Entry>, ps2: seq<Sector>, s: nat, buf: seq<Sector>,
                          n: nat) {
    && |es| == |ps| == |es2| == |ps2| && n <= |buf|
    && forall i :: 0 <= i < |es| ==>
         if s <= es[i].sector < s + n then es2[i] == es[i].(dirty := 0) && ps2[i] == buf[es[i].sector - s]
         else es2[i] == es[i] && ps2[i] == ps[i]
  }

  lemma MirrorNext(es: seq<Entry>, ps: seq<Sector>, es2: seq<Entry>, ps2: seq<Sector>, s: nat, buf: seq<Sector>, n: nat,
                   i: nat)
    requires Mirrors(es, ps, es2, ps2, s, buf, n) && n < |buf| && Unique(es) && s + |buf| < CACHE_FREE
    requires i < |es| && es2[i].sector == s + n
    ensures Mirrors(es, ps, es2[i := es2[i].(dirty := 0)], ps2[i := buf[n]], s, buf, n + 1)
  {
  }

  /** buf in place of the sectors from s on. */
  function Written(ds: seq<Sector>, s: nat, buf: seq<Sector>): (r: seq<Sector>)
    requires s + |buf| <= |ds|
    ensures |r| == |ds|
  {
    ds[..s] + buf + ds[s + |buf|..]
  }

  /** Cached sectors of the run that the mirror step does not reach. */
  ghost function Missed(es: seq<Entry>, s: nat, len: nat, n: nat): set<nat> {
    set t | s + n <= t < s + len && Find(es, t) < |es|
  }

  /** Sectors from at on written directly while the pages were es; the first n of them, if
      they were in pages, were brought up to date there. */
  datatype Direct = Direct(es: seq<Entry>, at: nat, len: nat, n: nat)

  ghost function MissedBy(d: Direct): set<nat> { Missed(d.es, d.at, d.len, d.n) }

  /** Missed, and held in a dirty page: what was written will be written over. */
  ghost function LostBy(d: Direct): set<nat> { MissedBy(d) * Dirt(d.es) }

  /** What is stale after a direct write: the other sectors of the run are up to date. */
  ghost function Outdated(stale: set<nat>, d: Direct): set<nat> {
    stale - (Run(d.at, d.len) - MissedBy(d)) + (MissedBy(d) - Dirt(d.es))
  }

  /** The sectors of the run that are in the cache come first in it. */
  ghost predicate CachedFirst(es: seq<Entry>, s: nat, len: nat) {
    forall t: nat, u: nat :: s <= t < u < s + len && Find(es, u) < |es| ==> Find(es, t) < |es|
  }

  /** No sector is missed exactly when the cached sectors of the run come first in it. */
  lemma MissedNone(es: seq<Entry>, s: nat, len: nat, n: nat)
    requires IsLead(es, s, len, n)
    ensures Missed(es, s, len, n) == {} <==> CachedFirst(es, s, len)
  {
    hide Find;
    if CachedFirst(es, s, len) {
      forall t: nat | s + n <= t < s + len
        ensures Find(es, t) == |es|
      {
        assert t == s + n || s <= s + n < t < s + len;
      }
    } else {
      var t: nat, u: nat :| s <= t < u < s + len && Find(es, u) < |es| && Find(es, t) == |es|;
      assert u in Missed(es, s, len, n);
    }
  }

  /** v with buf from s on, except for the sectors of keep. */
  ghost function Overwritten(v: seq<Sector>, s: nat, buf: seq<Sector>, keep: set<nat>): (r: seq<Sector>)
    ensures |r| == |v|
  {
    seq(|v|, t requires 0 <= t < |v| => if s <= t < s + |buf| && t !in keep then buf[t - s] else v[t])
  }

  /** The file system sees the whole of a direct write exactly if every missed sector
      held what was written before. */
  lemma AllShown(v: seq<Sector>, s: nat, buf: seq<Sector>, keep: set<nat>)
    requires s + |buf| <= |v| && keep <= Run(s, |buf|)
    ensures Overwritten(v, s, buf, keep) == Written(v, s, buf) <==> forall t: nat :: t in keep ==> v[t] == buf[t - s]
  {
    var w, all := Overwritten(v, s, buf, keep), Written(v, s, buf);
    if w == all {
      forall t: nat | t in keep
        ensures v[t] == buf[t - s]
      {
        assert t in Run(s, |buf|);
        assert w[t] == all[t];
      }
    } else {
      var t :| 0 <= t < |v| && w[t] != all[t];
      assert t in keep;
    }
  }

  ghost predicate Within(t: nat, s: nat, len: nat) { s <= t < s + len }

  ghost function Run(s: nat, len: nat): set<nat> {
    set t: nat | t < s + len && Within(t, s, len)
  }

  lemma MissedInRun(es: seq<Entry>, s: nat, len: nat, n: nat)
    ensures Missed(es, s, len, n) <= Run(s, len)
  {
  }

  /** A sector of the run shows what was written exactly if it is not cached, or leads
      the run, or happened to have those contents already. */
  lemma DirectWrite(es: seq<Entry>, ps: seq<Sector>, ds: seq<Sector>, es2: seq<Entry>, ps2: seq<Sector>,
                    s: nat, buf: seq<Sector>, n: nat, t: nat)
    requires |es| == |ps| && Unique(es) && s + |buf| <= |ds| < CACHE_FREE
    requires Leading(es, s, n) && Mirrors(es, ps, es2, ps2, s, buf, n) && t < |ds|
    ensures t in Missed(es, s, |buf|, n) ==> View(es2, ps2, Written(ds, s, buf))[t] == View(es, ps, ds)[t]
    ensures !(s <= t < s + |buf|) ==> View(es2, ps2, Written(ds, s, buf))[t] == View(es, ps, ds)[t]
    ensures s <= t < s + |buf| ==>
              (View(es2, ps2, Written(ds, s, buf))[t] == buf[t - s] <==>
               t !in Missed(es, s, |buf|, n) || View(es, ps, ds)[t] == buf[t - s])
  {
    SameSectors(es, es2, t);
  }

  /** After the write and the mirror step the file system sees what was written in all
      sectors of the run but the missed ones. */
  lemma DirectWriteShows(es: seq<Entry>, ps: seq<Sector>, ds: seq<Sector>, es2: seq<Entry>, ps2: seq<Sector>,
                         s: nat, buf: seq<Sector>, n: nat)
    requires |es| == |ps| && Unique(es) && s + |buf| <= |ds| < CACHE_FREE
    requires Leading(es, s, n) && Mirrors(es, ps, es2, ps2, s, buf, n)
    ensures View(es2, ps2, Written(ds, s, buf)) == Overwritten(View(es, ps, ds), s, buf, Missed(es, s, |buf|, n))
  {
    forall t | 0 <= t < |ds|
      ensures View(es2, ps2, Written(ds, s, buf))[t] == Overwritten(View(es, ps, ds), s, buf,
          Missed(es, s, |buf|, n))[t]
    {
      DirectWrite(es, ps, ds, es2, ps2, s, buf, n, t);
    }
  }

  /** The missed sectors in clean pages are stale, the others of the run are not, and
      those in dirty pages keep their old contents for good. */
  lemma DirectWriteSeen(es: seq<Entry>, ps: seq<Sector>, ds: seq<Sector>, stale: set<nat>, es2: seq<Entry>,
                        ps2: seq<Sector>,
                        s: nat, buf: seq<Sector>, n: nat)
    requires Good(es, ps, ds, stale) && s + |buf| <= |ds|
    requires Leading(es, s, n) && Mirrors(es, ps, es2, ps2, s, buf, n)
    ensures var d := Direct(es, s, |buf|, n);
            && Good(es2, ps2, Written(ds, s, buf), Outdated(stale, d))
            && Same(Overwritten(View(es, ps, ds), s, buf, LostBy(d)), View(es2, ps2, Written(ds, s, buf)),
               Outdated(stale, d))
    ensures Dirt(es2) <= Dirt(es)
  {
    var ds2, d := Written(ds, s, buf), Direct(es, s, |buf|, n);
    var stale2 := Outdated(stale, d);
    DirectWriteShows(es, ps, ds, es2, ps2, s, buf, n);
    forall i | 0 <= i < |es2| && es2[i].sector != CACHE_FREE && es2[i].dirty != DIRTY && es2[i].sector !in stale2
      ensures ps2[i] == ds2[es2[i].sector]
    {
      FindUnique(es, i);
      DirtUnique(es, i);
    }
  }

  /** A sector is in no other page than the one that holds it. */
  lemma DirtUnique(es: seq<Entry>, i: nat)
    requires Unique(es) && i < |es| && es[i].sector != CACHE_FREE
    ensures es[i].sector in Dirt(es) <==> es[i].dirty == DIRTY
  {
  }

  lemma NoMirror(es: seq<Entry>, ps: seq<Sector>, s: nat, buf: seq<Sector>)
    requires |es| == |ps|
    ensures Mirrors(es, ps, es, ps, s, buf, 0) && Leading(es, s, 0)
  {
  }

  lemma OneWritten(v: seq<Sector>, at: nat, p: Sector)
    requires at < |v|
    ensures Written(v, at, [p]) == v[at := p] && Run(at, 1) == {at}
  {
    assert Within(at, at, 1);
  }

  lemma MirrorHeld(es: seq<Entry>, ps: seq<Sector>, es2: seq<Entry>, ps2: seq<Sector>, s: nat, buf: seq<Sector>, n: nat)
    requires Mirrors(es, ps, es2, ps2, s, buf, n)
    ensures InPages(es2) == InPages(es)
  {
    assert forall i :: 0 <= i < |es| ==> es2[i].sector == es[i].sector;
    assert forall i :: 0 <= i < |es| && es[i].sector != CACHE_FREE ==> es[i].sector in InPages(es);
    assert forall i :: 0 <= i < |es| && es2[i].sector != CACHE_FREE ==> es2[i].sector in InPages(es2);
  }

  /** Only sectors held in pages can be missed. */
  lemma MissedHeld(es: seq<Entry>, s: nat, len: nat, n: nat)
    requires s + len < CACHE_FREE
    ensures Missed(es, s, len, n) <= InPages(es)
  {
    forall t | t in Missed(es, s, len, n)
      ensures t in InPages(es)
    {
      var i := Find(es, t);
      assert es[i].sector == t;
    }
  }

  /** A sector written without the mirror step shows what was written exactly if no page
      holds it, or it held that before. */
  lemma RawWrite(es: seq<Entry>, ps: seq<Sector>, ds: seq<Sector>, s: nat, p: Sector)
    requires |es| == |ps| && Unique(es) && s < |ds| < CACHE_FREE
    ensures View(es, ps, ds[s := p]) == Overwritten(View(es, ps, ds), s, [p], Missed(es, s, 1, 0))
    ensures View(es, ps, ds[s := p])[s] == p <==> s !in InPages(es) || View(es, ps, ds)[s] == p
  {
    NoMirror(es, ps, s, [p]);
    OneWritten(ds, s, p);
    DirectWriteShows(es, ps, ds, es, ps, s, [p], 0);
    var i := Find(es, s);
    if s in InPages(es) {
      var j :| 0 <= j < |es| && es[j].sector != CACHE_FREE && es[j].sector == s;
      FindUnique(es, j);
    }
    if i < |es| { InPagesIs(es, i); }
  }

  lemma SameSelf(v: seq<Sector>, stale: set<nat>)
    ensures Same(v, v, stale)
  {
  }

  /** When a sector is missed, some writes leave its old contents showing. */
  lemma DirectWriteStale(es: seq<Entry>, ps: seq<Sector>, ds: seq<Sector>, stale: set<nat>, s: nat, len: nat, n: nat)
    requires Good(es, ps, ds, stale) && s + len <= |ds| && IsLead(es, s, len, n) && Missed(es, s, len, n) != {}
    ensures exists buf: seq<Sector> :: |buf| == len &&
              forall es2, ps2 :: Mirrors(es, ps, es2, ps2, s, buf, n) ==>
                View(es2, ps2, Written(ds, s, buf)) != Written(View(es, ps, ds), s, buf)
  {
    var t: nat :| t in Missed(es, s, len, n);
    var v := View(es, ps, ds)[t];
    var b: Sector := v[0 := if v[0] == 0 then 1 else 0];
    var buf: seq<Sector> := seq(len, _ => b);
    assert b[0] != v[0];
    forall es2, ps2 | Mirrors(es, ps, es2, ps2, s, buf, n)
      ensures View(es2, ps2, Written(ds, s, buf)) != Written(View(es, ps, ds), s, buf)
    {
      DirectWrite(es, ps, ds, es2, ps2, s, buf, n, t);
      assert Written(View(es, ps, ds), s, buf)[t] == b;
    }
  }

  /** The mirror step after a transfer that failed makes the pages it reached stale. */
  lemma FailedWrite(es: seq<Entry>, ps: seq<Sector>, ds: seq<Sector>, stale: set<nat>, es2: seq<Entry>,
                    ps2: seq<Sector>,
                    s: nat, buf: seq<Sector>, n: nat)
    requires Good(es, ps, ds, stale) && s + |buf| < CACHE_FREE
    requires IsLead(es, s, |buf|, n) && Mirrors(es, ps, es2, ps2, s, buf, n)
    ensures Good(es2, ps2, ds, stale + Run(s, |buf|))
    ensures Same(View(es, ps, ds), View(es2, ps2, ds), stale + Run(s, |buf|)) && Dirt(es2) <= Dirt(es)
  {
    var stale2 := stale + Run(s, |buf|);
    forall t | 0 <= t < |ds| && t !in stale2
      ensures View(es2, ps2, ds)[t] == View(es, ps, ds)[t]
    {
      SameSectors(es, es2, t);
    }
  }

  // ----- A direct write that is not seen -----

  /** A new cache over a disc of zeros, after a byte of sector 1 was read. */
  method ReadOne() returns (c: CacheState)
    ensures c.Valid() && c.disc.reliable && c.disc.sectors.Length == 3 && c.entries.Length == c.pages.Length
    ensures InPages(c.entries[..]) == {1} && c.Contents()[1] == Zeros()
    ensures fresh(c) && fresh(c.entries) && fresh(c.pages) && fresh(c.disc.sectors)
  {
    hide Good, View, InPages, Dirt;
    var disc := new Disc(3, true);
    c := new CacheState(2, disc);
    c.Sizes();
    ghost var v := c.Contents();
    assert v[1] == disc.sectors[1];
    var ok, first := c.ReadPartialSector(1, 0, 1);
  }

  /** Two sectors of ones are written over a disc of zeros while the cache holds the second
      of them but not the first: what is read of the second afterwards is still zero. */
  method SecondSectorStale() returns (ok: bool, b: seq<Byte>)
    ensures ok && b == [0]
  {
    hide Good, View, InPages, Dirt, IsLead, Missed, MissedBy, LostBy, Outdated, Overwritten, Find, Same, Run;
    var c := ReadOne();
    var ones: Sector := seq(SIZE, _ => 1);
    ghost var es, d, v := c.entries[..], Direct([], 0, 0, 0), c.Contents();
    OnlyOne(es);
    ok, d := c.WriteDirect(0, [ones, ones]);
    MissesOne(es, d);
    KeepsOne(v, [ones, ones], MissedBy(d));
    ok, b := c.ReadPartialSector(1, 0, 1);
  }

  lemma KeepsOne(v: seq<Sector>, buf: seq<Sector>, keep: set<nat>)
    requires |v| == 3 && v[1] == Zeros() && 1 in keep
    ensures Overwritten(v, 0, buf, keep)[1][0..1] == [0]
  {
  }

  lemma OnlyOne(es: seq<Entry>)
    requires InPages(es) == {1}
    ensures Find(es, 0) == |es| && Find(es, 1) < |es|
  {
    if Find(es, 0) < |es| { InPagesIs(es, Find(es, 0)); }
    if Find(es, 1) == |es| { NotInPages(es, 1); }
  }

  lemma MissesOne(es: seq<Entry>, d: Direct)
    requires Find(es, 0) == |es| && Find(es, 1) < |es| && d.es == es && d.at == 0 && d.len == 2 && IsLead(es, 0, 2, d.n)
    ensures 1 in MissedBy(d)
  {
    assert d.n == 0;
  }
}
