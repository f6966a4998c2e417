/** The file allocation table on a partition: its entries through the sector cache. */
module FatVolume {
  import opened Bits
  import opened Cache
  import opened FatTable

  /** The bytes of n sectors from start on. */
  function Flat(v: seq<Sector>, start: nat, n: nat): (r: seq<Byte>)
    requires start + n <= |v|
    ensures |r| == SIZE * n
  {
    seq(SIZE * n, k requires 0 <= k < SIZE * n => v[start + k / SIZE][k % SIZE])
  }

  /** Part of a sector read is that part of the bytes. */
  lemma FlatRead(v: seq<Sector>, start: nat, n: nat, k: nat, len: nat)
    requires start + n <= |v| && k % SIZE + len <= SIZE && k + len <= SIZE * n && len > 0
    ensures start + k / SIZE < |v|
    ensures v[start + k / SIZE][k % SIZE..k % SIZE + len] == Flat(v, start, n)[k..k + len]
  {
    var p := v[start + k / SIZE][k % SIZE..k % SIZE + len];
    forall j | 0 <= j < len
      ensures p[j] == Flat(v, start, n)[k..k + len][j]
    {
      DivModUnique(k + j, SIZE, k / SIZE, k % SIZE + j);
    }
  }

  /** Some bytes replaced. */
  function Put(b: seq<Byte>, k: nat, data: seq<Byte>): (r: seq<Byte>)
    requires k + |data| <= |b|
    ensures |r| == |b|
  {
    b[..k] + data + b[k + |data|..]
  }

  /** Part of a sector written is that part of the bytes, and nothing else. */
  lemma FlatWrite(v: seq<Sector>, start: nat, n: nat, k: nat, data: seq<Byte>)
    requires start + n <= |v| && k % SIZE + |data| <= SIZE && k + |data| <= SIZE * n && |data| > 0
    ensures start + k / SIZE < |v|
    ensures var s := start + k / SIZE;
            Flat(v[s := Patched(v[s], k % SIZE, data)], start, n) == Put(Flat(v, start, n), k, data)
  {
    var s := start + k / SIZE;
    var w := v[s := Patched(v[s], k % SIZE, data)];
    forall j | 0 <= j < SIZE * n
      ensures Flat(w, start, n)[j] == Put(Flat(v, start, n), k, data)[j]
    {
      if j / SIZE == k / SIZE {
        assert j - k == j % SIZE - k % SIZE;
      }
    }
  }

  /** The sectors outside the table are the same, unless they are stale. */
  ghost predicate Elsewhere(v: seq<Sector>, w: seq<Sector>, start: nat, n: nat, stale: set<nat>) {
    |v| == |w| && forall s :: 0 <= s < |v| && !(start <= s < start + n) && s !in stale ==> w[s] == v[s]
  }

  lemma ElsewhereRefl(v: seq<Sector>, start: nat, n: nat, stale: set<nat>)
    ensures Elsewhere(v, v, start, n, stale)
  {
  }

  lemma ElsewhereTrans(u: seq<Sector>, v: seq<Sector>, w: seq<Sector>, start: nat, n: nat, stale: set<nat>)
    requires Elsewhere(u, v, start, n, stale) && Elsewhere(v, w, start, n, stale)
    ensures Elsewhere(u, w, start, n, stale)
  {
  }

  /** The bytes of sectors that are not stale. */
  lemma FlatSame(v: seq<Sector>, w: seq<Sector>, start: nat, n: nat, stale: set<nat>)
    requires Same(v, w, stale) && start + n <= |v| && forall s: nat :: start <= s < start + n ==> s !in stale
    ensures Flat(v, start, n) == Flat(w, start, n)
  {
    forall k | 0 <= k < SIZE * n
      ensures Flat(v, start, n)[k] == Flat(w, start, n)[k]
    {
      assert start <= start + k / SIZE < start + n;
    }
  }

  lemma ElsewhereSame(u: seq<Sector>, v: seq<Sector>, w: seq<Sector>, start: nat, n: nat, stale: set<nat>)
    requires Elsewhere(u, v, start, n, stale) && Same(v, w, stale)
    ensures Elsewhere(u, w, start, n, stale)
  {
  }

  lemma ElsewhereSet(v: seq<Sector>, s: nat, p: Sector, start: nat, n: nat, stale: set<nat>)
    requires start <= s < start + n && s < |v|
    ensures Elsewhere(v, v[s := p], start, n, stale)
  {
  }

  /** The bytes of the table do not depend on other sectors. */
  lemma FlatOutside(v: seq<Sector>, w: seq<Sector>, start: nat, n: nat)
    requires start + n <= |v| == |w| && forall s :: start <= s < start + n ==> v[s] == w[s]
    ensures Flat(v, start, n) == Flat(w, start, n)
  {
    forall k | 0 <= k < SIZE * n
      ensures Flat(v, start, n)[k] == Flat(w, start, n)[k]
    {
      assert start <= start + k / SIZE < start + n;
    }
  }

  lemma SameElse(v: seq<Sector>, w: seq<Sector>, start: nat, n: nat, stale: set<nat>)
    requires Same(v, w, stale)
    ensures Elsewhere(v, w, start, n, stale)
  {
  }

  /** The sectors outside the table that pages hold. */
  ghost function Outside(es: seq<Entry>, start: nat, n: nat): set<nat> { InPages(es) - Run(start, n) }

  lemma OutsideAdd(es: seq<Entry>, es2: seq<Entry>, s: nat, start: nat, n: nat)
    requires InPages(es2) <= InPages(es) + {s}
    ensures Outside(es2, start, n) <= Outside(es, start, n) + {s}
    ensures start <= s < start + n ==> Outside(es2, start, n) <= Outside(es, start, n)
  {
    hide InPages;
  }

  lemma OutsideSame(es: seq<Entry>, es2: seq<Entry>, start: nat, n: nat)
    requires InPages(es2) == InPages(es)
    ensures Outside(es2, start, n) == Outside(es, start, n)
  {
    hide InPages;
  }

  /** Sectors the mirror step misses are held in pages. */
  lemma MissedCached(es: seq<Entry>, s: nat, len: nat, n: nat, start: nat, fat: nat)
    requires Run(s, len) * Run(start, fat) == {} && s + len < CACHE_FREE
    ensures Missed(es, s, len, n) <= Run(s, len) * Outside(es, start, fat)
  {
    MissedHeld(es, s, len, n);
    MissedInRun(es, s, len, n);
    hide InPages, Missed, Run;
    forall t | t in Missed(es, s, len, n)
      ensures t in Run(s, len) * Outside(es, start, fat)
    {
      assert t !in Run(s, len) * Run(start, fat);
    }
  }

  class Volume {
    const cache: CacheState
    const kind: Kind
    const fatStart: nat
    const fatSectors: nat
    const lastCluster: nat
    var firstFree: nat

    constructor (cache: CacheState, kind: Kind, fatStart: nat, fatSectors: nat, lastCluster: nat, firstFree: nat)
      ensures this.cache == cache && this.kind == kind && this.fatStart == fatStart && this.fatSectors == fatSectors
      ensures this.lastCluster == lastCluster && this.firstFree == firstFree
    {
      this.cache, this.kind, this.fatStart, this.fatSectors := cache, kind, fatStart, fatSectors;
      this.lastCluster, this.firstFree := lastCluster, firstFree;
    }

    /** The bytes of the table, cached or not. */
    ghost function Fat(): seq<Byte>
      requires cache.entries.Length == cache.pages.Length && fatStart + fatSectors <= cache.disc.sectors.Length
      reads cache.entries, cache.pages, cache.disc.sectors
    {
      Flat(cache.Contents(), fatStart, fatSectors)
    }

    /** The table has an entry for every cluster, and room for one more (perhaps in its
        second copy), which the search for a free cluster may look at; a cluster number is never a mark of
        the end of a chain. */
    ghost predicate Valid()
      reads cache`stale, cache.entries, cache.pages, cache.disc.sectors
    {
      && cache.Valid() && cache.entries.Length == cache.pages.Length
      && fatStart + fatSectors <= cache.disc.sectors.Length
      && (forall s: nat :: fatStart <= s < fatStart + fatSectors ==> s !in cache.stale)
      && CLUSTER_FIRST <= lastCluster < Limit(kind) && Place(kind, lastCluster + 1) + Width(kind) <= SIZE * fatSectors
    }

    ghost function Cached(): set<nat>
      reads cache.entries
    {
      Outside(cache.entries[..], fatStart, fatSectors)
    }

    /** The sectors outside the table. */
    ghost predicate SameElsewhere(v: seq<Sector>)
      requires cache.entries.Length == cache.pages.Length
      reads cache`stale, cache.entries, cache.pages, cache.disc.sectors
    {
      Elsewhere(v, cache.Contents(), fatStart, fatSectors, cache.stale)
    }

    ghost predicate Unchanged(v: seq<Sector>)
      requires cache.entries.Length == cache.pages.Length
      reads cache`stale, cache.entries, cache.pages, cache.disc.sectors
    {
      Same(v, cache.Contents(), cache.stale)
    }

    /** A few bytes of the table, all in one sector; zeros after a failed transfer. */
    method ReadFat(k: nat, len: nat) returns (b: seq<Byte>, ghost ok: bool)
      requires Valid() && k % SIZE + len <= SIZE && k + len <= SIZE * fatSectors && len > 0
      modifies cache.entries, cache.pages, cache.disc.sectors
      ensures Valid() && Fat() == old(Fat()) && Unchanged(old(cache.Contents()))
      ensures Dirt(cache.entries[..]) <= old(Dirt(cache.entries[..]))
      ensures |b| == len && (ok ==> b == Fat()[k..k + len]) && (cache.disc.reliable ==> ok)
      ensures Cached() <= old(Cached())
    {
      hide Flat, View, Good, Outside;
      InDisc(k, len);
      ghost var v := cache.Contents();
      ghost var es := cache.entries[..];
      FlatRead(v, fatStart, fatSectors, k, len);
      var good;
      good, b := cache.ReadPartialSector(fatStart + k / SIZE, k % SIZE, len);
      ok := good;
      OutsideAdd(es, cache.entries[..], fatStart + k / SIZE, fatStart, fatSectors);
      FlatSame(v, cache.Contents(), fatStart, fatSectors, cache.stale);
      if !good {
        b := seq(len, _ => 0);
      }
    }

    method WriteFat(k: nat, b: seq<Byte>) returns (ghost ok: bool)
      requires Valid() && k % SIZE + |b| <= SIZE && k + |b| <= SIZE * fatSectors && |b| > 0
      modifies cache.entries, cache.pages, cache.disc.sectors
      ensures Valid() && SameElsewhere(old(cache.Contents()))
      ensures Fat() == (if ok then Put(old(Fat()), k, b) else old(Fat())) && (cache.disc.reliable ==> ok)
      ensures Cached() <= old(Cached())
    {
      hide Flat, View, Good, Outside, Elsewhere, Same, Patched;
      InDisc(k, |b|);
      ghost var v := cache.Contents();
      ghost var es := cache.entries[..];
      FlatWrite(v, fatStart, fatSectors, k, b);
      ghost var s := fatStart + k / SIZE;
      var good := cache.WritePartialSector(b, fatStart + k / SIZE, k % SIZE);
      ok := good;
      OutsideAdd(es, cache.entries[..], s, fatStart, fatSectors);
      ghost var w := if ok then v[s := Patched(v[s], k % SIZE, b)] else v;
      FlatSame(w, cache.Contents(), fatStart, fatSectors, cache.stale);
      SameElse(w, cache.Contents(), fatStart, fatSectors, cache.stale);
      ElsewhereSet(v, s, w[s], fatStart, fatSectors, cache.stale);
      assert w == v[s := w[s]];
      ElsewhereTrans(v, w, cache.Contents(), fatStart, fatSectors, cache.stale);
    }

    lemma Sized()
      requires Valid()
      ensures cache.entries.Length == cache.pages.Length && fatStart + fatSectors <= cache.disc.sectors.Length
      ensures |Fat()| == SIZE * fatSectors
    {
    }

    lemma InDisc(k: nat, len: nat)
      requires Valid() && k + len <= SIZE * fatSectors && len > 0
      ensures fatStart + k / SIZE < fatStart + fatSectors <= cache.disc.sectors.Length < CACHE_FREE
    {
      cache.SmallDisc();
    }

    /** One byte; an entry of 12 bits may straddle a sector, so it is read byte by byte. */
    method ReadByte(k: nat) returns (b: Byte, ghost ok: bool)
      requires Valid() && k < SIZE * fatSectors
      modifies cache.entries, cache.pages, cache.disc.sectors
      ensures Valid() && Fat() == old(Fat()) && Unchanged(old(cache.Contents())) && (ok ==> b == Fat()[k])
      ensures (cache.disc.reliable ==> ok)
      ensures Dirt(cache.entries[..]) <= old(Dirt(cache.entries[..]))
      ensures Cached() <= old(Cached())
    {
      hide Flat, View, Good, Outside;
      var s;
      s, ok := ReadFat(k, 1);
      b := s[0];
    }

    // ----- Entries -----

    method Next12(c: nat) returns (next: nat, ghost ok: bool)
      requires Valid() && kind == FAT12 && Place(FAT12, c) + 2 <= SIZE * fatSectors
      modifies cache.entries, cache.pages, cache.disc.sectors
      ensures Valid() && Fat() == old(Fat()) && Unchanged(old(cache.Contents()))
      ensures (ok ==> next == Next(FAT12, Fat(), c)) && (cache.disc.reliable ==> ok)
      ensures Dirt(cache.entries[..]) <= old(Dirt(cache.entries[..]))
      ensures Cached() <= old(Cached())
    {
      hide Flat, View, Good, Outside, Place, Two;
      var k := Place(FAT12, c);
      ghost var ok2;
      var b, d;
      b, ok := ReadByte(k);
      d, ok2 := ReadByte(k + 1);
      ok := ok && ok2;
      next := Two(b, d);
      next := if c % 2 == 1 then next / 0x10 else next % 0x1000;
      next := if next >= 0xff7 then CLUSTER_EOF else next;
    }

    /** _FAT_fat_nextCluster. */
    method NextCluster(c: nat) returns (next: nat, ghost ok: bool)
      requires Valid() && Place(kind, c) + Width(kind) <= SIZE * fatSectors
      modifies cache.entries, cache.pages, cache.disc.sectors
      ensures Valid() && Fat() == old(Fat()) && Unchanged(old(cache.Contents()))
      ensures (ok ==> next == Next(kind, Fat(), c)) && (cache.disc.reliable ==> ok)
      ensures Dirt(cache.entries[..]) <= old(Dirt(cache.entries[..]))
      ensures Cached() <= old(Cached())
    {
      Aligned(c);
      hide Flat, View, Good, Outside, Place, Two, Four;
      var k := Place(kind, c);
      match kind
      case FAT12 => next, ok := Next12(c);
      case FAT16 =>
        var b;
        b, ok := ReadFat(k, 2);
        next := Two(b[0], b[1]);
        next := if next >= 0xfff7 then CLUSTER_EOF else next;
      case FAT32 =>
        var b;
        b, ok := ReadFat(k, 4);
        next := Four(b[0], b[1], b[2], b[3]);
        next := if next >= 0x0fff_fff7 then CLUSTER_EOF else next;
    }

    /** Entries of 16 and 32 bits do not straddle sectors. */
    lemma Aligned(c: nat)
      ensures kind != FAT12 ==> Place(kind, c) % SIZE + Width(kind) <= SIZE
    {
    }

    /** _FAT_fat_writeFatEntry: refused outside the clusters of the volume, otherwise the entry is set. */
    method WriteFatEntry(c: nat, v: nat) returns (r: bool, ghost ok: bool)
      requires Valid() && v < 0x1_0000_0000
      modifies cache.entries, cache.pages, cache.disc.sectors
      ensures Valid() && SameElsewhere(old(cache.Contents()))
      ensures r <==> CLUSTER_FIRST <= c <= lastCluster
      ensures !r ==> Fat() == old(Fat())
      ensures r ==> Place(kind, c) + Width(kind) <= SIZE * fatSectors
      ensures (r && ok ==> Fat() == Set(kind, old(Fat()), c, v)) && (cache.disc.reliable ==> ok)
      ensures Cached() <= old(Cached())
    {
      hide Flat, View, Good, Outside;
      ok := true;
      if c < CLUSTER_FIRST || c > lastCluster { return false, true; }
      r := true;
      var k := Place(kind, c);
      Within(c);
      Aligned(c);
      hide Place, Set;
      match kind
      case FAT12 =>
        if c % 2 == 1 { ok := WriteOdd(c, v); } else { ok := WriteEven(c, v); }
      case FAT16 =>
        ok := WriteFat(k, [v % 0x100, v / 0x100 % 0x100]);
        if ok { SetIsPut(old(Fat()), c, v); }
      case FAT32 =>
        ok := WriteFat(k, [v % 0x100, v / 0x100 % 0x100, v / 0x1_0000 % 0x100, v / 0x100_0000 % 0x100]);
        if ok { SetIsPut(old(Fat()), c, v); }
    }

    lemma Within(c: nat)
      requires Valid() && c <= lastCluster + 1
      ensures Place(kind, c) + Width(kind) <= SIZE * fatSectors
    {
    }

    lemma SetIsPut(fat: seq<Byte>, c: nat, v: nat)
      requires Place(kind, c) + Width(kind) <= |fat|
      ensures Set(kind, fat, c, v) == Put(fat, Place(kind, c),
          Encoded(kind, c, v, fat[Place(kind, c)], fat[Place(kind, c) + 1]))
    {
    }

    /** An odd 12-bit entry shares its first byte. */
    method WriteOdd(c: nat, v: nat) returns (ghost ok: bool)
      requires Valid() && kind == FAT12 && v < 0x1_0000_0000 && Place(FAT12, c) + 2 <= SIZE * fatSectors && c % 2 == 1
      modifies cache.entries, cache.pages, cache.disc.sectors
      ensures Valid() && SameElsewhere(old(cache.Contents()))
      ensures (ok ==> Fat() == Set(kind, old(Fat()), c, v)) && (cache.disc.reliable ==> ok)
      ensures Cached() <= old(Cached())
    {
      hide Valid, Fat, Cached, Flat, View, Good, Outside, Place, Set, Put, Elsewhere, Same;
      Sized();
      var k := Place(FAT12, c);
      ghost var f, good, ok2, c0 := Fat(), true, true, cache.Contents();
      ElsewhereRefl(c0, fatStart, fatSectors, cache.stale);
      var o: Byte, b0: nat, b1: nat;
      o, ok := ReadByte(k);
      ghost var c1 := cache.Contents();
      ElsewhereSame(c0, c0, c1, fatStart, fatSectors, cache.stale);
      b0, b1 := OddTwo(v, o);
      good := WriteFat(k, [b0]);
      ghost var c2 := cache.Contents();
      ElsewhereTrans(c0, c1, c2, fatStart, fatSectors, cache.stale);
      ok2 := WriteFat(k + 1, [b1]);
      ElsewhereTrans(c0, c2, cache.Contents(), fatStart, fatSectors, cache.stale);
      ok := ok && good && ok2;
      if ok {
        PutTwice(f, k, b0, b1);
        SetIsPut(f, c, v);
      }
    }

    /** An even 12-bit entry shares its second byte. */
    method WriteEven(c: nat, v: nat) returns (ghost ok: bool)
      requires Valid() && kind == FAT12 && v < 0x1_0000_0000 && Place(FAT12, c) + 2 <= SIZE * fatSectors && c % 2 == 0
      modifies cache.entries, cache.pages, cache.disc.sectors
      ensures Valid() && SameElsewhere(old(cache.Contents()))
      ensures (ok ==> Fat() == Set(kind, old(Fat()), c, v)) && (cache.disc.reliable ==> ok)
      ensures Cached() <= old(Cached())
    {
      hide Valid, Fat, Cached, Flat, View, Good, Outside, Place, Set, Put, Elsewhere, Same;
      Sized();
      var k := Place(FAT12, c);
      ghost var f, good, ok2, c0 := Fat(), true, true, cache.Contents();
      ElsewhereRefl(c0, fatStart, fatSectors, cache.stale);
      var o: Byte, b0: nat, b1: nat;
      b0 := v % 0x100;
      good := WriteFat(k, [b0]);
      ghost var c1 := cache.Contents();
      o, ok := ReadByte(k + 1);
      ghost var c2 := cache.Contents();
      ElsewhereSame(c0, c1, c2, fatStart, fatSectors, cache.stale);
      b1 := EvenTwo(v, o);
      ok2 := WriteFat(k + 1, [b1]);
      ElsewhereTrans(c0, c2, cache.Contents(), fatStart, fatSectors, cache.stale);
      ok := ok && good && ok2;
      if ok {
        PutTwice(f, k, b0, b1);
        SetIsPut(f, c, v);
      }
    }

    /** ((value >> 8) & 0x0F) | (oldValue & 0xF0). */
    function EvenTwo(v: nat, o: Byte): (b1: Byte)
    {
      v / 0x100 % 0x10 + o / 0x10 * 0x10
    }

    /** The bytes of (value << 4) | (oldValue & 0x0F). */
    method OddTwo(v: nat, o: Byte) returns (b0: Byte, b1: Byte)
      requires v < 0x1_0000_0000
      ensures b0 == v % 0x10 * 0x10 + o % 0x10 && b1 == v / 0x10 % 0x100
    {
      var value := v * 0x10 % 0x1_0000_0000 + o % 0x10;
      OddBytes(v, o);
      b0, b1 := value % 0x100, value / 0x100 % 0x100;
    }

    // ----- Data sectors -----

    /** What fatfile reads through the cache. */
    method ReadData(sector: nat, offset: nat, size: nat) returns (ok: bool, b: seq<Byte>)
      requires Valid() && sector < CACHE_FREE
      modifies cache.entries, cache.pages, cache.disc.sectors
      ensures Valid() && Fat() == old(Fat()) && Unchanged(old(cache.Contents()))
      ensures Dirt(cache.entries[..]) <= old(Dirt(cache.entries[..]))
      ensures ok ==>
                sector < cache.disc.sectors.Length && offset + size <= SIZE
                    && b == cache.Contents()[sector][offset..offset + size]
      ensures cache.disc.reliable && sector < cache.disc.sectors.Length && offset + size <= SIZE ==> ok
      ensures Cached() <= old(Cached()) + {sector}
    {
      hide Flat, View, Good, Outside;
      ghost var v := cache.Contents();
      ghost var es := cache.entries[..];
      ok, b := cache.ReadPartialSector(sector, offset, size);
      OutsideAdd(es, cache.entries[..], sector, fatStart, fatSectors);
      FlatSame(v, cache.Contents(), fatStart, fatSectors, cache.stale);
    }

    /** Bytes of one sector outside the table, written through the cache; with erase the rest is zeroed. */
    method WriteData(b: seq<Byte>, sector: nat, offset: nat, erase: bool) returns (ok: bool)
      requires Valid() && fatStart + fatSectors <= sector < CACHE_FREE
      modifies cache.entries, cache.pages, cache.disc.sectors
      ensures Valid() && Fat() == old(Fat())
      ensures ok ==> sector < cache.disc.sectors.Length && offset + |b| <= SIZE
                     && Unchanged(old(cache.Contents())[sector := Patched(if erase then Zeros()
                        else old(cache.Contents())[sector], offset, b)])
      ensures !ok ==> Unchanged(old(cache.Contents()))
      ensures cache.disc.reliable && sector < cache.disc.sectors.Length && offset + |b| <= SIZE ==> ok
      ensures Cached() <= old(Cached()) + {sector}
    {
      hide Flat, View, Good, Outside;
      ghost var v := cache.Contents();
      ghost var es := cache.entries[..];
      if erase {
        ok := cache.EraseWritePartialSector(b, sector, offset);
      } else {
        ok := cache.WritePartialSector(b, sector, offset);
      }
      OutsideAdd(es, cache.entries[..], sector, fatStart, fatSectors);
      ghost var w := if !ok then v else v[sector := Patched(if erase then Zeros() else v[sector], offset, b)];
      FlatSame(w, cache.Contents(), fatStart, fatSectors, cache.stale);
      FlatOutside(v, w, fatStart, fatSectors);
    }

    lemma FarFromTable(sector: nat, len: nat)
      requires fatStart + fatSectors <= sector
      ensures forall t: nat :: fatStart <= t < fatStart + fatSectors ==> t !in Run(sector, len)
      ensures Run(sector, len) * Run(fatStart, fatSectors) == {}
    {
    }

    /** Sectors outside the table, written directly, and the mirror step after that. */
    method WriteDataDirect(sector: nat, buf: seq<Sector>) returns (ok: bool, ghost d: Direct)
      requires Valid() && fatStart + fatSectors <= sector && sector + |buf| < CACHE_FREE
      modifies cache`stale, cache.entries, cache.pages, cache.disc.sectors
      ensures Valid() && Fat() == old(Fat()) && Cached() == old(Cached())
      ensures ok ==> sector + |buf| <= cache.disc.sectors.Length
      ensures d.es == old(cache.entries[..]) && d.at == sector && d.len == |buf| && IsLead(d.es, d.at, d.len, d.n)
      ensures ok ==> cache.stale == Outdated(old(cache.stale), d)
      ensures ok ==> cache.Contents() == Overwritten(old(cache.Contents()), sector, buf, MissedBy(d))
      ensures ok ==> Unchanged(Overwritten(old(cache.Contents()), sector, buf, LostBy(d)))
      ensures !ok ==> Unchanged(old(cache.Contents()))
      ensures cache.disc.reliable && sector + |buf| <= cache.disc.sectors.Length ==> ok
      ensures MissedBy(d) <= Run(sector, |buf|) * Cached()
    {
      hide Flat, View, Good, Outside, IsLead, Missed, Run, Overwritten, Outdated, LostBy, Same;
      FarFromTable(sector, |buf|);
      ghost var v := cache.Contents();
      ghost var es := cache.entries[..];
      ok, d := cache.WriteDirect(sector, buf);
      OutsideSame(es, cache.entries[..], fatStart, fatSectors);
      MissedCached(es, sector, |buf|, d.n, fatStart, fatSectors);
      ghost var w := if ok then Overwritten(v, sector, buf, LostBy(d)) else v;
      FlatSame(w, cache.Contents(), fatStart, fatSectors, cache.stale);
      OverwrittenTable(v, sector, buf, LostBy(d), fatStart, fatSectors);
    }

    /** One sector outside the table, written directly without the mirror step. */
    method WriteDataRaw(sector: nat, p: Sector) returns (ok: bool, ghost d: Direct)
      requires Valid() && fatStart + fatSectors <= sector && sector + 1 < CACHE_FREE
      modifies cache`stale, cache.disc.sectors
      ensures Valid() && Fat() == old(Fat())
      ensures ok ==> sector < cache.disc.sectors.Length
      ensures d == Direct(cache.entries[..], sector, 1, 0)
      ensures ok ==> cache.stale == Outdated(old(cache.stale), d)
      ensures ok ==> cache.Contents() == Overwritten(old(cache.Contents()), sector, [p], MissedBy(d))
      ensures ok ==> Unchanged(Overwritten(old(cache.Contents()), sector, [p], LostBy(d)))
      ensures !ok ==> Unchanged(old(cache.Contents()))
      ensures cache.disc.reliable && sector < cache.disc.sectors.Length ==> ok
      ensures MissedBy(d) <= Run(sector, 1) * Cached()
    {
      hide Flat, View, Good, Outside, IsLead, Missed, Run, Overwritten, Outdated, LostBy, Same;
      FarFromTable(sector, 1);
      ghost var v := cache.Contents();
      SameSelf(v, cache.stale);
      ok, d := cache.WriteRaw(sector, p);
      MissedCached(cache.entries[..], sector, 1, 0, fatStart, fatSectors);
      ghost var w := if ok then Overwritten(v, sector, [p], LostBy(d)) else v;
      FlatSame(w, cache.Contents(), fatStart, fatSectors, cache.stale);
      OverwrittenTable(v, sector, [p], LostBy(d), fatStart, fatSectors);
    }
  }

  lemma OverwrittenTable(v: seq<Sector>, sector: nat, buf: seq<Sector>, keep: set<nat>, start: nat, n: nat)
    requires start + n <= sector && start + n <= |v|
    ensures Flat(Overwritten(v, sector, buf, keep), start, n) == Flat(v, start, n)
  {
    FlatOutside(v, Overwritten(v, sector, buf, keep), start, n);
  }

  lemma OddBytes(v: nat, o: Byte)
    requires v < 0x1_0000_0000
    ensures var value := v * 0x10 % 0x1_0000_0000 + o % 0x10;
            value % 0x100 == v % 0x10 * 0x10 + o % 0x10 && value / 0x100 % 0x100 == v / 0x10 % 0x100
  {
    var w, r := v % 0x1000_0000, o % 0x10;
    assert v * 0x10 % 0x1_0000_0000 == w * 0x10;
    var a, b := w / 0x10, w % 0x10;
    DivModUnique(w * 0x10 + r, 0x100, a, b * 0x10 + r);
    SplitTwice(v, 0x10, 0x100_0000);
    ModModMul(v, 0x10, 0x100_0000);
    assert a == v / 0x10 % 0x100_0000;
    ModModMul(v / 0x10, 0x100, 0x1_0000);
  }

  lemma PutTwice(f: seq<Byte>, k: nat, b0: Byte, b1: Byte)
    requires k + 2 <= |f|
    ensures Put(Put(f, k, [b0]), k + 1, [b1]) == Put(f, k, [b0, b1])
    ensures Put(f, k, [b0])[k + 1] == f[k + 1]
  {
  }
}
