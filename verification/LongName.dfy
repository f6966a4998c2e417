/** Long names in directory entries: how a name is split over entries of 13 units, and how
    a scan of the directory puts it together again. */
module LongName {
  import opened Bits
  import opened FatTable
  import opened Unicode

  const ENTRY_SIZE := 0x20             // DIR_ENTRY_DATA_SIZE
  const LFN_LENGTH := 13               // LFN_ENTRY_LENGTH
  const NAME_UNITS := 256              // MAX_FILENAME_LENGTH
  const LFN_END := 0x40
  const LFN_DEL := 0x80
  const ATTRIB_LFN := 0x0f
  const ATTRIB_VOL := 0x08
  const ENTRY_FREE := 0xe5             // DIR_ENTRY_FREE
  const MOST := 19                     // long entries whose units fit the array

  type DirEntry = e: seq<Byte> | |e| == ENTRY_SIZE witness seq(ENTRY_SIZE, _ => 0)

  /** LFN_offset_table. */
  function CharOffset(j: nat): (r: nat)
    requires j < LFN_LENGTH
    ensures 1 <= r < ENTRY_SIZE - 1
  {
    if j < 5 then 1 + 2 * j else if j < 11 then 0x0e + 2 * (j - 5) else 0x1c + 2 * (j - 11)
  }

  function Char(e: DirEntry, j: nat): Unit
    requires j < LFN_LENGTH
  {
    Two(e[CharOffset(j)], e[CharOffset(j) + 1])
  }

  function Attributes(e: DirEntry): Byte { e[0x0b] }
  function CheckSum(e: DirEntry): Byte { e[0x0d] }

  /** ordinal & ~LFN_END. */
  function Part(e: DirEntry): nat { e[0] / 0x80 * 0x80 + e[0] % 0x40 }

  predicate IsLong(e: DirEntry) { Attributes(e) == ATTRIB_LFN }
  predicate IsDeleted(e: DirEntry) { e[0] / LFN_DEL % 2 == 1 }
  predicate IsEnd(e: DirEntry) { !IsDeleted(e) && e[0] / LFN_END % 2 == 1 }
  predicate IsVolume(e: DirEntry) { Attributes(e) / ATTRIB_VOL % 2 == 1 }

  /** An entry that names a file. */
  predicate IsFile(e: DirEntry) { !IsLong(e) && !IsVolume(e) && e[0] != ENTRY_FREE && e[0] > 0x20 }

  function RotateAdd(c: nat, b: nat): nat { (c % 2 * 0x80 + c / 2 + b) % 0x100 }

  /** The checksum of an alias: rotate right and add, in 8 bits. */
  function Sum(b: seq<Byte>): Byte {
    if b == [] then 0
    else RotateAdd(Sum(b[..|b| - 1]), b[|b| - 1])
  }

  /** The loop over the first 11 bytes, as addEntry and getNextEntry both have it. */
  method AliasSum(e: DirEntry) returns (c: Byte)
    ensures c == Sum(e[..11])
  {
    c := 0;
    var i := 0;
    while i < 11
      invariant 0 <= i <= 11 && c == Sum(e[..i])
    {
      assert e[..i + 1][..i] == e[..i];
      var d: nat := if c % 2 == 1 then 0x80 else 0;
      d := d + c / 2 + e[i];
      c := d % 0x100;
      i := i + 1;
    }
  }

  /** Rotating right moves the low bit to the top: twice the result is the number and 255
      times that bit. */
  lemma Rotates(c: nat, b: nat)
    requires c < 0x100 && b < 0x100
    ensures 2 * RotateAdd(c, 0) == c + 255 * (c % 2) && RotateAdd(c, b) == (RotateAdd(c, 0) + b) % 256
  {
  }

  // ----- The format -----

  /** Units are two bytes each, five from byte 1 on, six from byte 14 and two from byte 28. */
  lemma UnitPlaces(e: DirEntry, j: nat)
    ensures j < 5 ==> Char(e, j) as nat == 256 * (e[2 + 2 * j] as nat) + e[1 + 2 * j]
    ensures j < 6 ==> Char(e, 5 + j) as nat == 256 * (e[15 + 2 * j] as nat) + e[14 + 2 * j]
    ensures j < 2 ==> Char(e, 11 + j) as nat == 256 * (e[29 + 2 * j] as nat) + e[28 + 2 * j]
  {
  }

  /** Byte 0 holds the number of the part, with bit 6 on the last part, and bit 7 once it is
      deleted; byte 11 holds the attributes. */
  lemma Marks(e: DirEntry)
    ensures IsLong(e) <==> e[11] == 15
    ensures IsDeleted(e) <==> e[0] >= 128
    ensures IsEnd(e) <==> 64 <= e[0] < 128
    ensures !IsDeleted(e) ==> Part(e) == if IsEnd(e) then e[0] - 64 else e[0]
    ensures IsVolume(e) <==> e[11] % 16 >= 8
    ensures IsFile(e) <==> e[0] > 32 && e[0] != 229 && !IsVolume(e)
  {
  }

  // ----- Splitting a name -----

  /** What stands for unit k of a name when it is unit j of an entry: a zero ends the name, and the rest is padding. */
  function Padded(units: seq<Unit>, k: nat, j: nat): Unit
    requires j <= k < |units|
  {
    if units[k] != 0 then units[k] else if j > 1 && units[k - 1] == 0 then 0xffff else 0
  }

  /** DirEntry e holds part p of the name, counted from 1. */
  ghost predicate Holds(e: DirEntry, units: seq<Unit>, p: nat, last: bool, sum: Byte)
    requires 1 <= p && p * LFN_LENGTH <= |units|
  {
    && IsLong(e) && CheckSum(e) == sum && e[0] == p + (if last then LFN_END else 0) && e[0x0c] == 0 && e[0x1a] == 0
    && e[0x1b] == 0
    && forall j: nat :: j < LFN_LENGTH ==> Char(e, j) == Padded(units, (p - 1) * LFN_LENGTH + j, j)
  }

  /** The bytes of part p that hold no unit. */
  lemma PartFormat(e: DirEntry, units: seq<Unit>, p: nat, last: bool, sum: Byte)
    requires 1 <= p <= 20 && p * 13 <= |units| && Holds(e, units, p, last, sum)
    ensures e[0] == (if last then 64 + p else p) && e[11] == 15 && e[12] == 0 && e[13] == sum && e[26] == e[27] == 0
  {
  }

  /** u16_to_u8array. */
  method PutUnit(e: array<Byte>, offset: nat, x: Unit)
    requires offset + 1 < e.Length && x < 0x1_0000
    modifies e
    ensures Two(e[offset], e[offset + 1]) == x
    ensures forall i :: 0 <= i < e.Length && i != offset && i != offset + 1 ==> e[i] == old(e[i])
  {
    e[offset] := x % 0x100;
    e[offset + 1] := x / 0x100;
  }

  /** Bytes of a long entry that hold no unit. */
  predicate Plain(i: nat) { i == 0 || i == 0x0b || i == 0x0c || i == 0x0d || i == 0x1a || i == 0x1b }

  lemma Offsets(i: nat, j: nat)
    requires i < LFN_LENGTH && j < LFN_LENGTH && i != j
    ensures CharOffset(i) != CharOffset(j) && CharOffset(i) + 1 != CharOffset(j) && CharOffset(i) != CharOffset(j) + 1
    ensures !Plain(CharOffset(i)) && !Plain(CharOffset(i) + 1)
  {
  }

  /** The units of an entry do not depend on its other bytes. */
  lemma SameChars(e: DirEntry, f: DirEntry)
    requires forall i :: 0 <= i < ENTRY_SIZE && !Plain(i) ==> f[i] == e[i]
    ensures forall j: nat :: j < LFN_LENGTH ==> Char(f, j) == Char(e, j)
  {
    forall j: nat | j < LFN_LENGTH
      ensures Char(f, j) == Char(e, j)
    {
      Offsets(j, (j + 1) % LFN_LENGTH);
      assert f[CharOffset(j)] == e[CharOffset(j)];
      assert f[CharOffset(j) + 1] == e[CharOffset(j) + 1];
    }
  }

  /** The 13 units of a long entry, from unit base of the name on. */
  method FillUnits(e: array<Byte>, units: seq<Unit>, base: nat)
    requires e.Length == ENTRY_SIZE && base + LFN_LENGTH <= |units|
    modifies e
    ensures forall j: nat :: j < LFN_LENGTH ==> Char(e[..], j) == Padded(units, base + j, j)
    ensures e[0] == old(e[0])
  {
    var j: nat := 0;
    while j < LFN_LENGTH
      invariant j <= LFN_LENGTH && e[0] == old(e[0])
      invariant forall k: nat {:trigger CharOffset(k)} :: k < j ==>
                Two(e[CharOffset(k)], e[CharOffset(k) + 1]) == Padded(units, base + k, k)
    {
      forall k: nat | k < j
        ensures CharOffset(k) != CharOffset(j) && CharOffset(k) + 1 != CharOffset(j)
        ensures CharOffset(k) != CharOffset(j) + 1
      {
        Offsets(k, j);
      }
      if units[base + j] == 0 {
        if j > 1 && units[base + (j - 1)] == 0 {
          PutUnit(e, CharOffset(j), 0xffff);
        } else {
          PutUnit(e, CharOffset(j), 0);
        }
      } else {
        PutUnit(e, CharOffset(j), units[base + j]);
      }
      j := j + 1;
    }
  }

  /** The bytes of one long entry, filled in as addEntry does it. */
  method FillEntry(e: array<Byte>, units: seq<Unit>, i: nat, entrySize: nat, sum: Byte)
    requires e.Length == ENTRY_SIZE && 2 <= i <= entrySize <= MOST + 1 && (i - 1) * LFN_LENGTH <= |units|
    modifies e
    ensures Holds(e[..], units, i - 1, i == entrySize, sum)
  {
    hide CharOffset, Two, Padded;
    var ordinal: nat := if i == entrySize then i - 1 + LFN_END else i - 1;
    e[0] := ordinal;
    FillUnits(e, units, (i - 2) * LFN_LENGTH);
    ghost var chars := e[..];
    e[0x0d], e[0x0b], e[0x0c] := sum, ATTRIB_LFN, 0;
    e[0x1a], e[0x1b] := 0, 0;        // u16_to_u8array (lfnEntry, LFN_offset_reserved2, 0)
    SameChars(chars, e[..]);
  }

  /** _unistrnlen. */
  method UniStrnLen(units: seq<Unit>, most: nat) returns (len: nat)
    requires |units| >= most || 0 in units
    ensures len == if |Text(units)| < most then |Text(units)| else most
  {
    len := 0;
    while len < most && units[len] != 0
      invariant len <= most && len <= |Text(units)| && (len < most ==> len < |units|)
    {
      len := len + 1;
    }
  }

  // ----- Putting a name together -----

  /** What getNextEntry remembers from one entry to the next. */
  datatype Memory = Memory(units: seq<Unit>, has: bool, sum: Byte)

  /** The array of units is long enough for the part an entry claims to be. */
  predicate Fits(e: DirEntry) { IsLong(e) && !IsDeleted(e) ==> 1 <= Part(e) <= MOST }

  /** The units of part p, set from an entry. */
  function Filled(units: seq<Unit>, p: nat, e: DirEntry): (r: seq<Unit>)
    requires 1 <= p && p * LFN_LENGTH <= |units|
    ensures |r| == |units|
  {
    units[..(p - 1) * LFN_LENGTH] + seq(LFN_LENGTH,
        j requires 0 <= j < LFN_LENGTH => Char(e, j)) + units[p * LFN_LENGTH..]
  }

  /** The effect of one long entry. */
  function Learn(m: Memory, e: DirEntry): (r: Memory)
    requires |m.units| == NAME_UNITS && IsLong(e) && Fits(e)
    ensures |r.units| == NAME_UNITS
  {
    var m1 := if IsDeleted(e) then m.(has := false)
              else if IsEnd(e) then Memory(m.units[Part(e) * LFN_LENGTH := 0], true, CheckSum(e))
              else m;
    var m2 := if m1.sum != CheckSum(e) then m1.(has := false) else m1;
    if m2.has then m2.(units := Filled(m2.units, Part(e), e)) else m2
  }

  /** The entry found: its long name, or none if it has only an alias; where the entries of
      the file begin, and its alias. */
  datatype Found = NotFound | Found(long: bool, name: seq<Unit>, start: nat, end: nat)

  /** The scan of a directory from entry i on. */
  function Scan(es: seq<DirEntry>, i: nat, m: Memory, start: nat): (r: Found)
    requires i <= |es| && |m.units| == NAME_UNITS && forall k :: 0 <= k < |es| ==> Fits(es[k])
    ensures r.Found? ==> i <= r.end < |es| && IsFile(es[r.end])
    decreases |es| - i
  {
    if i == |es| then NotFound
    else
      var e := es[i];
      if IsLong(e) then Scan(es, i + 1, Learn(m, e), if IsEnd(e) then i else start)
      else if !IsVolume(e) && e[0] == 0 then NotFound
      else if IsFile(e) then
        if m.has && Sum(e[..11]) == m.sum then Found(true, Text(m.units), start, i) else Found(false, [], i, i)
      else Scan(es, i + 1, m, start)
  }

  /** The name in an array of units: what stands after the zero does not matter. */
  predicate Named(units: seq<Unit>, n: nat) {
    && |units| == NAME_UNITS && n <= MOST * LFN_LENGTH && units[n] == 0
    && forall k :: 0 <= k < n ==> units[k] != 0
  }

  /** How many long entries a name of n units takes. */
  function Parts(n: nat): nat { (n + LFN_LENGTH - 1) / LFN_LENGTH }

  /** The entries of a file from start on: its long ones, the last part first, and then its alias. */
  ghost predicate Laid(es: seq<DirEntry>, start: nat, units: seq<Unit>, n: nat, alias: DirEntry)
    requires Named(units, n)
  {
    && start + Parts(n) < |es| && es[start + Parts(n)] == alias
    && forall i :: start <= i < start + Parts(n) ==> PartOf(es[i], units, n, start + Parts(n) - i, Sum(alias[..11]))
  }

  ghost predicate PartOf(e: DirEntry, units: seq<Unit>, n: nat, p: nat, sum: Byte)
    requires Named(units, n)
  {
    1 <= p <= Parts(n) && Holds(e, units, p, p == Parts(n), sum)
  }

  /** The last units have been read, from the one of index from on. */
  ghost predicate Read(m: Memory, units: seq<Unit>, n: nat, from: nat, sum: Byte)
    requires Named(units, n)
  {
    && |m.units| == NAME_UNITS && m.has && m.sum == sum && from <= n && m.units[n] == 0
    && forall k :: from <= k < n ==> m.units[k] == units[k]
  }

  /** The ordinal of a part says which it is. */
  lemma PartIs(e: DirEntry, units: seq<Unit>, n: nat, p: nat, sum: Byte)
    requires Named(units, n) && PartOf(e, units, n, p, sum)
    ensures 1 <= p <= Parts(n) <= MOST && Part(e) == p && IsLong(e) && !IsDeleted(e) && (IsEnd(e) <==> p == Parts(n))
    ensures CheckSum(e) == sum && Fits(e)
    ensures forall j: nat :: j < LFN_LENGTH ==> Char(e, j) == Padded(units, (p - 1) * LFN_LENGTH + j, j)
  {
    hide Char, Padded;
  }

  lemma FilledAt(units: seq<Unit>, p: nat, e: DirEntry)
    requires 1 <= p && p * LFN_LENGTH <= |units|
    ensures forall k: nat :: k < |units| ==>
              Filled(units, p, e)[k] == if (p - 1) * LFN_LENGTH <= k < p * LFN_LENGTH then Char(e,
                  k - (p - 1) * LFN_LENGTH) else units[k]
  {
    hide Char;
  }

  lemma Learnt(m: Memory, e: DirEntry, p: nat, last: bool, sum: Byte)
    requires 1 <= p <= MOST && Part(e) == p && IsLong(e) && !IsDeleted(e) && (IsEnd(e) <==> last) && CheckSum(e) == sum
    requires Fits(e)
    requires |m.units| == NAME_UNITS && (!last ==> m.has && m.sum == sum)
    ensures Learn(m, e) == Memory(Filled(if last then m.units[p * LFN_LENGTH := 0] else m.units, p, e), true, sum)
  {
    hide Filled, Part, IsLong, IsDeleted, IsEnd, CheckSum, Fits;
  }

  lemma PaddedAt(units: seq<Unit>, k: nat, j: nat)
    requires j <= k < |units| && units[k] != 0
    ensures Padded(units, k, j) == units[k]
  {
  }

  lemma PaddedEnd(units: seq<Unit>, k: nat, j: nat)
    requires j <= k < |units| && units[k] == 0 && (k > 0 ==> units[k - 1] != 0)
    ensures Padded(units, k, j) == 0
  {
  }

  /** One more part. */
  lemma LearnPart(m: Memory, e: DirEntry, units: seq<Unit>, n: nat, p: nat, sum: Byte)
    requires Named(units, n) && PartOf(e, units, n, p, sum) && |m.units| == NAME_UNITS
    requires p < Parts(n) ==> Read(m, units, n, p * LFN_LENGTH, sum)
    ensures Fits(e) && IsLong(e) && (IsEnd(e) <==> p == Parts(n))
    ensures Read(Learn(m, e), units, n, (p - 1) * LFN_LENGTH, sum)
  {
    hide Char, PartOf, IsLong, IsEnd, IsDeleted, CheckSum, Part, Fits, Filled, Learn, Padded;
    PartIs(e, units, n, p, sum);
    var r := Learn(m, e);
    var before := if p == Parts(n) then m.units[p * LFN_LENGTH := 0] else m.units;
    Learnt(m, e, p, p == Parts(n), sum);
    FilledAt(before, p, e);
    forall k | (p - 1) * LFN_LENGTH <= k < n
      ensures r.units[k] == units[k]
    {
      if k < p * LFN_LENGTH {
        PaddedAt(units, k, k - (p - 1) * LFN_LENGTH);
      }
    }
    if p == Parts(n) && n < p * LFN_LENGTH {
      PaddedEnd(units, n, n - (p - 1) * LFN_LENGTH);
    }
  }

  /** Whatever came before, a scan that reaches the entries of a file finds its name. */
  lemma {:induction false} ScanFinds(es: seq<DirEntry>, start: nat, units: seq<Unit>, n: nat, alias: DirEntry, i: nat,
                                     m: Memory, start1: nat)
    requires Named(units, n) && n > 0 && Laid(es, start, units, n, alias) && IsFile(alias)
    requires start <= i <= start + Parts(n) && |m.units| == NAME_UNITS && forall k :: 0 <= k < |es| ==> Fits(es[k])
    requires i > start ==> Read(m, units, n, (start + Parts(n) - i) * LFN_LENGTH, Sum(alias[..11])) && start1 == start
    ensures Scan(es, i, m, start1) == Found(true, units[..n], start, start + Parts(n))
    decreases start + Parts(n) - i
  {
    var p := start + Parts(n) - i;
    if p == 0 {
      TextIs(m.units, units, n);
    } else {
      LearnPart(m, es[i], units, n, p, Sum(alias[..11]));
      ScanFinds(es, start, units, n, alias, i + 1, Learn(m, es[i]), start);
    }
  }

  lemma {:induction false} TextIs(v: seq<Unit>, units: seq<Unit>, n: nat)
    requires n < |v| && n <= |units| && v[n] == 0 && (forall k :: 0 <= k < n ==> v[k] == units[k] != 0)
    ensures Text(v) == units[..n]
    decreases n
  {
    if n > 0 { TextIs(v[1..], units[1..], n - 1); }
  }

  /** An entry a scan goes past: of a deleted file, a volume label, or a long one. */
  predicate Skipped(e: DirEntry) { IsLong(e) || (!IsFile(e) && (IsVolume(e) || e[0] != 0)) }

  /** A scan that begins before them goes past what is in between. */
  lemma {:induction false} ScanReaches(es: seq<DirEntry>, start: nat, units: seq<Unit>, n: nat, alias: DirEntry, i: nat,
                                       m: Memory, start1: nat)
    requires Named(units, n) && n > 0 && Laid(es, start, units, n, alias) && IsFile(alias)
    requires i <= start && |m.units| == NAME_UNITS && (forall k :: 0 <= k < |es| ==> Fits(es[k]))
    requires forall k :: i <= k < start ==> Skipped(es[k])
    ensures Scan(es, i, m, start1) == Found(true, units[..n], start, start + Parts(n))
    decreases start - i
  {
    if i == start {
      ScanFinds(es, start, units, n, alias, i, m, start1);
    } else {
      var e := es[i];
      ScanReaches(es, start, units, n, alias, i + 1, if IsLong(e) then Learn(m, e) else m, if IsLong(e)
          && IsEnd(e) then i else start1);
    }
  }

  /** The end of the array is never anything but zeros, so that its text ends in it. */
  predicate Ends(units: seq<Unit>) {
    |units| == NAME_UNITS && forall k :: MOST * LFN_LENGTH <= k < NAME_UNITS ==> units[k] == 0
  }

  lemma LearnEnds(m: Memory, e: DirEntry)
    requires Ends(m.units) && IsLong(e) && Fits(e)
    ensures Ends(Learn(m, e).units)
  {
    hide Char, IsLong, CheckSum;
    if !IsDeleted(e) {
      FilledAt(if IsEnd(e) then m.units[Part(e) * LFN_LENGTH := 0] else m.units, Part(e), e);
    }
  }

  /** One step of a scan. */
  lemma ScanOne(es: seq<DirEntry>, i: nat, m: Memory, start: nat)
    requires i <= |es| && |m.units| == NAME_UNITS && forall k :: 0 <= k < |es| ==> Fits(es[k])
    ensures i == |es| ==> Scan(es, i, m, start) == NotFound
    ensures i < |es| ==>
              var e := es[i];
              Scan(es, i, m, start) ==
              if IsLong(e) then Scan(es, i + 1, Learn(m, e), if IsEnd(e) then i else start)
              else if IsVolume(e) then Scan(es, i + 1, m, start)
              else if e[0] == 0 then NotFound
              else if e[0] != ENTRY_FREE && e[0] > 0x20 then
                if m.has && Sum(e[..11]) == m.sum then Found(true, Text(m.units), start, i) else Found(false, [], i, i)
              else Scan(es, i + 1, m, start)
  {
    hide Learn, IsLong, IsEnd, IsVolume;
  }

  // ----- Laying entries out -----

  /** A name in the array of units: zeros after it. */
  function Named256(u: seq<Unit>): (r: seq<Unit>)
    requires |u| <= NAME_UNITS
    ensures |r| == NAME_UNITS
  {
    u + seq(NAME_UNITS - |u|, _ => 0)
  }

  /** How long the name is: up to the first zero among its units. */
  function NameLength(u: seq<Unit>): nat
    requires |u| <= NAME_UNITS
  {
    |Text(Named256(u))|
  }

  lemma NamedIs(u: seq<Unit>)
    requires |u| < NAME_UNITS && NameLength(u) <= MOST * LFN_LENGTH
    ensures Named(Named256(u), NameLength(u))
  {
    var t := Text(Named256(u));
    forall k | 0 <= k < |t|
      ensures Named256(u)[k] != 0
    {
      assert Named256(u)[k] == t[k];
    }
  }

  lemma NamedWhole(u: seq<Unit>)
    requires |u| < NAME_UNITS && 0 !in u
    ensures NameLength(u) == |u| && Named256(u)[..|u|] == u
  {
    TextIs(Named256(u), Named256(u), |u|);
  }

  /** The first w of the entries of a file are there. */
  ghost predicate LaidSome(es: seq<DirEntry>, start: nat, units: seq<Unit>, n: nat, alias: DirEntry, w: nat)
    requires Named(units, n)
  {
    && w <= Parts(n) + 1 && start + w <= |es|
    && forall i :: start <= i < start + w ==>
         if i < start + Parts(n) then PartOf(es[i], units, n, start + Parts(n) - i, Sum(alias[..11]))
             else es[i] == alias
  }

  lemma LaidOne(es: seq<DirEntry>, start: nat, units: seq<Unit>, n: nat, alias: DirEntry, w: nat, e: DirEntry)
    requires Named(units, n) && LaidSome(es, start, units, n, alias, w) && w <= Parts(n) && start + w < |es|
    requires if w < Parts(n) then PartOf(e, units, n, Parts(n) - w, Sum(alias[..11])) else e == alias
    ensures LaidSome(es[start + w := e], start, units, n, alias, w + 1)
  {
    hide PartOf, Named, Parts;
  }

  lemma LaidAll(es: seq<DirEntry>, start: nat, units: seq<Unit>, n: nat, alias: DirEntry)
    requires Named(units, n) && LaidSome(es, start, units, n, alias, Parts(n) + 1)
    ensures Laid(es, start, units, n, alias)
  {
    hide PartOf, Named, Parts;
  }

  /** A name of up to 247 units comes back: laid out from the bytes of the name, with its
      terminator and whatever is behind that, its entries are found as one file whose
      name has those bytes. */
  lemma NameBack(u: seq<Unit>, post: seq<Byte>, w: seq<Unit>, es: seq<DirEntry>, start: nat, alias: DirEntry,
                 i: nat, m: Memory, start1: nat)
    requires 0 !in u && w == Decode(Encode(u) + [0] + post, 0) && |w| < NAME_UNITS
    requires 0 < NameLength(w) <= MOST * LFN_LENGTH && Named(Named256(w), NameLength(w))
    requires Laid(es, start, Named256(w), NameLength(w), alias) && IsFile(alias)
    requires i <= start && |m.units| == NAME_UNITS && (forall k :: 0 <= k < |es| ==> Fits(es[k]))
    requires forall k :: i <= k < start ==> Skipped(es[k])
    ensures var r := Scan(es, i, m, start1);
            r == Found(true, u, start, start + Parts(|u|)) && Encode(r.name) == Encode(u)
  {
    assert [] + Encode(u) + [0] + post == Encode(u) + [0] + post;
    RoundTrip([], u, post);
    NamedWhole(u);
    ScanReaches(es, start, Named256(u), |u|, alias, i, m, start1);
  }
}
