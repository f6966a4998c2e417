/** Entries of the file allocation table, of 12, 16 or 32 bits, as bytes. */
module FatTable {
  import opened Bits

  const CLUSTER_EOF := 0x0fff_ffff
  const CLUSTER_FREE := 0
  const CLUSTER_FIRST := 2

  datatype Kind = FAT12 | FAT16 | FAT32

  // ----- Where an entry is -----

  /** The first byte of the entry of cluster c. */
  function Place(kind: Kind, c: nat): nat {
    match kind
    case FAT12 => c * 3 / 2
    case FAT16 => c * 2
    case FAT32 => c * 4
  }

  function Width(kind: Kind): nat {
    if kind == FAT32 then 4 else 2
  }

  /** All clusters up to last have their entries in the table. */
  ghost predicate Covers(kind: Kind, fat: seq<Byte>, last: nat) {
    Place(kind, last) + Width(kind) <= |fat|
  }

  lemma CoversAll(kind: Kind, fat: seq<Byte>, last: nat, c: nat)
    requires Covers(kind, fat, last) && c <= last
    ensures Place(kind, c) + Width(kind) <= |fat|
  {
  }

  // ----- Reading -----

  /** The smallest value that means the end of a chain. */
  function Limit(kind: Kind): nat {
    match kind
    case FAT12 => 0xff7
    case FAT16 => 0xfff7
    case FAT32 => 0x0fff_fff7
  }

  function Clip(kind: Kind, v: nat): nat { if v >= Limit(kind) then CLUSTER_EOF else v }

  function Two(b0: nat, b1: nat): nat { b0 + 0x100 * b1 }
  function Four(b0: nat, b1: nat, b2: nat, b3: nat): nat { b0 + 0x100 * b1 + 0x1_0000 * b2 + 0x100_0000 * b3 }

  /** The 12 bits that belong to cluster c. */
  function Twelve(c: nat, w: nat): nat { if c % 2 == 1 then w / 0x10 else w % 0x1000 }

  function Raw(kind: Kind, fat: seq<Byte>, c: nat): nat
    requires Place(kind, c) + Width(kind) <= |fat|
  {
    var k := Place(kind, c);
    match kind
    case FAT12 => Twelve(c, Two(fat[k], fat[k + 1]))
    case FAT16 => Two(fat[k], fat[k + 1])
    case FAT32 => Four(fat[k], fat[k + 1], fat[k + 2], fat[k + 3])
  }

  /** What _FAT_fat_nextCluster makes of the entry of cluster c. */
  function Next(kind: Kind, fat: seq<Byte>, c: nat): nat
    requires Place(kind, c) + Width(kind) <= |fat|
  {
    Clip(kind, Raw(kind, fat, c))
  }

  // ----- Writing -----

  /** The bytes the entry occupies after v is written there, given those before. */
  function Encoded(kind: Kind, c: nat, v: nat, b0: Byte, b1: Byte): (s: seq<Byte>)
    ensures |s| == Width(kind)
  {
    match kind
    case FAT12 =>
      if c % 2 == 1 then [v % 0x10 * 0x10 + b0 % 0x10, v / 0x10 % 0x100]
      else [v % 0x100, v / 0x100 % 0x10 + b1 / 0x10 * 0x10]
    case FAT16 => [v % 0x100, v / 0x100 % 0x100]
    case FAT32 => [v % 0x100, v / 0x100 % 0x100, v / 0x1_0000 % 0x100, v / 0x100_0000 % 0x100]
  }

  /** The table with v written at cluster c. */
  function Set(kind: Kind, fat: seq<Byte>, c: nat, v: nat): (r: seq<Byte>)
    requires Place(kind, c) + Width(kind) <= |fat|
    ensures |r| == |fat|
  {
    var k := Place(kind, c);
    fat[..k] + Encoded(kind, c, v, fat[k], fat[k + 1]) + fat[k + Width(kind)..]
  }

  /** The values an entry can hold. */
  function Range(kind: Kind): nat {
    match kind
    case FAT12 => 0x1000
    case FAT16 => 0x1_0000
    case FAT32 => 0x1_0000_0000
  }

  lemma SetAt(kind: Kind, fat: seq<Byte>, c: nat, v: nat, i: nat)
    requires Place(kind, c) + Width(kind) <= |fat| && i < |fat|
    ensures var k := Place(kind, c);
            Set(kind, fat, c, v)[i] ==
            if k <= i < k + Width(kind) then Encoded(kind, c, v, fat[k], fat[k + 1])[i - k] else fat[i]
  {
  }

  // ----- One entry -----

  lemma OddTwelve(b0: nat, b1: nat)
    ensures Two(b0, b1) / 0x10 == b0 / 0x10 + 0x10 * b1
  {
  }

  lemma EvenTwelve(b0: nat, b1: nat)
    requires b0 < 0x100
    ensures Two(b0, b1) % 0x1000 == b0 + 0x100 * (b1 % 0x10)
  {
    var q, r := b1 / 0x10, b1 % 0x10;
    assert b0 + 0x100 * b1 == q * 0x1000 + (b0 + 0x100 * r);
    DivModUnique(b0 + 0x100 * b1, 0x1000, q, b0 + 0x100 * r);
  }

  lemma Nibbles(a: nat, b: nat)
    requires a < 0x10 && b < 0x10
    ensures (a * 0x10 + b) / 0x10 == a && (a + b * 0x10) % 0x10 == a
  {
  }

  lemma Back12(c: nat, v: nat, b0: Byte, b1: Byte)
    ensures var s := Encoded(FAT12, c, v, b0, b1); Twelve(c, Two(s[0], s[1])) == v % 0x1000
  {
    hide Two;
    var s := Encoded(FAT12, c, v, b0, b1);
    if c % 2 == 1 {
      OddTwelve(s[0], s[1]);
      Nibbles(v % 0x10, b0 % 0x10);
      SplitTwice(v, 0x10, 0x100);
    } else {
      EvenTwelve(s[0], s[1]);
      Nibbles(v / 0x100 % 0x10, b1 / 0x10);
      SplitTwice(v, 0x100, 0x10);
    }
  }

  lemma Back16(v: nat)
    ensures Two(v % 0x100, v / 0x100 % 0x100) == v % 0x1_0000
  {
  }

  lemma Back32(v: nat)
    requires v < 0x1_0000_0000
    ensures Four(v % 0x100, v / 0x100 % 0x100, v / 0x1_0000 % 0x100, v / 0x100_0000 % 0x100) == v
  {
    var a, b := v / 0x100, v / 0x1_0000;
    assert a == v / 0x100 && b == a / 0x100 && v / 0x100_0000 == b / 0x100;
  }

  /** The half of a shared byte that belongs to the other cluster is not touched. */
  lemma Keep12(c: nat, v: nat, b0: Byte, b1: Byte)
    ensures c % 2 == 1 ==> Encoded(FAT12, c, v, b0, b1)[0] % 0x10 == b0 % 0x10
    ensures c % 2 == 0 ==> Encoded(FAT12, c, v, b0, b1)[1] / 0x10 == b1 / 0x10
  {
  }

  lemma Place12(c: nat)
    ensures Place(FAT12, c) == 3 * (c / 2) + c % 2
  {
  }

  /** 12 bits depend on one half of the byte that is shared. */
  lemma Half12(c: nat, b0: nat, b1: nat, d0: nat, d1: nat)
    requires b0 < 0x100 && b1 < 0x100 && d0 < 0x100 && d1 < 0x100
    requires if c % 2 == 1 then b0 / 0x10 == d0 / 0x10 && b1 == d1 else b0 == d0 && b1 % 0x10 == d1 % 0x10
    ensures Twelve(c, Two(b0, b1)) == Twelve(c, Two(d0, d1))
  {
    hide Two;
    if c % 2 == 1 {
      OddTwelve(b0, b1);
      OddTwelve(d0, d1);
    } else {
      EvenTwelve(b0, b1);
      EvenTwelve(d0, d1);
    }
  }

  // ----- The table -----

  /** A cluster reads back as what was written there, cut to the width of an entry. */
  lemma ReadBack(kind: Kind, fat: seq<Byte>, c: nat, v: nat)
    requires Place(kind, c) + Width(kind) <= |fat| && v < 0x1_0000_0000
    ensures Next(kind, Set(kind, fat, c, v), c) == Clip(kind, v % Range(kind))
  {
    hide Set, Place, Two, Four, Twelve, Clip;
    var k := Place(kind, c);
    SetAt(kind, fat, c, v, k);
    SetAt(kind, fat, c, v, k + 1);
    match kind
    case FAT12 => Back12(c, v, fat[k], fat[k + 1]);
    case FAT16 => Back16(v);
    case FAT32 =>
      SetAt(kind, fat, c, v, k + 2);
      SetAt(kind, fat, c, v, k + 3);
      Back32(v);
  }

  /** For a link that is the link itself, and for an end of chain CLUSTER_EOF. */
  lemma ReadBackLink(kind: Kind, fat: seq<Byte>, c: nat, v: nat)
    requires Place(kind, c) + Width(kind) <= |fat| && (v < Limit(kind) || v == CLUSTER_EOF)
    ensures Next(kind, Set(kind, fat, c, v), c) == v
  {
    hide Set, Place, Next;
    ReadBack(kind, fat, c, v);
  }

  /** Every other cluster reads as before, including one that shares a byte. */
  lemma ReadOther(kind: Kind, fat: seq<Byte>, c: nat, v: nat, d: nat)
    requires Place(kind, c) + Width(kind) <= |fat| && Place(kind, d) + Width(kind) <= |fat| && c != d
    ensures Next(kind, Set(kind, fat, c, v), d) == Next(kind, fat, d)
  {
    var k := Place(kind, d);
    SetAt(kind, fat, c, v, k);
    SetAt(kind, fat, c, v, k + 1);
    if kind == FAT32 {
      SetAt(kind, fat, c, v, k + 2);
      SetAt(kind, fat, c, v, k + 3);
    } else if kind == FAT12 {
      ReadOther12(fat, c, v, d);
    }
  }

  lemma ReadOther12(fat: seq<Byte>, c: nat, v: nat, d: nat)
    requires Place(FAT12, c) + 2 <= |fat| && Place(FAT12, d) + 2 <= |fat| && c != d
    ensures Raw(FAT12, Set(FAT12, fat, c, v), d) == Raw(FAT12, fat, d)
  {
    var j, k := Place(FAT12, c), Place(FAT12, d);
    var g := Set(FAT12, fat, c, v);
    SetAt(FAT12, fat, c, v, k);
    SetAt(FAT12, fat, c, v, k + 1);
    Place12(c);
    Place12(d);
    Keep12(c, v, fat[j], fat[j + 1]);
    hide Set, Place, Two, Twelve, Encoded;
    Half12(d, g[k], g[k + 1], fat[k], fat[k + 1]);
  }
}
