/** The file allocation table as one string of bits: entry c is the c-th number in it of 12,
    16 or 32 bits, lowest bit first. */
module FatBits {
  import opened Bits
  import opened BitStream
  import opened FatTable

  function EntryBits(kind: Kind): nat {
    match kind
    case FAT12 => 12
    case FAT16 => 16
    case FAT32 => 32
  }

  lemma Powers()
    ensures Pow2(4) == 0x10 && Pow2(8) == 0x100 && Pow2(16) == 0x1_0000
  {
    Pow2Eight();
    Pow2Add(8, 8);
  }

  lemma TwoBytes(s: seq<Byte>, k: nat)
    requires k + 1 < |s|
    ensures Peek(s, 8 * k, 16) == Two(s[k], s[k + 1])
  {
    Powers();
    hide Peek, Pow2;
    PeekSplit(s, 8 * k, 8, 8);
    PeekByte(s, k);
    PeekByte(s, k + 1);
    assert 8 * k + 8 == 8 * (k + 1);
  }

  lemma FourBytes(s: seq<Byte>, k: nat)
    requires k + 3 < |s|
    ensures Peek(s, 8 * k, 32) == Four(s[k], s[k + 1], s[k + 2], s[k + 3])
  {
    Powers();
    hide Peek, Pow2;
    PeekSplit(s, 8 * k, 16, 16);
    TwoBytes(s, k);
    TwoBytes(s, k + 2);
    assert 8 * k + 16 == 8 * (k + 2);
  }

  lemma EvenEntry(s: seq<Byte>, k: nat)
    requires k + 1 < |s|
    ensures Peek(s, 8 * k, 12) == Two(s[k], s[k + 1] % 0x10)
  {
    Powers();
    hide Peek, Pow2;
    PeekSplit(s, 8 * k, 8, 4);
    PeekByte(s, k);
    PeekByte(s, k + 1);
    PeekLow(s, 8 * (k + 1), 4, 8);
    assert 8 * k + 8 == 8 * (k + 1);
  }

  lemma OddEntry(s: seq<Byte>, k: nat)
    requires k + 1 < |s|
    ensures Peek(s, 8 * k + 4, 12) == Two(s[k], s[k + 1]) / 0x10
  {
    Powers();
    hide Peek, Pow2;
    PeekSplit(s, 8 * k + 4, 4, 8);
    ByteBits(s, k, 4);
    PeekByte(s, k + 1);
    OddTwelve(s[k], s[k + 1]);
    assert 8 * k + 4 + 4 == 8 * (k + 1);
  }

  /** Where the table is read is where the entry is. */
  lemma EntryIs(kind: Kind, fat: seq<Byte>, c: nat)
    requires Place(kind, c) + Width(kind) <= |fat|
    ensures Raw(kind, fat, c) == Peek(fat, EntryBits(kind) * c, EntryBits(kind))
  {
    hide Peek;
    var k := Place(kind, c);
    match kind
    case FAT12 =>
      Place12(c);
      if c % 2 == 1 {
        OddEntry(fat, k);
        assert 12 * c == 8 * k + 4;
      } else {
        EvenEntry(fat, k);
        EvenTwelve(fat[k], fat[k + 1]);
        assert 12 * c == 8 * k;
      }
    case FAT16 => TwoBytes(fat, k);
    case FAT32 => FourBytes(fat, k);
  }

  /** The last nine values of 12, 16 or 28 bits, and all above, are an end of chain; every
      other entry is what it says. */
  lemma EndMarks(kind: Kind, fat: seq<Byte>, c: nat)
    requires Place(kind, c) + Width(kind) <= |fat|
    ensures var v, n := Peek(fat, EntryBits(kind) * c, EntryBits(kind)), if kind == FAT32 then 28 else EntryBits(kind);
            Next(kind, fat, c) == if v >= Pow2(n) - 9 then 0x0fff_ffff else v
  {
    hide Raw, Place, Peek, Pow2;
    EntryIs(kind, fat, c);
    TopValues();
  }

  lemma TopValues()
    ensures Pow2(12) == 0x1000 && Pow2(16) == 0x1_0000 && Pow2(28) == 0x1000_0000
  {
    Powers();
    hide Pow2;
    Pow2Add(8, 4);
    Pow2Add(12, 16);
  }
}
