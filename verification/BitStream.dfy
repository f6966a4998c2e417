/** A byte sequence read as a bit stream, lowest bit of each byte first. */
module BitStream {
  import opened Bits

  /** Bit p of the stream; the stream reads as zero past its end. */
  function BitAt(s: seq<Byte>, p: nat): (b: nat)
    ensures b <= 1
  {
    if p / 8 < |s| then (s[p / 8] / Pow2(p % 8)) % 2 else 0
  }

  /** The value of n bits from position p on, first bit lowest. */
  function Peek(s: seq<Byte>, p: nat, n: nat): (v: nat)
    ensures v < Pow2(n)
    decreases n
  {
    if n == 0 then 0 else BitAt(s, p) + 2 * Peek(s, p + 1, n - 1)
  }

  lemma {:induction false} PeekSplit(s: seq<Byte>, p: nat, m: nat, n: nat)
    ensures Peek(s, p, m + n) == Peek(s, p, m) + Pow2(m) * Peek(s, p + m, n)
    decreases m
  {
    if m > 0 {
      PeekSplit(s, p + 1, m - 1, n);
      Doubled(Pow2(m - 1), Peek(s, p + m, n));
    }
  }

  lemma Doubled(a: int, b: int)
    ensures 2 * (a * b) == (2 * a) * b
  {
  }

  /** Masking and shifting an accumulator that holds bits of the stream. */
  lemma PeekLow(s: seq<Byte>, p: nat, m: nat, n: nat)
    requires m <= n
    ensures Peek(s, p, n) % Pow2(m) == Peek(s, p, m)
    ensures Peek(s, p, n) / Pow2(m) == Peek(s, p + m, n - m)
  {
    PeekSplit(s, p, m, n - m);
    hide Peek, Pow2;
    var lo, hi := Peek(s, p, m), Peek(s, p + m, n - m);
    assert Pow2(m) * hi == hi * Pow2(m);
    PeekBound(s, p, m);
    DivModUnique(Peek(s, p, n), Pow2(m), hi, lo);
  }

  lemma PeekBound(s: seq<Byte>, p: nat, n: nat)
    ensures Peek(s, p, n) < Pow2(n)
  {
  }

  /** Eight bits from a byte boundary are that byte. */
  lemma PeekByte(s: seq<Byte>, k: nat)
    requires k < |s|
    ensures Peek(s, 8 * k, 8) == s[k]
  {
    Pow2One();
    ByteBits(s, k, 0);
    hide *;
    assert 8 * k + 0 == 8 * k && s[k] / 1 == s[k];
  }

  lemma BitOfByte(s: seq<Byte>, k: nat, i: nat)
    requires k < |s| && i < 8
    ensures BitAt(s, 8 * k + i) == (s[k] / Pow2(i)) % 2
  {
    assert (8 * k + i) / 8 == k && (8 * k + i) % 8 == i;
  }

  lemma {:induction false} ByteBits(s: seq<Byte>, k: nat, i: nat)
    requires k < |s| && i <= 8
    ensures Peek(s, 8 * k + i, 8 - i) == s[k] / Pow2(i)
    decreases 8 - i
  {
    if i == 8 {
      Pow2Eight();
      SmallMod(s[k], 256);
    } else {
      ByteBits(s, k, i + 1);
      BitOfByte(s, k, i);
      Pow2One();
      DivDiv(s[k], i, 1);
      hide Pow2, BitAt;
      assert 8 * k + i + 1 == 8 * k + (i + 1);
    }
  }

  lemma Pow2Eight()
    ensures Pow2(8) == 256
  {
    assert Pow2(4) == 16;
  }

  /** hold += byte << bits keeps the accumulator equal to the stream. */
  lemma PeekPull(s: seq<Byte>, k: nat, bits: nat)
    requires k < |s| && bits <= 8 * k
    ensures Peek(s, 8 * k - bits, bits + 8) == Peek(s, 8 * k - bits, bits) + s[k] * Pow2(bits)
  {
    hide Peek, Pow2;
    PeekSplit(s, 8 * k - bits, bits, 8);
    PeekByte(s, k);
    assert 8 * k - bits + bits == 8 * k;
    Commute(s[k], Pow2(bits));
  }

  lemma Commute(a: int, b: int)
    ensures a * b == b * a
  {
  }

  /** Bits already supplied do not change when more input arrives. */
  lemma {:induction false} PeekMore(s: seq<Byte>, t: seq<Byte>, p: nat, n: nat)
    requires p + n <= 8 * |s|
    ensures Peek(s + t, p, n) == Peek(s, p, n)
    decreases n
  {
    if n > 0 {
      assert (s + t)[p / 8] == s[p / 8];
      PeekMore(s, t, p + 1, n - 1);
    }
  }

  /** Past the end the stream reads as zero. */
  lemma {:induction false} PeekBeyond(s: seq<Byte>, p: nat, n: nat)
    requires p >= 8 * |s|
    ensures Peek(s, p, n) == 0
    decreases n
  {
    if n > 0 { PeekBeyond(s, p + 1, n - 1); }
  }

}
