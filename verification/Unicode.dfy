/** Names as UTF-8 bytes and as 16-bit units (fs_unicode.c). A unit is encoded in one to
    three bytes whatever it is, so surrogates that stand alone survive too. */
module Unicode {
  import opened Bits

  type Unit = x: nat | x < 0x1_0000

  /** The units before the first zero. */
  function Text(u: seq<Unit>): (r: seq<Unit>)
    ensures |r| <= |u| && r == u[..|r|] && 0 !in r && (|r| < |u| ==> u[|r|] == 0)
  {
    if u == [] || u[0] == 0 then [] else [u[0]] + Text(u[1..])
  }

  // ----- Encoding -----

  function EncodeUnit(x: Unit): (r: seq<Byte>)
    ensures 1 <= |r| <= 3
  {
    if x < 0x80 then [x]
    else if x < 0x800 then [0xc0 + x / 0x40, 0x80 + x % 0x40]
    else [0xe0 + x / 0x1000, 0x80 + x / 0x40 % 0x40, 0x80 + x % 0x40]
  }

  function Encode(u: seq<Unit>): seq<Byte> { if u == [] then [] else EncodeUnit(u[0]) + Encode(u[1..]) }

  lemma {:induction false} EncodeLast(u: seq<Unit>, x: Unit)
    ensures Encode(u + [x]) == Encode(u) + EncodeUnit(x)
  {
    hide EncodeUnit;
    if u == [] {
      assert u + [x] == [x] && [x][1..] == [];
    } else {
      EncodeLast(u[1..], x);
      assert (u + [x])[1..] == u[1..] + [x];
    }
  }

  /** Bytes before a place in a longer text. */
  lemma {:induction false} EncodePart(u: seq<Unit>, k: nat)
    requires k <= |u|
    ensures |Encode(u[..k])| <= |Encode(u)| && (k < |u| ==> |Encode(u[..k])| + |EncodeUnit(u[k])| <= |Encode(u)|)
  {
    if k < |u| {
      if k == 0 {
        assert u[..0] == [];
      } else {
        EncodePart(u[1..], k - 1);
        assert u[..k][1..] == u[1..][..k - 1];
      }
    } else {
      assert u[..k] == u;
    }
  }

  /** _FAT_unicode16_to_utf8: the encoding of the text in src, and a zero. */
  method Unicode16ToUtf8(src: seq<Unit>, dest: array<Byte>)
    requires 0 in src && |Encode(Text(src))| < dest.Length
    modifies dest
    ensures var b := Encode(Text(src)); dest[..|b|] == b && dest[|b|] == 0
    ensures forall i :: |Encode(Text(src))| < i < dest.Length ==> dest[i] == old(dest[i])
  {
    hide Encode, EncodeUnit;
    ghost var u := Text(src);
    var len: nat, i: nat := 0, 0;
    EncodeNone(u);
    while src[i] != 0
      invariant i <= |u| < |src| && len == |Encode(u[..i])| <= |Encode(u)| && dest[..len] == Encode(u[..i])
      invariant forall j :: |Encode(u)| < j < dest.Length ==> dest[j] == old(dest[j])
      decreases |u| - i
    {
      EncodePart(u, i);
      EncodeLast(u[..i], u[i]);
      assert u[..i + 1] == u[..i] + [u[i]];
      len := Store(dest, len, src[i]);
      i := i + 1;
    }
    assert u[..i] == u;
    dest[len] := 0;
  }

  lemma EncodeNone(u: seq<Unit>)
    ensures Encode(u[..0]) == []
  {
  }

  /** The bytes of one unit, as the three branches store them. */
  method Store(dest: array<Byte>, len0: nat, x: Unit) returns (len: nat)
    requires len0 + |EncodeUnit(x)| <= dest.Length
    modifies dest
    ensures len == len0 + |EncodeUnit(x)| && dest[..len] == old(dest[..len0]) + EncodeUnit(x)
    ensures forall j :: len <= j < dest.Length ==> dest[j] == old(dest[j])
  {
    len := len0;
    if x < 0x80 {
      dest[len] := x;
      len := len + 1;
    } else if x < 0x800 {
      dest[len], dest[len + 1] := 0xc0 + x / 0x40, 0x80 + x % 0x40;
      len := len + 2;
    } else {
      dest[len], dest[len + 1], dest[len + 2] := 0xe0 + x / 0x1000, 0x80 + x / 0x40 % 0x40, 0x80 + x % 0x40;
      len := len + 3;
    }
  }

  // ----- Decoding -----

  predicate Follows(c: Byte) { 0x80 <= c < 0xc0 }

  /** Continuation bytes from i on: the code so far and where to go on. A zero ends the
      sequence, and is taken with it. */
  function Continue(src: seq<Byte>, i: nat, tail: nat, code: nat): (r: (nat, nat))
    requires i <= |src|
    ensures i <= r.1 <= |src|
    decreases tail
  {
    if tail == 0 || i == |src| then (code, i)
    else if src[i] == 0 then (code, i + 1)
    else if Follows(src[i]) then Continue(src, i + 1, tail - 1, code * 0x40 + src[i] % 0x40)
    else (0xfffd, i)
  }

  /** How many continuation bytes belong to a leading byte, and its own bits. */
  function Lead(c: Byte): (nat, nat) {
    if c < 0x80 then (0, c)
    else if c < 0xc2 then (0, 0)
    else if c < 0xe0 then (1, c % 0x20)
    else if c < 0xf0 then (2, c % 0x10)
    else if c < 0xf5 then (3, c % 8)
    else (0, 0)
  }

  /** A byte that does not continue the sequence ends it: the code is 0xfffd, and that byte is
      the next to be decoded. */
  lemma {:induction false} Broken(src: seq<Byte>, i: nat, tail: nat, code: nat, n: nat)
    requires n < tail && i + n < |src| && src[i + n] != 0 && !Follows(src[i + n])
    requires forall j :: i <= j < i + n ==> Follows(src[j])
    ensures Continue(src, i, tail, code) == (0xfffd, i + n)
    decreases tail
  {
    if n > 0 { Broken(src, i + 1, tail - 1, code * 0x40 + src[i] % 0x40, n - 1); }
  }

  /** A zero cuts the sequence short: the code is what has come so far. */
  lemma {:induction false} CutOff(src: seq<Byte>, i: nat, tail: nat, code: nat, n: nat)
    requires n < tail && i + n < |src| && src[i + n] == 0
    requires forall j :: i <= j < i + n ==> Follows(src[j])
    ensures Continue(src, i, tail, code) == (Six(src[i..i + n], code), i + n + 1)
    decreases tail
  {
    if n > 0 {
      CutOff(src, i + 1, tail - 1, code * 0x40 + src[i] % 0x40, n - 1);
      assert src[i..i + n][1..] == src[i + 1..i + n];
    }
  }

  /** The low six bits of each byte, appended to a code. */
  function Six(b: seq<Byte>, code: nat): nat { if b == [] then code else Six(b[1..], code * 64 + b[0] % 64) }

  /** A whole sequence. */
  lemma {:induction false} Unbroken(src: seq<Byte>, i: nat, tail: nat, code: nat)
    requires i + tail <= |src| && forall j :: i <= j < i + tail ==> Follows(src[j])
    ensures Continue(src, i, tail, code) == (Six(src[i..i + tail], code), i + tail)
    decreases tail
  {
    if tail > 0 {
      Unbroken(src, i + 1, tail - 1, code * 0x40 + src[i] % 0x40);
      assert src[i..i + tail][1..] == src[i + 1..i + tail];
    }
  }

  function DecodeUnit(src: seq<Byte>, i: nat): (r: (Unit, nat))
    requires i < |src|
    ensures i < r.1 <= |src|
  {
    var l := Lead(src[i]);
    var t := Continue(src, i + 1, l.0, l.1);
    (if t.0 < 0x1_0000 then t.0 else 0, t.1)
  }

  /** What the units of malformed text are: a broken sequence gives 0xfffd, a byte that begins none
      and a sequence for a code above 16 bits give 0. */
  lemma BrokenUnit(src: seq<Byte>, i: nat, n: nat)
    requires i < |src| && i + 1 + n < |src| && (forall j :: i < j <= i + n ==> 128 <= src[j] < 192)
    requires n < (if 194 <= src[i] < 224 then 1 else if 224 <= src[i] < 240 then 2 else if 240 <= src[i] < 245 then 3
        else 0)
    requires src[i + 1 + n] != 0 && !(128 <= src[i + 1 + n] < 192)
    ensures DecodeUnit(src, i) == (0xfffd, i + 1 + n)
  {
    Broken(src, i + 1, Lead(src[i]).0, Lead(src[i]).1, n);
  }

  /** The units from i up to a zero. */
  function Decode(src: seq<Byte>, i: nat): (r: seq<Unit>)
    requires i <= |src|
    ensures |r| <= |src| - i
    decreases |src| - i
  {
    if i == |src| || src[i] == 0 then [] else [DecodeUnit(src, i).0] + Decode(src, DecodeUnit(src, i).1)
  }

  /** The continuation bytes that are looked at are in the buffer. */
  predicate TailInside(src: seq<Byte>, i: nat, tail: nat)
    decreases tail
  {
    tail == 0 || (i < |src| && (Follows(src[i]) ==> TailInside(src, i + 1, tail - 1)))
  }

  /** Decoding from i on looks at no byte outside the buffer. */
  predicate Inside(src: seq<Byte>, i: nat)
    decreases |src| - i
  {
    && i < |src|
    && (src[i] != 0 ==> TailInside(src, i + 1, Lead(src[i]).0) && Inside(src, DecodeUnit(src, i).1))
  }

  /** while (tail-- && ((c = *utf8++) != 0)): the continuation bytes. */
  method TakeTail(src: seq<Byte>, i0: nat, tail0: nat, code0: nat) returns (code: nat, i: nat)
    requires i0 <= |src| && TailInside(src, i0, tail0)
    ensures (code, i) == Continue(src, i0, tail0, code0)
  {
    code, i := code0, i0;
    var tail := tail0;
    while tail > 0
      invariant i <= |src| && Continue(src, i, tail, code) == Continue(src, i0, tail0, code0)
      invariant TailInside(src, i, tail)
      decreases tail
    {
      tail := tail - 1;
      var c := src[i];
      i := i + 1;
      if c == 0 { return; }
      if !Follows(c) { return 0xfffd, i - 1; }
      code := code * 0x40 + c % 0x40;
    }
  }

  /** _FAT_utf8decode. */
  method Utf8Decode(src: seq<Byte>, i0: nat) returns (ucs: Unit, i: nat)
    requires i0 < |src| && src[i0] != 0 && TailInside(src, i0 + 1, Lead(src[i0]).0)
    ensures (ucs, i) == DecodeUnit(src, i0)
  {
    hide Continue, TailInside;
    var c := src[i0];
    i := i0 + 1;
    var code: nat, tail: nat := 0, 0;
    if c <= 0x7f || c >= 0xc2 {
      if c < 0x80 {
        code := c;
      } else if c < 0xe0 {
        tail, code := 1, c % 0x20;
      } else if c < 0xf0 {
        tail, code := 2, c % 0x10;
      } else if c < 0xf5 {
        tail, code := 3, c % 8;
      } else {
        code := 0;
      }
    }
    code, i := TakeTail(src, i, tail, code);
    ucs := if code < 0x1_0000 then code else 0;
  }

  /** _FAT_utf8_to_unicode16: the units of the text in src, and a zero. */
  method Utf8ToUnicode16(src: seq<Byte>, dest: array<Unit>) returns (ghost n: nat)
    requires Inside(src, 0) && |Decode(src, 0)| < dest.Length
    modifies dest
    ensures n == |Decode(src, 0)| && dest[..n] == Decode(src, 0) && dest[n] == 0
    ensures forall i :: n < i < dest.Length ==> dest[i] == old(dest[i])
  {
    hide DecodeUnit, Lead;
    var i: nat, d: nat := 0, 0;
    while src[i] != 0
      invariant Inside(src, i) && d <= |Decode(src, 0)| && Decode(src, 0) == dest[..d] + Decode(src, i)
      invariant forall j :: |Decode(src, 0)| < j < dest.Length ==> dest[j] == old(dest[j])
      decreases |src| - i
    {
      var x, next := Utf8Decode(src, i);
      ghost var before := dest[..d];
      dest[d] := x;
      assert dest[..d + 1] == before + [x];
      d := d + 1;
      i := next;
    }
    n := d;
    dest[d] := 0;
  }

  // ----- The terminator -----

  /** The continuation bytes that the lead announces are there, or one that is not a
      continuation byte ends the sequence. */
  predicate TailWhole(b: seq<Byte>, i: nat, tail: nat)
    decreases tail
  {
    tail == 0 || (i < |b| && (Follows(b[i]) ==> TailWhole(b, i + 1, tail - 1)))
  }

  /** The last character begun in b, from i on, has all its bytes. */
  predicate Whole(b: seq<Byte>, i: nat)
    requires i <= |b|
    decreases |b| - i
  {
    i == |b| || (TailWhole(b, i + 1, Lead(b[i]).0) && Whole(b, DecodeUnit(b, i).1))
  }

  lemma {:induction false} ContinueTerminated(b: seq<Byte>, post: seq<Byte>, i: nat, tail: nat, code: nat)
    requires 0 !in b && i <= |b|
    ensures var src := b + [0] + post;
            && Continue(src, i, tail, code).0 == Continue(b, i, tail, code).0
            && (TailWhole(b, i, tail) ==>
                  Continue(src, i, tail, code) == Continue(b, i, tail, code) && TailInside(src, i, tail))
            && (!TailWhole(b, i, tail) ==>
               Continue(src, i, tail, code).1 == |b| + 1 && Continue(b, i, tail, code).1 == |b|)
    decreases tail
  {
    var src := b + [0] + post;
    if tail > 0 && i < |b| {
      assert src[i] == b[i];
      if Follows(b[i]) { ContinueTerminated(b, post, i + 1, tail - 1, code * 0x40 + b[i] % 0x40); }
    } else if tail > 0 {
      assert src[i] == 0;
    }
  }

  lemma UnitTerminated(b: seq<Byte>, post: seq<Byte>, i: nat)
    requires 0 !in b && i < |b|
    ensures var src := b + [0] + post;
            && src[i] == b[i] && DecodeUnit(src, i).0 == DecodeUnit(b, i).0
            && (TailWhole(b, i + 1, Lead(b[i]).0) ==>
                  DecodeUnit(src, i).1 == DecodeUnit(b, i).1 && TailInside(src, i + 1, Lead(src[i]).0))
            && (!TailWhole(b, i + 1, Lead(b[i]).0) ==> DecodeUnit(src, i).1 == |b| + 1 && DecodeUnit(b, i).1 == |b|)
  {
    hide Continue, TailWhole, TailInside, Lead;
    ContinueTerminated(b, post, i + 1, Lead(b[i]).0, Lead(b[i]).1);
  }

  /** A text ends where it should if it is whole; if it is not, its last character takes
      the terminator with it, and decoding goes on behind that. */
  lemma {:induction false} DecodeTerminated(b: seq<Byte>, post: seq<Byte>, i: nat)
    requires 0 !in b && i <= |b|
    ensures var src := b + [0] + post;
            && Decode(src, i) == Decode(b, i) + (if Whole(b, i) then [] else Decode(src, |b| + 1))
            && (Whole(b, i) ==> Inside(src, i)) && (Inside(src, i) && !Whole(b, i) ==> Inside(src, |b| + 1))
    decreases |b| - i
  {
    hide DecodeUnit, TailWhole, TailInside, Lead;
    var src := b + [0] + post;
    if i < |b| {
      UnitTerminated(b, post, i);
      var next := DecodeUnit(b, i).1;
      assert Decode(src, i) == [DecodeUnit(src, i).0] + Decode(src, DecodeUnit(src, i).1);
      assert Decode(b, i) == [DecodeUnit(b, i).0] + Decode(b, next);
      if TailWhole(b, i + 1, Lead(b[i]).0) {
        DecodeTerminated(b, post, next);
      } else {
        assert Decode(b, |b|) == [];
      }
    }
  }

  /** When decoding stays inside the text: exactly if the last character begun has all
      the bytes its lead announces, what follows the terminator does not matter, and
      exactly then a buffer may end with the terminator. */
  lemma StaysInside(b: seq<Byte>)
    requires 0 !in b
    ensures Whole(b, 0) <==> forall p, q :: Decode(b + [0] + p, 0) == Decode(b + [0] + q, 0)
    ensures Whole(b, 0) <==> Inside(b + [0], 0)
    ensures forall p :: Decode(b + [0] + p, 0) == Decode(b, 0) + (if Whole(b, 0) then []
        else Decode(b + [0] + p, |b| + 1))
  {
    forall p
      ensures Decode(b + [0] + p, 0) == Decode(b, 0) + (if Whole(b, 0) then [] else Decode(b + [0] + p, |b| + 1))
    {
      DecodeTerminated(b, p, 0);
    }
    DecodeTerminated(b, [], 0);
    assert b + [0] + [] == b + [0];
    if !Whole(b, 0) {
      DecodeTerminated(b, [0x41, 0], 0);
      OneLetter(b);
      assert |Decode(b + [0] + [], 0)| == |Decode(b, 0)|;
      assert |Decode(b + [0] + [0x41, 0], 0)| == |Decode(b, 0)| + 1;
    }
  }

  lemma OneLetter(b: seq<Byte>)
    ensures Decode(b + [0] + [0x41, 0], |b| + 1) == [0x41]
  {
    var src := b + [0] + [0x41, 0];
    assert src[|b| + 1] == 0x41 && src[|b| + 2] == 0;
    assert DecodeUnit(src, |b| + 1) == (0x41, |b| + 2);
    assert Decode(src, |b| + 2) == [];
  }

  /** The first byte of a character of two, and nothing more: the letter behind the
      terminator is decoded too. */
  lemma CutShort()
    ensures !Whole([0xc3], 0) && Decode([0xc3, 0, 0x41, 0], 0) == [3, 0x41]
  {
    var b: seq<Byte> := [0xc3];
    assert !TailWhole(b, 1, 1);
    DecodeTerminated(b, [0x41, 0], 0);
    OneLetter(b);
    assert DecodeUnit(b, 0) == (3, 1);
    assert Decode(b, 1) == [];
    assert b + [0] + [0x41, 0] == [0xc3, 0, 0x41, 0];
  }

  // ----- Round trip -----

  /** One unit is decoded from its bytes, wherever they are. */
  lemma UnitBack(src: seq<Byte>, i: nat, x: Unit)
    requires x > 0 && i + |EncodeUnit(x)| <= |src| && src[i..i + |EncodeUnit(x)|] == EncodeUnit(x)
    ensures src[i] != 0 && DecodeUnit(src, i) == (x, i + |EncodeUnit(x)|) && TailInside(src, i + 1, Lead(src[i]).0)
  {
    var b := EncodeUnit(x);
    var n := |b|;
    assert src[i] == b[0];
    if n == 2 {
      assert src[i + 1] == b[1];
      TwoBack(x);
      assert Continue(src, i + 2, 0, x / 0x40 * 0x40 + x % 0x40) == (x, i + 2);
    } else if n == 3 {
      assert src[i + 1] == b[1] && src[i + 2] == b[2];
      ThreeBack(x);
      assert Continue(src, i + 3, 0, x) == (x, i + 3);
    }
  }

  lemma TwoBack(x: Unit)
    requires 0x80 <= x < 0x800
    ensures (0xc0 + x / 0x40) % 0x20 == x / 0x40 && (0x80 + x % 0x40) % 0x40 == x % 0x40
    ensures x / 0x40 * 0x40 + x % 0x40 == x && 0xc2 <= 0xc0 + x / 0x40 < 0xe0
  {
  }

  lemma ThreeBack(x: Unit)
    requires 0x800 <= x
    ensures (0xe0 + x / 0x1000) % 0x10 == x / 0x1000 && (0x80 + x / 0x40 % 0x40) % 0x40 == x / 0x40 % 0x40
    ensures (x / 0x1000 * 0x40 + x / 0x40 % 0x40) * 0x40 + x % 0x40 == x && (0x80 + x % 0x40) % 0x40 == x % 0x40
  {
  }

  lemma EncodeFirst(u: seq<Unit>)
    ensures Encode(u) == if u == [] then [] else EncodeUnit(u[0]) + Encode(u[1..])
  {
    hide EncodeUnit;
  }

  lemma Regroup(pre: seq<Byte>, b: seq<Byte>, rest: seq<Byte>, post: seq<Byte>)
    ensures var src := pre + (b + rest) + [0] + post;
            && src == (pre + b) + rest + [0] + post && |pre| + |b| < |src| && src[|pre|..|pre| + |b|] == b
  {
  }

  /** Any text of units other than zero, of any length, survives encoding and decoding,
      whatever precedes it and whatever, if anything, follows its terminator. */
  lemma {:induction false} RoundTrip(pre: seq<Byte>, u: seq<Unit>, post: seq<Byte>)
    requires 0 !in u
    ensures var src := pre + Encode(u) + [0] + post; Decode(src, |pre|) == u && Inside(src, |pre|)
    decreases |u|
  {
    hide EncodeUnit, DecodeUnit, Encode, Decode, Inside, TailInside, Lead;
    var src := pre + Encode(u) + [0] + post;
    EncodeFirst(u);
    DecodeFirst(src, |pre|);
    if u != [] {
      Regroup(pre, EncodeUnit(u[0]), Encode(u[1..]), post);
      UnitBack(src, |pre|, u[0]);
      RoundTrip(pre + EncodeUnit(u[0]), u[1..], post);
      assert u == [u[0]] + u[1..];
    } else {
      Terminated(pre, post);
    }
  }

  lemma DecodeFirst(src: seq<Byte>, i: nat)
    requires i < |src|
    ensures Decode(src, i) == if src[i] == 0 then [] else [DecodeUnit(src, i).0] + Decode(src, DecodeUnit(src, i).1)
    ensures Inside(src, i) <==>
              (src[i] != 0 ==> TailInside(src, i + 1, Lead(src[i]).0) && Inside(src, DecodeUnit(src, i).1))
  {
    hide DecodeUnit, TailInside, Lead;
  }

  lemma Terminated(pre: seq<Byte>, post: seq<Byte>)
    ensures (pre + [] + [0] + post)[|pre|] == 0
  {
  }

  /** A text is never decoded from the bytes of another one. */
  lemma EncodeInjective(u: seq<Unit>, v: seq<Unit>)
    requires 0 !in u && 0 !in v && Encode(u) == Encode(v)
    ensures u == v
  {
    RoundTrip([], u, []);
    RoundTrip([], v, []);
  }
}
