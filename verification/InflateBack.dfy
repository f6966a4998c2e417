/** The output side of inflateBack: its window is also its output buffer, and is
    handed to the caller's out function each time it fills up. */
module InflateBack {
  import opened Bits
  import opened Ring
  import opened Lz77

  class Window {
    const window: array<Byte>
    var put: nat
    var left: nat
    var whave: nat
    var accepts: nat              // calls of out() that will succeed before one fails

    ghost var delivered: seq<Byte>
    ghost var hist: seq<Byte>     // everything decoded so far

    /** The window ends, cyclically at put, with the last bytes of the output, and
        whave tells whether it has gone around. */
    ghost predicate Valid()
      reads this, window
    {
      && put + left == window.Length > 0 && whave <= window.Length
      && hist == delivered + window[..put]
      && (if whave < window.Length then delivered == [] else |delivered| >= window.Length)
      && forall i :: 1 <= i <= window.Length && i <= |hist| ==>
                window[BackIndex(put, window.Length, i)] == hist[|hist| - i]
    }

    constructor (size: nat, accepts: nat)
      requires size > 0
      ensures Valid() && hist == [] && window.Length == size && put == 0 && whave == 0 && fresh(window)
      ensures this.accepts == accepts
    {
      window := new Byte[size];
      put, left, whave, this.accepts := 0, size, 0, accepts;
      hist, delivered := [], [];
    }

    /** ROOM: write the window out when it is full. */
    method Room() returns (ok: bool)
      requires Valid()
      modifies `put, `left, `whave, `accepts, `delivered
      ensures Valid() && (ok <==> old(left) > 0 || old(accepts) > 0)
      ensures old(left) > 0 ==>
                left == old(left) && put == old(put) && whave == old(whave) && accepts == old(accepts)
                && delivered == old(delivered)
      ensures old(left) == 0 ==>
                && left == whave == window.Length && put == 0 && delivered == old(delivered) + window[..]
                && accepts == if ok then old(accepts) - 1 else 0
    {
      ok := true;
      if left == 0 {
        put := 0;
        left := window.Length;
        whave := left;
        delivered := delivered + window[..];
        ok := accepts > 0;
        if ok { accepts := accepts - 1; }
      }
    }

    /** *put++ = b; left--. */
    method Emit(b: Byte)
      requires Valid() && left > 0
      modifies `put, `left, `hist, window
      ensures Valid() && hist == old(hist) + [b] && put == old(put) + 1 && left == old(left) - 1
      ensures forall j :: 0 <= j < window.Length && j != old(put) ==> window[j] == old(window[j])
    {
      ghost var w := window[..];
      window[put] := b;
      hist := hist + [b];
      put, left := put + 1, left - 1;
      assert window[..put] == w[..put - 1] + [b];
      forall i | 1 <= i <= window.Length && i <= |hist|
        ensures window[BackIndex(put, window.Length, i)] == hist[|hist| - i]
      {
        if i > 1 { assert BackIndex(put, window.Length, i) == BackIndex(put - 1, window.Length, i - 1); }
      }
    }

    method Literal(b: Byte) returns (ok: bool)
      requires Valid()
      modifies `put, `left, `whave, `accepts, `delivered, `hist, window
      ensures Valid() && hist == if ok then old(hist) + [b] else old(hist)
      ensures ok <==> old(left) > 0 || old(accepts) > 0
      ensures accepts == if old(left) > 0 then old(accepts) else if ok then old(accepts) - 1 else 0
      ensures ok ==> left == (if old(left) > 0 then old(left) else window.Length) - 1
    {
      ok := Room();
      if ok { Emit(b); }
    }

    /** state->offset > state->wsize - (state->whave < state->wsize ? left : 0):
        refused exactly when it reaches back before the output or beyond the window. */
    method TooFar(offset: nat) returns (r: bool)
      requires Valid()
      ensures r <==> offset > |hist| || offset > window.Length
    {
      r := offset > window.Length - (if whave < window.Length then left else 0);
    }

    /** A match of distance dist after h has come to its k-th byte, which is at index from. */
    ghost predicate Copying(h: seq<Byte>, dist: nat, k: nat, from: nat)
      reads `put, `hist
    {
      && 1 <= dist <= |h| && dist <= window.Length && hist == Extend(h, dist, k)
      && from == BackIndex(put, window.Length, dist)
    }

    lemma CopyingBegins(h: seq<Byte>, dist: nat, from: nat)
      requires Behind(from, dist) && h == hist
      ensures Copying(h, dist, 0, from) && 1 <= dist <= |h| && hist == Extend(h, dist, 0)
    {
    }

    /** The byte at index from is the one dist places back. */
    lemma CopyingByte(h: seq<Byte>, dist: nat, k: nat, from: nat)
      requires Valid() && Copying(h, dist, k, from)
      ensures 1 <= dist <= |h| && from < window.Length && Extend(h, dist, k + 1) == hist + [window[from]]
      ensures dist <= put ==> from == put - dist
      ensures dist > put ==> from == put + window.Length - dist
    {
      hide Extend;
      ExtendSplit(h, dist, k, 1);
      ExtendOne(hist, dist);
    }

    /** *put++ = *from++. */
    method CopyByte(from: nat, ghost right: bool, ghost h: seq<Byte>, ghost dist: nat, ghost k: nat)
      requires Valid() && left > 0 && from < window.Length && (right ==> Copying(h, dist, k, from))
      modifies `put, `left, `hist, window
      ensures Valid() && |hist| == old(|hist|) + 1 && left == old(left) - 1 && put == old(put) + 1
      ensures right ==> 1 <= dist <= |h| && hist == Extend(h, dist, k + 1)
      ensures right && from + 1 < window.Length ==> Copying(h, dist, k + 1, from + 1)
    {
      hide Valid, Extend;
      if right { CopyingByte(h, dist, k, from); }
      Emit(window[from]);
    }

    /** The bytes of one piece of a match, which does not meet the end of the window. */
    method Piece(from: nat, copy: nat, ghost dist: nat)
      requires Valid() && copy <= left && from + copy <= window.Length
      modifies `put, `left, `hist, window
      ensures Valid() && |hist| == old(|hist|) + copy && left == old(left) - copy && put == old(put) + copy
      ensures old(Behind(from, dist)) ==> hist == Extend(old(hist), dist, copy)
    {
      hide *;
      ghost var h, right, p0 := hist, Behind(from, dist), put;
      if right { CopyingBegins(h, dist, from); }
      var k := 0;
      while k < copy
        invariant k <= copy && Valid() && |hist| == |h| + k && left + k == old(left) && put == p0 + k
        invariant right ==> 1 <= dist <= |h| && hist == Extend(h, dist, k)
        invariant right && k < copy ==> Copying(h, dist, k, from + k)
      {
        CopyByte(from + k, right, h, dist, k);
        k := k + 1;
      }
    }

    /** Index from is dist places back, and that is in the window. */
    ghost predicate Behind(from: nat, dist: nat)
      reads `put, `hist
    {
      1 <= dist <= |hist| && dist <= window.Length && from == BackIndex(put, window.Length, dist)
    }

    /** As much of a match as fits before the end of the window on both sides of the copy. */
    method NextPiece(offset: nat, length: nat) returns (copy: nat)
      requires Valid() && left > 0 && 1 <= offset <= |hist| && offset <= window.Length && length > 0
      modifies `put, `left, `hist, window
      ensures Valid() && 1 <= copy <= length && hist == Extend(old(hist), offset, copy)
      ensures copy <= old(left) && left == old(left) - copy
    {
      Counts();
      hide Valid, Extend;
      var from: nat;
      copy := window.Length - offset;
      if copy < left {
        from := put + copy;
        copy := left - copy;
      } else {
        from := put - offset;
        copy := left;
      }
      if copy > length { copy := length; }
      Piece(from, copy, offset);
    }

    lemma Counts()
      requires Valid()
      ensures put + left == window.Length > 0
    {
    }

    /** How often out() is called before length more bytes are written. */
    function Calls(left: nat, length: nat): nat
      requires window.Length > 0
    {
      if length <= left then 0 else (length - left + window.Length - 1) / window.Length
    }

    /** The bytes of so many windows. */
    function Windows(calls: nat): nat { calls * window.Length }

    /** So many bytes went out since left0 were left, in so many calls. */
    ghost predicate Gone(left0: nat, calls: nat, done: nat, left: nat) {
      left + done == left0 + Windows(calls) && (calls > 0 ==> left < window.Length && left0 < done)
    }

    lemma GoneNone(left0: nat)
      ensures Gone(left0, 0, 0, left0)
    {
    }

    lemma GoneOn(left0: nat, calls: nat, done: nat, left: nat, called: bool, copy: nat)
      requires Gone(left0, calls, done, left) && copy >= 1
      requires if called then left == 0 && copy <= window.Length else copy <= left
      ensures if called then Gone(left0, calls + 1, done + copy, window.Length - copy)
              else Gone(left0, calls, done + copy, left - copy)
    {
      MulStep(calls, window.Length);
    }

    lemma CallsIs(left0: nat, length: nat, calls: nat, left: nat)
      requires window.Length > 0 && Gone(left0, calls, length, left)
      ensures calls == Calls(left0, length) && left == left0 + Windows(calls) - length
    {
      if calls > 0 {
        var w := window.Length;
        DivModUnique(length - left0 + w - 1, w, calls, w - 1 - left);
      }
    }

    /** Fewer calls do not do. */
    lemma CallsMore(left0: nat, length: nat, calls: nat, done: nat)
      requires window.Length > 0 && Gone(left0, calls, done, 0) && done < length
      ensures calls < Calls(left0, length) && done == left0 + Windows(calls)
    {
      var w := window.Length;
      var x := length - left0 + w - 1;
      Recombine(x, w);
      if x / w <= calls { MulMono(x / w, calls, w); }
    }

    /** ROOM, and then the next piece of a match. */
    method RoomAndPiece(offset: nat, rest: nat) returns (ok: bool, copy: nat)
      requires Valid() && 1 <= offset <= |hist| && offset <= window.Length && rest > 0
      modifies `put, `left, `whave, `accepts, `delivered, `hist, window
      ensures Valid() && (ok <==> old(left) > 0 || old(accepts) > 0)
      ensures !ok ==> hist == old(hist) && accepts == 0
      ensures ok ==>
                && 1 <= copy <= rest && hist == Extend(old(hist), offset, copy)
                && copy <= (if old(left) > 0 then old(left) else window.Length)
                && left == (if old(left) > 0 then old(left) else window.Length) - copy
                && accepts == (if old(left) > 0 then old(accepts) else old(accepts) - 1)
    {
      hide Valid, Extend;
      copy := 0;
      ok := Room();
      if ok { copy := NextPiece(offset, rest); }
    }

    /** Copy a match from the window to itself, around its end and writing it out as needed: it
        fails exactly if out() accepts fewer windows than are full on the way. */
    method Match(offset: nat, length: nat) returns (ok: bool, ghost done: nat)
      requires Valid() && 1 <= offset <= |hist| && offset <= window.Length && length > 0
      modifies `put, `left, `whave, `accepts, `delivered, `hist, window
      ensures Valid() && done <= length && hist == Extend(old(hist), offset, done)
      ensures ok <==> old(accepts) >= Calls(old(left), length)
      ensures ok ==>
                && done == length && accepts == old(accepts) - Calls(old(left), length)
                && left == old(left) + Windows(Calls(old(left), length)) - length
      ensures !ok ==> done == old(left) + Windows(old(accepts)) && accepts == 0
    {
      Counts();
      hide Valid, Extend, Calls, Gone, Windows, Behind, Copying;
      var rest: nat := length;
      ghost var calls, left0 := 0, left;
      done := 0;
      GoneNone(left0);
      while rest != 0
        invariant Valid() && rest + done == length
        invariant |old(hist)| <= |hist| && hist == Extend(old(hist), offset, done)
        invariant calls + accepts == old(accepts) && Gone(left0, calls, done, left)
        decreases rest
      {
        ghost var l := left;
        var copy;
        ok, copy := RoomAndPiece(offset, rest);
        if !ok {
          CallsMore(left0, length, calls, done);
          return;
        }
        ExtendSplit(old(hist), offset, done, copy);
        GoneOn(left0, calls, done, l, l == 0, copy);
        if l == 0 { calls := calls + 1; }
        done := done + copy;
        rest := rest - copy;
      }
      ok := true;
      CallsIs(left0, length, calls, left);
    }

    /** On the way into inflate_fast: if (whave < wsize) whave = wsize - left. */
    method EnterFast()
      requires Valid() && left > 0
      modifies `whave
      ensures Valid() && whave == if |hist| < window.Length then |hist| else window.Length
    {
      if whave < window.Length { whave := window.Length - left; }
    }

    /** A match in inflate_fast when the window is the output buffer: beg is its start, and
        state->write is 0. It is refused exactly if it reaches further back than whave
        before the start of the buffer, and is right if it lies in the output and the window. */
    method FastMatch(dist: nat, len: nat) returns (ok: bool)
      requires Valid() && dist >= 1 && 3 <= len <= 258 <= left
      modifies `put, `left, `hist, window
      ensures Valid() && (ok <==> dist <= old(put) + whave) && |hist| == old(|hist|) + (if ok then len else 0)
      ensures ok && dist <= old(|hist|) && dist <= window.Length ==> hist == Extend(old(hist), dist, len)
      ensures !ok ==> hist == old(hist)
    {
      Counts();
      var op := put;                        // out - beg
      if dist <= op {
        Piece(put - dist, len, dist);
        return true;
      }
      op := dist - op;
      if op > whave { return false; }
      var from := window.Length - op;
      ok := true;
      if op < len {
        ghost var h := hist;
        Piece(from, op, dist);
        if dist <= |h| && dist <= window.Length { ExtendSplit(h, dist, op, len - op); }
        Piece(put - dist, len - op, dist);
      } else {
        Piece(from, len, dist);
      }
    }

    /** inflate_fast refuses the distances that the careful loop refuses, but for those that
        reach beyond the output or the window and no more than put further. */
    lemma FastRefuses(dist: nat)
      requires Valid() && whave == (if |hist| < window.Length then |hist| else window.Length)
      ensures (dist > put + whave <==> dist > |hist| || dist > window.Length) <==> !(whave < dist <= put + whave)
    {
    }
  }

  lemma ExtendOne(h: seq<Byte>, dist: nat)
    requires 1 <= dist <= |h|
    ensures Extend(h, dist, 0) == h && Extend(h, dist, 1) == h + [h[|h| - dist]]
  {
  }

  /** After 300 bytes in a window of 1024, a match 400 back is refused by the careful loop and
      taken by inflate_fast. */
  method TakenTooFar() returns (refused: bool, taken: bool)
    ensures refused && taken
  {
    var w := new Window(1024, 0);
    var i := 0;
    while i < 300
      invariant 0 <= i <= 300 && w.Valid() && fresh(w) && fresh(w.window) && w.window.Length == 1024
      invariant |w.hist| == w.put == i && w.left == 1024 - i
    {
      w.Emit(0);
      i := i + 1;
    }
    w.EnterFast();
    refused := w.TooFar(400);
    taken := w.FastMatch(400, 3);
  }
}
