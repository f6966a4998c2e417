/** Feeding a decoder: a list of pieces of any sizes with room of any size, and one input
    in two pieces. */
module InflateFeed {
  import opened Bits
  import opened InflateSpec
  import opened InflateStates
  import opened InflateLimit
  import opened InflateDivide
  import opened InflateRun

  // ----- How long it can go on -----

  lemma {:induction false} RunsInside(input: seq<Byte>, s: State, n: nat, t: State)
    requires Runs(input, s, n, t) && s.pos <= 8 * |input|
    ensures t.pos <= 8 * |input|
    decreases n
  {
    hide Next;
    if n > 0 {
      StepInside(input, s);
      RunsInside(input, Next(input, s).s, n - 1, t);
    }
  }

  lemma ReachInside(input: seq<Byte>, t: State)
    requires Reaches(input, INITIAL, t)
    ensures t.pos <= 8 * |input|
  {
    hide Next;
    var n: nat :| Runs(input, INITIAL, n, t);
    RunsInside(input, INITIAL, n, t);
  }

  /** The most output there can be. */
  function Most(n: nat): nat { 2064 * n }

  /** No more has been written than the input can stand for. */
  lemma OutputBound(z: Inflater)
    requires Legit(z.input, z.Abs(), z.W) && z.put == 0
    ensures |z.hist| <= Most(|z.input|)
  {
    hide Next, Reaches, Inflater.Phase, Inflater.Total;
    HistoryIs(z);
    var a := z.Abs();
    var t := Free(a);
    if a.ph.RefusedP? {
      var ph: Phase :| Overreach(z.input, a, z.W, ph);
      t := t.(ph := ph);
    }
    Expands(z.input, t);
    ReachInside(z.input, t);
  }

  /** With room left the call has come to the end, to an error, or to the end of its input. */
  lemma RoomLeft(z: Inflater)
    requires Answers(z, true, false)
    ensures Settled(z) && !Torn(z)
  {
    hide Inflater.Total;
  }

  /** The same for a call that left none, if it came to the end or to an error. */
  lemma Answered(z: Inflater, n: nat, size: nat)
    requires Answers(z, n < size, false)
    ensures n < size || z.mode.DONE? || z.mode.BAD? ==> Settled(z) && !Torn(z)
  {
    hide Starved, Torn;
    if n < size { RoomLeft(z); }
    EndNotTorn(z);
  }

  lemma EndNotTorn(z: Inflater)
    ensures z.mode.DONE? || z.mode.BAD? ==> Settled(z) && !Torn(z)
  {
  }

  // ----- A list of pieces -----

  function Joined(chunks: seq<seq<Byte>>): seq<Byte> {
    if chunks == [] then [] else Joined(chunks[..|chunks| - 1]) + chunks[|chunks| - 1]
  }

  /** inflate called with one more piece of input, and again as long as it uses up the room. */
  method Drain(z: Inflater, more: seq<Byte>, size: nat) returns (out: seq<Byte>)
    requires Valid(z) && size > 0 && Narrow(z.input + more, z.W)
    modifies z, z.work, z.window
    ensures Valid(z) && Settled(z) && z.input == old(z.input) + more && z.hist == old(z.hist) + out
    ensures z.window == old(z.window) || fresh(z.window)
  {
    hide *;
    var space := new Byte[size];
    ghost var all, h0 := z.input + more, z.hist;
    var n, ret := Inflate(z, more, space, NO_FLUSH);
    NotTorn(z);
    out := space[..n];
    Answered(z, n, size);
    while n == size && ret == OK
      invariant Valid(z) && z.put == 0 && z.input == all && z.hist == h0 + out && Legit(z.input, z.Abs(), z.W)
      invariant z.window == old(z.window) || fresh(z.window)
      invariant (n == size && ret == OK) || Settled(z)
      decreases n == size && ret == OK, Most(|all|) - |z.hist|
    {
      space := new Byte[size];
      n, ret := Inflate(z, [], space, NO_FLUSH);
      assert all + [] == all;
      NotTorn(z);
      OutputBound(z);
      assert out + space[..n] + [] == out + space[..n];
      out := out + space[..n];
      Answered(z, n, size);
    }
  }

  lemma JoinedMore(chunks: seq<seq<Byte>>, i: nat)
    requires i < |chunks|
    ensures Joined(chunks[..i + 1]) == Joined(chunks[..i]) + chunks[i]
  {
    assert chunks[..i + 1][..i] == chunks[..i];
  }

  lemma {:induction false} JoinedPart(chunks: seq<seq<Byte>>, i: nat)
    requires i <= |chunks|
    ensures Joined(chunks[..i]) <= Joined(chunks)
    decreases |chunks| - i
  {
    if i < |chunks| {
      JoinedMore(chunks, i);
      JoinedPart(chunks, i + 1);
    } else {
      assert chunks[..i] == chunks;
    }
  }

  lemma NarrowPrefix(input: seq<Byte>, all: seq<Byte>, w: nat)
    requires Narrow(all, w) && input <= all
    ensures Narrow(input, w)
  {
    hide Narrow;
    assert all == input + all[|input|..];
    NarrowPart(input, all[|input|..], w);
  }

  /** Pieces of input one after another, with room for size bytes at a time. */
  method Feed(z: Inflater, chunks: seq<seq<Byte>>, size: nat) returns (out: seq<Byte>)
    requires Valid(z) && size > 0 && Narrow(z.input + Joined(chunks), z.W)
    modifies z, z.work, z.window
    ensures Valid(z) && Settled(z) && z.input == old(z.input) + Joined(chunks) && z.hist == old(z.hist) + out
  {
    hide *;
    ghost var all, in0, h0 := z.input + Joined(chunks), z.input, z.hist;
    assert in0 + [] == in0 <= all;
    NarrowPrefix(in0 + [], all, z.W);
    out := Drain(z, [], size);
    var i := 0;
    JoinedNone(chunks);
    while i < |chunks|
      invariant i <= |chunks| && Valid(z) && Settled(z)
      invariant z.input == in0 + Joined(chunks[..i]) && z.hist == h0 + out
      invariant z.window == old(z.window) || fresh(z.window)
    {
      JoinedMore(chunks, i);
      JoinedPart(chunks, i + 1);
      ghost var before := z.input;
      assert before + chunks[i] == in0 + Joined(chunks[..i + 1]) <= all;
      NarrowPrefix(before + chunks[i], all, z.W);
      var more := Drain(z, chunks[i], size);
      assert h0 + out + more == h0 + (out + more);
      out := out + more;
      i := i + 1;
    }
    assert chunks[..i] == chunks;
  }

  lemma JoinedNone(chunks: seq<seq<Byte>>)
    ensures Joined(chunks[..0]) == []
  {
  }

  /** The output depends on the input alone: not on how it is divided into pieces, on how
      much room there is at a time, or on the size of the window, if no distance is greater. */
  method AnyDivision(a: seq<seq<Byte>>, b: seq<seq<Byte>>, m: nat, n: nat, vbits: nat, wbits: nat)
    returns (x: seq<Byte>, y: seq<Byte>)
    requires Joined(a) == Joined(b) && m > 0 && n > 0 && 8 <= vbits <= 15 && 8 <= wbits <= 15
    requires Narrow(Joined(a), Pow2(vbits)) && Narrow(Joined(b), Pow2(wbits))
    ensures x == y
  {
    hide *;
    var v := NewDecoder(vbits);
    assert [] + Joined(a) == Joined(a);
    x := Feed(v, a, m);
    var w := NewDecoder(wbits);
    assert [] + Joined(b) == Joined(b);
    y := Feed(w, b, n);
    assert [] + x == x && [] + y == y;
    Resumable(v, w);
  }

  // ----- One input in two pieces -----

  lemma SettledOnce(z: Inflater, w: Limit)
    requires Settled(z)
    ensures Stopped(z.input, z.Abs().(lim := w))
  {
    hide Next, Inflater.Total, Inflater.Phase, Settled;
    SettledStops(z);
    LimitAside(z.input, z.Abs(), w);
  }

  /** m bytes of the input in one call and the rest in another, with room for all the output
      there can be: the two calls of InflateDivide, to their end. */
  method InTwo(wbits: nat, input: seq<Byte>, m: nat) returns (ret: Ret, ghost u: State, ghost r: State)
    requires 8 <= wbits <= 15 && m <= |input|
    ensures TwoCalls(input, Pow2(wbits), m, u, r) && Stopped(input, r)
    ensures ret == DATA_ERROR <==> r.ph.BadP? || r.ph.RefusedP?
    ensures ret == STREAM_END <==> r.ph.DoneP?
  {
    hide *;
    var z := NewDecoder(wbits);
    ghost var w, first := z.W, Limit(0, z.W);
    var size := 2064 * |input| + 1;
    MostIs(m);
    MostIs(|input|);
    var space := new Byte[size];
    var n;
    n, ret := Inflate(z, input[..m], space, NO_FLUSH);
    assert [] + input[..m] == input[..m];
    OutputBound(z);
    Answered(z, n, size);
    HistoryIs(z);
    SettledOnce(z, first);
    u := z.Abs().(lim := first);
    LimitIs(z);
    ghost var again := z.Abs().lim;
    space := new Byte[size];
    n, ret := Inflate(z, input[m..], space, NO_FLUSH);
    assert input[..m] + input[m..] == input;
    OutputBound(z);
    Answered(z, n, size);
    SettledOnce(z, again);
    r := z.Abs().(lim := again);
    ToTwoCalls(input, w, m, u, r);
    ValidOk(z);
    ModeOfPhase(z);
  }

  lemma MostIs(n: nat)
    ensures Most(n) == 2064 * n
  {
  }

  lemma ValidOk(z: Inflater)
    requires Valid(z)
    ensures z.Ok()
  {
  }

  lemma ToTwoCalls(input: seq<Byte>, w: nat, m: nat, u: State, r: State)
    requires m <= |input| && Reaches(input[..m], INITIAL.(lim := Limit(0, w)), u) && Stopped(input[..m], u)
    requires Reaches(input, u.(lim := Limit(|u.out|, w)), r)
    ensures TwoCalls(input, w, m, u, r)
  {
  }
}
