/** inflate as a whole, called any number of times with any division of the input
    and of the output space, and what that division cannot change. */
module InflateRun {
  import opened Bits
  import opened BitStream
  import opened Ring
  import opened InflateSpec
  import opened InflateStates
  import opened InfFast
  import opened InflateLimit

  /** The window covers the earlier output, unless it will not be needed again. */
  ghost predicate Windowed(z: Inflater)
    reads z, z.window
  {
    (Stop(z.mode) && z.wsize == 0) || z.WindowOk(z.hist)
  }

  /** A decoder between two calls, with everything supplied and delivered so far. */
  ghost predicate Valid(z: Inflater)
    reads z, z.out, z.window
  {
    z.Ok() && z.Lazy() && z.put == 0 && Windowed(z) && Legit(z.input, z.Abs(), z.W)
  }

  /** A match that the call before left unfinished, and whose source the window no longer holds. */
  ghost predicate Torn(z: Inflater)
    reads z
  {
    z.mode.MATCH? && z.offset > z.W
  }

  /** The decoder between two calls in that case. */
  ghost predicate Left(z: Inflater)
    reads z, z.out, z.window
  {
    && Torn(z) && z.put == 0 && 1 <= z.length <= 258 && z.offset <= |z.hist| && z.WindowOk(z.hist)
  }

  /** Bytes wait to be written and there is no room for them. */
  ghost predicate Full(z: Inflater)
    reads z, z.out
  {
    z.put == z.out.Length && (z.mode.MATCH? || z.mode.LIT? || (z.mode.COPY? && z.length > 0))
  }

  /** The next step needs bits that have not been supplied. */
  ghost predicate Starved(z: Inflater)
    reads z, z.out
  {
    z.next == |z.input| && Next(z.input, z.Abs()).NeedInput?
  }

  ghost predicate Rests(z: Inflater, block: bool)
    reads z, z.out
  {
    Starved(z) || Full(z) || z.mode.DONE? || z.mode.BAD? || (block && z.mode.TYPE?)
  }

  /** Distance to the end in the order of modes that need not consume anything. */
  function Rank(m: Mode): nat {
    match m
    case LENLENS => 7 case CODELENS => 6
    case LENEXT => 5 case DIST => 4
    case DISTEXT => 5 case MATCH => 4
    case STORED => 4 case COPY => 3
    case LEN => 3 case TABLE => 3 case LIT => 3
    case HEAD => 2 case TYPE => 2 case TYPEDO => 2
    case CHECK => 1 case DONE => 0 case BAD => 0
  }

  /** What a turn of the loop that does not leave it makes smaller. */
  ghost predicate Progress(z: Inflater, pos: int, put: nat, m: Mode)
    reads z
  {
    z.put >= put && (z.Pos() > pos || (z.Pos() == pos && (z.put > put || Rank(z.mode) < Rank(m))))
  }

  // ----- One turn of the loop -----

  datatype Mark = Mark(s: State, pos: int, put: nat, m: Mode)

  ghost function Here(z: Inflater): Mark
    reads z, z.out
  {
    Mark(z.Abs(), z.Pos(), z.put, z.mode)
  }

  /** What every turn promises: some steps of the bit-level machine, and either
      progress or a reason to leave. */
  ghost predicate Turned(z: Inflater, at: Mark, go: bool, block: bool)
    reads z, z.out, z.window
  {
    && z.Ok() && z.Lazy() && Windowed(z) && Within(z.input, at.s, z.Abs())
    && (go ==> !z.mode.HEAD? && !z.mode.TYPEDO?) && (!go && z.mode.TYPE? ==> at.m.TYPE? && z.Abs() == at.s)
    && (if go then Progress(z, at.pos, at.put, at.m) else z.put >= at.put && Rests(z, block))
  }

  /** From one step, or none for want of input. */
  lemma FromStep(z: Inflater, at: Mark, b0: nat, n0: nat, ok: bool, block: bool)
    requires z.Ok() && Windowed(z) && z.Advanced(at.s, ok) && z.put >= at.put
    requires n0 <= |z.input| && at.s.pos + b0 == 8 * n0 && (b0 < 8 || Stopped(z.input[..n0], at.s))
    requires ok ==> Progress(z, at.pos, at.put, at.m) && at.s.pos <= z.Pos()
    requires ok && !Stop(z.mode) ==> z.next == n0 || z.bits < 8
    requires ok ==> !z.mode.HEAD? && !z.mode.TYPEDO?
    requires !ok ==> z.mode == at.m
    requires z.mode.CHECK? || z.mode.DONE? ==> z.bits == 0
    ensures Turned(z, at, ok, block)
  {
    hide Next, Inflater.Total, Peek, Within, Windowed, Inflater.Tables, Inflater.Lengths;
    if ok { AbsPos(z); }
    z.LazyAfter(at.s, b0, n0, ok);
    WithinRefl(z.input, at.s);
    z.Chain(at.s, at.s, ok);
  }

  lemma AbsPos(z: Inflater)
    requires z.Ok()
    ensures z.Abs().pos == z.Pos() && z.next <= |z.input| && z.put <= z.out.Length
    ensures z.Abs().pos + z.bits == 8 * z.next
  {
  }

  /** The window does not change as long as the output goes elsewhere. */
  lemma Apart(z: Inflater)
    requires Windowed(z) && !Stop(z.mode)
    ensures z.WindowOk(z.hist) && z.window != z.out && z.Covers(z.hist)
  {
  }

  lemma StillWindowed(z: Inflater)
    requires z.WindowOk(z.hist)
    ensures Windowed(z)
  {
  }

  lemma Marked(z: Inflater)
    requires z.Ok() && z.Lazy()
    ensures z.Abs().pos + z.bits == 8 * z.next && z.next <= |z.input|
    ensures z.Abs().pos == z.Pos() && z.put <= z.out.Length
    ensures Stop(z.mode) || z.bits < 8 || Stopped(z.input[..z.next], z.Abs())
  {
  }

  /** No bits are needed to find that the last block is over. */
  lemma LastBits(z: Inflater)
    requires z.Ok() && z.Lazy() && (z.mode.HEAD? || z.mode.TYPE? || z.mode.TYPEDO?) && z.last
    ensures z.bits < 8
  {
    hide Inflater.Total, Inflater.Tables, Peek;
  }

  method TurnType(z: Inflater, block: bool) returns (go: bool)
    requires z.Ok() && z.Lazy() && Windowed(z) && (z.mode.HEAD? || z.mode.TYPE? || z.mode.TYPEDO?)
    modifies z`hold, z`bits, z`next, z`mode, z`last, z`lencode, z`lenbits, z`distcode, z`distbits, z`ll, z`dl, z.work
    ensures Turned(z, old(Here(z)), go, block)
  {
    hide Inflater.Ok, Inflater.Lazy, Inflater.Abs, Inflater.Advanced, Inflater.WindowOk, Inflater.Covers;
    hide Windowed, Turned, Within, Next, Stopped;
    ghost var at, b0, n0 := Here(z), z.bits, z.next;
    Marked(z);
    Apart(z);
    if z.last { LastBits(z); }
    go := z.TypeDo();
    StillWindowed(z);
    FromStep(z, at, b0, n0, go, block);
  }

  method TurnTable(z: Inflater, block: bool) returns (go: bool)
    requires z.Ok() && z.Lazy() && Windowed(z) && z.mode.TABLE?
    modifies z`hold, z`bits, z`next, z`mode, z`nlen, z`ndist, z`ncode, z`have
    ensures Turned(z, old(Here(z)), go, block)
  {
    hide Inflater.Ok, Inflater.Lazy, Inflater.Abs, Inflater.Advanced, Inflater.WindowOk, Inflater.Covers;
    hide Windowed, Turned, Within, Next, Stopped;
    ghost var at, b0, n0 := Here(z), z.bits, z.next;
    Marked(z);
    Apart(z);
    go := z.Table();
    StillWindowed(z);
    FromStep(z, at, b0, n0, go, block);
  }

  method TurnLen(z: Inflater, block: bool) returns (go: bool)
    requires z.Ok() && z.Lazy() && Windowed(z) && z.mode.LEN?
    modifies z`hold, z`bits, z`next, z`mode, z`length, z`extra
    ensures Turned(z, old(Here(z)), go, block)
  {
    hide Inflater.Ok, Inflater.Lazy, Inflater.Abs, Inflater.Advanced, Inflater.WindowOk, Inflater.Covers;
    hide Windowed, Turned, Within, Next, Stopped;
    ghost var at, b0, n0 := Here(z), z.bits, z.next;
    Marked(z);
    Apart(z);
    go := z.Len();
    StillWindowed(z);
    FromStep(z, at, b0, n0, go, block);
  }

  method TurnLenExt(z: Inflater, block: bool) returns (go: bool)
    requires z.Ok() && z.Lazy() && Windowed(z) && z.mode.LENEXT?
    modifies z`hold, z`bits, z`next, z`mode, z`length
    ensures Turned(z, old(Here(z)), go, block)
  {
    hide Inflater.Ok, Inflater.Lazy, Inflater.Abs, Inflater.Advanced, Inflater.WindowOk, Inflater.Covers;
    hide Windowed, Turned, Within, Next, Stopped;
    ghost var at, b0, n0 := Here(z), z.bits, z.next;
    Marked(z);
    Apart(z);
    go := z.LenExt();
    StillWindowed(z);
    FromStep(z, at, b0, n0, go, block);
  }

  method TurnDist(z: Inflater, block: bool) returns (go: bool)
    requires z.Ok() && z.Lazy() && Windowed(z) && z.mode.DIST?
    modifies z`hold, z`bits, z`next, z`mode, z`offset, z`extra
    ensures Turned(z, old(Here(z)), go, block)
  {
    hide Inflater.Ok, Inflater.Lazy, Inflater.Abs, Inflater.Advanced, Inflater.WindowOk, Inflater.Covers;
    hide Windowed, Turned, Within, Next, Stopped;
    ghost var at, b0, n0 := Here(z), z.bits, z.next;
    Marked(z);
    Apart(z);
    go := z.Dist();
    StillWindowed(z);
    FromStep(z, at, b0, n0, go, block);
  }

  method TurnDistExt(z: Inflater, block: bool) returns (go: bool)
    requires z.Ok() && z.Lazy() && Windowed(z) && z.mode.DISTEXT?
    modifies z`hold, z`bits, z`next, z`mode, z`offset, z`refused
    ensures Turned(z, old(Here(z)), go, block)
  {
    hide Inflater.Ok, Inflater.Lazy, Inflater.Abs, Inflater.Advanced, Inflater.WindowOk, Inflater.Covers;
    hide Windowed, Turned, Within, Next, Stopped;
    ghost var at, b0, n0 := Here(z), z.bits, z.next;
    Marked(z);
    Apart(z);
    go := z.DistExt();
    StillWindowed(z);
    FromStep(z, at, b0, n0, go, block);
  }

  /** A copy or a run that stops for want of input, of room, or of both. */
  lemma CopyShort(z: Inflater)
    requires z.Ok() && z.mode.COPY? && z.length > 0 && (z.next == |z.input| || z.put == z.out.Length)
    ensures Starved(z) || Full(z)
  {
    hide Peek, Inflater.Total, Inflater.Tables;
  }

  lemma CopyBits(z: Inflater)
    requires z.Ok() && z.mode.COPY?
    ensures z.bits == 0
  {
  }

  lemma BitsLazy(z: Inflater)
    requires z.bits < 8 && !z.mode.CHECK? && !z.mode.DONE?
    ensures z.Lazy()
  {
  }

  lemma StarvedLazy(z: Inflater)
    requires Starved(z)
    ensures z.Lazy()
  {
    assert z.input[..z.next] == z.input;
  }

  /** A step that only writes can always be taken, so nothing was pulled for it. */
  lemma WritingBits(z: Inflater)
    requires z.Ok() && z.Lazy() && (z.mode.MATCH? || z.mode.LIT?)
    ensures z.bits < 8
  {
    hide Inflater.Total, Inflater.Tables, Peek;
  }

  /** From any number of steps, taken by a method that keeps the accumulator lazy. */
  lemma FromSteps(z: Inflater, at: Mark, go: bool, block: bool)
    requires z.Ok() && z.Lazy() && Windowed(z) && Within(z.input, at.s, z.Abs()) && z.put >= at.put
    requires if go then Progress(z, at.pos, at.put, at.m) else Rests(z, block)
    requires (go ==> !z.mode.HEAD? && !z.mode.TYPEDO?) && (!go && z.mode.TYPE? ==> at.m.TYPE? && z.Abs() == at.s)
    ensures Turned(z, at, go, block)
  {
  }

  method TurnStored(z: Inflater, block: bool) returns (go: bool)
    requires z.Ok() && z.Lazy() && Windowed(z) && z.mode.STORED?
    modifies z`hold, z`bits, z`next, z`mode, z`length
    ensures Turned(z, old(Here(z)), go, block)
  {
    hide Inflater.Ok, Inflater.Lazy, Inflater.Abs, Inflater.Advanced, Inflater.WindowOk, Inflater.Covers;
    hide Windowed, Turned, Within, Next, Stopped;
    ghost var at := Here(z);
    Marked(z);
    Apart(z);
    go := z.Stored();
    StillWindowed(z);
    if go {
      assert Stop(z.mode) || z.mode.COPY?;
      if z.mode.COPY? { CopyBits(z); BitsLazy(z); }
    } else {
      StarvedLazy(z);
    }
    FromSteps(z, at, go, block);
  }

  method TurnCopy(z: Inflater, block: bool) returns (go: bool)
    requires z.Ok() && z.Lazy() && Windowed(z) && z.mode.COPY?
    modifies z`next, z`put, z.out, z`length, z`mode
    ensures Turned(z, old(Here(z)), go, block)
  {
    hide Inflater.Ok, Inflater.Lazy, Inflater.Abs, Inflater.Advanced, Inflater.WindowOk, Inflater.Covers;
    hide Windowed, Turned, Within, Next, Stopped;
    ghost var at := Here(z);
    Marked(z);
    Apart(z);
    CopyBits(z);
    go := z.Copy();
    StillWindowed(z);
    BitsLazy(z);
    if !go { CopyShort(z); }
    FromSteps(z, at, go, block);
  }

  method TurnLenLens(z: Inflater, block: bool) returns (go: bool)
    requires z.Ok() && z.Lazy() && Windowed(z) && z.mode.LENLENS?
    modifies z`hold, z`bits, z`next, z`lens, z`have, z`mode, z`lencode, z`lenbits, z`cl, z.work
    ensures Turned(z, old(Here(z)), go, block)
  {
    hide Inflater.Ok, Inflater.Lazy, Inflater.Abs, Inflater.Advanced, Inflater.WindowOk, Inflater.Covers;
    hide Windowed, Turned, Within, Next, Stopped;
    ghost var at := Here(z);
    Marked(z);
    Apart(z);
    go := z.LenLens();
    StillWindowed(z);
    FromSteps(z, at, go, block);
  }

  method TurnCodeLens(z: Inflater, block: bool) returns (go: bool)
    requires z.Ok() && z.Lazy() && Windowed(z) && z.mode.CODELENS?
    modifies z`hold, z`bits, z`next, z`lens, z`have, z`mode, z`lencode, z`lenbits, z`distcode, z`distbits, z`ll, z`dl,
             z.work
    ensures Turned(z, old(Here(z)), go, block)
  {
    hide Inflater.Ok, Inflater.Lazy, Inflater.Abs, Inflater.Advanced, Inflater.WindowOk, Inflater.Covers;
    hide Windowed, Turned, Within, Next, Stopped;
    ghost var at := Here(z);
    Marked(z);
    Apart(z);
    go := z.CodeLens();
    StillWindowed(z);
    FromSteps(z, at, go, block);
  }

  method TurnMatch(z: Inflater, block: bool) returns (go: bool)
    requires z.Ok() && z.Lazy() && Windowed(z) && z.mode.MATCH?
    modifies z`put, z.out, z`length, z`mode
    ensures Turned(z, old(Here(z)), go, block)
  {
    hide Inflater.Ok, Inflater.Lazy, Inflater.Abs, Inflater.Advanced, Inflater.WindowOk, Inflater.Covers;
    hide Windowed, Turned, Within, Next, Stopped;
    ghost var at := Here(z);
    Marked(z);
    Apart(z);
    WritingBits(z);
    go := z.Match();
    StillWindowed(z);
    BitsLazy(z);
    FromSteps(z, at, go, block);
  }

  method TurnLit(z: Inflater, block: bool) returns (go: bool)
    requires z.Ok() && z.Lazy() && Windowed(z) && z.mode.LIT?
    modifies z`put, z.out, z`mode
    ensures Turned(z, old(Here(z)), go, block)
  {
    hide Inflater.Ok, Inflater.Lazy, Inflater.Abs, Inflater.Advanced, Inflater.WindowOk, Inflater.Covers;
    hide Windowed, Turned, Within, Next, Stopped;
    ghost var at, b0, n0 := Here(z), z.bits, z.next;
    Marked(z);
    Apart(z);
    WritingBits(z);
    go := z.Lit();
    StillWindowed(z);
    if go {
      FromStep(z, at, b0, n0, go, block);
    } else {
      BitsLazy(z);
      WithinRefl(z.input, at.s);
      FromSteps(z, at, go, block);
    }
  }

  method TurnFast(z: Inflater, block: bool) returns (go: bool)
    requires z.Ok() && z.Lazy() && Windowed(z) && z.mode.LEN?
    requires z.next + 6 <= |z.input| && z.put + 258 <= z.out.Length
    modifies z`hold, z`bits, z`next, z`put, z`mode, z`refused, z.out
    ensures Turned(z, old(Here(z)), go, block)
  {
    hide Inflater.Ok, Inflater.Lazy, Inflater.Abs, Inflater.Advanced, Inflater.WindowOk, Inflater.Covers;
    hide Windowed, Turned, Within, Next, Stopped;
    ghost var at := Here(z);
    Marked(z);
    Apart(z);
    InflateFast(z);
    StillWindowed(z);
    BitsLazy(z);
    go := true;
    FromSteps(z, at, go, block);
  }

  /** One turn of the loop over state->mode. */
  method Turn(z: Inflater, block: bool) returns (go: bool)
    requires z.Ok() && z.Lazy() && Windowed(z)
    modifies z`hold, z`bits, z`next, z`put, z`mode, z`last, z`length, z`offset, z`extra, z`nlen, z`ndist, z`ncode,
             z`have, z`lens, z`lencode, z`lenbits, z`distcode, z`distbits, z`ll, z`dl, z`cl, z`refused, z.out, z.work
    ensures Turned(z, old(Here(z)), go, block)
    ensures block && old(z.mode).TYPE? ==> !go && z.Abs() == old(z.Abs())
  {
    hide *;
    Marked(z);
    match z.mode
    case HEAD => go := TurnType(z, block);
    case TYPE =>
      if block { go := Leave(z, block); } else { go := TurnType(z, block); }
    case TYPEDO => go := TurnType(z, block);
    case STORED => go := TurnStored(z, block);
    case COPY => go := TurnCopy(z, block);
    case TABLE => go := TurnTable(z, block);
    case LENLENS => go := TurnLenLens(z, block);
    case CODELENS => go := TurnCodeLens(z, block);
    case LEN =>
      if |z.input| - z.next >= 6 && z.out.Length - z.put >= 258 {
        go := TurnFast(z, block);
      } else {
        go := TurnLen(z, block);
      }
    case LENEXT => go := TurnLenExt(z, block);
    case DIST => go := TurnDist(z, block);
    case DISTEXT => go := TurnDistExt(z, block);
    case MATCH => go := TurnMatch(z, block);
    case LIT => go := TurnLit(z, block);
    case CHECK => go := TurnCheck(z, block);
    case DONE => go := Leave(z, block);
    case BAD => go := Leave(z, block);
  }

  /** goto inf_leave. */
  method Leave(z: Inflater, block: bool) returns (go: bool)
    requires z.Ok() && z.Lazy() && Windowed(z) && (z.mode.DONE? || z.mode.BAD? || (block && z.mode.TYPE?))
    ensures Turned(z, old(Here(z)), go, block) && !go
  {
    hide Inflater.Ok, Inflater.Lazy, Inflater.Abs, Windowed, Within;
    ghost var at := Here(z);
    WithinRefl(z.input, at.s);
    go := false;
    FromSteps(z, at, go, block);
  }

  /** Without a wrapper there is nothing to check. */
  method TurnCheck(z: Inflater, block: bool) returns (go: bool)
    requires z.Ok() && z.Lazy() && Windowed(z) && z.mode.CHECK?
    modifies z`mode
    ensures Turned(z, old(Here(z)), go, block)
  {
    hide Inflater.Acc, Inflater.WindowOk, Inflater.CodesOk, Inflater.Total, Inflater.HeaderOk, Inflater.CodeLensOk;
    hide Within, Got;
    ghost var at := Here(z);
    WithinRefl(z.input, at.s);
    z.mode := DONE;
    go := true;
    FromSteps(z, at, go, block);
  }

  // ----- A call -----

  datatype Flush = NO_FLUSH | FINISH | BLOCK

  datatype Ret = OK | STREAM_END | DATA_ERROR | BUF_ERROR

  /** strm->next_in and strm->avail_in are set to new input. */
  method Supply(z: Inflater, more: seq<Byte>)
    requires Valid(z)
    modifies z`input
    ensures Valid(z) && z.input == old(z.input) + more && z.Abs() == old(z.Abs())
  {
    hide Inflater.CodesOk, Inflater.HeaderOk, Inflater.CodeLensOk, Inflater.WindowOk, Inflater.Total, Inflater.Phase;
    hide Reaches, Next, Peek, Legit;
    LegitMore(z.input, more, z.Abs(), z.W);
    PeekMore(z.input, more, 8 * z.next - z.bits, z.bits);
    assert (z.input + more)[..z.next] == z.input[..z.next];
    z.input := z.input + more;
  }

  /** strm->next_out and strm->avail_out are set to new space. */
  method Offer(z: Inflater, space: array<Byte>)
    requires Valid(z) && space != z.window
    modifies z`out
    ensures Valid(z) && z.out == space && z.Abs() == old(z.Abs())
  {
    hide Inflater.Acc, Inflater.CodesOk, Inflater.HeaderOk, Inflater.CodeLensOk, Inflater.Covers, Holds;
    hide Reaches, Next, Inflater.Phase, Legit;
    z.out := space;
  }

  /** Between calls TYPE stands for TYPEDO. */
  method SkipCheck(z: Inflater)
    requires Valid(z)
    modifies z`mode
    ensures Valid(z) && z.Abs() == old(z.Abs()) && !z.mode.TYPE?
  {
    hide Inflater.Acc, Inflater.CodesOk, Inflater.HeaderOk, Inflater.CodeLensOk, Inflater.WindowOk;
    hide Reaches, Next, Inflater.Total, Got, Legit;
    if z.mode.TYPE? { z.mode := TYPEDO; }
  }

  /** The stream ended or broke, or the next step lacks input, or room for a byte,
      or a block boundary was asked for and found. */
  ghost predicate Answers(z: Inflater, room: bool, block: bool)
    reads z, z.out
  {
    || z.mode.DONE? || z.mode.BAD? || Starved(z)
    || (!room && (z.mode.MATCH? || z.mode.LIT? || (z.mode.COPY? && z.length > 0)))
    || (block && z.mode.TYPE?)
  }

  /** Update the window if it is in use, or will be needed and there is output for it. */
  method Fold(z: Inflater, ghost block: bool)
    requires z.Ok() && z.Lazy() && Windowed(z) && Rests(z, block)
    modifies z`window, z`wsize, z`whave, z`write, z.window
    ensures z.WindowOk(z.Total()) || (Stop(z.mode) && z.wsize == 0)
    ensures z.window == old(z.window) || fresh(z.window)
    ensures z.Ok() && z.Lazy() && Rests(z, block) && z.Abs() == old(z.Abs()) && z.Total() == old(z.Total())
    ensures z.out[..] == old(z.out[..])
  {
    hide Inflater.Acc, Inflater.Tables, Inflater.Lazy, Inflater.Abs, Inflater.Phase, Holds, Inflater.Covers, Next;
    if z.wsize == 0 && z.put == 0 && !Stop(z.mode) { assert z.hist + z.out[..0] == z.hist; }
    if z.wsize != 0 || (!Stop(z.mode) && z.put != 0) { z.UpdateWindow(); }
  }

  /** The output of the call becomes history. */
  method Settle(z: Inflater, ghost block: bool)
    requires z.Ok() && z.Lazy() && Windowed(z) && Legit(z.input, z.Abs(), z.W) && Rests(z, block)
    modifies z`window, z`wsize, z`whave, z`write, z`hist, z`put, z.window
    ensures z.put == 0 && (Valid(z) <==> !Torn(z)) && (Torn(z) ==> Left(z))
    ensures Legit(z.input, z.Abs(), z.W) && z.Abs() == old(z.Abs()).(lim := Limit(|z.hist|, z.W))
    ensures Answers(z, old(z.put) < z.out.Length, block)
    ensures old(z.put) <= z.out.Length && z.hist == old(z.hist) + z.out[..old(z.put)]
    ensures z.window == old(z.window) || fresh(z.window)
  {
    hide Inflater.Acc, Inflater.CodesOk, Inflater.HeaderOk, Inflater.CodeLensOk, Inflater.WindowOk;
    hide Reaches, Next, Inflater.Phase, Got, Rests, Answers, Starved, Full, Legit;
    Fold(z, block);
    Rebase(z, block);
  }

  method Rebase(z: Inflater, ghost block: bool)
    requires z.Ok() && z.Lazy() && (z.WindowOk(z.Total()) || (Stop(z.mode) && z.wsize == 0))
    requires Legit(z.input, z.Abs(), z.W) && Rests(z, block)
    modifies z`hist, z`put
    ensures z.put == 0 && (Valid(z) <==> !Torn(z)) && (Torn(z) ==> Left(z))
    ensures Legit(z.input, z.Abs(), z.W) && z.Abs() == old(z.Abs()).(lim := Limit(|z.hist|, z.W))
    ensures Answers(z, old(z.put) < z.out.Length, block)
    ensures old(z.put) <= z.out.Length && z.hist == old(z.hist) + z.out[..old(z.put)]
  {
    hide Inflater.Acc, Inflater.CodesOk, Inflater.HeaderOk, Inflater.CodeLensOk, Inflater.WindowOk;
    hide Reaches, Next, Inflater.Phase, Got, Legit;
    ghost var h, a := z.Total(), z.Abs();
    Marked(z);
    LegitLimit(z.input, a, Limit(|h|, z.W), z.W);
    LimitAside(z.input, a, Limit(|h|, z.W));
    LimitAside(z.input[..z.next], a, Limit(|h|, z.W));
    z.hist := h;
    z.put := 0;
    assert z.Total() == h + z.out[..0] == h;
    assert z.Abs() == a.(lim := Limit(|h|, z.W));
    assert z.Ok() <==> !Torn(z);
  }

  /** The loop of inflate, from the state left by the last call to where it leaves; if block
      boundaries are asked for no block begins on the way, and one at which it leaves is not
      where it began. */
  method Loop(z: Inflater, block: bool)
    requires Valid(z)
    modifies z`hold, z`bits, z`next, z`put, z`mode, z`last, z`length, z`offset, z`extra, z`nlen, z`ndist, z`ncode,
             z`have, z`lens, z`lencode, z`lenbits, z`distcode, z`distbits, z`ll, z`dl, z`cl, z`refused, z.out, z.work
    ensures z.Ok() && z.Lazy() && Windowed(z) && Reaches(z.input, old(z.Abs()), z.Abs()) && Rests(z, block)
    ensures block ==> Within(z.input, old(z.Abs()), z.Abs())
    ensures !old(z.mode).TYPE? && z.mode.TYPE? ==> z.Abs() != old(z.Abs())
  {
    hide Inflater.Abs, Inflater.Ok, Inflater.Lazy, Windowed, Reaches, Within, Rests, Rank, Legit, Behind;
    var go := true;
    ghost var h0 := Here(z);
    ReachRefl(z.input, h0.s);
    WithinRefl(z.input, h0.s);
    MarkIs(z);
    while go
      invariant z.Ok() && z.Lazy() && Windowed(z) && Reaches(z.input, h0.s, z.Abs())
      invariant go || Rests(z, block)
      invariant block ==> Within(z.input, h0.s, z.Abs())
      invariant go ==> Here(z) == h0 || (!z.mode.HEAD? && !z.mode.TYPEDO? && Behind(h0, Here(z)))
      invariant MarkOk(h0, |z.hist|)
      invariant !go && z.mode.TYPE? ==> h0.m.TYPE? || z.Abs() != h0.s
      decreases go, 8 * |z.input| - z.Pos(), z.out.Length - z.put, Rank(z.mode)
    {
      ghost var at := Here(z);
      Marked(z);
      MarkIs(z);
      go := Turn(z, block);
      Marked(z);
      MarkIs(z);
      LoopStep(z, h0, at, go);
      WithinReaches(z.input, at.s, z.Abs());
      ReachTrans(z.input, h0.s, at.s, z.Abs());
      if block { WithinTrans(z.input, h0.s, at.s, z.Abs()); }
    }
  }

  /** Mark b is further on than mark a. */
  ghost predicate Behind(a: Mark, b: Mark) {
    b.put >= a.put && (b.pos > a.pos || (b.pos == a.pos && (b.put > a.put || Rank(b.m) < Rank(a.m))))
  }

  /** A mark says the same twice, after so much history. */
  ghost predicate MarkOk(a: Mark, history: nat) {
    && a.s.pos == a.pos && |a.s.out| == history + a.put
    && (a.s.ph.TypeP? <==> a.m.HEAD? || a.m.TYPE? || a.m.TYPEDO?)
  }

  lemma MarkIs(z: Inflater)
    requires z.Ok()
    ensures MarkOk(Here(z), |z.hist|)
  {
    hide Inflater.Acc, Inflater.Tables, Inflater.Lengths, Got;
    AbsPos(z);
  }

  /** Progress adds up, and where a block begins after some the state is another. */
  lemma LoopStep(z: Inflater, h0: Mark, at: Mark, go: bool)
    requires MarkOk(h0, |z.hist|) && MarkOk(at, |z.hist|) && MarkOk(Here(z), |z.hist|)
    requires at == h0 || Behind(h0, at)
    requires if go then Progress(z, at.pos, at.put, at.m) else z.mode.TYPE? ==> at.m.TYPE? && z.Abs() == at.s
    ensures go ==> Behind(h0, Here(z))
    ensures !go && z.mode.TYPE? ==> h0.m.TYPE? || z.Abs() != h0.s
  {
    hide Inflater.Abs;
  }

  /** At the start of a call all of the output is history. */
  lemma LimitIs(z: Inflater)
    requires Valid(z)
    ensures Legit(z.input, z.Abs(), z.W) && z.Abs().lim == Limit(|z.Abs().out|, z.W)
  {
    hide Legit, Inflater.Acc, Inflater.Tables, Inflater.Lazy, Windowed, Inflater.Phase;
    assert z.Total() == z.hist + z.out[..0] == z.hist;
  }

  /** inflate(strm, flush) on the bytes of more in addition to those not yet read,
      and on the given space; n bytes are written. The call takes steps of the machine
      whose distances reach over the window and the output of the call. The next call
      is in order unless a match was cut short that reaches further back than the window. */
  method Inflate(z: Inflater, more: seq<Byte>, space: array<Byte>, flush: Flush) returns (n: nat, ret: Ret)
    requires Valid(z) && space != z.window
    modifies z, z.work, z.window, space
    ensures z.put == 0 && (Valid(z) <==> !Torn(z)) && (Torn(z) ==> Left(z))
    ensures z.input == old(z.input) + more && Legit(z.input, z.Abs(), z.W)
    ensures Reaches(z.input, old(z.Abs()), z.Abs().(lim := old(z.Abs().lim)))
    ensures n <= space.Length && z.out == space && z.hist == old(z.hist) + space[..n]
    ensures Answers(z, n < space.Length, flush.BLOCK?)
    ensures flush.BLOCK? ==> Within(z.input, old(z.Abs()), z.Abs().(lim := old(z.Abs().lim)))
    ensures flush.BLOCK? && z.mode.TYPE? ==> z.Abs().(lim := old(z.Abs().lim)) != old(z.Abs())
    ensures ret == if z.mode.DONE? then STREAM_END else if z.mode.BAD? then DATA_ERROR
                   else if flush.FINISH? || (z.next == old(z.next) && n == 0) then BUF_ERROR else OK
    ensures z.window == old(z.window) || fresh(z.window)
  {
    hide Valid, Inflater.Abs, Inflater.Ok, Inflater.Lazy, Inflater.Total, Windowed, Reaches, Within, Rests, Answers;
    hide Legit;
    var next := z.next;
    ghost var s0 := z.Abs();
    Supply(z, more);
    Offer(z, space);
    SkipCheck(z);
    LimitIs(z);
    Loop(z, flush.BLOCK?);
    LegitReach(z.input, s0, z.Abs(), z.W);
    ghost var s1 := z.Abs();
    n := z.put;
    ret := if z.mode.DONE? then STREAM_END else if z.mode.BAD? then DATA_ERROR
           else if flush.FINISH? || (z.next == next && n == 0) then BUF_ERROR else OK;
    Settle(z, flush.BLOCK?);
    assert z.Abs().(lim := s0.lim) == s1;
  }

  // ----- What the division into calls cannot change -----

  /** inflateInit2(strm, -wbits). */
  method NewDecoder(wbits: nat) returns (z: Inflater)
    requires 8 <= wbits <= 15
    ensures fresh(z) && fresh(z.window) && fresh(z.work) && Valid(z) && z.W == Pow2(wbits)
    ensures z.input == [] && z.hist == [] && z.Abs() == INITIAL.(lim := Limit(0, z.W))
  {
    hide *;
    z := new Inflater(wbits);
    NewIsValid(z);
  }

  /** Between calls all output is history. */
  lemma HistoryIs(z: Inflater)
    requires z.put == 0
    ensures z.Abs().out == z.hist
  {
    hide Inflater.Phase;
    assert z.hist + z.out[..0] == z.hist;
  }

  /** A new decoder is a valid one. */
  lemma NewIsValid(z: Inflater)
    requires z.Ok() && z.Lazy() && z.WindowOk([]) && z.hist == [] && z.put == 0
    requires z.Abs() == INITIAL.(lim := Limit(0, z.W))
    ensures Valid(z)
  {
    ReachRefl(z.input, INITIAL);
  }

  /** Decoding of the input supplied so far is over. */
  ghost predicate Settled(z: Inflater)
    reads z, z.out
  {
    z.mode.DONE? || z.mode.BAD? || Starved(z)
  }

  /** Two decoders that were given the same input, however divided, and all the room
      they asked for, have written the same output, have consumed the same bits and are
      in the same state, if no distance is greater than the window of either; at the end
      of the data neither has taken a byte beyond it. */
  lemma Resumable(y: Inflater, z: Inflater)
    requires Valid(y) && Valid(z) && y.input == z.input && Settled(y) && Settled(z)
    requires Narrow(y.input, y.W) && Narrow(z.input, z.W)
    ensures y.hist == z.hist && Free(y.Abs()) == Free(z.Abs()) && !y.refused && !z.refused
    ensures (y.mode.DONE? <==> z.mode.DONE?) && (y.mode.BAD? <==> z.mode.BAD?)
    ensures y.mode.DONE? ==> y.next == z.next && 8 * y.next == y.Abs().pos
  {
    hide Reaches, Legit, Narrow, Next, Valid, Settled;
    NotRefused(y);
    NotRefused(z);
    SameEnd(y, z);
  }

  /** The same for windows of any size, as long as no distance was refused. */
  lemma SameEnd(y: Inflater, z: Inflater)
    requires Valid(y) && Valid(z) && y.input == z.input && Settled(y) && Settled(z) && !y.refused && !z.refused
    ensures y.hist == z.hist && Free(y.Abs()) == Free(z.Abs())
    ensures (y.mode.DONE? <==> z.mode.DONE?) && (y.mode.BAD? <==> z.mode.BAD?)
    ensures y.mode.DONE? ==> y.next == z.next && 8 * y.next == y.Abs().pos
  {
    hide Next, Reaches, Peek, Inflater.Tables, Inflater.Lengths, Inflater.Phase;
    SettledStops(y);
    SettledStops(z);
    FreePath(y);
    FreePath(z);
    StopUnique(y.input, INITIAL, Free(y.Abs()), Free(z.Abs()));
    HistoryIs(y);
    HistoryIs(z);
    ModeOfPhase(y);
    ModeOfPhase(z);
  }

  lemma FreePath(z: Inflater)
    requires Valid(z) && !z.refused
    ensures Reaches(z.input, INITIAL, Free(z.Abs())) && !z.Abs().ph.RefusedP?
    ensures Stopped(z.input, z.Abs()) ==> Stopped(z.input, Free(z.Abs()))
  {
    hide Next, Reaches, Peek, Inflater.Tables, Inflater.Lengths, Inflater.Lazy;
    LimitAside(z.input, z.Abs(), Unlimited);
  }

  /** With no distance greater than the window none is refused, and no match is torn. */
  lemma NotRefused(z: Inflater)
    requires Valid(z) && Narrow(z.input, z.W)
    ensures !z.refused
  {
    hide Next, Reaches, Peek, Inflater.Tables, Inflater.Lengths, Inflater.Lazy, Narrow;
    NarrowHolds(z.input, z.Abs(), z.W);
  }

  lemma NotTorn(z: Inflater)
    requires Legit(z.input, z.Abs(), z.W) && Narrow(z.input, z.W)
    ensures !Torn(z)
  {
    hide Next, Reaches, Legit, Narrow;
    NarrowHolds(z.input, z.Abs(), z.W);
  }

  lemma SettledStops(z: Inflater)
    requires Settled(z)
    ensures Stopped(z.input, z.Abs())
  {
    hide Next, Inflater.Phase, Inflater.Total;
    z.PhaseIs();
    EndHalts(z.input, z.Abs());
  }

  lemma ModeOfPhase(z: Inflater)
    requires z.Ok() && Settled(z)
    ensures z.mode.DONE? <==> z.Abs().ph.DoneP?
    ensures z.mode.BAD? <==> z.Abs().ph.BadP? || z.Abs().ph.RefusedP?
    ensures z.refused <==> z.Abs().ph.RefusedP?
  {
    hide Next, Inflater.Phase, Inflater.Total, Inflater.Acc, Inflater.Lengths, Inflater.CodesOk, Inflater.HeaderOk;
    hide Inflater.CodeLensOk;
    z.PhaseIs();
    EndHalts(z.input, z.Abs());
    if !Stop(z.mode) { z.PhaseNotBad(); }
  }

  /** A decoder that has had only part of the input, or was short of room, has
      written a beginning of what the other writes. */
  lemma NothingLost(y: Inflater, z: Inflater, more: seq<Byte>)
    requires Valid(y) && Valid(z) && z.input == y.input + more && Settled(z)
    requires Narrow(z.input, y.W) && Narrow(z.input, z.W)
    ensures y.hist <= z.hist && Reaches(z.input, Free(y.Abs()), Free(z.Abs()))
  {
    hide Next, Reaches, Peek, Inflater.Ok, Inflater.Phase, Inflater.Lazy, Windowed, Narrow;
    var s, t := Free(y.Abs()), Free(z.Abs());
    NarrowPart(y.input, more, y.W);
    NotRefused(y);
    NotRefused(z);
    FreePath(y);
    FreePath(z);
    SettledStops(z);
    ReachMore(y.input, more, INITIAL, s);
    ReachLinear(z.input, INITIAL, s, t);
    if !Reaches(z.input, s, t) {
      StuckStays(z.input, t, s);
    }
    OutGrows(z.input, s, t);
    HistoryIs(y);
    HistoryIs(z);
  }

  lemma NarrowPart(input: seq<Byte>, more: seq<Byte>, w: nat)
    requires Narrow(input + more, w)
    ensures Narrow(input, w)
  {
    hide Reaches;
    forall s: State | Reaches(input, INITIAL, s) && s.ph.MatchP?
      ensures s.ph.offset <= w
    {
      ReachMore(input, more, INITIAL, s);
    }
  }

  lemma OutGrows(input: seq<Byte>, s: State, t: State)
    requires Reaches(input, s, t)
    ensures s.out <= t.out
  {
    hide Next;
    var n: nat :| Runs(input, s, n, t);
    OutGrowsBy(input, s, n, t);
  }

  lemma {:induction false} OutGrowsBy(input: seq<Byte>, s: State, n: nat, t: State)
    requires Runs(input, s, n, t)
    ensures s.out <= t.out
    decreases n
  {
    hide Next;
    if n > 0 {
      StepKeeps(input, s);
      OutGrowsBy(input, Next(input, s).s, n - 1, t);
    }
  }
}
