/** deflate_fast and deflate_slow: parsing the input into tokens. What the tests of
    avail_out will find is given by the caller: room(k) for the test after the k-th token
    of the stream, and roomAtEnd for the one after the last block. */
module DeflateRun {
  import opened Bits
  import opened Tokens
  import opened DeflateHash
  import opened HashChains
  import opened DeflateState
  import opened Parsing

  datatype Flush = NO_FLUSH | PARTIAL_FLUSH | SYNC_FLUSH | FULL_FLUSH | FINISH

  datatype BlockState = NEED_MORE | BLOCK_DONE | FINISH_STARTED | FINISH_DONE

  /** The tokens stand for the input up to window index i. */
  ghost predicate Told(s: Deflater, i: nat)
    requires s.Shape()
    reads s`tokens, s`data, s`base
  {
    Tells(s.tokens, s.data, s.base + i, s.MaxDist())
  }

  /** _tr_tally_lit: the byte at position c of the input. */
  method TallyLit(s: Deflater, b: Byte, ghost c: nat) returns (full: bool)
    requires s.Shape() && c < |s.data| && b == s.data[c] && Tells(s.tokens, s.data, c, s.MaxDist())
    modifies s`tokens, s`lastLit
    ensures Tells(s.tokens, s.data, c + 1, s.MaxDist()) && s.tokens == old(s.tokens) + [Literal(b)]
    ensures s.lastLit == old(s.lastLit) + 1 && full == (s.lastLit == s.litBufsize - 1)
  {
    hide Tells, Pow2;
    TellLiteral(s.tokens, s.data, c, s.MaxDist());
    s.tokens := s.tokens + [Literal(b)];
    s.lastLit := s.lastLit + 1;
    full := s.lastLit == s.litBufsize - 1;
  }

  /** _tr_tally_dist: a match at position c of the input. */
  method TallyDist(s: Deflater, dist: nat, len: nat, ghost c: nat) returns (full: bool)
    requires s.Shape() && Tells(s.tokens, s.data, c, s.MaxDist()) && Repeats(s.data, c, dist, len)
    requires MIN_MATCH <= len <= MAX_MATCH && dist <= s.MaxDist()
    modifies s`tokens, s`lastLit
    ensures Tells(s.tokens, s.data, c + len, s.MaxDist()) && s.tokens == old(s.tokens) + [Match(dist, len)]
    ensures s.lastLit == old(s.lastLit) + 1 && full == (s.lastLit == s.litBufsize - 1)
  {
    hide Tells, Repeats, Pow2;
    TellMatch(s.tokens, s.data, c, s.MaxDist(), dist, len);
    s.tokens := s.tokens + [Match(dist, len)];
    s.lastLit := s.lastLit + 1;
    full := s.lastLit == s.litBufsize - 1;
  }

  /** FLUSH_BLOCK_ONLY, as far as the tokens go: the next block begins. */
  method FlushBlock(s: Deflater)
    modifies s`lastLit
    ensures s.lastLit == 0
    ensures old(FastOk(s)) ==> FastOk(s)
    ensures old(SlowOk(s)) ==> SlowOk(s)
  {
    hide Deflater.Shape, Deflater.DataOk, Deflater.ChainOk, Deflater.PrimedAt, Deflater.FarOn, Tells, Pending;
    s.lastLit := 0;
  }

  // ----- Searching -----

  /** The string at strstart has been entered if it is whole, and hash_head is what
      was found then, or an older one. */
  ghost predicate Searchable(s: Deflater, hashHead: nat)
    reads s`strstart, s`lookahead, s`matchStart, s`insH, s`data, s`base, s`top, s`ins, s`used, s.window, s.head, s.prev
  {
    && s.Shape() && s.DataOk() && s.ChainOk() && s.top <= s.base + s.strstart + 1
    && s.strstart + MIN_LOOKAHEAD <= s.window.Length && s.matchStart < 0x1_0000_0000
    && s.PrimedAt(s.strstart + 1) && s.Slotted(hashHead) && s.FarOn()
    && (s.lookahead >= MIN_MATCH ==>
          && s.top == s.base + s.strstart + 1 && s.LastAlike(hashHead, s.strstart)
          && (hashHead == 0 || Candidate(s.bits, s.base, s.data, s.ins, hashHead, s.strstart)))
  }

  /** Insert the string at strstart if all of it is there. */
  method Enter(s: Deflater, stale: nat) returns (hashHead: nat)
    requires s.Ok() && s.strstart + MIN_LOOKAHEAD <= s.window.Length && s.Slotted(stale)
    modifies s`insH, s`top, s`ins, s`used, s.head, s.prev
    ensures Searchable(s, hashHead) && s.used >= old(s.used)
    ensures s.ins == old(s.ins) + (if s.lookahead >= MIN_MATCH then {s.base + s.strstart} else {})
  {
    hide Chained, Candidate, Primed, Pow2;
    hashHead := stale;
    if s.lookahead >= MIN_MATCH {
      hashHead := s.InsertString(s.strstart);
    }
  }

  /** hash_head is near enough to be searched. */
  lemma Within(s: Deflater, hashHead: nat)
    requires Searchable(s, hashHead) && hashHead != 0 && Sub32(s.strstart, hashHead) <= s.MaxDist()
    ensures s.Usable(hashHead)
  {
    hide Chained, Candidate, Primed, Pow2;
  }

  /** The search as the strategy allows it: match_length, or other if there is none. */
  method Search(s: Deflater, hashHead: nat, other: nat) returns (len: nat)
    requires Searchable(s, hashHead) && s.lookahead >= 1 && 1 <= s.prevLength <= MAX_MATCH && other < MIN_MATCH
    requires hashHead != 0 && Sub32(s.strstart, hashHead) <= s.MaxDist()
    modifies s`matchStart
    ensures Searchable(s, hashHead) && len <= MAX_MATCH && (other >= 1 ==> len >= 1)
    ensures (len >= MIN_MATCH ==> len <= s.lookahead)
    ensures len >= MIN_MATCH && len > s.prevLength ==> s.Found(len)
    ensures Sought(s.Set(), s.data, s.ins, s.base + s.strstart, s.prevLength, len, s.Reach())
    ensures s.lookahead >= MIN_MATCH && s.prevLength >= 2 && other == 2 ==> len >= 2
  {
    hide Chained, Candidate, Primed, Pow2, Deflater.Found, Deflater.LastAlike, SearchGives, RunLength, Deflater.FarOn;
    hide Repeats, Deflater.Reach;
    Within(s, hashHead);
    len := other;
    if s.strategy != HUFFMAN_ONLY && s.strategy != RLE {
      len := s.LongestMatch(hashHead);
    } else if s.strategy == RLE && Sub32(s.strstart, hashHead) == 1 {
      len := s.LongestMatchFast(hashHead);
      if s.lookahead >= MIN_MATCH { RunFound(s, hashHead, len); }
    } else if s.strategy == RLE {
      if s.lookahead >= MIN_MATCH { RunElsewhere(s, hashHead, len, s.Reach()); }
    }
  }

  /** What longest_match_fast found one byte back. */
  lemma RunFound(s: Deflater, hashHead: nat, len: nat)
    requires Searchable(s, hashHead) && s.lookahead >= MIN_MATCH && Sub32(s.strstart, hashHead) == 1
    requires len <= MAX_MATCH && hashHead != 0
    requires len >= MIN_MATCH ==> s.Found(len) && s.matchStart == hashHead
    requires Largest(len, MIN_MATCH - 1) < MAX_MATCH ==>
               !Repeats(s.data, s.base + s.strstart, s.strstart - hashHead, Largest(len, MIN_MATCH - 1) + 1)
    ensures RunLength(s.data, s.ins, s.base + s.strstart, len, s.Reach())
  {
    hide Chained, Candidate, Primed, Pow2, Deflater.LastAlike, Repeats;
  }

  /** The string one byte back is not the last with this hash, so it is not the same. */
  lemma RunElsewhere(s: Deflater, hashHead: nat, len: nat, dist: nat)
    requires Searchable(s, hashHead) && s.lookahead >= MIN_MATCH && len < MIN_MATCH
    requires hashHead == 0 || Sub32(s.strstart, hashHead) != 1
    ensures RunLength(s.data, s.ins, s.base + s.strstart, len, dist)
  {
    hide Chained, Candidate, Primed, Pow2, Hash3;
    var p := s.base + s.strstart;
    if p >= 2 && p - 1 in s.ins && Repeats(s.data, p, 1, MIN_MATCH) {
      assert s.data[p] == s.data[p - 1] && s.data[p + 1] == s.data[p] && s.data[p + 2] == s.data[p + 1];
      assert Alike(s.Set(), s.data, s.ins, p - 1, p);
      HeadFirst(s, hashHead, p - 1);
    }
  }

  /** With no string near enough there is nothing to be found. */
  lemma NoneNear(s: Deflater, hashHead: nat, len: nat, dist: nat)
    requires Searchable(s, hashHead) && len < MIN_MATCH
    requires hashHead == 0 || Sub32(s.strstart, hashHead) > s.MaxDist()
    ensures Sought(s.Set(), s.data, s.ins, s.base + s.strstart, s.prevLength, len, dist)
  {
    hide Chained, Candidate, Primed, Pow2, Alike, RunLength, Deflater.LastAlike, Ends, CountAlike, Repeats;
    if s.lookahead >= MIN_MATCH {
      if s.strategy == RLE { RunElsewhere(s, hashHead, len, dist); }
      var p := s.base + s.strstart;
      forall q: nat
        ensures !Tried(s.Set(), s.data, s.ins, p, s.prevLength, q)
      {
        if Alike(s.Set(), s.data, s.ins, q, p) { NotBehind(s, hashHead, q); }
      }
    }
  }

  /** A string with the same hash is no nearer than the head of the chain. */
  lemma HeadFirst(s: Deflater, hashHead: nat, q: nat)
    requires Searchable(s, hashHead) && s.lookahead >= MIN_MATCH
    requires Alike(s.Set(), s.data, s.ins, q, s.base + s.strstart)
    ensures q <= s.base + hashHead && q < s.base + s.strstart && (hashHead != 0 ==> hashHead < s.strstart)
    ensures hashHead == 0 ==> s.strstart >= s.MaxDist() >= 250 && s.base > 0
  {
    hide Chained, Primed, Pow2, Deflater.Held, Hash3;
  }

  lemma NotBehind(s: Deflater, hashHead: nat, q: nat)
    requires Searchable(s, hashHead) && s.lookahead >= MIN_MATCH
    requires hashHead == 0 || Sub32(s.strstart, hashHead) > s.MaxDist()
    requires Alike(s.Set(), s.data, s.ins, q, s.base + s.strstart)
    ensures s.base + s.strstart - q >= s.MaxDist()
  {
    hide Searchable, Deflater.Shape, Alike;
    SearchFacts(s, hashHead);
    HeadFirst(s, hashHead, q);
  }

  // ----- deflate_fast -----

  ghost predicate FastOk(s: Deflater)
    reads s, s.window, s.head, s.prev
  {
    s.Ok() && Told(s, s.strstart) && s.matchLength < MIN_MATCH && 1 <= s.prevLength < MIN_MATCH
  }

  /** Between the search at strstart and its outcome. */
  ghost predicate Searched(s: Deflater, hashHead: nat)
    reads s, s.window, s.head, s.prev
  {
    && Searchable(s, hashHead) && Told(s, s.strstart) && s.lookahead >= 1
  }

  /** _tr_tally_lit for the byte at strstart. */
  method FastLiteral(s: Deflater, ghost hashHead: nat) returns (full: bool)
    requires Searched(s, hashHead) && s.matchLength < MIN_MATCH && 1 <= s.prevLength < MIN_MATCH
    modifies s`tokens, s`lastLit, s`lookahead, s`strstart
    ensures FastOk(s) && s.strstart == old(s.strstart) + 1 && s.lookahead == old(s.lookahead) - 1
    ensures s.tokens == old(s.tokens) + [Literal(s.data[s.base + old(s.strstart)])]
    ensures s.lastLit == old(s.lastLit) + 1 && full == (s.lastLit == s.litBufsize - 1)
  {
    hide Chained, Candidate, Primed, Pow2, Tells, Deflater.LastAlike;
    full := TallyLit(s, s.window[s.strstart], s.base + s.strstart);
    s.lookahead := s.lookahead - 1;
    s.strstart := s.strstart + 1;
  }

  /** _tr_tally_dist for the match found at strstart, and its strings entered if it is short. */
  method FastMatch(s: Deflater, stale: nat) returns (hashHead: nat, full: bool)
    requires Searched(s, stale) && MIN_MATCH <= s.matchLength <= MAX_MATCH && s.matchLength <= s.lookahead
    requires s.Found(s.matchLength) && 1 <= s.prevLength < MIN_MATCH
    modifies s`tokens, s`lastLit, s`lookahead, s`strstart, s`matchLength, s`insH, s`top, s`ins, s`used, s.head, s.prev
    ensures FastOk(s) && s.Slotted(hashHead)
    ensures s.strstart == old(s.strstart + s.matchLength) && s.lookahead == old(s.lookahead - s.matchLength)
    ensures s.tokens == old(s.tokens) + [Match(old(s.Reach()), old(s.matchLength))]
    ensures s.lastLit == old(s.lastLit) + 1 && full == (s.lastLit == s.litBufsize - 1)
    ensures forall x: nat :: x in s.ins <==>
              x in old(s.ins) || (old(s.matchLength) <= s.maxLazy && s.lookahead >= MIN_MATCH
                                  && s.base + old(s.strstart) < x < s.base + s.strstart)
  {
    hide Deflater.Ok, Deflater.Shape, Deflater.DataOk, Deflater.Held, Deflater.ChainOk, Deflater.PrimedAt;
    hide Deflater.Slotted, Deflater.Found, Searched, Searchable, Told, FastOk, Tells, Repeats, Sub32, Deflater.FarOn;
    SearchedIs(s, stale, s.matchLength);
    ghost var end := s.strstart + s.matchLength;
    full := TallyDist(s, Sub32(s.strstart, s.matchStart), s.matchLength, s.base + s.strstart);
    s.lookahead := s.lookahead - s.matchLength;
    if s.matchLength <= s.maxLazy && s.lookahead >= MIN_MATCH {
      hashHead := FastEnter(s, stale, end);
    } else {
      hashHead := stale;
      FastSkip(s, end);
    }
    FarOnStill(s, old(s.strstart));
    ToFastOk(s);
  }

  lemma FarOnStill(s: Deflater, before: nat)
    requires s.wsize >= MIN_LOOKAHEAD && before <= s.strstart && (s.base > 0 ==> before >= s.MaxDist())
    ensures s.FarOn()
  {
  }

  /** What is known where a match was found. */
  lemma SearchedIs(s: Deflater, hashHead: nat, len: nat)
    requires Searched(s, hashHead) && s.Found(len)
    ensures s.Shape() && s.Held() && s.ChainOk() && s.PrimedAt(s.strstart + 1) && s.Slotted(hashHead)
    ensures s.top <= s.base + s.strstart + 1 && s.strstart + MIN_LOOKAHEAD <= s.window.Length
    ensures s.base + s.strstart + s.lookahead == |s.data| <= s.base + s.window.Length
    ensures s.strstart < 0x1_0000_0000 && s.matchStart < 0x1_0000_0000 && s.wsize >= MIN_LOOKAHEAD
    ensures Tells(s.tokens, s.data, s.base + s.strstart, s.MaxDist()) && Sub32(s.strstart, s.matchStart) <= s.MaxDist()
    ensures Repeats(s.data, s.base + s.strstart, Sub32(s.strstart, s.matchStart), len)
    ensures s.base > 0 ==> s.strstart >= s.MaxDist()
  {
    hide Searchable, Sub32, Tells, Repeats;
    SearchableIs(s, hashHead);
  }

  lemma ToFastOk(s: Deflater)
    requires s.Shape() && s.Held() && s.ChainOk() && s.PrimedAt(s.strstart) && s.top <= s.base + s.strstart
    requires |s.data| == s.base + s.strstart + s.lookahead && s.matchStart < 0x1_0000_0000 && s.wsize >= MIN_LOOKAHEAD
    requires Tells(s.tokens, s.data, s.base + s.strstart, s.MaxDist()) && s.matchLength == 0 && s.FarOn()
    requires 1 <= s.prevLength < MIN_MATCH
    ensures FastOk(s)
  {
    hide Deflater.Held, Deflater.ChainOk, Deflater.PrimedAt, Tells, Pow2;
  }

  /** A short match: the strings inside it are entered. */
  method FastEnter(s: Deflater, stale: nat, ghost end: nat) returns (hashHead: nat)
    requires s.Shape() && s.Held() && s.ChainOk() && s.PrimedAt(s.strstart + 1) && s.top <= s.base + s.strstart + 1
    requires s.Slotted(stale) && s.matchLength >= MIN_MATCH && end == s.strstart + s.matchLength
    requires |s.data| == s.base + end + s.lookahead && s.lookahead >= MIN_MATCH
    modifies s`strstart, s`matchLength, s`insH, s`top, s`ins, s`used, s.head, s.prev
    ensures s.ChainOk() && s.top <= s.base + end && s.PrimedAt(end) && s.strstart == end && s.matchLength == 0
    ensures s.Slotted(hashHead)
    ensures forall x: nat :: x in s.ins <==> x in old(s.ins) || s.base + old(s.strstart) < x < s.base + end
  {
    hide Deflater.Shape, Deflater.Held, Deflater.ChainOk, Deflater.PrimedAt, Deflater.Slotted;
    s.matchLength := s.matchLength - 1;
    hashHead := EnterRest(s, stale, end);
    s.strstart := s.strstart + 1;
  }

  /** A long match, or the end of the input: only ins_h is made ready behind it. */
  method FastSkip(s: Deflater, ghost end: nat)
    requires s.Shape() && s.Held() && s.ChainOk() && s.top <= s.base + s.strstart + 1 && s.matchLength >= 1
    requires end == s.strstart + s.matchLength && end + 1 < s.window.Length
    modifies s`strstart, s`matchLength, s`insH
    ensures s.ChainOk() && s.top <= s.base + end && s.PrimedAt(end) && s.strstart == end && s.matchLength == 0
  {
    hide Deflater.Shape, Deflater.Held, Deflater.ChainOk, Deflater.PrimedAt;
    s.strstart := s.strstart + s.matchLength;
    s.matchLength := 0;
    PrimeAgain(s);
  }

  /** ins_h made ready for the string at strstart. */
  method PrimeAgain(s: Deflater)
    requires s.Shape() && s.Held() && s.strstart + 1 < s.window.Length
    modifies s`insH
    ensures s.PrimedAt(s.strstart)
  {
    hide Primed, Pow2, Update;
    Primes(s.bits, s.window[s.strstart], s.window[s.strstart + 1]);
    s.insH := Update(s.bits, s.window[s.strstart], s.window[s.strstart + 1]);
  }

  /** Enter the strings inside a match, the first of which is already in the chains. */
  method EnterRest(s: Deflater, stale: nat, ghost end: nat) returns (hashHead: nat)
    requires s.Shape() && s.Held() && s.ChainOk() && s.top <= s.base + s.strstart + 1 && s.PrimedAt(s.strstart + 1)
    requires s.matchLength > 0 && end == s.strstart + s.matchLength + 1 && s.base + end + 2 < |s.data|
    requires s.Slotted(stale)
    modifies s`strstart, s`matchLength, s`insH, s`top, s`ins, s`used, s.head, s.prev
    ensures s.ChainOk() && s.top == s.base + end && s.PrimedAt(end) && s.strstart + 1 == end && s.matchLength == 0
    ensures s.Slotted(hashHead)
    ensures forall x: nat :: x in s.ins <==> x in old(s.ins) || s.base + old(s.strstart) < x < s.base + end
  {
    hide Chained, Candidate, Primed, Pow2, Deflater.LastAlike;
    hashHead := stale;
    while s.matchLength != 0
      invariant s.strstart >= old(s.strstart)
      invariant forall x: nat :: x in s.ins <==> x in old(s.ins) || s.base + old(s.strstart) < x <= s.base + s.strstart
      invariant s.ChainOk() && s.top <= s.base + s.strstart + 1 && s.PrimedAt(s.strstart + 1) && s.Slotted(hashHead)
      invariant end == s.strstart + s.matchLength + 1
      invariant s.matchLength == 0 ==> s.top == s.base + end
      decreases s.matchLength
    {
      s.strstart := s.strstart + 1;
      hashHead := s.InsertString(s.strstart);
      s.matchLength := s.matchLength - 1;
    }
  }

  /** Get ready for one string: refill if need be. */
  method Refill(s: Deflater, ghost c: nat)
    requires s.Ok() && Tells(s.tokens, s.data, c, s.MaxDist())
    modifies s`matchStart, s`strstart, s`base, s`input, s`lookahead, s`insH, s`data, s.window, s.head, s.prev
    ensures s.Ok() && Tells(s.tokens, s.data, c, s.MaxDist())
    ensures s.data + s.input == old(s.data + s.input) && old(s.data) <= s.data
    ensures s.base + s.strstart == old(s.base + s.strstart) && s.Reach() == old(s.Reach())
    ensures old(s.input) == [] || old(s.lookahead) >= MIN_LOOKAHEAD ==> s.data == old(s.data)
    ensures old(s.strstart) >= 1 ==> s.strstart >= 1
    ensures s.lookahead >= MIN_LOOKAHEAD || s.input == []
    ensures s.strstart + MIN_LOOKAHEAD <= s.window.Length
  {
    hide Chained, Candidate, Primed, Pow2, Tells;
    if s.lookahead < MIN_LOOKAHEAD {
      ghost var d := s.data;
      s.FillWindow();
      TellMore(s.tokens, d, s.data[|d|..], c, s.MaxDist());
      assert s.data == d + s.data[|d|..];
    }
  }

  /** The first half of a decision of deflate_fast: what is found at strstart. */
  method FastFind(s: Deflater, stale: nat) returns (hashHead: nat)
    requires FastOk(s) && s.lookahead >= 1 && s.strstart + MIN_LOOKAHEAD <= s.window.Length && s.Slotted(stale)
    modifies s`matchLength, s`matchStart, s`insH, s`top, s`ins, s`used, s.head, s.prev
    ensures Searched(s, hashHead) && s.matchLength <= MAX_MATCH
    ensures s.matchLength >= MIN_MATCH ==> s.matchLength <= s.lookahead && s.Found(s.matchLength)
    ensures Sought(s.Set(), s.data, s.ins, s.base + s.strstart, s.prevLength, s.matchLength, s.Reach())
    ensures s.ins == old(s.ins) + (if s.lookahead >= MIN_MATCH then {s.base + s.strstart} else {})
  {
    hide Deflater.Ok, Searchable, Told, Deflater.Found, Sought, Deflater.Reach;
    FastFacts(s);
    hashHead := Enter(s, stale);
    SearchFacts(s, hashHead);
    if hashHead != 0 && Sub32(s.strstart, hashHead) <= s.MaxDist() {
      s.matchLength := Search(s, hashHead, s.matchLength);
    } else {
      NoneNear(s, hashHead, s.matchLength, s.Reach());
    }
  }

  /** One literal or match of deflate_fast; looks says that a block was flushed, so that avail_out
      is looked at. */
  method FastStep(s: Deflater, stale: nat) returns (hashHead: nat, looks: bool, ghost t: Find)
    requires FastOk(s) && s.lookahead >= 1 && s.strstart + MIN_LOOKAHEAD <= s.window.Length && s.Slotted(stale)
    requires s.BlockOk()
    modifies s`tokens, s`lastLit, s`lookahead, s`strstart, s`matchLength, s`matchStart, s`insH, s`top, s`ins, s`used,
             s.head, s.prev
    ensures FastOk(s) && s.BlockOk() && s.Slotted(hashHead)
    ensures t.p == s.base + old(s.strstart) && s.base + s.strstart == Past(t) && t.len <= MAX_MATCH
    ensures s.lookahead == old(s.lookahead) - (s.strstart - old(s.strstart))
    ensures Chosen(s.Set(), s.data, s.ins, s.prevLength, t) && s.tokens == old(s.tokens) + [TokenOf(s.data, t)]
    ensures forall x: nat :: x in s.ins <==> x in old(s.ins) || Enters(s.Set(), s.data, t, x)
    ensures looks <==> old(s.lastLit) + 1 == s.litBufsize - 1
    ensures s.lastLit == if looks then 0 else old(s.lastLit) + 1
  {
    hide FastOk, SlowOk, Searched, Deflater.Found, Sought, Deflater.Reach, Deflater.Slotted, Deflater.Shape;
    FastParts(s);
    hashHead := FastFind(s, stale);
    FoundParts(s, hashHead);
    ghost var ins, p := s.ins, s.base + s.strstart;
    t := Find(p, s.matchLength, s.Reach());
    if s.matchLength >= MIN_MATCH {
      hashHead, looks := FastMatch(s, hashHead);
    } else {
      ghost var h := hashHead;
      looks := FastLiteral(s, h);
    }
    ChosenStill(s.Set(), s.data, ins, s.ins, s.prevLength, t);
    if looks { FlushBlock(s); }
  }

  lemma FastParts(s: Deflater)
    requires FastOk(s)
    ensures s.Shape() && s.litBufsize >= 128 && s.matchLength < MIN_MATCH && 1 <= s.prevLength < MIN_MATCH
    ensures s.base + s.strstart + s.lookahead == |s.data|
  {
  }

  lemma FoundParts(s: Deflater, hashHead: nat)
    requires Searched(s, hashHead)
    ensures s.Slotted(hashHead) && s.base + s.strstart + s.lookahead == |s.data| && s.lookahead >= 1
  {
    hide Told;
    SearchableIs(s, hashHead);
  }

  /** Strings that are entered afterwards do not matter. */
  lemma ChosenStill(c: Settings, data: seq<Byte>, ins: set<nat>, ins2: set<nat>, before: nat, t: Find)
    requires t.p < |data| && Sought(c, data, ins, t.p, before, t.len, t.dist)
    requires ins <= ins2 && forall x :: x in ins2 && x < t.p ==> x in ins
    ensures Chosen(c, data, ins2, before, t)
  {
    hide Sought;
    SoughtMore(c, data, data, ins, ins2, t.p, before, t.len, t.dist);
  }

  lemma SearchFacts(s: Deflater, hashHead: nat)
    requires Searchable(s, hashHead)
    ensures s.Shape() && s.Slotted(hashHead) && s.strstart < 0x1_0000_0000 && hashHead < 0x1_0000_0000
    ensures s.matchStart < 0x1_0000_0000
    ensures s.base + s.strstart + s.lookahead == |s.data|
  {
  }

  lemma FastFacts(s: Deflater)
    requires s.Ok()
    ensures s.Shape() && s.strstart + s.lookahead <= s.window.Length && s.base + s.strstart + s.lookahead == |s.data|
  {
  }

  /** The block is full after the k-th token of the stream, and flushed: n0 and lit0 are the
      tokens of the stream and of the block when the call began, and size is lit_bufsize. */
  predicate Full(size: nat, n0: nat, lit0: nat, k: nat)
    requires size >= 2
  {
    k > n0 && (lit0 + k - n0) % (size - 1) == 0
  }

  lemma NextFull(size: nat, n0: nat, lit0: nat, k: nat, lit: nat)
    requires size >= 128 && k >= n0 && lit == (lit0 + k - n0) % (size - 1)
    ensures lit < size - 1 && (Full(size, n0, lit0, k + 1) <==> lit + 1 == size - 1)
    ensures (lit0 + k + 1 - n0) % (size - 1) == if lit + 1 == size - 1 then 0 else lit + 1
  {
    var x, m := lit0 + k - n0, size - 1;
    Recombine(x, m);
    if lit + 1 == m {
      MulStep(x / m, m);
      DivModUnique(x + 1, m, x / m + 1, 0);
    } else {
      DivModUnique(x + 1, m, x / m, lit + 1);
    }
  }

  /** What deflate_fast decided since position a gave the tokens out and entered its strings. */
  ghost predicate GreedyRun(s: Deflater, ins: set<nat>, a: nat, ts: seq<Find>, out: seq<Token>)
    requires s.Shape()
    reads s`strstart, s`base, s`data, s`ins, s`prevLength
  {
    && Greedily(s.Set(), s.data, s.ins, s.prevLength, a, ts, s.base + s.strstart, out)
    && forall x: nat :: x in s.ins <==> x in ins || EntersAny(s.Set(), s.data, ts, x)
  }

  ghost predicate EntersAny(c: Settings, data: seq<Byte>, ts: seq<Find>, x: nat) {
    exists i :: 0 <= i < |ts| && Enters(c, data, ts[i], x)
  }

  /** The decisions were taken with enough input ahead, unless there is no more of it. */
  ghost predicate FastAhead(s: Deflater, ts: seq<Find>)
    reads s`strstart, s`base, s`data, s`input
  {
    forall i :: 0 <= i < |ts| ==>
      && ts[i].p < s.base + s.strstart && ts[i].len <= MAX_MATCH
      && (s.input == [] || ts[i].p + MIN_LOOKAHEAD <= |s.data|)
  }

  lemma EntersMore(c: Settings, data: seq<Byte>, data2: seq<Byte>, t: Find, x: nat)
    requires data <= data2 && t.len <= MAX_MATCH && (t.p + MIN_LOOKAHEAD <= |data| || data == data2)
    ensures Enters(c, data, t, x) <==> Enters(c, data2, t, x)
  {
  }

  /** More input changes nothing. */
  lemma GreedyRunMore(c: Settings, data: seq<Byte>, data2: seq<Byte>, ins: set<nat>, before: nat, a: nat, ts: seq<Find>,
                      z: nat, out: seq<Token>)
    requires Greedily(c, data, ins, before, a, ts, z, out) && data <= data2
    requires forall i :: 0 <= i < |ts| ==>
               ts[i].len <= MAX_MATCH && (ts[i].p + MIN_LOOKAHEAD <= |data| || data == data2)
    ensures Greedily(c, data2, ins, before, a, ts, z, out)
    ensures forall x :: EntersAny(c, data, ts, x) <==> EntersAny(c, data2, ts, x)
  {
    hide Greedily, Enters;
    GreedilyMore(c, data, data2, ins, ins, before, a, ts, z, out);
    forall x
      ensures EntersAny(c, data, ts, x) <==> EntersAny(c, data2, ts, x)
    {
      forall i | 0 <= i < |ts|
        ensures Enters(c, data, ts[i], x) <==> Enters(c, data2, ts[i], x)
      {
        EntersMore(c, data, data2, ts[i], x);
      }
    }
  }

  /** One decision of deflate_fast, added to those before. */
  method FastTurn(s: Deflater, stale: nat, ghost ins: set<nat>, ghost a: nat, ghost ts: seq<Find>,
                  ghost out: seq<Token>)
    returns (hashHead: nat, looks: bool, ghost ts2: seq<Find>)
    requires FastOk(s) && s.lookahead >= 1 && s.strstart + MIN_LOOKAHEAD <= s.window.Length && s.Slotted(stale)
    requires s.BlockOk() && GreedyRun(s, ins, a, ts, out) && FastAhead(s, ts)
    requires s.lookahead >= MIN_LOOKAHEAD || s.input == []
    modifies s`tokens, s`lastLit, s`lookahead, s`strstart, s`matchLength, s`matchStart, s`insH, s`top, s`ins, s`used,
             s.head, s.prev
    ensures FastOk(s) && s.BlockOk() && s.Slotted(hashHead) && s.strstart > old(s.strstart)
    ensures old(s.tokens) <= s.tokens && |s.tokens| == |old(s.tokens)| + 1
    ensures GreedyRun(s, ins, a, ts2, out + s.tokens[|old(s.tokens)|..]) && FastAhead(s, ts2)
    ensures looks <==> old(s.lastLit) + 1 == s.litBufsize - 1
    ensures s.lastLit == if looks then 0 else old(s.lastLit) + 1
  {
    hide FastOk, Greedily, Enters, Chosen;
    OkOfFast(s);
    ghost var ins1, c, d := s.ins, s.Set(), s.data;
    ghost var t;
    hashHead, looks, t := FastStep(s, stale);
    ts2 := ts + [t];
    forall i | 0 <= i < |ts|
      ensures Settled(d, d, ins1, s.ins, ts[i].p)
    {
      EntersOnward(c, d, t);
    }
    GreedilyMore(c, d, d, ins1, s.ins, s.prevLength, a, ts, t.p, out);
    GreedilyOn(c, d, s.ins, s.prevLength, a, ts, t, out);
    ghost var ts3 := ts2;
    forall x
      ensures EntersAny(c, d, ts3, x) <==> EntersAny(c, d, ts, x) || Enters(c, d, t, x)
    {
      if Enters(c, d, t, x) { assert Enters(c, d, ts3[|ts|], x); }
      if i :| 0 <= i < |ts| && Enters(c, d, ts[i], x) { assert Enters(c, d, ts3[i], x); }
    }
  }

  lemma GreedyNone(s: Deflater, a: nat)
    requires s.Shape() && a == s.base + s.strstart
    ensures GreedyRun(s, s.ins, a, [], []) && FastAhead(s, [])
  {
  }

  lemma BlockBegins(s: Deflater, n0: nat)
    requires s.Shape() && s.BlockOk()
    ensures s.lastLit == (s.lastLit + n0 - n0) % (s.litBufsize - 1)
  {
    SmallMod(s.lastLit, s.litBufsize - 1);
  }

  lemma FastTells(s: Deflater)
    requires FastOk(s)
    ensures s.Shape() && s.lookahead <= |s.data|
    ensures Tells(s.tokens, s.data + s.input, |s.data| - s.lookahead, s.MaxDist())
  {
    hide Tells;
    TellMore(s.tokens, s.data, s.input, s.base + s.strstart, s.MaxDist());
  }

  lemma OkOfFast(s: Deflater)
    requires FastOk(s)
    ensures s.Shape() && s.base + s.strstart + s.lookahead == |s.data|
  {
  }

  lemma EntersOnward(c: Settings, data: seq<Byte>, t: Find)
    ensures forall x: nat :: Enters(c, data, t, x) ==> x >= t.p
  {
  }

  /** deflate_fast on its way: what it decided, the tokens of the block, and that there was room
      where it looked at avail_out, up to the n-th token. */
  ghost predicate FastState(s: Deflater, ins: set<nat>, a: nat, ts: seq<Find>, n0: nat, lit0: nat, room: nat -> bool,
                            n: nat)
    requires s.Shape()
    reads s`strstart, s`base, s`input, s`data, s`ins, s`prevLength, s`tokens, s`lastLit
  {
    && n0 <= |s.tokens| && GreedyRun(s, ins, a, ts, s.tokens[n0..]) && FastAhead(s, ts)
    && s.lastLit == (lit0 + |s.tokens| - n0) % (s.litBufsize - 1)
    && forall k: nat :: k <= n && k <= |s.tokens| && Full(s.litBufsize, n0, lit0, k) ==> room(k)
  }

  lemma FastStart(s: Deflater, room: nat -> bool)
    requires s.Shape() && s.BlockOk()
    ensures FastState(s, s.ins, s.base + s.strstart, [], |s.tokens|, s.lastLit, room, |s.tokens|)
  {
    GreedyNone(s, s.base + s.strstart);
    BlockBegins(s, |s.tokens|);
    assert s.tokens[|s.tokens|..] == [];
  }

  /** Refill in the middle of deflate_fast. */
  method FastRefill(s: Deflater, ghost ins: set<nat>, ghost a: nat, ghost ts: seq<Find>, ghost n0: nat, ghost lit0: nat,
                    ghost room: nat -> bool)
    requires FastOk(s) && s.Shape() && FastState(s, ins, a, ts, n0, lit0, room, |s.tokens|)
    modifies s`matchStart, s`strstart, s`base, s`input, s`lookahead, s`insH, s`data, s.window, s.head, s.prev
    ensures FastOk(s) && FastState(s, ins, a, ts, n0, lit0, room, |s.tokens|)
    ensures s.data + s.input == old(s.data + s.input) && s.base + s.strstart == old(s.base + s.strstart)
    ensures s.lookahead >= MIN_LOOKAHEAD || s.input == []
    ensures s.strstart + MIN_LOOKAHEAD <= s.window.Length
  {
    hide Deflater.Ok, Greedily, EntersAny, Tells, Full;
    FastFacts(s);
    ghost var d := s.data;
    Refill(s, s.base + s.strstart);
    FastFacts(s);
    GreedyRunMore(s.Set(), d, s.data, s.ins, s.prevLength, a, ts, s.base + s.strstart, s.tokens[n0..]);
  }

  /** One decision, and the look at avail_out. */
  method FastOnce(s: Deflater, stale: nat, room: nat -> bool, ghost ins: set<nat>, ghost a: nat, ghost ts: seq<Find>,
                  ghost n0: nat, ghost lit0: nat)
    returns (hashHead: nat, stop: bool, ghost ts2: seq<Find>)
    requires FastOk(s) && s.lookahead >= 1 && s.strstart + MIN_LOOKAHEAD <= s.window.Length && s.Slotted(stale)
    requires s.BlockOk() && s.Shape() && FastState(s, ins, a, ts, n0, lit0, room, |s.tokens|)
    requires s.lookahead >= MIN_LOOKAHEAD || s.input == []
    modifies s`tokens, s`lastLit, s`lookahead, s`strstart, s`matchLength, s`matchStart, s`insH, s`top, s`ins, s`used,
             s.head, s.prev
    ensures FastOk(s) && s.BlockOk() && s.Slotted(hashHead) && s.strstart > old(s.strstart) && old(s.tokens) <= s.tokens
    ensures stop ==>
              && Full(s.litBufsize, n0, lit0, |s.tokens|) && !room(|s.tokens|)
              && FastState(s, ins, a, ts2, n0, lit0, room, |s.tokens| - 1)
    ensures !stop ==> FastState(s, ins, a, ts2, n0, lit0, room, |s.tokens|)
  {
    hide FastOk, GreedyRun, FastAhead, Full;
    ghost var toks := s.tokens;
    NextFull(s.litBufsize, n0, lit0, |s.tokens|, s.lastLit);
    var looks;
    hashHead, looks, ts2 := FastTurn(s, stale, ins, a, ts, s.tokens[n0..]);
    assert s.tokens[n0..] == toks[n0..] + s.tokens[|toks|..];
    stop := looks && !room(|s.tokens|);       // FLUSH_BLOCK(s, 0)
  }

  /** deflate_fast(s, flush). It has ended, or it is cut short. */
  method DeflateFast(s: Deflater, flush: Flush, room: nat -> bool, roomAtEnd: bool)
    returns (state: BlockState, ghost ended: bool, ghost ts: seq<Find>)
    requires FastOk(s) && s.BlockOk()
    modifies s`tokens, s`lastLit, s`lookahead, s`strstart, s`matchLength, s`matchStart, s`insH, s`top, s`ins, s`used,
             s`input, s`data, s`base, s.window, s.head, s.prev
    ensures FastOk(s) && s.BlockOk() && s.data + s.input == old(s.data + s.input) && old(s.tokens) <= s.tokens
    // what is decided
    ensures GreedyRun(s, old(s.ins), old(s.base + s.strstart), ts, s.tokens[|old(s.tokens)|..])
    ensures forall k: nat :: k < |s.tokens| && Full(s.litBufsize, |old(s.tokens)|, old(s.lastLit), k) ==> room(k)
    // when it ends
    ensures !ended ==>
              && state.NEED_MORE?
              && ((flush.NO_FLUSH? && s.input == [] && s.lookahead < MIN_LOOKAHEAD)
                  || (Full(s.litBufsize, |old(s.tokens)|, old(s.lastLit), |s.tokens|) && !room(|s.tokens|)))
    ensures s.lastLit == if ended then 0 else (old(s.lastLit) + |s.tokens| - |old(s.tokens)|) % (s.litBufsize - 1)
    ensures ended ==>
              && !flush.NO_FLUSH? && s.input == [] && s.lookahead == 0
              && (Full(s.litBufsize, |old(s.tokens)|, old(s.lastLit), |s.tokens|) ==> room(|s.tokens|))
              && state == if flush.FINISH? then (if roomAtEnd then FINISH_DONE else FINISH_STARTED)
                          else if roomAtEnd then BLOCK_DONE else NEED_MORE
    // nothing is left out
    ensures Tells(s.tokens, old(s.data + s.input), |s.data| - s.lookahead, s.MaxDist())
    ensures !flush.NO_FLUSH? && (forall k: nat :: room(k)) ==>
              Tells(s.tokens, old(s.data + s.input), |old(s.data + s.input)|, s.MaxDist())
  {
    hide FastOk, SlowOk, Deflater.Shape, Deflater.Slotted, GreedyRun, FastAhead, Tells, Full;
    var hashHead := 0;
    ghost var n0, lit0, ins0, a := |s.tokens|, s.lastLit, s.ins, s.base + s.strstart;
    ts, ended := [], false;
    OkOfFast(s);
    FastStart(s, room);
    NoHead(s);
    while true
      invariant FastOk(s) && s.BlockOk() && s.Slotted(hashHead) && s.data + s.input == old(s.data + s.input)
      invariant old(s.tokens) <= s.tokens && s.Shape() && FastState(s, ins0, a, ts, n0, lit0, room, |s.tokens|)
      decreases |s.data| + |s.input| - s.base - s.strstart
    {
      FastRefill(s, ins0, a, ts, n0, lit0, room);
      FastTells(s);
      if s.lookahead < MIN_LOOKAHEAD && flush == NO_FLUSH { return NEED_MORE, ended, ts; }
      if s.lookahead == 0 { break; }
      OkOfFast(s);
      var stop;
      hashHead, stop, ts := FastOnce(s, hashHead, room, ins0, a, ts, n0, lit0);
      OkOfFast(s);
      FastTells(s);
      if stop { return NEED_MORE, ended, ts; }
    }
    ended := true;
    FlushBlock(s);
    FastTells(s);
    if !roomAtEnd { return (if flush == FINISH then FINISH_STARTED else NEED_MORE), ended, ts; }
    state := if flush == FINISH then FINISH_DONE else BLOCK_DONE;
  }

  // ----- deflate_slow -----

  /** A true match of the given length begins at the byte before strstart, where
      match_start says. */
  ghost predicate Pending(s: Deflater, len: nat)
    requires s.Shape()
    reads s`strstart, s`matchStart, s`base, s`data
  {
    && s.base + s.strstart >= 1 && 2 <= s.Reach() <= s.MaxDist() + 1
    && Repeats(s.data, s.base + s.strstart - 1, s.Reach() - 1, len)
  }

  /** The input up to here is told, less the byte that waits for a better match. */
  ghost function Waiting(s: Deflater): int
    reads s`strstart, s`base, s`matchAvailable
  {
    s.base + s.strstart - (if s.matchAvailable then 1 else 0)
  }

  ghost predicate SlowOk(s: Deflater)
    reads s, s.window, s.head, s.prev
  {
    && s.Ok() && 1 <= s.matchLength <= MAX_MATCH && (s.matchAvailable ==> s.strstart >= 1)
    && Waiting(s) >= 0 && Tells(s.tokens, s.data, Waiting(s), s.MaxDist())
    && (s.matchLength >= MIN_MATCH ==>
          s.matchAvailable && s.matchLength <= s.lookahead + 1 && Pending(s, s.matchLength))
  }

  /** Look for a match at strstart longer than the previous one: match_length and
      match_start, with prev_length and prev_match saved before. */
  method SlowSearch(s: Deflater, hashHead: nat)
    requires Searchable(s, hashHead) && s.lookahead >= 1 && 1 <= s.prevLength <= MAX_MATCH
    modifies s`matchStart, s`matchLength
    ensures Searchable(s, hashHead) && 1 <= s.matchLength <= MAX_MATCH
    ensures s.matchLength >= MIN_MATCH ==> s.matchLength <= s.lookahead
    ensures s.matchLength >= MIN_MATCH && s.matchLength > s.prevLength ==> s.Found(s.matchLength)
    ensures Choice(s.Set(), s.data, s.ins, s.base + s.strstart, s.prevLength, s.matchLength, s.Reach())
    ensures s.lookahead >= MIN_MATCH && s.prevLength >= 2 ==> s.matchLength >= 2
  {
    hide Searchable, Deflater.Found, Pow2, Sought;
    SearchFacts(s, hashHead);
    s.matchLength := MIN_MATCH - 1;
    if hashHead != 0 && s.prevLength < s.maxLazy && Sub32(s.strstart, hashHead) <= s.MaxDist() {
      s.matchLength := Search(s, hashHead, s.matchLength);
      SearchFacts(s, hashHead);
      ghost var len, dist := s.matchLength, s.Reach();
      assert Sought(s.Set(), s.data, s.ins, s.base + s.strstart, s.prevLength, len, dist);
      if s.matchLength <= 5 && (s.strategy == FILTERED
                                || (s.matchLength == MIN_MATCH && Sub32(s.strstart, s.matchStart) > TOO_FAR)) {
        s.matchLength := MIN_MATCH - 1;
      }
    } else if hashHead == 0 || Sub32(s.strstart, hashHead) > s.MaxDist() {
      NoneNear(s, hashHead, MIN_MATCH - 1, 0);
    }
  }

  /** Enter the rest of the strings of the previous match, as long as they are whole. */
  method EnterMatch(s: Deflater, stale: nat, maxInsert: nat, ghost end: nat) returns (hashHead: nat)
    requires s.Shape() && s.Held() && s.ChainOk() && s.top <= s.base + s.strstart + 1 && s.PrimedAt(s.strstart + 1)
    requires s.prevLength > 0 && end == s.strstart + s.prevLength + 1 && s.base + end <= |s.data|
    requires s.base + maxInsert + MIN_MATCH == |s.data| && s.Slotted(stale)
    modifies s`strstart, s`prevLength, s`insH, s`top, s`ins, s`used, s.head, s.prev
    ensures s.ChainOk() && s.top <= s.base + end && s.PrimedAt(end) && s.strstart + 1 == end && s.prevLength == 0
    ensures s.Slotted(hashHead)
    ensures forall x: nat :: x in s.ins <==>
              x in old(s.ins) || (s.base + old(s.strstart) < x < s.base + end && x + 2 < |s.data|)
  {
    hide Chained, Candidate, Primed, Pow2, Deflater.LastAlike;
    hashHead := stale;
    while s.prevLength != 0
      invariant s.strstart >= old(s.strstart)
      invariant forall x: nat :: x in s.ins <==>
                  x in old(s.ins) || (s.base + old(s.strstart) < x <= s.base + s.strstart && x + 2 < |s.data|)
      invariant s.ChainOk() && s.top <= s.base + s.strstart + 1 && s.PrimedAt(s.strstart + 1) && s.Slotted(hashHead)
      invariant end == s.strstart + s.prevLength + 1
      decreases s.prevLength
    {
      s.strstart := s.strstart + 1;
      if s.strstart <= maxInsert {
        hashHead := s.InsertString(s.strstart);
      }
      s.prevLength := s.prevLength - 1;
    }
  }

  /** The previous match is at least as good: tally it. */
  method SlowMatch(s: Deflater, stale: nat, prevMatch: nat) returns (hashHead: nat, full: bool)
    requires Searchable(s, stale) && s.lookahead >= 1 && s.strstart >= 1 && prevMatch < 0x1_0000_0000
    requires MIN_MATCH <= s.prevLength <= MAX_MATCH && s.prevLength <= s.lookahead + 1
    requires Tells(s.tokens, s.data, s.base + s.strstart - 1, s.MaxDist())
    requires 1 <= Sub32(s.strstart - 1, prevMatch) <= s.MaxDist()
    requires Repeats(s.data, s.base + s.strstart - 1, Sub32(s.strstart - 1, prevMatch), s.prevLength)
    modifies s`tokens, s`lastLit, s`lookahead, s`strstart, s`matchLength, s`matchAvailable, s`prevLength, s`insH, s`top,
             s`ins, s`used, s.head, s.prev
    ensures SlowOk(s) && s.Slotted(hashHead) && !s.matchAvailable && s.matchLength == MIN_MATCH - 1
    ensures s.strstart == old(s.strstart - 1 + s.prevLength) && s.lookahead == old(s.lookahead - (s.prevLength - 1))
    ensures s.tokens == old(s.tokens) + [Match(Sub32(old(s.strstart) - 1, prevMatch), old(s.prevLength))]
    ensures s.lastLit == old(s.lastLit) + 1 && full == (s.lastLit == s.litBufsize - 1)
    ensures forall x: nat :: x in s.ins <==>
              x in old(s.ins) || (s.base + old(s.strstart) < x < s.base + s.strstart && x + 2 < |s.data|)
  {
    hide Deflater.Ok, Deflater.Shape, Deflater.DataOk, Deflater.Held, Deflater.ChainOk, Deflater.PrimedAt;
    hide Deflater.Slotted, Searchable, SlowOk, Tells, Repeats, Sub32, Deflater.FarOn, FastOk, Deflater.MaxDist;
    SearchableIs(s, stale);
    full := TallyDist(s, Sub32(s.strstart - 1, prevMatch), s.prevLength, s.base + s.strstart - 1);
    hashHead := PassMatch(s, stale);
    FarOnStill(s, old(s.strstart));
    NoneWaits(s);
  }

  /** Past a match that has been tallied: its strings are entered as long as they are whole. */
  method PassMatch(s: Deflater, stale: nat) returns (hashHead: nat)
    requires s.Shape() && s.Held() && s.ChainOk() && s.top <= s.base + s.strstart + 1 && s.PrimedAt(s.strstart + 1)
    requires s.Slotted(stale) && s.prevLength >= MIN_MATCH && s.prevLength <= s.lookahead + 1 && s.strstart >= 1
    requires s.base + s.strstart + s.lookahead == |s.data|
    modifies s`lookahead, s`strstart, s`matchLength, s`matchAvailable, s`prevLength, s`insH, s`top, s`ins, s`used,
             s.head, s.prev
    ensures s.ChainOk() && s.top <= s.base + s.strstart && s.PrimedAt(s.strstart) && s.Slotted(hashHead)
    ensures s.strstart == old(s.strstart - 1 + s.prevLength) && s.lookahead == old(s.lookahead - (s.prevLength - 1))
    ensures !s.matchAvailable && s.matchLength == MIN_MATCH - 1
    ensures forall x: nat :: x in s.ins <==>
              x in old(s.ins) || (s.base + old(s.strstart) < x < s.base + s.strstart && x + 2 < |s.data|)
  {
    hide Deflater.Shape, Deflater.Held, Deflater.ChainOk, Deflater.PrimedAt, Deflater.Slotted;
    var maxInsert := s.strstart + s.lookahead - MIN_MATCH;
    ghost var end := s.strstart + s.prevLength - 1;
    s.lookahead := s.lookahead - (s.prevLength - 1);
    s.prevLength := s.prevLength - 2;
    hashHead := EnterMatch(s, stale, maxInsert, end);
    s.matchAvailable := false;
    s.matchLength := MIN_MATCH - 1;
    s.strstart := s.strstart + 1;
  }

  lemma SearchableIs(s: Deflater, hashHead: nat)
    requires Searchable(s, hashHead)
    ensures s.Shape() && s.Held() && s.ChainOk() && s.PrimedAt(s.strstart + 1) && s.Slotted(hashHead)
    ensures s.top <= s.base + s.strstart + 1 && s.strstart + MIN_LOOKAHEAD <= s.window.Length
    ensures s.base + s.strstart + s.lookahead == |s.data| <= s.base + s.window.Length
    ensures s.strstart < 0x1_0000_0000 && s.matchStart < 0x1_0000_0000 && s.wsize >= MIN_LOOKAHEAD
    ensures s.base > 0 ==> s.strstart >= s.MaxDist()
  {
    hide Deflater.ChainOk, Candidate, Primed, Pow2, Deflater.LastAlike;
  }

  /** With no byte waiting all of the input up to strstart is told. */
  lemma NoneWaits(s: Deflater)
    requires s.Shape() && s.Held() && s.ChainOk() && s.PrimedAt(s.strstart) && s.top <= s.base + s.strstart
    requires |s.data| == s.base + s.strstart + s.lookahead && s.matchStart < 0x1_0000_0000 && s.wsize >= MIN_LOOKAHEAD
    requires Tells(s.tokens, s.data, s.base + s.strstart, s.MaxDist())
    requires !s.matchAvailable && s.matchLength == MIN_MATCH - 1 && s.FarOn()
    ensures SlowOk(s)
  {
    hide Deflater.Held, Deflater.ChainOk, Deflater.PrimedAt, Tells, Pow2, Repeats;
  }

  /** The byte at strstart waits, with the match found there if there is one; the one
      that waited before it is a literal, and avail_out is looked at after it. */
  method SlowLiteral(s: Deflater, ghost hashHead: nat) returns (looks: bool)
    requires Searchable(s, hashHead) && s.lookahead >= 1 && (s.matchAvailable ==> s.strstart >= 1)
    requires Waiting(s) >= 0 && Tells(s.tokens, s.data, Waiting(s), s.MaxDist())
    requires 1 <= s.matchLength <= MAX_MATCH && s.BlockOk()
    requires s.matchLength >= MIN_MATCH ==> s.matchLength <= s.lookahead && s.Found(s.matchLength)
    modifies s`tokens, s`lastLit, s`lookahead, s`strstart, s`matchAvailable
    ensures SlowOk(s) && s.BlockOk() && s.matchAvailable && looks == old(s.matchAvailable)
    ensures s.strstart == old(s.strstart) + 1 && s.lookahead == old(s.lookahead) - 1
    ensures s.base + old(s.strstart) < |s.data|
    ensures s.tokens == old(s.tokens) + if looks then [Literal(s.data[s.base + old(s.strstart) - 1])] else []
    ensures s.lastLit == if !looks then old(s.lastLit)
                         else if old(s.lastLit) + 1 == s.litBufsize - 1 then 0 else old(s.lastLit) + 1
    ensures s.matchLength >= MIN_MATCH ==> s.Reach() == old(s.Reach()) + 1
  {
    hide Deflater.Ok, Deflater.Shape, Deflater.DataOk, Deflater.Held, Deflater.ChainOk, Deflater.PrimedAt;
    hide Deflater.Slotted, Deflater.Found, Pending, Searchable, SlowOk, FastOk, Tells, Repeats, Sub32, Deflater.FarOn;
    hide Deflater.Reach;
    SearchableIs(s, hashHead);
    ShapeSizes(s);
    looks := s.matchAvailable;
    if s.matchAvailable {
      ByteBefore(s);
      var full := TallyLit(s, s.window[s.strstart - 1], s.base + s.strstart - 1);
      if full { FlushBlock(s); }
    } else {
      s.matchAvailable := true;
    }
    StepOn(s);
    FarOnStill(s, old(s.strstart));
    OneWaits(s);
  }

  lemma ShapeSizes(s: Deflater)
    requires s.Shape()
    ensures s.litBufsize >= 128
  {
  }

  /** The byte that waits is in the window. */
  lemma ByteBefore(s: Deflater)
    requires s.Held() && s.strstart >= 1 && s.base + s.strstart <= |s.data| && s.strstart <= s.window.Length
    ensures s.window[s.strstart - 1] == s.data[s.base + s.strstart - 1]
  {
  }

  /** strstart++; lookahead--. */
  method StepOn(s: Deflater)
    requires s.Shape() && s.strstart + MIN_LOOKAHEAD <= s.window.Length && s.lookahead >= 1
    requires s.matchStart < 0x1_0000_0000 && (s.matchLength >= MIN_MATCH ==> s.Found(s.matchLength))
    modifies s`strstart, s`lookahead
    ensures s.strstart == old(s.strstart) + 1 && s.lookahead == old(s.lookahead) - 1
    ensures s.matchLength >= MIN_MATCH ==> Pending(s, s.matchLength) && s.Reach() == old(s.Reach()) + 1
  {
    hide Sub32, Pow2;
    Reached(s);
    s.strstart := s.strstart + 1;
    s.lookahead := s.lookahead - 1;
  }

  /** With the byte before strstart waiting all of the input up to that byte is told. */
  lemma OneWaits(s: Deflater)
    requires s.Shape() && s.Held() && s.ChainOk() && s.PrimedAt(s.strstart) && s.top <= s.base + s.strstart
    requires |s.data| == s.base + s.strstart + s.lookahead && s.matchStart < 0x1_0000_0000 && s.wsize >= MIN_LOOKAHEAD
    requires s.strstart >= 1 && Tells(s.tokens, s.data, s.base + s.strstart - 1, s.MaxDist())
    requires s.matchAvailable && 1 <= s.matchLength <= MAX_MATCH && s.FarOn()
    requires s.matchLength >= MIN_MATCH ==> s.matchLength <= s.lookahead + 1 && Pending(s, s.matchLength)
    ensures SlowOk(s)
  {
    hide Deflater.Held, Deflater.ChainOk, Deflater.PrimedAt, Tells, Pow2, Pending;
  }

  lemma Reached(s: Deflater)
    requires s.Shape() && s.strstart < 2 * s.wsize && s.matchStart < 0x1_0000_0000
    ensures s.Reach() <= s.MaxDist() ==>
              Sub32(s.strstart + 1, s.matchStart) == s.Reach() + 1
  {
  }

  /** Where deflate_slow stands. */
  ghost function PlaceOf(s: Deflater): Place
    reads s`strstart, s`base, s`matchLength, s`matchStart, s`matchAvailable
  {
    Place(s.base + s.strstart, s.matchLength,
          if s.matchLength >= MIN_MATCH && s.Reach() >= 1 then s.Reach() - 1 else 0, s.matchAvailable)
  }

  /** The first half of a decision of deflate_slow: what is found at strstart. */
  method SlowFind(s: Deflater, stale: nat) returns (hashHead: nat, prevMatch: nat)
    requires SlowOk(s) && s.lookahead >= 1 && s.strstart + MIN_LOOKAHEAD <= s.window.Length && s.Slotted(stale)
    modifies s`matchLength, s`matchStart, s`prevLength, s`insH, s`top, s`ins, s`used, s.head, s.prev
    ensures Searchable(s, hashHead) && 1 <= s.matchLength <= MAX_MATCH
    ensures s.matchLength >= MIN_MATCH ==> s.matchLength <= s.lookahead
    ensures s.matchLength >= MIN_MATCH && s.matchLength > s.prevLength ==> s.Found(s.matchLength)
    ensures s.prevLength == old(s.matchLength) && prevMatch == old(s.matchStart) < 0x1_0000_0000
    ensures Choice(s.Set(), s.data, s.ins, s.base + s.strstart, s.prevLength, s.matchLength, s.Reach())
    ensures s.ins == old(s.ins) + (if s.lookahead >= MIN_MATCH then {s.base + s.strstart} else {})
  {
    hide Deflater.Ok, Searchable, Tells, Deflater.Found, Repeats, Sub32, Choice, Pending;
    FastFacts(s);
    hashHead := Enter(s, stale);
    SearchFacts(s, hashHead);
    s.prevLength := s.matchLength;
    prevMatch := s.matchStart;
    SlowSearch(s, hashHead);
  }

  /** One decision of deflate_slow; looks says that avail_out is looked at. */
  method SlowStep(s: Deflater, stale: nat) returns (hashHead: nat, looks: bool, ghost t: Try)
    requires SlowOk(s) && s.lookahead >= 1 && s.strstart + MIN_LOOKAHEAD <= s.window.Length && s.Slotted(stale)
    requires s.BlockOk()
    modifies s`tokens, s`lastLit, s`lookahead, s`strstart, s`matchLength, s`matchStart, s`matchAvailable, s`prevLength,
             s`insH, s`top, s`ins, s`used, s.head, s.prev
    ensures SlowOk(s) && s.BlockOk() && s.Slotted(hashHead) && s.strstart > old(s.strstart)
    ensures s.lookahead == old(s.lookahead) - (s.strstart - old(s.strstart))
    ensures s.strstart <= old(s.strstart) + MAX_MATCH
    ensures t.at == old(PlaceOf(s)) && Decided(s.Set(), s.data, s.ins, t)
    ensures (Takes(t) ==> t.at.p >= 1) && PlaceOf(s) == Onward(t) && s.tokens == old(s.tokens) + Tallied(s.data, t)
    ensures forall x: nat :: x in s.ins <==>
              x in old(s.ins) || (s.base + old(s.strstart) <= x < s.base + s.strstart && x + 2 < |s.data|)
    ensures looks <==> (if Takes(t) then old(s.lastLit) + 1 == s.litBufsize - 1 else t.at.waits)
    ensures s.lastLit == if Tallied(s.data, t) == [] then old(s.lastLit)
                         else if old(s.lastLit) + 1 == s.litBufsize - 1 then 0 else old(s.lastLit) + 1
  {
    hide Deflater.Ok, Searchable, Tells, Deflater.Found, Repeats, Sub32, Choice, Deflater.Shape, Deflater.Slotted;
    hide SlowOk, FastOk, Pending;
    SlowParts(s);
    t := Try(PlaceOf(s), 0, 0);
    var prevMatch;
    hashHead, prevMatch := SlowFind(s, stale);
    SearchFacts(s, hashHead);
    ghost var ins, c, p, b := s.ins, s.Set(), s.base + s.strstart, s.prevLength;
    t := t.(len := s.matchLength, dist := s.Reach());
    if s.prevLength >= MIN_MATCH && s.matchLength <= s.prevLength {
      hashHead, looks := SlowMatch(s, hashHead, prevMatch);
      if looks { FlushBlock(s); }
    } else {
      ghost var h := hashHead;
      looks := SlowLiteral(s, h);
    }
    ChoiceStill(c, s.data, ins, s.ins, p, b, t.len, t.dist);
  }

  /** What is needed of SlowOk in a decision. */
  lemma SlowParts(s: Deflater)
    requires SlowOk(s)
    ensures s.Ok() && s.Shape() && s.strstart < 0x1_0000_0000 && s.matchStart < 0x1_0000_0000
    ensures s.base + s.strstart + s.lookahead == |s.data| && s.litBufsize >= 128
    ensures 1 <= s.matchLength <= MAX_MATCH && (s.matchAvailable ==> s.strstart >= 1)
    ensures Waiting(s) >= 0 && Tells(s.tokens, s.data, Waiting(s), s.MaxDist())
    ensures s.matchLength >= MIN_MATCH ==>
              && s.matchAvailable && s.matchLength <= s.lookahead + 1
              && 1 <= Sub32(s.strstart - 1, s.matchStart) == s.Reach() - 1 <= s.MaxDist()
              && Repeats(s.data, s.base + s.strstart - 1, Sub32(s.strstart - 1, s.matchStart), s.matchLength)
  {
    hide Tells, Repeats, Sub32;
    if s.matchLength >= MIN_MATCH { PendingDist(s, s.matchLength); }
  }

  /** Strings that are entered afterwards do not matter. */
  lemma ChoiceStill(c: Settings, data: seq<Byte>, ins: set<nat>, ins2: set<nat>, p: nat, before: nat, len: nat,
                    dist: nat)
    requires p < |data| && Choice(c, data, ins, p, before, len, dist)
    requires ins <= ins2 && forall x :: x in ins2 && x < p ==> x in ins
    ensures Choice(c, data, ins2, p, before, len, dist)
  {
    hide Choice;
    ChoiceMore(c, data, data, ins, ins2, p, before, len, dist);
  }

  lemma PendingDist(s: Deflater, len: nat)
    requires s.Shape() && s.strstart >= 1 && s.strstart < 0x1_0000_0000 && s.matchStart < 0x1_0000_0000
    requires Pending(s, len)
    ensures Sub32(s.strstart - 1, s.matchStart) == s.Reach() - 1
  {
  }

  /** Input that arrives does not disturb a pending match. */
  lemma StillPending(s: Deflater, data: seq<Byte>, p: nat, dist: nat, len: nat)
    requires data <= s.data && Repeats(data, p, dist, len)
    ensures Repeats(s.data, p, dist, len)
  {
    RepeatsMore(data, s.data[|data|..], p, dist, len);
    assert s.data == data + s.data[|data|..];
  }

  /** What deflate_slow decided since it stood at a gave the tokens out, and it entered every
      string that it passed. */
  ghost predicate LazyRun(s: Deflater, ins: set<nat>, a: Place, ts: seq<Try>, z: Place, out: seq<Token>)
    requires s.Shape()
    reads s`data, s`ins
  {
    && Lazily(s.Set(), s.data, s.ins, a, ts, z, out) && a.p <= z.p
    && forall x: nat :: x in s.ins <==> x in ins || (a.p <= x < z.p && x + 2 < |s.data|)
  }

  /** The decisions were taken with enough input ahead, unless there is no more of it. */
  ghost predicate SlowAhead(s: Deflater, ts: seq<Try>)
    reads s`strstart, s`base, s`data, s`input, s`lookahead
  {
    && (forall i :: 0 <= i < |ts| ==>
          ts[i].at.p < s.base + s.strstart && (s.input == [] || ts[i].at.p + MIN_LOOKAHEAD <= |s.data|))
    && (ts != [] && s.input != [] ==> s.lookahead >= MIN_MATCH)
  }

  /** Refill in the middle of deflate_slow. */
  method SlowRefill(s: Deflater)
    requires SlowOk(s)
    modifies s`matchStart, s`strstart, s`base, s`input, s`lookahead, s`insH, s`data, s.window, s.head, s.prev
    ensures SlowOk(s) && s.data + s.input == old(s.data + s.input) && s.base + s.strstart == old(s.base + s.strstart)
    ensures PlaceOf(s) == old(PlaceOf(s)) && old(s.data) <= s.data
    ensures old(s.input) == [] || old(s.lookahead) >= MIN_LOOKAHEAD ==> s.data == old(s.data)
    ensures s.lookahead >= MIN_LOOKAHEAD || s.input == []
    ensures s.strstart + MIN_LOOKAHEAD <= s.window.Length
  {
    hide Deflater.Ok, Tells, Repeats, Sub32;
    ghost var d, r, p, l := s.data, s.Reach(), s.base + s.strstart, s.matchLength;
    FastFacts(s);
    Refill(s, Waiting(s));
    FastFacts(s);
    if l >= MIN_MATCH { StillPending(s, d, p - 1, r - 1, l); }
  }

  lemma LazilyNone(c: Settings, data: seq<Byte>, ins: set<nat>, a: Place, z: Place, out: seq<Token>)
    requires Lazily(c, data, ins, a, [], z, out)
    ensures a == z && out == []
  {
  }

  lemma OkOfSlow(s: Deflater)
    requires SlowOk(s)
    ensures s.Shape() && s.base + s.strstart + s.lookahead == |s.data|
  {
  }

  /** One decision of deflate_slow, added to those before. */
  method SlowTurn(s: Deflater, stale: nat, ghost ins: set<nat>, ghost a: Place, ghost ts: seq<Try>,
                  ghost out: seq<Token>)
    returns (hashHead: nat, looks: bool, ghost ts2: seq<Try>)
    requires SlowOk(s) && s.lookahead >= 1 && s.strstart + MIN_LOOKAHEAD <= s.window.Length && s.Slotted(stale)
    requires s.BlockOk() && LazyRun(s, ins, a, ts, PlaceOf(s), out) && SlowAhead(s, ts)
    requires s.lookahead >= MIN_LOOKAHEAD || s.input == []
    modifies s`tokens, s`lastLit, s`lookahead, s`strstart, s`matchLength, s`matchStart, s`matchAvailable, s`prevLength,
             s`insH, s`top, s`ins, s`used, s.head, s.prev
    ensures SlowOk(s) && s.BlockOk() && s.Slotted(hashHead) && s.strstart > old(s.strstart)
    ensures old(s.tokens) <= s.tokens && |s.tokens| <= |old(s.tokens)| + 1
    ensures LazyRun(s, ins, a, ts2, PlaceOf(s), out + s.tokens[|old(s.tokens)|..]) && SlowAhead(s, ts2)
    ensures looks <==> s.tokens != old(s.tokens)
                       && (s.tokens[|s.tokens| - 1].Literal? || old(s.lastLit) + 1 == s.litBufsize - 1)
    ensures s.lastLit == if s.tokens == old(s.tokens) then old(s.lastLit)
                         else if old(s.lastLit) + 1 == s.litBufsize - 1 then 0 else old(s.lastLit) + 1
  {
    hide SlowOk, Lazily, Decided;
    OkOfSlow(s);
    ghost var ins1, c, d := s.ins, s.Set(), s.data;
    ghost var t;
    hashHead, looks, t := SlowStep(s, stale);
    OkOfSlow(s);
    ts2 := ts + [t];
    LazilyMore(c, d, d, ins1, s.ins, a, ts, t.at, out);
    LazilyOn(c, d, s.ins, a, ts, t, out);
    assert s.tokens[|old(s.tokens)|..] == Tallied(d, t);
    assert Onward(t).p > t.at.p;
  }

  /** The byte still waiting when the input ends. */
  method LastLiteral(s: Deflater)
    requires SlowOk(s) && s.lookahead == 0
    modifies s`tokens, s`lastLit, s`matchAvailable
    ensures SlowOk(s) && !s.matchAvailable
    ensures old(s.matchAvailable) ==> 1 <= s.base + s.strstart <= |s.data|
    ensures s.tokens == old(s.tokens) + if old(s.matchAvailable) then [Literal(s.data[s.base + s.strstart - 1])] else []
  {
    hide Chained, Primed, Pow2, Tells, Repeats, Sub32;
    if s.matchAvailable {
      var full := TallyLit(s, s.window[s.strstart - 1], s.base + s.strstart - 1);
      s.matchAvailable := false;
    }
  }

  /** avail_out is looked at after the k-th token. */
  predicate Looks(tokens: seq<Token>, size: nat, n0: nat, lit0: nat, k: nat)
    requires size >= 2
  {
    n0 < k <= |tokens| && (tokens[k - 1].Literal? || Full(size, n0, lit0, k))
  }

  /** deflate_slow on its way: what it decided, the tokens of the block, and that there was room
      where it looked at avail_out, up to the n-th token. */
  ghost predicate SlowState(s: Deflater, ins: set<nat>, a: Place, ts: seq<Try>, n0: nat, lit0: nat, room: nat -> bool,
                            n: nat)
    requires s.Shape()
    reads s`strstart, s`base, s`matchLength, s`matchStart, s`matchAvailable, s`lookahead, s`input, s`data, s`ins,
          s`tokens, s`lastLit
  {
    && n0 <= |s.tokens| && LazyRun(s, ins, a, ts, PlaceOf(s), s.tokens[n0..]) && SlowAhead(s, ts)
    && s.lastLit == (lit0 + |s.tokens| - n0) % (s.litBufsize - 1)
    && forall k: nat :: k <= n && Looks(s.tokens, s.litBufsize, n0, lit0, k) ==> room(k)
  }

  /** The same, with the decisions taken so far. */
  method LazyRefill(s: Deflater, ghost ins: set<nat>, ghost a: Place, ghost ts: seq<Try>, ghost n0: nat,
                    ghost lit0: nat,
                    ghost room: nat -> bool)
    requires SlowOk(s) && s.Shape() && SlowState(s, ins, a, ts, n0, lit0, room, |s.tokens|)
    modifies s`matchStart, s`strstart, s`base, s`input, s`lookahead, s`insH, s`data, s.window, s.head, s.prev
    ensures SlowOk(s) && s.data + s.input == old(s.data + s.input) && s.base + s.strstart == old(s.base + s.strstart)
    ensures SlowState(s, ins, a, ts, n0, lit0, room, |s.tokens|)
    ensures s.lookahead >= MIN_LOOKAHEAD || s.input == []
    ensures s.strstart + MIN_LOOKAHEAD <= s.window.Length
  {
    hide SlowOk, Lazily, Looks;
    ghost var d, z, out := s.data, PlaceOf(s), s.tokens[n0..];
    OkOfSlow(s);
    SlowRefill(s);
    OkOfSlow(s);
    LazilyMore(s.Set(), d, s.data, s.ins, s.ins, a, ts, z, out);
    if ts == [] { LazilyNone(s.Set(), s.data, s.ins, a, z, out); }
  }

  lemma SlowStart(s: Deflater, room: nat -> bool)
    requires s.Shape() && s.BlockOk()
    ensures SlowState(s, s.ins, PlaceOf(s), [], |s.tokens|, s.lastLit, room, |s.tokens|)
  {
    LazyNone(s);
    BlockBegins(s, |s.tokens|);
    assert s.tokens[|s.tokens|..] == [];
  }

  /** One decision, and the look at avail_out. */
  method SlowOnce(s: Deflater, stale: nat, room: nat -> bool, ghost ins: set<nat>, ghost a: Place, ghost ts: seq<Try>,
                  ghost n0: nat, ghost lit0: nat)
    returns (hashHead: nat, stop: bool, ghost ts2: seq<Try>)
    requires SlowOk(s) && s.lookahead >= 1 && s.strstart + MIN_LOOKAHEAD <= s.window.Length && s.Slotted(stale)
    requires s.BlockOk() && s.Shape() && SlowState(s, ins, a, ts, n0, lit0, room, |s.tokens|)
    requires s.lookahead >= MIN_LOOKAHEAD || s.input == []
    modifies s`tokens, s`lastLit, s`lookahead, s`strstart, s`matchLength, s`matchStart, s`matchAvailable, s`prevLength,
             s`insH, s`top, s`ins, s`used, s.head, s.prev
    ensures SlowOk(s) && s.BlockOk() && s.Slotted(hashHead) && s.strstart > old(s.strstart) && old(s.tokens) <= s.tokens
    ensures stop ==>
              && Looks(s.tokens, s.litBufsize, n0, lit0, |s.tokens|) && !room(|s.tokens|)
              && SlowState(s, ins, a, ts2, n0, lit0, room, |s.tokens| - 1)
    ensures !stop ==> SlowState(s, ins, a, ts2, n0, lit0, room, |s.tokens|)
  {
    hide SlowOk, LazyRun, SlowAhead, Full;
    ghost var toks := s.tokens;
    NextFull(s.litBufsize, n0, lit0, |s.tokens|, s.lastLit);
    var looks;
    hashHead, looks, ts2 := SlowTurn(s, stale, ins, a, ts, s.tokens[n0..]);
    assert s.tokens[n0..] == toks[n0..] + s.tokens[|toks|..];
    stop := looks && !room(|s.tokens|);
  }

  /** The loop of deflate_slow: until there is nothing more to do, or more is needed. */
  method SlowLoop(s: Deflater, flush: Flush, room: nat -> bool) returns (more: bool, ghost ts: seq<Try>)
    requires SlowOk(s) && s.BlockOk()
    modifies s`tokens, s`lastLit, s`lookahead, s`strstart, s`matchLength, s`matchStart, s`matchAvailable, s`prevLength,
             s`insH, s`top, s`ins, s`used, s`input, s`data, s`base, s.window, s.head, s.prev
    ensures SlowOk(s) && s.BlockOk() && s.data + s.input == old(s.data + s.input) && old(s.tokens) <= s.tokens
    ensures more ==>
              || (flush.NO_FLUSH? && s.input == [] && s.lookahead < MIN_LOOKAHEAD
                  && SlowState(s, old(s.ins), old(PlaceOf(s)), ts, |old(s.tokens)|, old(s.lastLit), room, |s.tokens|))
              || (Looks(s.tokens, s.litBufsize, |old(s.tokens)|, old(s.lastLit), |s.tokens|) && !room(|s.tokens|)
                  && SlowState(s, old(s.ins), old(PlaceOf(s)), ts, |old(s.tokens)|, old(s.lastLit), room,
                     |s.tokens| - 1))
    ensures !more ==>
              && !flush.NO_FLUSH? && s.input == [] && s.lookahead == 0
              && SlowState(s, old(s.ins), old(PlaceOf(s)), ts, |old(s.tokens)|, old(s.lastLit), room, |s.tokens|)
  {
    hide SlowOk, SlowState, Looks, Deflater.Shape, Deflater.Slotted;
    var hashHead := 0;
    ghost var n0, lit0, ins0, a := |s.tokens|, s.lastLit, s.ins, PlaceOf(s);
    ts := [];
    OkOfSlow(s);
    SlowStart(s, room);
    NoHead(s);
    while true
      invariant SlowOk(s) && s.BlockOk() && s.Slotted(hashHead) && s.data + s.input == old(s.data + s.input)
      invariant old(s.tokens) <= s.tokens && s.Shape() && SlowState(s, ins0, a, ts, n0, lit0, room, |s.tokens|)
      decreases |s.data| + |s.input| - s.base - s.strstart
    {
      LazyRefill(s, ins0, a, ts, n0, lit0, room);
      OkOfSlow(s);
      if s.lookahead < MIN_LOOKAHEAD && flush == NO_FLUSH { return true, ts; }
      if s.lookahead == 0 { break; }
      var stop;
      hashHead, stop, ts := SlowOnce(s, hashHead, room, ins0, a, ts, n0, lit0);
      OkOfSlow(s);
      if stop { return true, ts; }
    }
    more := false;
  }

  lemma NoHead(s: Deflater)
    ensures s.Slotted(0)
  {
  }

  lemma LazyNone(s: Deflater)
    requires s.Shape()
    ensures LazyRun(s, s.ins, PlaceOf(s), [], PlaceOf(s), []) && SlowAhead(s, [])
  {
  }

  lemma SlowTells(s: Deflater)
    requires SlowOk(s)
    ensures s.Shape() && s.lookahead <= |s.data|
    ensures Waiting(s) == |s.data| - s.lookahead - (if s.matchAvailable then 1 else 0) >= 0
    ensures Tells(s.tokens, s.data + s.input, Waiting(s), s.MaxDist())
  {
    hide Tells, Repeats, Sub32;
    TellMore(s.tokens, s.data, s.input, Waiting(s), s.MaxDist());
  }

  /** The decisions ts led to z, and gave the tokens but for the last literal if that was told
      without a decision; where avail_out was looked at on the way there was room. */
  ghost predicate SlowDone(s: Deflater, ins: set<nat>, a: Place, n0: nat, lit0: nat, room: nat -> bool, ts: seq<Try>,
                           z: Place, last: bool)
    requires s.Shape()
    reads s`data, s`ins, s`tokens
  {
    var n := |s.tokens| - (if last then 1 else 0);
    && n >= n0 && LazyRun(s, ins, a, ts, z, s.tokens[n0..n])
    && (last ==> z.waits && 1 <= z.p == |s.data| && s.tokens[n] == Literal(s.data[z.p - 1]))
    && forall k: nat :: k < n && Looks(s.tokens, s.litBufsize, n0, lit0, k) ==> room(k)
  }

  /** deflate_slow(s, flush). It has ended, or it is cut short; z is where it then stands, before
      the byte that still waits is told. */
  method DeflateSlow(s: Deflater, flush: Flush, room: nat -> bool, roomAtEnd: bool)
    returns (state: BlockState, ghost ended: bool, ghost ts: seq<Try>, ghost z: Place)
    requires SlowOk(s) && s.BlockOk()
    modifies s`tokens, s`lastLit, s`lookahead, s`strstart, s`matchLength, s`matchStart, s`matchAvailable, s`prevLength,
             s`insH, s`top, s`ins, s`used, s`input, s`data, s`base, s.window, s.head, s.prev
    ensures SlowOk(s) && s.BlockOk() && s.data + s.input == old(s.data + s.input) && old(s.tokens) <= s.tokens
    // what is decided
    ensures SlowDone(s, old(s.ins), old(PlaceOf(s)), |old(s.tokens)|, old(s.lastLit), room, ts, z, ended && z.waits)
    // when it ends
    ensures !ended ==>
              && state.NEED_MORE? && z == PlaceOf(s)
              && ((flush.NO_FLUSH? && s.input == [] && s.lookahead < MIN_LOOKAHEAD)
                  || (Looks(s.tokens, s.litBufsize, |old(s.tokens)|, old(s.lastLit), |s.tokens|) && !room(|s.tokens|)))
    ensures s.lastLit == if ended then 0 else (old(s.lastLit) + |s.tokens| - |old(s.tokens)|) % (s.litBufsize - 1)
    ensures ended ==>
              && !flush.NO_FLUSH? && s.input == [] && s.lookahead == 0 && PlaceOf(s) == z.(waits := false)
              && state == if flush.FINISH? then (if roomAtEnd then FINISH_DONE else FINISH_STARTED)
                          else if roomAtEnd then BLOCK_DONE else NEED_MORE
    ensures ended && !z.waits ==>
              Looks(s.tokens, s.litBufsize, |old(s.tokens)|, old(s.lastLit), |s.tokens|) ==> room(|s.tokens|)
    // nothing is left out
    ensures Waiting(s) >= 0 && Tells(s.tokens, old(s.data + s.input), Waiting(s), s.MaxDist())
    ensures !flush.NO_FLUSH? && (forall k: nat :: room(k)) ==>
              Tells(s.tokens, old(s.data + s.input), |old(s.data + s.input)|, s.MaxDist())
  {
    hide SlowOk, FastOk, LazyRun, Tells, Full, Deflater.Shape, SlowAhead;
    OkOfSlow(s);
    var more;
    more, ts := SlowLoop(s, flush, room);
    SlowTells(s);
    z, ended := PlaceOf(s), !more;
    assert s.tokens[|old(s.tokens)|..|s.tokens|] == s.tokens[|old(s.tokens)|..];
    if more { return NEED_MORE, ended, ts, z; }
    LastLiteral(s);
    FlushBlock(s);
    SlowTells(s);
    if !roomAtEnd { return (if flush == FINISH then FINISH_STARTED else NEED_MORE), ended, ts, z; }
    state := if flush == FINISH then FINISH_DONE else BLOCK_DONE;
  }

  // ----- Between calls -----

  /** strm->next_in and strm->avail_in are set to new input. */
  method Supply(s: Deflater, more: seq<Byte>)
    modifies s`input
    ensures s.input == old(s.input) + more
    ensures old(SlowOk(s)) ==> SlowOk(s)
    ensures old(FastOk(s)) ==> FastOk(s)
  {
    hide Chained, Primed, Pow2, Tells, Repeats, Sub32, Deflater.Held;
    s.input := s.input + more;
  }

  /** CLEAR_HASH after a full flush: the strings entered are forgotten, and nothing else. */
  method ClearHash(s: Deflater)
    requires s.Ok()
    modifies s`ins, s.head
    ensures s.Ok() && s.ins == {} && forall h :: 0 <= h < s.head.Length ==> s.head[h] == 0
    ensures old(SlowOk(s)) ==> SlowOk(s)
    ensures old(FastOk(s)) ==> FastOk(s)
  {
    hide Chained, Primed, Pow2, Deflater.Held, Hash3, Tells, Repeats, Sub32;
    ghost var h0 := s.head[..];
    var h := 0;
    while h < s.head.Length
      invariant 0 <= h <= s.head.Length && forall k :: 0 <= k < h ==> s.head[k] == 0
    {
      s.head[h] := 0;
      h := h + 1;
    }
    s.ins := {};
    Forget(s.bits, s.wsize, h0, s.head[..], s.prev[..], s.base, s.data, s.top, old(s.ins), s.used);
  }

  // ----- A new stream -----

  /** deflateInit2 and lm_init, with the arrays as the allocator left them: only head is cleared. */
  method NewDeflater(wbits: nat, memLevel: nat, strategy: Strategy, lazy: nat, good: nat, nice: nat, chain: nat)
    returns (s: Deflater)
    requires 9 <= wbits <= 15 && 1 <= memLevel <= 9 && chain < 0x1_0000_0000
    ensures fresh(s) && SlowOk(s) && FastOk(s) && s.BlockOk() && s.data == [] && s.input == [] && s.tokens == []
    ensures s.ins == {} && s.base == s.strstart == s.lookahead == s.lastLit == 0 && !s.matchAvailable
    ensures s.wsize == Pow2(wbits) && s.litBufsize == Pow2(memLevel + 6)
    ensures s.Set() == Settings(memLevel + 7, s.wsize - 262, strategy, lazy, good, nice, chain)
  {
    hide Chained, Tells;
    s := new Deflater(wbits, memLevel + 7, strategy, lazy, good, nice, chain);
    TellNothing(s.data, s.MaxDist());
  }
}
