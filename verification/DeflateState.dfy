/** The state of deflate: the sliding window, the hash chains over it, and the
    tokens tallied so far. */
module DeflateState {
  import opened Bits
  import opened Tokens
  import opened DeflateHash
  import opened HashChains
  import opened Parsing

  /** a - b on unsigned 32-bit numbers. */
  function Sub32(a: nat, b: nat): (r: nat)
    requires a < 0x1_0000_0000 && b < 0x1_0000_0000
    ensures r < 0x1_0000_0000
    ensures b <= a ==> r == a - b
  {
    if b <= a then a - b else a + 0x1_0000_0000 - b
  }

  /** Moving both ends down by w, whether or not the lower one goes below zero. */
  lemma SubMoves(a: nat, b: nat, w: nat)
    requires a < 0x1_0000_0000 && b < 0x1_0000_0000 && w <= a
    ensures Sub32(a - w, Sub32(b, w)) == Sub32(a, b)
  {
  }

  class Deflater {
    const bits: nat                 // hash_bits
    const wbits: nat                // w_bits
    const wsize: nat                // w_size, 1 << w_bits
    const window: array<Byte>
    const head: array<nat>
    const prev: array<nat>

    var insH: nat
    var strstart: nat
    var lookahead: nat
    var matchStart: nat
    var matchLength: nat
    var prevLength: nat
    var matchAvailable: bool
    var lastLit: nat                // tokens of the current block

    const litBufsize: nat
    const strategy: Strategy
    const maxLazy: nat
    const goodMatch: nat
    const niceMatch: nat
    const maxChain: nat

    var input: seq<Byte>            // strm->next_in, strm->avail_in
    var tokens: seq<Token>

    ghost var data: seq<Byte>       // all input read into the window so far
    ghost var base: nat             // the position in it of window[0]
    ghost var top: nat              // see HashChains
    ghost var ins: set<nat>
    ghost var used: set<nat>

    function MaxDist(): nat
      requires wsize >= MIN_LOOKAHEAD
    {
      wsize - MIN_LOOKAHEAD
    }

    /** How far back match_start is, in 32-bit arithmetic. */
    ghost function Reach(): nat
      reads `strstart, `matchStart
    {
      if strstart < 0x1_0000_0000 && matchStart < 0x1_0000_0000 then Sub32(strstart, matchStart) else 0
    }

    ghost predicate Shape() {
      && 512 <= wsize <= 32768 && wsize == Pow2(wbits) && 8 <= bits <= 16 && window.Length == 2 * wsize
      && head.Length == Pow2(bits) && prev.Length == wsize && head != prev
      && maxChain < 0x1_0000_0000 && litBufsize == Pow2(bits - 1) && litBufsize >= 128
    }

    /** The settings of the stream. */
    ghost function Set(): Settings
      requires wsize >= MIN_LOOKAHEAD
    {
      Settings(bits, MaxDist(), strategy, maxLazy, goodMatch, niceMatch, maxChain)
    }

    /** The window holds the input from base on. */
    ghost predicate Held()
      reads `data, `base, window
    {
      && base <= |data| <= base + window.Length
      && forall i :: 0 <= i < |data| - base ==> window[i] == data[base + i]
    }

    ghost predicate DataOk()
      reads `strstart, `lookahead, `data, `base, window
    {
      Held() && |data| == base + strstart + lookahead
    }

    ghost predicate ChainOk()
      reads `data, `base, `top, `ins, `used, head, prev
    {
      Chained(bits, wsize, head[..], prev[..], base, data, top, ins, used)
    }

    /** The current block has room for another token. */
    ghost predicate BlockOk()
      reads `lastLit
    {
      lastLit < litBufsize - 1
    }

    /** Once the window has moved, what left it is out of reach. */
    ghost predicate FarOn()
      requires wsize >= MIN_LOOKAHEAD
      reads `base, `strstart
    {
      base > 0 ==> strstart >= MaxDist()
    }

    /** The hash is ready for the string at str, once that is whole. */
    ghost predicate PrimedAt(str: nat)
      reads `insH, `data, `base
    {
      base + str + 2 < |data| ==> Primed(bits, insH, data[base + str], data[base + str + 1])
    }

    ghost predicate Ok()
      reads this, window, head, prev
    {
      && Shape() && DataOk() && ChainOk() && top <= base + strstart && PrimedAt(strstart)
      && matchStart < 0x1_0000_0000 && FarOn()
    }

    constructor (wbits: nat, hashBits: nat, strategy: Strategy, lazy: nat, good: nat, nice: nat, chain: nat)
      requires 9 <= wbits <= 15 && 8 <= hashBits <= 16 && chain < 0x1_0000_0000
      ensures Ok() && BlockOk() && ins == {} && data == [] && input == [] && tokens == []
      ensures base == strstart == lookahead == 0
      ensures matchLength == prevLength == MIN_MATCH - 1 && !matchAvailable && wsize == Pow2(wbits) && bits == hashBits
      ensures maxLazy == lazy && goodMatch == good && niceMatch == nice && maxChain == chain && lastLit == 0
      ensures this.strategy == strategy
      ensures fresh(window) && fresh(head) && fresh(prev)
    {
      hide Chained, Primed, Pow2;
      WindowSizes(wbits);
      BlockSizes(hashBits);
      bits, this.wbits, wsize := hashBits, wbits, Pow2(wbits);
      window := new Byte[2 * Pow2(wbits)];
      prev := new nat[Pow2(wbits)];
      head := new nat[Pow2(hashBits)](_ => 0);
      this.strategy, maxLazy, goodMatch, niceMatch, maxChain := strategy, lazy, good, nice, chain;
      litBufsize, lastLit := Pow2(hashBits - 1), 0;         // 1 << (memLevel + 6)
      insH, strstart, lookahead, matchStart := 0, 0, 0, 0;
      matchLength, prevLength, matchAvailable := MIN_MATCH - 1, MIN_MATCH - 1, false;
      input, tokens := [], [];
      data, base, top, ins, used := [], 0, 0, {}, {};
      new;
      Empty(bits, wsize, head[..], prev[..]);
    }

    static lemma WindowSizes(wbits: nat)
      requires 9 <= wbits <= 15
      ensures 512 <= Pow2(wbits) <= 32768
    {
      assert Pow2(9) == 512 && Pow2(15) == 32768;
      Pow2Mono(9, wbits);
      Pow2Mono(wbits, 15);
    }

    static lemma BlockSizes(hashBits: nat)
      requires 8 <= hashBits <= 16
      ensures 128 <= Pow2(hashBits - 1)
    {
      assert Pow2(7) == 128;
      Pow2Mono(7, hashBits - 1);
    }

    // ----- Hash chains -----

    /** INSERT_STRING(s, str, hash_head). */
    method InsertString(str: nat) returns (hashHead: nat)
      requires Shape() && Held() && ChainOk() && top <= base + str && base + str + 2 < |data| && PrimedAt(str)
      modifies `insH, `top, `ins, `used, head, prev
      ensures ChainOk() && top == base + str + 1 && ins == old(ins) + {base + str} && PrimedAt(str + 1)
      ensures LastAlike(hashHead, str)
      ensures Slotted(hashHead) && used >= old(used)
      ensures hashHead == 0 || Candidate(bits, base, data, ins, hashHead, str)
    {
      hide Chained, Update, Hash3, Primed, Candidate, Leads, Pow2;
      ghost var h0, p0 := head[..], prev[..];
      Sizes(bits, wsize, h0, p0, base, data, top, ins, used);
      Rolls(bits, insH, window[str], window[str + 1], window[str + 2]);
      insH := Update(bits, insH, window[str + 2]);
      Insert(bits, wsize, h0, p0, base, data, top, ins, used, str, insH);
      FromHead(bits, wsize, h0, p0, base, data, top, ins, used, str, insH);
      LeadsIn(head[insH], base + str);
      hashHead := head[insH];
      MaskedSlot(str);
      prev[str % wsize] := hashHead;      // prev[str & w_mask]
      head[insH] := str;
      StillCandidate(bits, base, data, ins, hashHead, str);
      ins := ins + {base + str};
      used := used + {Slot(wsize, str)};
      top := base + str + 1;
      assert head[..] == h0[insH := str];
      assert prev[..] == p0[Slot(wsize, str) := hashHead];
    }

    /** The low w_bits bits of a window index are its slot. */
    lemma MaskedSlot(i: nat)
      requires Shape() && i < 2 * wsize
      ensures i % wsize == Slot(wsize, i) < prev.Length
    {
      hide Pow2;
      SlotIsMask(wbits, i);
    }

    /** Zero, or an index whose slot has been used: safe to follow, stale or not. */
    ghost predicate Slotted(v: nat)
      reads `used
    {
      v == 0 || (v < 2 * wsize && Slot(wsize, v) in used)
    }

    /** No string between the one at index v and the one at str is entered with the hash of the
        latter; with v == 0 no string of the window. */
    ghost predicate LastAlike(v: nat, str: nat)
      requires wsize >= MIN_LOOKAHEAD
      reads `base, `data, `ins
    {
      NoneBetween(Set(), data, ins, base + v, base + str, base + str)
    }

    lemma LeadsIn(v: nat, end: nat)
      requires Leads(wsize, v, base, top, used) && top <= end <= base + 2 * wsize
      ensures Slotted(v)
    {
    }

    // ----- Matching -----

    ghost predicate SameAt(cur: nat, i: nat)
      reads `strstart, window
    {
      cur + i < window.Length && strstart + i < window.Length && window[cur + i] == window[strstart + i]
    }

    /** The strings at cur and at strstart agree on all of their first len bytes but the third. */
    ghost predicate Agree(cur: nat, len: nat)
      reads `strstart, window
    {
      forall i: nat :: i < len && i != 2 ==> SameAt(cur, i)
    }

    /** *++scan == *++match eight times over, or until it fails. */
    method Eight(cur: nat, from: nat) returns (len: nat, same: bool)
      requires Shape() && strstart + MAX_MATCH < window.Length && cur <= strstart && 2 <= from <= MAX_MATCH - 8
      requires Agree(cur, from) && (from > 2 ==> SameAt(cur, from))
      ensures from < len <= from + 8 && Agree(cur, len) && same == SameAt(cur, len) && (same ==> len == from + 8)
    {
      len, same := from, true;
      var i := 0;
      while i < 8 && same
        invariant i <= 8 && Agree(cur, len) && from <= len <= from + i
        invariant same ==> len == from + i && (len > 2 ==> SameAt(cur, len))
        invariant if i == 0 then same else from < len && same == SameAt(cur, len)
      {
        len := len + 1;
        same := window[strstart + len] == window[cur + len];
        i := i + 1;
      }
    }

    /** From the fourth byte on, how far the strings agree: checks for the end of the
        longest match are made after every eight comparisons only. */
    method Scan(cur: nat) returns (len: nat)
      requires Shape() && strstart + MAX_MATCH < window.Length && cur <= strstart && Agree(cur, 2)
      ensures MIN_MATCH <= len <= MAX_MATCH && Agree(cur, len) && (len < MAX_MATCH ==> !SameAt(cur, len))
    {
      hide Agree, SameAt;
      var same;
      len, same := Eight(cur, 2);
      while same && len < MAX_MATCH
        invariant 2 < len <= MAX_MATCH && Agree(cur, len) && same == SameAt(cur, len)
        invariant same ==> (len - 2) % 8 == 0
      {
        len, same := Eight(cur, len);
      }
    }

    /** The strings at cur and at strstart agree on all of their first len bytes. */
    ghost predicate AllSame(cur: nat, len: nat)
      reads `strstart, window
    {
      forall i: nat :: i < len ==> SameAt(cur, i)
    }

    /** The strings agree for n bytes and no more, the third aside, if that is more than best. */
    ghost predicate Measured(cur: nat, best: nat, n: nat)
      reads `strstart, window
    {
      && n <= MAX_MATCH && (n > 0 ==> n >= MIN_MATCH && Agree(cur, n))
      && forall k: nat :: best < k <= MAX_MATCH && n < k ==> !AllSame(cur, k)
    }

    /** The length of the match at cur if it may be longer than bestLen, else 0. */
    method Compare(cur: nat, bestLen: nat) returns (len: nat)
      requires Shape() && strstart + MAX_MATCH < window.Length && cur <= strstart && 1 <= bestLen <= MAX_MATCH
      ensures Measured(cur, bestLen, len)
    {
      if window[cur + bestLen] != window[strstart + bestLen]
        || window[cur + bestLen - 1] != window[strstart + bestLen - 1]
        || window[cur] != window[strstart]
        || window[cur + 1] != window[strstart + 1]
      {
        assert !SameAt(cur, bestLen) || !SameAt(cur, bestLen - 1) || !SameAt(cur, 0) || !SameAt(cur, 1);
        return 0;
      }
      len := Scan(cur);
    }

    /** What is repeated is the same in the window. */
    lemma RepeatsSame(cur: nat, len: nat)
      requires Shape() && DataOk() && cur < strstart && Repeats(data, base + strstart, strstart - cur, len)
      ensures AllSame(cur, len)
    {
      hide Pow2;
      forall i: nat | i < len
        ensures SameAt(cur, i)
      {
        assert data[base + strstart + i] == data[base + cur + i];
      }
    }

    /** The bytes of the two strings agree, third included, as far as they are input. */
    lemma MatchIsTrue(cur: nat, len: nat)
      requires Shape() && DataOk() && strstart + MAX_MATCH < window.Length
      requires Candidate(bits, base, data, ins, cur, strstart) && len <= MAX_MATCH && len <= lookahead
      requires Agree(cur, len)
      ensures cur < strstart && Repeats(data, base + strstart, strstart - cur, len)
    {
      hide Hash3;
      var p, d := base + strstart, strstart - cur;
      forall i | p <= i < p + len
        ensures data[i] == data[i - d]
      {
        if i - p == 2 {
          assert SameAt(cur, 0) && SameAt(cur, 1);
          ThirdByte(bits, data[p], data[p + 1], data[p + 2], data[p + 2 - d]);
        } else {
          assert SameAt(cur, i - p);
        }
      }
    }

    /** cur is a string that matches the one at strstart in its hash and lies within reach. */
    ghost predicate Near(cur: nat)
      requires Shape()
      reads `strstart, `base, `data, `ins
    {
      Candidate(bits, base, data, ins, cur, strstart) && strstart - cur <= MaxDist()
    }

    /** What is known of a hash_head: with a whole string ahead it is near; otherwise
        it may be stale, and can only be followed safely. */
    ghost predicate Usable(cur: nat)
      requires Shape()
      reads `strstart, `lookahead, `base, `data, `top, `ins, `used
    {
      && cur <= strstart && Slotted(cur) && (lookahead >= MIN_MATCH ==> Near(cur) && top == base + strstart + 1)
    }

    /** match_start begins a true match of the given length with the string at strstart. */
    ghost predicate Found(len: nat)
      requires Shape()
      reads `strstart, `matchStart, `base, `data
    {
      && Reach() <= MaxDist() && Repeats(data, base + strstart, Reach(), len)
    }

    /** prev[cur_match & wmask], which is usable in its turn unless it is at the limit. */
    method Next(cur: nat, limit: nat) returns (v: nat)
      requires Shape() && DataOk() && ChainOk() && cur != 0 && Usable(cur) && top <= base + strstart + 1
      requires strstart + MIN_LOOKAHEAD <= window.Length
      requires limit == if strstart > MaxDist() then strstart - MaxDist() else 0
      ensures v > limit ==> Usable(v)
      ensures lookahead >= MIN_MATCH ==>
                v < cur && NoneBetween(Set(), data, ins, base + v, base + cur, base + strstart)
    {
      hide Chained, Candidate, Leads, Slot, Pow2, Hash3;
      FollowStale(bits, wsize, head[..], prev[..], base, data, top, ins, used, cur);
      MaskedSlot(cur);
      v := prev[cur % wsize];             // prev[cur_match & wmask]
      assert prev[..][Slot(wsize, cur)] == v;
      LeadsDown(v);
      if lookahead >= MIN_MATCH {
        Follow(bits, wsize, head[..], prev[..], base, data, top, ins, used, cur, strstart);
      }
    }

    lemma LeadsDown(v: nat)
      requires Leads(wsize, v, base, top, used) && top <= base + strstart + 1 && strstart < 2 * wsize
      ensures Slotted(v) && v <= strstart
    {
    }

    lemma IsUsable(cur: nat)
      requires Shape() && Usable(cur)
      ensures cur <= strstart && (lookahead >= MIN_MATCH ==> Near(cur))
    {
    }

    lemma IsFound(bestLen: nat, len: nat)
      requires Shape() && DataOk() && strstart + MAX_MATCH < window.Length
      requires Near(matchStart) && Agree(matchStart, bestLen) && len <= bestLen <= MAX_MATCH && len <= lookahead
      ensures matchStart < 0x1_0000_0000 ==> Found(len)
    {
      MatchIsTrue(matchStart, len);
    }

    /** A length above prev_length is that of the strings at match_start. */
    ghost predicate Best(len: nat)
      requires Shape()
      reads `strstart, `lookahead, `prevLength, `matchStart, `base, `data, `ins, window
    {
      && matchStart < 0x1_0000_0000
      && (len > prevLength ==> matchStart <= strstart && Agree(matchStart, len))
      && (len > prevLength && lookahead >= MIN_MATCH ==> Near(matchStart))
    }

    lemma BestIs(len: nat)
      requires Shape()
      ensures Best(len) <==>
              && matchStart < 0x1_0000_0000
              && (len > prevLength ==> matchStart <= strstart && Agree(matchStart, len))
              && (len > prevLength && lookahead >= MIN_MATCH ==> Near(matchStart))
    {
    }

    /** How many strings are left to try, when chain_length says so. */
    function Left(chainLength: nat): (left: nat)
      ensures left > 0
    {
      if chainLength == 0 then 0x1_0000_0000 else chainLength
    }

    /** The strings above window index at gave nothing longer than best, which is the length of
        the one at index m if it is more than prev_length. */
    ghost predicate Hunted(at: nat, best: nat, m: nat)
      requires Shape()
      reads `strstart, `lookahead, `prevLength, `base, `data, `ins
    {
      lookahead >= MIN_MATCH ==>
        var c, p := Set(), base + strstart;
        && Seen(c, data, ins, p, prevLength, base + at, best) && prevLength <= best
        && (best > prevLength ==>
              best < Shorter(niceMatch, lookahead) && best >= MIN_MATCH
              && m < strstart && Leader(c, data, ins, p, prevLength, base + m, best))
    }

    /** longest_match is at the string at index cur, with so many to try. */
    ghost predicate Hunting(cur: nat, best: nat, m: nat, chainLength: nat)
      requires Shape()
      reads `strstart, `lookahead, `prevLength, `base, `data, `ins
    {
      && Hunted(cur, best, m) && Counted(cur, Left(chainLength))
      && (lookahead >= MIN_MATCH && cur < strstart ==> InReach(Set(), data, ins, base + cur, base + strstart))
    }

    /** So many strings may still be tried from index cur on. */
    ghost predicate Counted(cur: nat, left: nat)
      requires Shape()
      reads `strstart, `lookahead, `prevLength, `base, `data, `ins
    {
      lookahead >= MIN_MATCH ==>
        CountAlike(Set(), data, ins, base + cur + 1, base + strstart) + left == Budget(Set(), prevLength)
    }

    /** The result is what it should be. */
    ghost predicate Hunt(best: nat, m: nat)
      requires Shape()
      reads `strstart, `lookahead, `prevLength, `base, `data, `ins
    {
      lookahead >= MIN_MATCH ==>
        && (best > prevLength ==> m < strstart)
        && SearchGives(Set(), data, ins, base + strstart, prevLength, Shorter(best, lookahead),
                    if m < strstart then strstart - m else 0)
    }

    lemma HuntBegins(cur: nat, m: nat, chainLength: nat)
      requires Shape() && DataOk() && cur != 0 && (lookahead >= MIN_MATCH ==> Near(cur) && LastAlike(cur, strstart))
      requires chainLength == if prevLength >= goodMatch then maxChain / 4 else maxChain
      ensures Hunting(cur, prevLength, m, chainLength)
    {
      hide Alike, Pow2, Ends, Repeats, Held;
      if lookahead >= MIN_MATCH {
        NearAlike(cur);
        CountSkip(Set(), data, ins, base + cur, base + strstart, base + strstart);
      }
    }

    lemma NearAlike(cur: nat)
      requires Shape() && DataOk() && Near(cur) && cur != 0
      ensures Alike(Set(), data, ins, base + cur, base + strstart) && cur < strstart && strstart - cur <= MaxDist()
    {
      hide Hash3, Pow2, Held;
    }

    /** What Measured says of the input. */
    lemma MeasuredIs(cur: nat, best: nat, n: nat)
      requires Shape() && DataOk() && strstart + MAX_MATCH < window.Length && Measured(cur, best, n)
      requires cur != 0 && Near(cur)
      ensures n <= MAX_MATCH && lookahead >= MIN_MATCH
      ensures var p, most := base + strstart, if n > best then n else best;
              && Alike(Set(), data, ins, base + cur, p) && cur < strstart && strstart - cur <= MaxDist()
              && (most < MAX_MATCH ==> !Repeats(data, p, strstart - cur, most + 1))
              && (n > best ==> Repeats(data, p, strstart - cur, Shorter(n, lookahead)))
    {
      hide Agree, AllSame, Alike, Repeats, Pow2, Held;
      NearAlike(cur);
      NearParts(cur);
      var most := if n > best then n else best;
      if most < MAX_MATCH && Repeats(data, base + strstart, strstart - cur, most + 1) { RepeatsSame(cur, most + 1); }
      if n > best {
        AgreeLess(cur, n, Shorter(n, lookahead));
        MatchIsTrue(cur, Shorter(n, lookahead));
      }
    }

    lemma NearParts(cur: nat)
      requires Shape() && Near(cur)
      ensures Candidate(bits, base, data, ins, cur, strstart)
    {
    }

    lemma AgreeLess(cur: nat, n: nat, k: nat)
      requires Agree(cur, n) && k <= n
      ensures Agree(cur, k)
    {
    }

    /** A longer match that ends the search. */
    lemma HuntEnds(cur: nat, best: nat, m: nat, chainLength: nat, n: nat)
      requires Shape() && DataOk() && strstart + MAX_MATCH < window.Length && cur != 0
      requires Hunting(cur, best, m, chainLength) && Measured(cur, best, n) && chainLength < 0x1_0000_0000
      requires (lookahead >= MIN_MATCH ==> Near(cur)) && n > best && n >= Shorter(niceMatch, lookahead)
      ensures Hunt(n, cur)
    {
      hide Alike, Repeats, Pow2, CountAlike, Budget, Leader, SearchGives, Seen, Over, Held, AllSame, Agree;
      if lookahead >= MIN_MATCH {
        var c, p := Set(), base + strstart;
        MeasuredIs(cur, best, n);
        LeadsNow(c, data, ins, p, prevLength, base + cur, best, n);
        SeenLess(c, data, ins, p, prevLength, base + cur, best, n);
        if prevLength < lookahead { OverAtEnd(c, data, ins, p, prevLength, base + cur, n); }
        SearchDone(c, data, ins, p, prevLength, base + cur, strstart - cur, n);
      }
    }

    /** The string at cur has been compared, with best and m as they are afterwards, and does
        not end the search; left strings may be tried from there on, itself included. */
    ghost predicate Behind(cur: nat, best: nat, m: nat, left: nat)
      requires Shape()
      reads `strstart, `lookahead, `prevLength, `base, `data, `ins
    {
      lookahead >= MIN_MATCH ==>
        var c, p := Set(), base + strstart;
        && Alike(c, data, ins, base + cur, p) && cur < strstart && Counted(cur, left) && Hunted(cur, best, m)
        && !Ends(c, data, p, prevLength, base + cur)
        && (best < MAX_MATCH ==> !Repeats(data, p, strstart - cur, best + 1))
    }

    /** The best length and where it is, after the string at cur. */
    lemma HuntPasses(cur: nat, best: nat, m: nat, chainLength: nat, n: nat)
      requires Shape() && DataOk() && strstart + MAX_MATCH < window.Length && cur != 0
      requires Hunting(cur, best, m, chainLength) && Measured(cur, best, n) && chainLength < 0x1_0000_0000
      requires (lookahead >= MIN_MATCH ==> Near(cur)) && (n > best ==> n < Shorter(niceMatch, lookahead))
      ensures Behind(cur, if n > best then n else best, if n > best then cur else m, Left(chainLength))
    {
      hide Alike, Repeats, Pow2, CountAlike, Budget, Leader, Seen, Held, AllSame, Agree, NoneBetween;
      if lookahead >= MIN_MATCH {
        var c, p := Set(), base + strstart;
        var most := if n > best then n else best;
        MeasuredIs(cur, best, n);
        if n > best { LeadsNow(c, data, ins, p, prevLength, base + cur, best, n); }
        NoEnd(c, data, p, prevLength, base + cur, most);
        SeenLess(c, data, ins, p, prevLength, base + cur, best, most);
      }
    }

    /** And on to the next one. */
    lemma HuntOn(cur: nat, best: nat, m: nat, left: nat, next: nat)
      requires Shape() && Behind(cur, best, m, left) && left > 0
      requires lookahead >= MIN_MATCH ==>
                 next < cur && NoneBetween(Set(), data, ins, base + next, base + cur, base + strstart)
      ensures Hunted(next, best, m) && Counted(next, left - 1)
    {
      hide Alike, Pow2, CountAlike, Budget, NoneBetween, Seen, Leader, Ends, Repeats;
      if lookahead >= MIN_MATCH {
        var c, p := Set(), base + strstart;
        SeenOn(c, data, ins, p, prevLength, base + cur, base + next, best, best);
        CountSkip(c, data, ins, base + next, base + cur, p);
        CountOne(c, data, ins, base + cur, p);
      }
    }

    /** Compare with the string at cur; good if that ends the search. */
    method TryOne(cur: nat, bestLen: nat, nice: nat, ghost chainLength: nat) returns (len: nat, good: bool)
      requires Shape() && DataOk() && strstart + MIN_LOOKAHEAD <= window.Length && cur != 0 && Usable(cur)
      requires 1 <= prevLength <= bestLen <= MAX_MATCH && Best(bestLen) && chainLength < 0x1_0000_0000
      requires Hunting(cur, bestLen, matchStart, chainLength) && nice == Shorter(niceMatch, lookahead)
      modifies `matchStart
      ensures bestLen <= len <= MAX_MATCH && Best(len)
      ensures if good then Hunt(len, matchStart) else Behind(cur, len, matchStart, Left(chainLength))
    {
      hide Usable, Near, Measured, DataOk, Best, Pow2, Hunting, Hunt, Behind, Agree;
      IsUsable(cur);
      ghost var m := matchStart;
      len, good := bestLen, false;
      var n := Compare(cur, bestLen);
      if n > bestLen {
        MeasuredAgree(cur, bestLen, n);
        matchStart := cur;
        len := n;
        BestIs(n);
        good := n >= nice;
      }
      if good {
        HuntEnds(cur, bestLen, m, chainLength, n);
      } else {
        HuntPasses(cur, bestLen, m, chainLength, n);
      }
    }

    /** The chain goes no further, or not within reach. */
    lemma HuntTooFar(at: nat, best: nat, m: nat)
      requires Shape() && DataOk() && FarOn() && Hunted(at, best, m) && best <= MAX_MATCH
      requires at <= if strstart > MaxDist() then strstart - MaxDist() else 0
      ensures Hunt(best, m)
    {
      hide Alike, Pow2, Leader, SearchGives, Seen, Over, Held;
      OverTooFar(Set(), data, ins, base + strstart, prevLength, base + at, best);
      HuntDone(at, best, m);
    }

    /** Enough strings have been tried. */
    lemma HuntTooLong(at: nat, best: nat, m: nat)
      requires Shape() && DataOk() && Hunted(at, best, m) && best <= MAX_MATCH && Counted(at, 0)
      ensures Hunt(best, m)
    {
      hide Alike, Pow2, Leader, SearchGives, Seen, Over, Held, CountAlike, Budget;
      if lookahead >= MIN_MATCH {
        OverBudget(Set(), data, ins, base + strstart, prevLength, base + at, best);
        HuntDone(at, best, m);
      }
    }

    lemma HuntDone(at: nat, best: nat, m: nat)
      requires Shape() && DataOk() && Hunted(at, best, m) && best <= MAX_MATCH
      requires lookahead >= MIN_MATCH ==> Over(Set(), data, ins, base + strstart, prevLength, base + at, best)
      ensures Hunt(best, m)
    {
      hide Alike, Pow2, Leader, SearchGives, Seen, Over, Held;
      if lookahead >= MIN_MATCH {
        SearchDone(Set(), data, ins, base + strstart, prevLength, base + at, if m < strstart then strstart - m else 0,
                   best);
      }
    }

    /** (cur_match = prev[cur_match & wmask]) > limit && --chain_length != 0. */
    method Onwards(cur: nat, limit: nat, chainLength: nat, ghost best: nat)
      returns (next: nat, chainLength2: nat, more: bool)
      requires Shape() && DataOk() && ChainOk() && FarOn() && strstart + MIN_LOOKAHEAD <= window.Length
      requires cur != 0 && Usable(cur) && top <= base + strstart + 1 && best <= MAX_MATCH
      requires chainLength < 0x1_0000_0000 && Behind(cur, best, matchStart, Left(chainLength))
      requires limit == if strstart > MaxDist() then strstart - MaxDist() else 0
      ensures more ==>
                && next != 0 && Usable(next) && chainLength2 != 0 && Left(chainLength2) < Left(chainLength)
                && chainLength2 < 0x1_0000_0000 && Hunting(next, best, matchStart, chainLength2)
      ensures !more ==> Hunt(best, matchStart)
    {
      hide Usable, DataOk, ChainOk, Shape, Hunting, Hunted, Hunt, Counted, Behind, FarOn, NoneBetween, Left, Sub32;
      hide MaxDist, Set;
      chainLength2 := chainLength;
      next := Next(cur, limit);
      HuntOn(cur, best, matchStart, Left(chainLength), next);
      if next <= limit {
        HuntTooFar(next, best, matchStart);
        return next, chainLength2, false;
      }
      LeftLess(chainLength);
      chainLength2 := Sub32(chainLength, 1);
      more := chainLength2 != 0;
      if more {
        HuntGoesOn(next, best, matchStart, chainLength2);
      } else {
        HuntTooLong(next, best, matchStart);
      }
    }

    /** The longest match among the chain that starts at cur, or prev_length if there is none longer. */
    method LongestMatch(cur: nat) returns (len: nat)
      requires Shape() && DataOk() && ChainOk() && FarOn() && strstart + MIN_LOOKAHEAD <= window.Length
      requires 1 <= prevLength <= MAX_MATCH && cur != 0 && Usable(cur) && top <= base + strstart + 1
      requires matchStart < 0x1_0000_0000 && (lookahead >= MIN_MATCH ==> LastAlike(cur, strstart))
      modifies `matchStart
      ensures len <= lookahead && len <= MAX_MATCH && matchStart < 0x1_0000_0000 && (lookahead >= 1 ==> len >= 1)
      ensures lookahead >= MIN_MATCH && len > prevLength ==> Found(len)
      ensures lookahead >= MIN_MATCH ==> SearchGives(Set(), data, ins, base + strstart, prevLength, len, Reach())
      ensures len <= prevLength ==> len == Shorter(prevLength, lookahead)
    {
      hide Usable, Near, Found, DataOk, ChainOk, Best, Shape, Hunting, Hunted, Hunt, Counted, SearchGives, Behind;
      hide FarOn, LastAlike, NoneBetween, Agree, Left, Sub32, MaxDist, Set, Alike, Reach;
      ShapeIs();
      IsUsable(cur);
      var chainLength := maxChain;
      var bestLen := prevLength;
      var nice := niceMatch;
      var limit := if strstart > MaxDist() then strstart - MaxDist() else 0;
      if prevLength >= goodMatch { chainLength := chainLength / 4; }
      if nice > lookahead { nice := lookahead; }
      var match0: nat := cur;
      BestIs(bestLen);
      HuntBegins(cur, matchStart, chainLength);
      while true
        invariant match0 != 0 && Usable(match0) && prevLength <= bestLen <= MAX_MATCH && Best(bestLen)
        invariant chainLength < 0x1_0000_0000 && Hunting(match0, bestLen, matchStart, chainLength)
        decreases Left(chainLength)
      {
        var good, more;
        bestLen, good := TryOne(match0, bestLen, nice, chainLength);
        if good { break; }
        match0, chainLength, more := Onwards(match0, limit, chainLength, bestLen);
        if !more { break; }
      }
      BestIs(bestLen);
      len := if bestLen <= lookahead then bestLen else lookahead;
      if lookahead >= MIN_MATCH { HuntIs(bestLen); }
      if lookahead >= MIN_MATCH && len > prevLength { IsFound(bestLen, len); }
    }

    lemma ShapeIs()
      requires Shape()
      ensures wsize >= MIN_LOOKAHEAD && window.Length == 2 * wsize && maxChain < 0x1_0000_0000
    {
    }

    lemma LeftLess(chainLength: nat)
      requires chainLength < 0x1_0000_0000
      ensures Left(chainLength) - 1 == Sub32(chainLength, 1)
      ensures Sub32(chainLength, 1) != 0 ==> Left(Sub32(chainLength, 1)) < Left(chainLength)
    {
    }

    lemma MeasuredAgree(cur: nat, best: nat, n: nat)
      requires Measured(cur, best, n) && n > 0
      ensures MIN_MATCH <= n <= MAX_MATCH && Agree(cur, n)
    {
    }

    lemma HuntGoesOn(at: nat, best: nat, m: nat, chainLength: nat)
      requires Shape() && Hunted(at, best, m) && chainLength > 0 && Counted(at, chainLength)
      requires at > if strstart > MaxDist() then strstart - MaxDist() else 0
      ensures Hunting(at, best, m, chainLength)
    {
      hide Hunted, CountAlike, Budget, Pow2;
    }

    lemma HuntIs(best: nat)
      requires Shape() && DataOk() && Hunt(best, matchStart) && matchStart < 0x1_0000_0000
      requires lookahead >= MIN_MATCH
      ensures SearchGives(Set(), data, ins, base + strstart, prevLength, Shorter(best, lookahead), Reach())
    {
      hide Pow2, Longest;
    }

    /** The match at cur alone. */
    method LongestMatchFast(cur: nat) returns (len: nat)
      requires Shape() && DataOk() && strstart + MIN_LOOKAHEAD <= window.Length
      requires cur != 0 && Usable(cur) && matchStart < 0x1_0000_0000
      modifies `matchStart
      ensures len <= MAX_MATCH && matchStart < 0x1_0000_0000 && (len >= MIN_MATCH ==> len <= lookahead)
      ensures lookahead >= 1 ==> len >= 1
      ensures len >= MIN_MATCH ==> Found(len) && matchStart == cur
      ensures len < MIN_MATCH && lookahead >= MIN_MATCH ==> len == MIN_MATCH - 1
      ensures lookahead >= MIN_MATCH && Largest(len, MIN_MATCH - 1) < MAX_MATCH ==>
                !Repeats(data, base + strstart, strstart - cur, Largest(len, MIN_MATCH - 1) + 1)
    {
      hide Usable, Near, Found, Agree, DataOk, Pow2, Measured, Repeats;
      IsUsable(cur);
      if window[cur] != window[strstart] || window[cur + 1] != window[strstart + 1] {
        MeasuredNone(cur);
        if lookahead >= MIN_MATCH { Unlike(cur, 0); }
        return MIN_MATCH - 1;
      }
      AgreeTwo(cur);
      len := Scan(cur);        // never less than MIN_MATCH
      ghost var n := len;
      MeasuredScan(cur, n);
      if lookahead >= MIN_MATCH { Unlike(cur, n); }
      matchStart := cur;
      if len > lookahead { len := lookahead; }
      if len >= MIN_MATCH { IsFound(n, len); }
    }

    lemma MeasuredNone(cur: nat)
      requires cur <= strstart && strstart + 1 < window.Length
      requires window[cur] != window[strstart] || window[cur + 1] != window[strstart + 1]
      ensures Measured(cur, 1, 0)
    {
      assert !SameAt(cur, 0) || !SameAt(cur, 1);
    }

    lemma MeasuredScan(cur: nat, n: nat)
      requires MIN_MATCH <= n <= MAX_MATCH && Agree(cur, n) && (n < MAX_MATCH ==> !SameAt(cur, n))
      ensures Measured(cur, 1, n)
    {
      hide SameAt;
    }

    /** The input repeats for no more than n bytes, or two. */
    lemma Unlike(cur: nat, n: nat)
      requires Shape() && DataOk() && strstart + MAX_MATCH < window.Length && Near(cur) && cur != 0
      requires Measured(cur, 1, n) && lookahead >= MIN_MATCH
      ensures cur < strstart
      ensures var len := Largest(Shorter(n, lookahead), MIN_MATCH - 1);
              len < MAX_MATCH ==> !Repeats(data, base + strstart, strstart - cur, len + 1)
    {
      hide Measured, Repeats, Near, Pow2, Held, Alike;
      MeasuredIs(cur, 1, n);
      var len, d := Largest(Shorter(n, lookahead), MIN_MATCH - 1), strstart - cur;
      if len < MAX_MATCH && Repeats(data, base + strstart, d, len + 1) {
        RepeatsBack(data, base + strstart, d, len + 1);
        RepeatsLess(data, base + strstart, d, len + 1, Largest(n, 1) + 1);
      }
    }

    lemma AgreeTwo(cur: nat)
      requires cur <= strstart && strstart + 1 < window.Length
      requires window[cur] == window[strstart] && window[cur + 1] == window[strstart + 1]
      ensures Agree(cur, 2)
    {
    }

    // ----- Filling the window -----

    /** The upper half of the window moves to the lower one, and the chains with it. */
    method SlideWindow()
      requires Ok() && strstart >= wsize + MaxDist()
      modifies `matchStart, `strstart, `base, window, head, prev
      ensures Ok() && base == old(base) + wsize && strstart == old(strstart) - wsize
      ensures Reach() == old(Reach())
    {
      hide Chained, Primed, Pow2;
      ghost var h0, p0 := head[..], prev[..];
      MoveDown();
      SubMoves(strstart, matchStart, wsize);
      matchStart := Sub32(matchStart, wsize);
      strstart := strstart - wsize;
      base := base + wsize;
      SlideTable(head);
      SlideTable(prev);
      Slide(bits, wsize, h0, p0, old(base), data, top, ins, used);
    }

    /** zmemcpy(s->window, s->window+wsize, (unsigned)wsize). */
    method MoveDown()
      requires Shape()
      modifies window
      ensures forall i :: 0 <= i < wsize ==> window[i] == old(window[i + wsize])
    {
      hide Pow2;
      var i := 0;
      while i < wsize
        invariant i <= wsize
        invariant forall k :: 0 <= k < i ==> window[k] == old(window[k + wsize])
        invariant forall k :: wsize <= k < window.Length ==> window[k] == old(window[k])
      {
        window[i] := window[i + wsize];
        i := i + 1;
      }
    }

    /** From the last entry to the first, m >= wsize ? m-wsize : NIL. */
    method SlideTable(p: array<nat>)
      modifies p
      ensures p[..] == Slid(wsize, old(p[..]))
    {
      var n := p.Length;
      while n != 0
        invariant 0 <= n <= p.Length
        invariant forall k :: 0 <= k < n ==> p[k] == old(p[k])
        invariant forall k :: n <= k < p.Length ==> p[k] == if old(p[k]) >= wsize then old(p[k]) - wsize else 0
      {
        n := n - 1;
        var m := p[n];
        p[n] := if m >= wsize then m - wsize else 0;
      }
    }

    /** read_buf(s->strm, s->window + s->strstart + s->lookahead, more), and the hash made ready. */
    method ReadBuf(more: nat)
      requires Ok() && strstart + lookahead + more <= window.Length
      modifies `input, `lookahead, `insH, `data, window
      ensures Ok() && data + input == old(data + input) && old(data) <= data
      ensures |input| == if |old(input)| <= more then 0 else |old(input)| - more
    {
      hide Chained, Primed, Update, Pow2;
      TakeIn(if |input| > more then more else |input|);
      if lookahead >= MIN_MATCH {
        Primes(bits, window[strstart], window[strstart + 1]);
        insH := Update(bits, window[strstart], window[strstart + 1]);
      }
    }

    /** So many bytes of the input, placed behind the lookahead. */
    method TakeIn(len: nat)
      requires Shape() && DataOk() && ChainOk() && len <= |input| && strstart + lookahead + len <= window.Length
      modifies `input, `lookahead, `data, window
      ensures DataOk() && ChainOk() && data == old(data) + old(input)[..len] && input == old(input)[len..]
      ensures lookahead == old(lookahead) + len && data + input == old(data + input)
    {
      hide Chained, Pow2;
      ghost var d0 := data;
      var at: nat := strstart + lookahead;
      More(bits, wsize, head[..], prev[..], base, data, input[..len], top, ins, used);
      CopyIn(at, input[..len]);
      assert input == input[..len] + input[len..];
      data := data + input[..len];
      input := input[len..];
      lookahead := lookahead + len;
      assert data + input == d0 + (old(input)[..len] + input);
    }

    method CopyIn(at: nat, s: seq<Byte>)
      requires at + |s| <= window.Length
      modifies window
      ensures forall i :: 0 <= i < |s| ==> window[at + i] == s[i]
      ensures forall j :: 0 <= j < window.Length && !(at <= j < at + |s|) ==> window[j] == old(window[j])
    {
      var k := 0;
      while k < |s|
        invariant 0 <= k <= |s|
        invariant forall j :: at <= j < at + k ==> window[j] == s[j - at]
        invariant forall j :: 0 <= j < window.Length && !(at <= j < at + k) ==> window[j] == old(window[j])
      {
        window[at + k] := s[k];
        k := k + 1;
      }
    }

    /** Make room and read until there is enough lookahead or no input is left. */
    method FillWindow()
      requires Ok() && lookahead < MIN_LOOKAHEAD
      modifies `matchStart, `strstart, `base, `input, `lookahead, `insH, `data, window, head, prev
      ensures Ok() && data + input == old(data + input) && old(data) <= data
      ensures base + strstart == old(base + strstart) && (old(input) == [] ==> data == old(data))
      ensures lookahead >= MIN_LOOKAHEAD || input == []
      ensures strstart + MIN_LOOKAHEAD <= window.Length
      ensures Reach() == old(Reach()) && (old(strstart) >= 1 ==> strstart >= 1)
    {
      hide Ok, Sub32;
      while true
        invariant Ok() && data + input == old(data + input) && old(data) <= data && lookahead < MIN_LOOKAHEAD
        invariant old(input) == [] ==> data == old(data)
        invariant base + strstart == old(base + strstart)
        invariant Reach() == old(Reach()) && (old(strstart) >= 1 ==> strstart >= 1)
        decreases |input|
      {
        Bounds();
        var more: nat := window.Length - lookahead - strstart;
        if strstart >= wsize + MaxDist() {
          SlideWindow();
          more := more + wsize;
        }
        if input == [] { return; }
        assert more >= 2;
        ReadBuf(more);
        if lookahead >= MIN_LOOKAHEAD || input == [] { break; }
      }
    }

    lemma Bounds()
      requires Ok()
      ensures Shape() && strstart + lookahead <= window.Length && matchStart < 0x1_0000_0000
    {
    }
  }

  lemma StillCandidate(bits: nat, base: nat, data: seq<Byte>, ins: set<nat>, v: nat, str: nat)
    ensures Candidate(bits, base, data, ins, v, str) ==> Candidate(bits, base, data, ins + {base + str}, v, str)
  {
    hide Hash3;
  }
}
