/** What deflate_fast and deflate_slow decide, said of the input and the strings entered
    so far alone: no window, no hash table, no chains. */
module Parsing {
  import opened Bits
  import opened Tokens
  import opened DeflateHash
  import opened HashChains

  const MIN_LOOKAHEAD := MAX_MATCH + MIN_MATCH + 1
  const TOO_FAR := 4096

  datatype Strategy = DEFAULT_STRATEGY | FILTERED | HUFFMAN_ONLY | RLE | FIXED

  /** What does not change while a stream is compressed. */
  datatype Settings = Settings(bits: nat, maxDist: nat, strategy: Strategy, lazy: nat, good: nat, nice: nat, chain: nat)

  // ----- The strings to compare with -----

  /** q is an entered string before p, and not the first of all, with the same hash. */
  ghost predicate Alike(c: Settings, data: seq<Byte>, ins: set<nat>, q: nat, p: nat) {
    && 0 < q < p && q in ins && p + 2 < |data|
    && HashAt(c.bits, data, q) == HashAt(c.bits, data, p)
  }

  /** No string between a and b is such a one. */
  ghost predicate NoneBetween(c: Settings, data: seq<Byte>, ins: set<nat>, a: nat, b: nat, p: nat) {
    forall r: nat :: a < r < b ==> !Alike(c, data, ins, r, p)
  }

  /** How many strings from q on are entered before p with its hash. */
  ghost function CountAlike(c: Settings, data: seq<Byte>, ins: set<nat>, q: nat, p: nat): nat
    decreases p - q
  {
    if q >= p then 0 else CountAlike(c, data, ins, q + 1, p) + (if Alike(c, data, ins, q, p) then 1 else 0)
  }

  /** How many strings may be compared, when the match before has length before. A chain of
      length 0 is counted down through 2^32. */
  function Budget(c: Settings, before: nat): nat {
    var n := if before >= c.good then c.chain / 4 else c.chain;
    if n == 0 then 0x1_0000_0000 else n
  }

  /** A length that ends the search. */
  function Enough(c: Settings, ahead: nat, before: nat): nat {
    var n := if c.nice > ahead then ahead else c.nice;
    if n > before then n else before + 1
  }

  /** The string at q is so good that no other is tried after it. */
  ghost predicate Ends(c: Settings, data: seq<Byte>, p: nat, before: nat, q: nat) {
    && q < p < |data|
    && var n := Enough(c, |data| - p, before);
       n <= MAX_MATCH && Repeats(data, p, p - q, n)
  }

  /** The string at q is compared with the one at p: it is near, few are nearer, and none of
      those ended the search. */
  ghost predicate Tried(c: Settings, data: seq<Byte>, ins: set<nat>, p: nat, before: nat, q: nat) {
    && Alike(c, data, ins, q, p) && p - q < c.maxDist && CountAlike(c, data, ins, q + 1, p) < Budget(c, before)
    && forall r: nat :: q < r < p && Alike(c, data, ins, r, p) ==> !Ends(c, data, p, before, r)
  }

  /** No string that is compared repeats for more than len bytes. */
  ghost predicate NoneLonger(c: Settings, data: seq<Byte>, ins: set<nat>, p: nat, before: nat, len: nat) {
    forall q: nat :: Tried(c, data, ins, p, before, q) && len < MAX_MATCH ==> !Repeats(data, p, p - q, len + 1)
  }

  /** The match with the string dist back is a true one, is longer than before, no string that
      is compared gives a longer one, and no nearer string one as long. */
  ghost predicate Longest(c: Settings, data: seq<Byte>, ins: set<nat>, p: nat, before: nat, len: nat, dist: nat) {
    && 3 <= len <= 258 && before < len
    && Repeats(data, p, dist, len) && (len < MAX_MATCH ==> !Repeats(data, p, dist, len + 1))
    && Alike(c, data, ins, p - dist, p) && InReach(c, data, ins, p - dist, p)
    && CountAlike(c, data, ins, p - dist + 1, p) < Budget(c, before)
    && (forall r: nat :: p - dist < r < p && Alike(c, data, ins, r, p) ==>
          !Ends(c, data, p, before, r) && !Repeats(data, p, p - r, len))
    && NoneLonger(c, data, ins, p, before, len)
  }

  function Largest(a: nat, b: nat): nat { if a < b then b else a }

  /** The first string of the chain may be as far back as maxDist, and the others not quite. */
  ghost predicate InReach(c: Settings, data: seq<Byte>, ins: set<nat>, q: nat, p: nat) {
    p - q < c.maxDist || (p - q == c.maxDist && CountAlike(c, data, ins, q + 1, p) == 0)
  }

  /** What longest_match is to give: the longest match, or nothing above before. */
  ghost predicate SearchGives(c: Settings, data: seq<Byte>, ins: set<nat>, p: nat, before: nat, len: nat, dist: nat) {
    if len > before && len >= MIN_MATCH then Longest(c, data, ins, p, before, len, dist)
    else NoneLonger(c, data, ins, p, before, Largest(before, MIN_MATCH - 1))
  }

  /** What longest_match_fast is to give for the string just before. */
  ghost predicate RunLength(data: seq<Byte>, ins: set<nat>, p: nat, len: nat, dist: nat) {
    if len >= MIN_MATCH then
      len <= MAX_MATCH && dist == 1 && Repeats(data, p, 1, len) && (len < MAX_MATCH ==> !Repeats(data, p, 1, len + 1))
    else !(p >= 2 && p - 1 in ins && Repeats(data, p, 1, MIN_MATCH))
  }

  /** The search as the strategy allows it. */
  ghost predicate Sought(c: Settings, data: seq<Byte>, ins: set<nat>, p: nat, before: nat, len: nat, dist: nat) {
    if p + 2 >= |data| || c.strategy == HUFFMAN_ONLY then len < MIN_MATCH
    else if c.strategy == RLE then RunLength(data, ins, p, len, dist)
    else SearchGives(c, data, ins, p, before, len, dist)
  }

  // ----- deflate_slow -----

  /** Short matches that deflate_slow does without. */
  predicate Dropped(c: Settings, len: nat, dist: nat) {
    3 <= len <= 5 && (c.strategy == FILTERED || (len == 3 && dist > 4096))
  }

  /** Where deflate_slow stands: at position p, with the match found at p - 1, and whether the
      byte at p - 1 waits. */
  datatype Place = Place(p: nat, before: nat, dist: nat, waits: bool)

  /** What is found at a place. */
  datatype Try = Try(at: Place, len: nat, dist: nat)

  /** The length that deflate_slow goes by at p, and the distance if that is better than before. */
  ghost predicate Choice(c: Settings, data: seq<Byte>, ins: set<nat>, p: nat, before: nat, len: nat, dist: nat) {
    if before >= c.lazy then len == MIN_MATCH - 1
    else if len > before && len >= MIN_MATCH then Sought(c, data, ins, p, before, len, dist) && !Dropped(c, len, dist)
    else exists len2: nat, dist2: nat ::
           && Sought(c, data, ins, p, before, len2, dist2)
           && (len2 > before && len2 >= MIN_MATCH ==> Dropped(c, len2, dist2))
  }

  ghost predicate Decided(c: Settings, data: seq<Byte>, ins: set<nat>, t: Try) {
    && t.at.p < |data| && (t.at.waits ==> t.at.p >= 1)
    && Choice(c, data, ins, t.at.p, t.at.before, t.len, t.dist)
  }

  /** The match before is taken. */
  predicate Takes(t: Try) { t.at.before >= MIN_MATCH && t.len <= t.at.before }

  /** What is tallied. */
  function Tallied(data: seq<Byte>, t: Try): seq<Token>
    requires t.at.waits ==> 1 <= t.at.p <= |data|
  {
    if Takes(t) then [Match(t.at.dist, t.at.before)]
    else if t.at.waits then [Literal(data[t.at.p - 1])]
    else []
  }

  function Onward(t: Try): Place
    requires Takes(t) ==> t.at.p >= 1
  {
    if Takes(t) then Place(t.at.p - 1 + t.at.before, MIN_MATCH - 1, 0, false)
    else Place(t.at.p + 1, t.len, if t.len >= MIN_MATCH then t.dist else 0, true)
  }

  /** The tokens are those of the lazy decisions ts, which lead from one place to another. */
  ghost predicate Lazily(c: Settings, data: seq<Byte>, ins: set<nat>, a: Place, ts: seq<Try>, z: Place, out: seq<Token>)
    decreases |ts|
  {
    if ts == [] then a == z && out == []
    else
      var n, t := |ts| - 1, ts[|ts| - 1];
      && Decided(c, data, ins, t) && (Takes(t) ==> t.at.p >= 1) && z == Onward(t)
      && |out| >= |Tallied(data, t)| && out[|out| - |Tallied(data, t)|..] == Tallied(data, t)
      && Lazily(c, data, ins, a, ts[..n], t.at, out[..|out| - |Tallied(data, t)|])
  }

  // ----- deflate_fast -----

  /** What is found at position p. */
  datatype Find = Find(p: nat, len: nat, dist: nat)

  ghost predicate Chosen(c: Settings, data: seq<Byte>, ins: set<nat>, before: nat, t: Find) {
    t.p < |data| && Sought(c, data, ins, t.p, before, t.len, t.dist)
  }

  function TokenOf(data: seq<Byte>, t: Find): Token
    requires t.p < |data|
  {
    if t.len >= MIN_MATCH then Match(t.dist, t.len) else Literal(data[t.p])
  }

  function Past(t: Find): nat { if t.len >= MIN_MATCH then t.p + t.len else t.p + 1 }

  /** The tokens are those of the matches and literals ts, taken as they are found. */
  ghost predicate Greedily(c: Settings, data: seq<Byte>, ins: set<nat>, before: nat, a: nat, ts: seq<Find>, z: nat,
                           out: seq<Token>)
    decreases |ts|
  {
    if ts == [] then a == z && out == []
    else
      var n, t := |ts| - 1, ts[|ts| - 1];
      && Chosen(c, data, ins, before, t) && z == Past(t) && out != [] && out[|out| - 1] == TokenOf(data, t)
      && Greedily(c, data, ins, before, a, ts[..n], t.p, out[..|out| - 1])
  }

  /** The strings that are entered: the one searched for, and those inside a short match. */
  ghost predicate Enters(c: Settings, data: seq<Byte>, t: Find, x: nat) {
    && x + 2 < |data|
    && (x == t.p || (t.len >= MIN_MATCH && t.len <= c.lazy && t.p < x < t.p + t.len && t.p + t.len + 2 < |data|))
  }

  // ----- More input, and strings entered later -----

  /** Nothing that was decided at p changes: the input goes on after p for long enough, or
      does not grow, and no string before p is entered any more. */
  ghost predicate Settled(data: seq<Byte>, data2: seq<Byte>, ins: set<nat>, ins2: set<nat>, p: nat) {
    && data <= data2 && (p + MIN_LOOKAHEAD <= |data| || data == data2)
    && ins <= ins2 && forall q: nat :: q in ins2 && q < p ==> q in ins
  }

  lemma AlikeMore(c: Settings, data: seq<Byte>, data2: seq<Byte>, ins: set<nat>, ins2: set<nat>, q: nat, p: nat)
    requires Settled(data, data2, ins, ins2, p)
    ensures Alike(c, data, ins, q, p) <==> Alike(c, data2, ins2, q, p)
  {
    hide Hash3;
  }

  lemma {:induction false} CountMore(c: Settings, data: seq<Byte>, data2: seq<Byte>, ins: set<nat>, ins2: set<nat>,
                                     q: nat, p: nat)
    requires Settled(data, data2, ins, ins2, p)
    ensures CountAlike(c, data, ins, q, p) == CountAlike(c, data2, ins2, q, p)
    decreases p - q
  {
    if q < p {
      AlikeMore(c, data, data2, ins, ins2, q, p);
      CountMore(c, data, data2, ins, ins2, q + 1, p);
    }
  }

  lemma RepeatsSettled(data: seq<Byte>, data2: seq<Byte>, ins: set<nat>, ins2: set<nat>, p: nat, dist: nat, len: nat)
    requires Settled(data, data2, ins, ins2, p) && len <= MAX_MATCH
    ensures Repeats(data, p, dist, len) <==> Repeats(data2, p, dist, len)
  {
  }

  lemma EndsMore(c: Settings, data: seq<Byte>, data2: seq<Byte>, ins: set<nat>, ins2: set<nat>, p: nat, before: nat,
                 q: nat)
    requires Settled(data, data2, ins, ins2, p) && p < |data|
    ensures Ends(c, data, p, before, q) <==> Ends(c, data2, p, before, q)
  {
    hide Repeats;
    var n := Enough(c, |data| - p, before);
    if n <= MAX_MATCH && q < p { RepeatsSettled(data, data2, ins, ins2, p, p - q, n); }
  }

  lemma TriedMore(c: Settings, data: seq<Byte>, data2: seq<Byte>, ins: set<nat>, ins2: set<nat>, p: nat, before: nat,
                  q: nat)
    requires Settled(data, data2, ins, ins2, p) && p < |data|
    ensures Tried(c, data, ins, p, before, q) <==> Tried(c, data2, ins2, p, before, q)
  {
    hide Alike, Ends, Settled, CountAlike;
    AlikeMore(c, data, data2, ins, ins2, q, p);
    CountMore(c, data, data2, ins, ins2, q + 1, p);
    forall r: nat | q < r < p
      ensures Alike(c, data, ins, r, p) <==> Alike(c, data2, ins2, r, p)
      ensures Ends(c, data, p, before, r) <==> Ends(c, data2, p, before, r)
    {
      AlikeMore(c, data, data2, ins, ins2, r, p);
      EndsMore(c, data, data2, ins, ins2, p, before, r);
    }
  }

  lemma NoneLongerMore(c: Settings, data: seq<Byte>, data2: seq<Byte>, ins: set<nat>, ins2: set<nat>, p: nat,
                       before: nat, len: nat)
    requires Settled(data, data2, ins, ins2, p) && p < |data| && NoneLonger(c, data, ins, p, before, len)
    ensures NoneLonger(c, data2, ins2, p, before, len)
  {
    hide Tried, Repeats, Settled;
    forall q: nat | Tried(c, data2, ins2, p, before, q) && len < MAX_MATCH
      ensures q < p && !Repeats(data2, p, p - q, len + 1)
    {
      TriedMore(c, data, data2, ins, ins2, p, before, q);
      TriedBefore(c, data, ins, p, before, q);
      RepeatsSettled(data, data2, ins, ins2, p, p - q, len + 1);
    }
  }

  lemma TriedBefore(c: Settings, data: seq<Byte>, ins: set<nat>, p: nat, before: nat, q: nat)
    requires Tried(c, data, ins, p, before, q)
    ensures 0 < q < p && p + 2 < |data| && Alike(c, data, ins, q, p)
  {
  }

  lemma LongestMore(c: Settings, data: seq<Byte>, data2: seq<Byte>, ins: set<nat>, ins2: set<nat>, p: nat, before: nat,
                    len: nat, dist: nat)
    requires Settled(data, data2, ins, ins2, p) && p < |data| && Longest(c, data, ins, p, before, len, dist)
    ensures Longest(c, data2, ins2, p, before, len, dist)
  {
    hide Alike, Ends, Settled, CountAlike, NoneLonger;
    RepeatsBack(data, p, dist, len);
    RepeatsSettled(data, data2, ins, ins2, p, dist, len);
    if len < MAX_MATCH { RepeatsSettled(data, data2, ins, ins2, p, dist, len + 1); }
    hide Repeats;
    AlikeMore(c, data, data2, ins, ins2, p - dist, p);
    CountMore(c, data, data2, ins, ins2, p - dist + 1, p);
    NoneLongerMore(c, data, data2, ins, ins2, p, before, len);
    forall r: nat | p - dist < r < p && Alike(c, data2, ins2, r, p)
      ensures !Ends(c, data2, p, before, r) && !Repeats(data2, p, p - r, len)
    {
      AlikeMore(c, data, data2, ins, ins2, r, p);
      EndsMore(c, data, data2, ins, ins2, p, before, r);
      RepeatsSettled(data, data2, ins, ins2, p, p - r, len);
    }
  }

  lemma RepeatsBack(data: seq<Byte>, p: nat, dist: nat, len: nat)
    requires Repeats(data, p, dist, len)
    ensures 1 <= dist <= p && p + len <= |data|
  {
  }

  lemma SoughtMore(c: Settings, data: seq<Byte>, data2: seq<Byte>, ins: set<nat>, ins2: set<nat>, p: nat, before: nat,
                   len: nat, dist: nat)
    requires Settled(data, data2, ins, ins2, p) && p < |data| && Sought(c, data, ins, p, before, len, dist)
    ensures Sought(c, data2, ins2, p, before, len, dist)
  {
    hide Longest, NoneLonger, Repeats;
    if c.strategy == RLE {
      RepeatsSettled(data, data2, ins, ins2, p, 1, MIN_MATCH);
      if len <= MAX_MATCH { RepeatsSettled(data, data2, ins, ins2, p, 1, len); }
      if len < MAX_MATCH { RepeatsSettled(data, data2, ins, ins2, p, 1, len + 1); }
    } else if p + 2 < |data| && c.strategy != HUFFMAN_ONLY {
      if len > before && len >= MIN_MATCH {
        LongestMore(c, data, data2, ins, ins2, p, before, len, dist);
      } else {
        NoneLongerMore(c, data, data2, ins, ins2, p, before, Largest(before, MIN_MATCH - 1));
      }
    }
  }

  lemma ChoiceMore(c: Settings, data: seq<Byte>, data2: seq<Byte>, ins: set<nat>, ins2: set<nat>, p: nat, before: nat,
                   len: nat, dist: nat)
    requires Settled(data, data2, ins, ins2, p) && p < |data| && Choice(c, data, ins, p, before, len, dist)
    ensures Choice(c, data2, ins2, p, before, len, dist)
  {
    hide Sought, Dropped;
    if before < c.lazy {
      if len > before && len >= MIN_MATCH {
        SoughtMore(c, data, data2, ins, ins2, p, before, len, dist);
      } else {
        var len2: nat, dist2: nat :| && Sought(c, data, ins, p, before, len2, dist2)
                                     && (len2 > before && len2 >= MIN_MATCH ==> Dropped(c, len2, dist2));
        SoughtMore(c, data, data2, ins, ins2, p, before, len2, dist2);
      }
    }
  }

  lemma DecidedMore(c: Settings, data: seq<Byte>, data2: seq<Byte>, ins: set<nat>, ins2: set<nat>, t: Try)
    requires Settled(data, data2, ins, ins2, t.at.p) && Decided(c, data, ins, t)
    ensures Decided(c, data2, ins2, t)
    ensures t.at.waits ==> 1 <= t.at.p <= |data| && Tallied(data2, t) == Tallied(data, t)
  {
    hide Choice;
    ChoiceMore(c, data, data2, ins, ins2, t.at.p, t.at.before, t.len, t.dist);
  }

  lemma {:induction false} LazilyMore(c: Settings, data: seq<Byte>, data2: seq<Byte>, ins: set<nat>, ins2: set<nat>,
                                      a: Place, ts: seq<Try>, z: Place, out: seq<Token>)
    requires Lazily(c, data, ins, a, ts, z, out)
    requires forall i :: 0 <= i < |ts| ==> Settled(data, data2, ins, ins2, ts[i].at.p)
    ensures Lazily(c, data2, ins2, a, ts, z, out)
    decreases |ts|
  {
    hide Decided, Settled;
    if ts != [] {
      var n, t := |ts| - 1, ts[|ts| - 1];
      DecidedMore(c, data, data2, ins, ins2, t);
      LazilyMore(c, data, data2, ins, ins2, a, ts[..n], t.at, out[..|out| - |Tallied(data, t)|]);
    }
  }

  /** One more decision. */
  lemma LazilyOn(c: Settings, data: seq<Byte>, ins: set<nat>, a: Place, ts: seq<Try>, t: Try, out: seq<Token>)
    requires Lazily(c, data, ins, a, ts, t.at, out) && Decided(c, data, ins, t) && (Takes(t) ==> t.at.p >= 1)
    ensures t.at.waits ==> 1 <= t.at.p <= |data|
    ensures Lazily(c, data, ins, a, ts + [t], Onward(t), out + Tallied(data, t))
  {
    var us, o := ts + [t], out + Tallied(data, t);
    assert us[..|us| - 1] == ts && us[|us| - 1] == t;
    assert o[..|o| - |Tallied(data, t)|] == out && o[|out|..] == Tallied(data, t);
  }

  lemma {:induction false} GreedilyMore(c: Settings, data: seq<Byte>, data2: seq<Byte>, ins: set<nat>, ins2: set<nat>,
                                        before: nat, a: nat, ts: seq<Find>, z: nat, out: seq<Token>)
    requires Greedily(c, data, ins, before, a, ts, z, out)
    requires forall i :: 0 <= i < |ts| ==> Settled(data, data2, ins, ins2, ts[i].p)
    ensures Greedily(c, data2, ins2, before, a, ts, z, out)
    decreases |ts|
  {
    hide Sought;
    if ts != [] {
      var n, t := |ts| - 1, ts[|ts| - 1];
      SoughtMore(c, data, data2, ins, ins2, t.p, before, t.len, t.dist);
      GreedilyMore(c, data, data2, ins, ins2, before, a, ts[..n], t.p, out[..|out| - 1]);
    }
  }

  lemma GreedilyOn(c: Settings, data: seq<Byte>, ins: set<nat>, before: nat, a: nat, ts: seq<Find>, t: Find,
                   out: seq<Token>)
    requires Greedily(c, data, ins, before, a, ts, t.p, out) && Chosen(c, data, ins, before, t)
    ensures Greedily(c, data, ins, before, a, ts + [t], Past(t), out + [TokenOf(data, t)])
  {
    var us, o := ts + [t], out + [TokenOf(data, t)];
    assert us[..|us| - 1] == ts && us[|us| - 1] == t;
    assert o[..|o| - 1] == out;
  }

  // ----- A search in progress -----

  /** No string above q ended the search or repeats for more than best bytes. */
  ghost predicate Seen(c: Settings, data: seq<Byte>, ins: set<nat>, p: nat, before: nat, q: nat, best: nat) {
    forall r: nat :: q < r < p && Alike(c, data, ins, r, p) ==>
      !Ends(c, data, p, before, r) && (best < MAX_MATCH ==> !Repeats(data, p, p - r, best + 1))
  }

  function Shorter(a: nat, b: nat): nat { if a < b then a else b }

  /** The string at m is the nearest that repeats for best bytes, as far as there is input. */
  ghost predicate Leader(c: Settings, data: seq<Byte>, ins: set<nat>, p: nat, before: nat, m: nat, best: nat) {
    && Alike(c, data, ins, m, p) && InReach(c, data, ins, m, p)
    && CountAlike(c, data, ins, m + 1, p) < Budget(c, before)
    && best <= MAX_MATCH && Repeats(data, p, p - m, Shorter(best, |data| - p))
    && (best < MAX_MATCH ==> !Repeats(data, p, p - m, best + 1))
    && forall r: nat :: m < r < p && Alike(c, data, ins, r, p) ==>
         && !Ends(c, data, p, before, r)
         && (before < |data| - p ==> !Repeats(data, p, p - r, Shorter(best, |data| - p)))
  }

  lemma RepeatsLess(data: seq<Byte>, p: nat, dist: nat, len: nat, k: nat)
    requires Repeats(data, p, dist, len) && k <= len
    ensures Repeats(data, p, dist, k)
  {
  }

  /** A string that repeats for no more than best bytes does not end the search. */
  lemma NoEnd(c: Settings, data: seq<Byte>, p: nat, before: nat, q: nat, best: nat)
    requires p < |data| && (best == before || best < Shorter(c.nice, |data| - p))
    requires q < p && best < MAX_MATCH ==> !Repeats(data, p, p - q, best + 1)
    ensures !Ends(c, data, p, before, q)
  {
    hide Repeats;
    if Ends(c, data, p, before, q) {
      RepeatsLess(data, p, p - q, Enough(c, |data| - p, before), best + 1);
    }
  }

  /** On to the next string of the chain. */
  lemma SeenOn(c: Settings, data: seq<Byte>, ins: set<nat>, p: nat, before: nat, q: nat, next: nat, best: nat,
               best2: nat)
    requires Seen(c, data, ins, p, before, q, best) && best <= best2 && q < p
    requires !Ends(c, data, p, before, q) && (best2 < MAX_MATCH ==> !Repeats(data, p, p - q, best2 + 1))
    requires NoneBetween(c, data, ins, next, q, p)
    ensures Seen(c, data, ins, p, before, next, best2)
  {
    hide Alike, Ends, Repeats;
    forall r: nat | next < r < p && Alike(c, data, ins, r, p)
      ensures !Ends(c, data, p, before, r) && (best2 < MAX_MATCH ==> !Repeats(data, p, p - r, best2 + 1))
    {
      if r > q && best2 < MAX_MATCH && Repeats(data, p, p - r, best2 + 1) {
        RepeatsLess(data, p, p - r, best2 + 1, best + 1);
      }
    }
  }

  /** The string at q becomes the best. */
  lemma LeadsNow(c: Settings, data: seq<Byte>, ins: set<nat>, p: nat, before: nat, q: nat, best: nat, n: nat)
    requires Seen(c, data, ins, p, before, q, best) && best < n <= MAX_MATCH && p < |data|
    requires best == before || best < Shorter(c.nice, |data| - p)
    requires Alike(c, data, ins, q, p) && InReach(c, data, ins, q, p)
    requires CountAlike(c, data, ins, q + 1, p) < Budget(c, before)
    requires q < p && Repeats(data, p, p - q, Shorter(n, |data| - p))
    requires n < MAX_MATCH ==> !Repeats(data, p, p - q, n + 1)
    ensures Leader(c, data, ins, p, before, q, n)
  {
    hide Alike, Ends, Repeats, CountAlike, Budget, InReach;
    AlikeBefore(c, data, ins, q, p);
    var k := Shorter(n, |data| - p);
    forall r: nat | q < r < p && Alike(c, data, ins, r, p)
      ensures !Ends(c, data, p, before, r) && (before < |data| - p ==> !Repeats(data, p, p - r, k))
    {
      if before < |data| - p && Repeats(data, p, p - r, k) { RepeatsLess(data, p, p - r, k, best + 1); }
    }
  }

  lemma AlikeBefore(c: Settings, data: seq<Byte>, ins: set<nat>, q: nat, p: nat)
    requires Alike(c, data, ins, q, p)
    ensures 0 < q < p && p + 2 < |data| && q in ins
  {
  }

  /** None of the strings from q on down that are compared repeats for more than best bytes. */
  ghost predicate Over(c: Settings, data: seq<Byte>, ins: set<nat>, p: nat, before: nat, q: nat, best: nat) {
    forall r: nat :: r <= q && Tried(c, data, ins, p, before, r) && best < MAX_MATCH ==>
      !Repeats(data, p, p - r, best + 1)
  }

  /** The search is over: its result is as it should be. */
  lemma SearchDone(c: Settings, data: seq<Byte>, ins: set<nat>, p: nat, before: nat, q: nat, dist: nat, best: nat)
    requires p + MIN_MATCH <= |data| && before <= best <= MAX_MATCH
    requires Seen(c, data, ins, p, before, q, best) && (before < |data| - p ==> Over(c, data, ins, p, before, q, best))
    requires best > before ==> best >= MIN_MATCH && 0 < dist <= p && Leader(c, data, ins, p, before, p - dist, best)
    ensures SearchGives(c, data, ins, p, before, Shorter(best, |data| - p), dist)
  {
    hide Alike, Ends, CountAlike, Budget, Tried;
    var len := Shorter(best, |data| - p);
    var top := if len > before then len else Largest(before, MIN_MATCH - 1);
    forall r: nat | Tried(c, data, ins, p, before, r) && top < MAX_MATCH
      ensures r < p && !Repeats(data, p, p - r, top + 1)
    {
      TriedBefore(c, data, ins, p, before, r);
      if Repeats(data, p, p - r, top + 1) { RepeatsLess(data, p, p - r, top + 1, best + 1); }
    }
  }

  /** The string at q ended the search with n bytes. */
  lemma OverAtEnd(c: Settings, data: seq<Byte>, ins: set<nat>, p: nat, before: nat, q: nat, n: nat)
    requires Alike(c, data, ins, q, p) && q < p && p + before < |data|
    requires Repeats(data, p, p - q, Shorter(n, |data| - p)) && before < n <= MAX_MATCH
    requires n >= Shorter(c.nice, |data| - p)
    requires n < MAX_MATCH ==> !Repeats(data, p, p - q, n + 1)
    ensures Over(c, data, ins, p, before, q, n)
  {
    hide Alike, CountAlike, Repeats;
    AlikeBefore(c, data, ins, q, p);
    RepeatsLess(data, p, p - q, Shorter(n, |data| - p), Enough(c, |data| - p, before));
    assert Ends(c, data, p, before, q);
  }

  /** From q on down everything is too far back. */
  lemma OverTooFar(c: Settings, data: seq<Byte>, ins: set<nat>, p: nat, before: nat, q: nat, best: nat)
    requires q == 0 || q + c.maxDist <= p
    ensures Over(c, data, ins, p, before, q, best)
  {
  }

  /** Enough strings have been compared. */
  lemma OverBudget(c: Settings, data: seq<Byte>, ins: set<nat>, p: nat, before: nat, q: nat, best: nat)
    requires CountAlike(c, data, ins, q + 1, p) >= Budget(c, before)
    ensures Over(c, data, ins, p, before, q, best)
  {
    hide CountAlike, Alike;
    forall r: nat | r <= q
      ensures !Tried(c, data, ins, p, before, r)
    {
      CountLess(c, data, ins, r + 1, q + 1, p);
    }
  }

  lemma {:induction false} CountLess(c: Settings, data: seq<Byte>, ins: set<nat>, a: nat, b: nat, p: nat)
    requires a <= b
    ensures CountAlike(c, data, ins, a, p) >= CountAlike(c, data, ins, b, p)
    decreases b - a
  {
    hide Alike;
    if a < b { CountLess(c, data, ins, a + 1, b, p); }
  }

  lemma {:induction false} CountSkip(c: Settings, data: seq<Byte>, ins: set<nat>, a: nat, b: nat, p: nat)
    requires a < b && NoneBetween(c, data, ins, a, b, p)
    ensures CountAlike(c, data, ins, a + 1, p) == CountAlike(c, data, ins, b, p)
    decreases b - a
  {
    hide Alike;
    if a + 1 < b { CountSkip(c, data, ins, a + 1, b, p); }
  }

  lemma CountOne(c: Settings, data: seq<Byte>, ins: set<nat>, q: nat, p: nat)
    requires Alike(c, data, ins, q, p)
    ensures CountAlike(c, data, ins, q, p) == CountAlike(c, data, ins, q + 1, p) + 1
  {
  }

  lemma SeenLess(c: Settings, data: seq<Byte>, ins: set<nat>, p: nat, before: nat, q: nat, best: nat, n: nat)
    requires Seen(c, data, ins, p, before, q, best) && best <= n
    ensures Seen(c, data, ins, p, before, q, n)
  {
    hide Alike, Ends, Repeats;
    forall r: nat | q < r < p && Alike(c, data, ins, r, p)
      ensures !Ends(c, data, p, before, r) && (n < MAX_MATCH ==> !Repeats(data, p, p - r, n + 1))
    {
      if n < MAX_MATCH && Repeats(data, p, p - r, n + 1) { RepeatsLess(data, p, p - r, n + 1, best + 1); }
    }
  }

  /** The longest match is one: what the search is to give is determined. */
  lemma LongestUnique(c: Settings, data: seq<Byte>, ins: set<nat>, p: nat, before: nat, len: nat, dist: nat, len2: nat,
                      dist2: nat)
    requires Longest(c, data, ins, p, before, len, dist) && Longest(c, data, ins, p, before, len2, dist2)
    ensures len == len2 && dist == dist2
  {
    hide Alike, Ends, CountAlike, Budget, NoneLonger, Repeats;
    RepeatsBack(data, p, dist, len);
    RepeatsBack(data, p, dist2, len2);
    NotFarther(c, data, ins, p, before, len, dist, len2, dist2);
    NotFarther(c, data, ins, p, before, len2, dist2, len, dist);
    if len < len2 {
      RepeatsLess(data, p, dist2, len2, len + 1);
    } else if len2 < len {
      RepeatsLess(data, p, dist, len, len2 + 1);
    }
  }

  lemma NotFarther(c: Settings, data: seq<Byte>, ins: set<nat>, p: nat, before: nat, len: nat, dist: nat, len2: nat,
                   dist2: nat)
    requires Longest(c, data, ins, p, before, len, dist) && Longest(c, data, ins, p, before, len2, dist2)
    requires dist <= p
    ensures dist2 >= dist
  {
    hide Alike, Ends, CountAlike, Budget, Repeats;
    if dist2 < dist {
      var q, r := p - dist, p - dist2;
      if len2 >= len { RepeatsLess(data, p, dist2, len2, len); }
      CountLess(c, data, ins, q + 1, r, p);
      CountOne(c, data, ins, r, p);
      assert Tried(c, data, ins, p, before, q);
      RepeatsLess(data, p, dist, len, len2 + 1);
    }
  }
}
