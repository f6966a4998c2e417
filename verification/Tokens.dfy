/** The literals and matches that deflate tallies, and what they stand for. */
module Tokens {
  import opened Bits
  import opened Lz77

  const MIN_MATCH := 3
  const MAX_MATCH := 258

  datatype Token = Literal(b: Byte) | Match(dist: nat, len: nat)

  /** The bytes that a sequence of tokens expands to, from left to right. */
  function Expand(ts: seq<Token>): (r: seq<Byte>) {
    if ts == [] then []
    else
      var h := Expand(ts[..|ts| - 1]);
      match ts[|ts| - 1]
      case Literal(b) => h + [b]
      case Match(dist, len) => if 1 <= dist <= |h| then Extend(h, dist, len) else h
  }

  /** Every match is within the limits and within what precedes it. */
  ghost predicate Legal(ts: seq<Token>, maxDist: nat) {
    forall i :: 0 <= i < |ts| && ts[i].Match? ==>
      && MIN_MATCH <= ts[i].len <= MAX_MATCH && 1 <= ts[i].dist <= maxDist && ts[i].dist <= |Expand(ts[..i])|
  }

  /** data repeats at p, for len bytes, what lies dist places before. */
  ghost predicate Repeats(data: seq<Byte>, p: nat, dist: nat, len: nat) {
    && 1 <= dist <= p && p + len <= |data|
    && forall i :: p <= i < p + len ==> data[i] == data[i - dist]
  }

  /** The tokens stand for the first c bytes of data. */
  ghost predicate Tells(ts: seq<Token>, data: seq<Byte>, c: nat, maxDist: nat) {
    c <= |data| && Legal(ts, maxDist) && Expand(ts) == data[..c]
  }

  lemma TellNothing(data: seq<Byte>, maxDist: nat)
    ensures Tells([], data, 0, maxDist)
  {
  }

  lemma TellLiteral(ts: seq<Token>, data: seq<Byte>, c: nat, maxDist: nat)
    requires Tells(ts, data, c, maxDist) && c < |data|
    ensures Tells(ts + [Literal(data[c])], data, c + 1, maxDist)
  {
    var us := ts + [Literal(data[c])];
    assert us[..|ts|] == ts;
    assert data[..c + 1] == data[..c] + [data[c]];
    StillLegal(ts, Literal(data[c]), maxDist);
  }

  lemma TellMatch(ts: seq<Token>, data: seq<Byte>, c: nat, maxDist: nat, dist: nat, len: nat)
    requires Tells(ts, data, c, maxDist) && Repeats(data, c, dist, len)
    requires MIN_MATCH <= len <= MAX_MATCH && dist <= maxDist
    ensures Tells(ts + [Match(dist, len)], data, c + len, maxDist)
  {
    var us := ts + [Match(dist, len)];
    assert us[..|ts|] == ts;
    var h, r := data[..c], data[..c + len];
    assert r[..|h|] == h;
    ExtendUnique(h, dist, len, r);
    StillLegal(ts, Match(dist, len), maxDist);
  }

  lemma StillLegal(ts: seq<Token>, t: Token, maxDist: nat)
    requires Legal(ts, maxDist)
    requires t.Match? ==> MIN_MATCH <= t.len <= MAX_MATCH && 1 <= t.dist <= maxDist && t.dist <= |Expand(ts)|
    ensures Legal(ts + [t], maxDist)
  {
    var us := ts + [t];
    forall i | 0 <= i < |us| && us[i].Match?
      ensures MIN_MATCH <= us[i].len <= MAX_MATCH && 1 <= us[i].dist <= maxDist && us[i].dist <= |Expand(us[..i])|
    {
      if i < |ts| { assert us[..i] == ts[..i]; } else { assert us[..i] == ts; }
    }
  }

  /** Input that arrives later changes nothing that was told. */
  lemma TellMore(ts: seq<Token>, data: seq<Byte>, more: seq<Byte>, c: nat, maxDist: nat)
    requires Tells(ts, data, c, maxDist)
    ensures Tells(ts, data + more, c, maxDist)
  {
    assert (data + more)[..c] == data[..c];
  }

  lemma RepeatsMore(data: seq<Byte>, more: seq<Byte>, p: nat, dist: nat, len: nat)
    requires Repeats(data, p, dist, len)
    ensures Repeats(data + more, p, dist, len)
  {
  }
}
