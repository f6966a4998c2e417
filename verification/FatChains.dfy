/** The links of the file allocation table as a set of disjoint chains. */
module FatChains {
  import opened Bits
  import opened FatTable

  /** Where every cluster up to last leads. */
  function LinksOf(kind: Kind, fat: seq<Byte>, last: nat): (r: seq<nat>)
    requires Covers(kind, fat, last)
    ensures |r| == last + 1
  {
    seq(last + 1, c requires 0 <= c <= last => (CoversAll(kind, fat, last, c); Next(kind, fat, c)))
  }

  /** What a link reads as after v is written there. */
  function Kept(kind: Kind, v: nat): nat { Clip(kind, v % Range(kind)) }

  lemma KeptLink(kind: Kind, v: nat)
    requires v < Limit(kind) || v == CLUSTER_EOF
    ensures Kept(kind, v) == v
  {
  }

  /** Writing one entry changes one link. */
  lemma LinksSet(kind: Kind, fat: seq<Byte>, last: nat, c: nat, v: nat)
    requires Covers(kind, fat, last) && c <= last && Place(kind, c) + Width(kind) <= |fat| && v < 0x1_0000_0000
    ensures LinksOf(kind, Set(kind, fat, c, v), last) == LinksOf(kind, fat, last)[c := Kept(kind, v)]
  {
    hide Next, Set, Place;
    var g := Set(kind, fat, c, v);
    forall d | 0 <= d <= last
      ensures LinksOf(kind, g, last)[d] == LinksOf(kind, fat, last)[c := Kept(kind, v)][d]
    {
      CoversAll(kind, fat, last, d);
      if d == c { ReadBack(kind, fat, c, v); } else { ReadOther(kind, fat, c, v, d); }
    }
  }

  predicate IsCluster(links: seq<nat>, c: nat) { CLUSTER_FIRST <= c < |links| }

  /** What cluster i of a chain links to: the next one, or the end. */
  function After(ch: seq<nat>, i: nat): nat { if i + 1 < |ch| then ch[i + 1] else CLUSTER_EOF }

  /** Each cluster of the chain links to the next, and the last one to the end. */
  ghost predicate ChainIs(links: seq<nat>, ch: seq<nat>) {
    && |ch| > 0
    && forall i: nat {:trigger ch[i]} :: i < |ch| ==> IsCluster(links, ch[i]) && links[ch[i]] == After(ch, i)
  }

  /** Cluster c is element i of chain k. */
  ghost predicate Member(chains: seq<seq<nat>>, c: nat, k: nat, i: nat) {
    k < |chains| && i < |chains[k]| && chains[k][i] == c
  }

  ghost predicate Chained(chains: seq<seq<nat>>, c: nat) {
    exists k: nat, i: nat :: Member(chains, c, k, i)
  }

  /** The clusters in use are exactly those of the chains, each in one place of one chain. */
  ghost predicate Partition(links: seq<nat>, chains: seq<seq<nat>>) {
    && |links| < CLUSTER_EOF
    && (forall k :: 0 <= k < |chains| ==> ChainIs(links, chains[k]))
    && (forall c: nat, k: nat, i: nat, l: nat, j: nat :: Member(chains, c, k, i) && Member(chains, c, l, j) ==>
       k == l && i == j)
    && (forall c: nat :: IsCluster(links, c) && links[c] != CLUSTER_FREE ==> Chained(chains, c))
  }

  /** A free cluster is in no chain. */
  lemma FreeApart(links: seq<nat>, chains: seq<seq<nat>>, c: nat, k: nat, i: nat)
    requires Partition(links, chains) && Member(chains, c, k, i)
    ensures IsCluster(links, c) && links[c] != CLUSTER_FREE
  {
    var ch := chains[k];
    assert ChainIs(links, ch);
    assert ch[i] == c && (i + 1 < |ch| ==> IsCluster(links, ch[i + 1]));
  }

  /** The links with cluster f made the end of a chain, after cluster c if that can be linked. */
  function Linked(links: seq<nat>, c: nat, f: nat): seq<nat>
    requires IsCluster(links, f)
  {
    (if CLUSTER_FIRST <= c < |links| - 1 then links[c := f] else links)[f := CLUSTER_EOF]
  }

  /** A free cluster appended to the chain that ends at c, provided that c is not the last
      cluster of the volume: that one is not linked, and the new cluster is a chain of its own. */
  lemma AppendKeeps(links: seq<nat>, chains: seq<seq<nat>>, k: nat, f: nat)
    requires Partition(links, chains) && k < |chains| && IsCluster(links, f) && links[f] == CLUSTER_FREE
    ensures |chains[k]| > 0
    ensures var c := chains[k][|chains[k]| - 1];
            if c < |links| - 1 then Partition(Linked(links, c, f), chains[k := chains[k] + [f]])
            else Partition(Linked(links, c, f), chains + [[f]])
  {
    NewKeeps(links, chains, f);
    assert ChainIs(links, chains[k]);
    var c := chains[k][|chains[k]| - 1];
    if c < |links| - 1 {
      var links2, chains2 := Linked(links, c, f), chains[k := chains[k] + [f]];
      forall l | 0 <= l < |chains2|
        ensures ChainIs(links2, chains2[l])
      {
        OnlyThere(links, chains, k, f, l);
      }
      forall d: nat, l: nat, i: nat, m: nat, j: nat | Member(chains2, d, l, i) && Member(chains2, d, m, j)
        ensures l == m && i == j
      {
        WasMember(links, chains, k, f, d, l, i);
        WasMember(links, chains, k, f, d, m, j);
      }
      forall d: nat | IsCluster(links2, d) && links2[d] != CLUSTER_FREE
        ensures Chained(chains2, d)
      {
        if d == f {
          assert Member(chains2, d, k, |chains[k]|);
        } else {
          if d == c { assert Member(chains, d, k, |chains[k]| - 1); }
          var l: nat, i: nat :| Member(chains, d, l, i);
          assert Member(chains2, d, l, i);
        }
      }
    }
  }

  /** A member after the append was one before, or is the new cluster. */
  lemma WasMember(links: seq<nat>, chains: seq<seq<nat>>, k: nat, f: nat, d: nat, l: nat, i: nat)
    requires Partition(links, chains) && k < |chains| && IsCluster(links, f) && links[f] == CLUSTER_FREE
    requires Member(chains[k := chains[k] + [f]], d, l, i)
    ensures if l == k && i == |chains[k]| then d == f else d != f && Member(chains, d, l, i)
  {
    if !(l == k && i == |chains[k]|) { FreeApart(links, chains, d, l, i); }
  }

  lemma OnlyThere(links: seq<nat>, chains: seq<seq<nat>>, k: nat, f: nat, l: nat)
    requires Partition(links, chains) && k < |chains| && IsCluster(links, f) && links[f] == CLUSTER_FREE && l < |chains|
    requires |chains[k]| > 0 && chains[k][|chains[k]| - 1] < |links| - 1
    ensures ChainIs(Linked(links, chains[k][|chains[k]| - 1], f), chains[k := chains[k] + [f]][l])
  {
    var c := chains[k][|chains[k]| - 1];
    var links2, ch := Linked(links, c, f), chains[k := chains[k] + [f]][l];
    assert ChainIs(links, chains[l]) && ChainIs(links, chains[k]);
    assert Member(chains, c, k, |chains[k]| - 1);
    forall i: nat | i < |ch|
      ensures IsCluster(links2, ch[i]) && links2[ch[i]] == After(ch, i)
    {
      if i < |chains[l]| {
        assert Member(chains, ch[i], l, i);
        FreeApart(links, chains, ch[i], l, i);
        if ch[i] == c { assert Member(chains, c, l, i); }
      }
    }
  }

  /** A free cluster as a chain of its own; CLUSTER_FREE asks for that. */
  lemma NewKeeps(links: seq<nat>, chains: seq<seq<nat>>, f: nat)
    requires Partition(links, chains) && IsCluster(links, f) && links[f] == CLUSTER_FREE
    ensures Partition(links[f := CLUSTER_EOF], chains + [[f]])
    ensures Linked(links, CLUSTER_FREE, f) == links[f := CLUSTER_EOF]
  {
    var links2, chains2 := links[f := CLUSTER_EOF], chains + [[f]];
    forall l | 0 <= l < |chains2|
      ensures ChainIs(links2, chains2[l])
    {
      if l < |chains| {
        assert ChainIs(links, chains[l]);
        forall i | 0 <= i < |chains[l]|
          ensures chains[l][i] != f
        {
          assert Member(chains, chains[l][i], l, i);
          FreeApart(links, chains, chains[l][i], l, i);
        }
      }
    }
    forall d: nat, l: nat, i: nat, m: nat, j: nat | Member(chains2, d, l, i) && Member(chains2, d, m, j)
      ensures l == m && i == j
    {
      if l < |chains| { FreeApart(links, chains, d, l, i); assert Member(chains, d, l, i); }
      if m < |chains| { FreeApart(links, chains, d, m, j); assert Member(chains, d, m, j); }
    }
    forall d: nat | IsCluster(links2, d) && links2[d] != CLUSTER_FREE
      ensures Chained(chains2, d)
    {
      if d == f {
        assert Member(chains2, d, |chains|, 0);
      } else {
        var l: nat, i: nat :| Member(chains, d, l, i);
        assert Member(chains2, d, l, i);
      }
    }
  }

  /** The links with the given clusters free. */
  function Cleared(links: seq<nat>, ch: seq<nat>): (r: seq<nat>)
    ensures |r| == |links|
  {
    seq(|links|, c requires 0 <= c < |links| => if c in ch then CLUSTER_FREE else links[c])
  }

  function Without(chains: seq<seq<nat>>, k: nat): seq<seq<nat>>
    requires k < |chains|
  {
    chains[..k] + chains[k + 1..]
  }

  /** Where chain l of those without chain k was. */
  function Old(k: nat, l: nat): nat { if l < k then l else l + 1 }

  lemma MemberOld(chains: seq<seq<nat>>, k: nat, d: nat, l: nat, i: nat)
    requires k < |chains| && Member(Without(chains, k), d, l, i)
    ensures Member(chains, d, Old(k, l), i)
  {
  }

  lemma StillChain(links: seq<nat>, chains: seq<seq<nat>>, k: nat, l: nat)
    requires Partition(links, chains) && k < |chains| && l < |chains| && l != k
    ensures ChainIs(Cleared(links, chains[k]), chains[l])
  {
    var ch := chains[l];
    assert ChainIs(links, ch);
    forall i: nat | i < |ch|
      ensures ch[i] !in chains[k]
    {
      if ch[i] in chains[k] {
        var j: nat :| j < |chains[k]| && chains[k][j] == ch[i];
        assert Member(chains, ch[i], l, i) && Member(chains, ch[i], k, j);
      }
    }
  }

  /** Freeing a whole chain frees exactly that chain. */
  lemma ClearKeeps(links: seq<nat>, chains: seq<seq<nat>>, k: nat)
    requires Partition(links, chains) && k < |chains|
    ensures Partition(Cleared(links, chains[k]), Without(chains, k))
  {
    var links2, chains2 := Cleared(links, chains[k]), Without(chains, k);
    forall l: nat | l < |chains2|
      ensures ChainIs(links2, chains2[l])
    {
      StillChain(links, chains, k, Old(k, l));
    }
    hide Without, ChainIs;
    forall d: nat, l: nat, i: nat, m: nat, j: nat | Member(chains2, d, l, i) && Member(chains2, d, m, j)
      ensures l == m && i == j
    {
      MemberOld(chains, k, d, l, i);
      MemberOld(chains, k, d, m, j);
    }
    forall d: nat | IsCluster(links2, d) && links2[d] != CLUSTER_FREE
      ensures Chained(chains2, d)
    {
      var l: nat, i: nat :| Member(chains, d, l, i);
      StillMember(chains, k, d, l, i);
    }
  }

  lemma StillMember(chains: seq<seq<nat>>, k: nat, d: nat, l: nat, i: nat)
    requires k < |chains| && Member(chains, d, l, i) && d !in chains[k]
    ensures Chained(Without(chains, k), d)
  {
    assert l != k;
    assert Member(Without(chains, k), d, if l < k then l else l - 1, i);
  }

  lemma ChainAt(links: seq<nat>, chains: seq<seq<nat>>, k: nat, i: nat)
    requires Partition(links, chains) && k < |chains| && (i == 0 || i < |chains[k]|)
    ensures var ch := chains[k];
            && i < |ch| && IsCluster(links, ch[i]) && links[ch[i]] == After(ch, i) && |links| < CLUSTER_EOF
            && (i + 1 < |ch| ==> IsCluster(links, After(ch, i)) && CLUSTER_FIRST <= After(ch, i) < CLUSTER_EOF)
  {
    var ch := chains[k];
    assert ChainIs(links, ch);
    assert i + 1 < |ch| ==> IsCluster(links, ch[i + 1]);
  }

  /** One more cluster of the chain free. */
  lemma ClearNext(links: seq<nat>, chains: seq<seq<nat>>, k: nat, i: nat)
    requires Partition(links, chains) && k < |chains| && i < |chains[k]|
    ensures var ch := chains[k];
            && IsCluster(links, ch[i]) && Cleared(links, ch[..i])[ch[i]] == After(ch, i)
            && Cleared(links, ch[..i])[ch[i] := CLUSTER_FREE] == Cleared(links, ch[..i + 1])
            && (After(ch, i) == CLUSTER_EOF || After(ch, i) >= CLUSTER_FIRST)
            && (i + 1 < |ch| ==> After(ch, i) < CLUSTER_EOF)
  {
    hide Partition, ChainIs, Member;
    var ch := chains[k];
    ChainAt(links, chains, k, i);
    NotBefore(links, chains, k, i);
    assert ch[..i + 1] == ch[..i] + [ch[i]];
    assert forall c :: c in ch[..i + 1] <==> c in ch[..i] || c == ch[i];
  }

  /** A chain has no cluster twice. */
  lemma NotBefore(links: seq<nat>, chains: seq<seq<nat>>, k: nat, i: nat)
    requires Partition(links, chains) && k < |chains| && i < |chains[k]|
    ensures chains[k][i] !in chains[k][..i]
  {
    hide ChainIs, Chained;
    var ch := chains[k];
    forall j: nat | j < i
      ensures ch[j] != ch[i]
    {
      assert Member(chains, ch[j], k, j) && Member(chains, ch[i], k, i);
    }
  }

  lemma ClearedNone(links: seq<nat>)
    ensures Cleared(links, []) == links
  {
  }
}
