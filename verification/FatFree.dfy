/** Free clusters: how many there are, how many lie ahead of a search, and when a chain
    that grows comes to end at the last cluster of the volume. */
module FatFree {
  import opened FatTable
  import opened FatChains

  ghost predicate NoneFree(links: seq<nat>) {
    forall c: nat :: IsCluster(links, c) ==> links[c] != CLUSTER_FREE
  }

  /** No cluster from a up to b is free. */
  ghost predicate Busy(links: seq<nat>, a: nat, b: nat) {
    forall c: nat :: a <= c < b && c < |links| ==> links[c] != CLUSTER_FREE
  }

  /** The first cluster that a search looks at. */
  function Start(links: seq<nat>, firstFree: nat): nat {
    if CLUSTER_FIRST <= firstFree < |links| then firstFree else CLUSTER_FIRST
  }

  /** f is the first free cluster from start on, going around the table once. */
  ghost predicate FirstFrom(links: seq<nat>, start: nat, f: nat) {
    && IsCluster(links, f) && links[f] == CLUSTER_FREE
    && if start <= f then Busy(links, start, f) else Busy(links, start, |links|) && Busy(links, CLUSTER_FIRST, f)
  }

  /** How many clusters from a up to b are free. */
  function CountFree(links: seq<nat>, a: nat, b: nat): (n: nat)
    decreases b - a
  {
    if a >= b then 0
    else (if a < |links| && links[a] == CLUSTER_FREE then 1 else 0) + CountFree(links, a + 1, b)
  }

  function FreeCount(links: seq<nat>): nat { CountFree(links, CLUSTER_FIRST, |links|) }

  /** The free clusters are those from number 2 on whose link is 0. */
  lemma FreeIs(links: seq<nat>)
    requires |links| >= 2
    ensures FreeCount(links) == |set c: nat | 2 <= c < |links| && links[c] == 0|
  {
    FreeFrom(links, 2);
  }

  lemma {:induction false} FreeFrom(links: seq<nat>, a: nat)
    requires a <= |links|
    ensures CountFree(links, a, |links|) == |set c: nat | a <= c < |links| && links[c] == 0|
    decreases |links| - a
  {
    var s := set c: nat | a <= c < |links| && links[c] == 0;
    if a < |links| {
      FreeFrom(links, a + 1);
      var t := set c: nat | a + 1 <= c < |links| && links[c] == 0;
      assert s == if links[a] == 0 then t + {a} else t;
    } else {
      assert s == {};
    }
  }

  /** How many of the free clusters a search meets before it has to go around. */
  function Ahead(links: seq<nat>, firstFree: nat): nat { CountFree(links, Start(links, firstFree), |links|) }

  lemma {:induction false} CountBusy(links: seq<nat>, a: nat, b: nat)
    requires b <= |links|
    ensures CountFree(links, a, b) == 0 <==> Busy(links, a, b)
    decreases b - a
  {
    if a < b {
      CountBusy(links, a + 1, b);
      if links[a] != CLUSTER_FREE && Busy(links, a + 1, b) {
        forall c: nat | a <= c < b
          ensures links[c] != CLUSTER_FREE
        {
          if c != a { assert a + 1 <= c; }
        }
      }
    }
  }

  lemma NoneCounted(links: seq<nat>)
    requires |links| >= CLUSTER_FIRST
    ensures FreeCount(links) == 0 <==> NoneFree(links)
  {
    CountBusy(links, CLUSTER_FIRST, |links|);
  }

  lemma {:induction false} CountSplit(links: seq<nat>, a: nat, b: nat, c: nat)
    requires a <= b <= c
    ensures CountFree(links, a, c) == CountFree(links, a, b) + CountFree(links, b, c)
    decreases b - a
  {
    if a < b { CountSplit(links, a + 1, b, c); }
  }

  /** The same clusters are free but for r, which is free no more. */
  ghost predicate Taken(links: seq<nat>, links2: seq<nat>, r: nat) {
    && |links2| == |links| && IsCluster(links, r) && links[r] == CLUSTER_FREE
    && forall c: nat :: c < |links| ==> (links2[c] == CLUSTER_FREE <==> links[c] == CLUSTER_FREE && c != r)
  }

  lemma {:induction false} CountTaken(links: seq<nat>, links2: seq<nat>, r: nat, a: nat, b: nat)
    requires Taken(links, links2, r)
    ensures CountFree(links2, a, b) == CountFree(links, a, b) - (if a <= r < b then 1 else 0)
    decreases b - a
  {
    if a < b { CountTaken(links, links2, r, a + 1, b); }
  }

  /** Linking a free cluster takes exactly that one. */
  lemma LinkedTaken(links: seq<nat>, c: nat, r: nat)
    requires IsCluster(links, r) && links[r] == CLUSTER_FREE && c < |links| && links[c] != CLUSTER_FREE
    ensures Taken(links, Linked(links, c, r), r)
  {
  }

  // ----- A chain that grows -----

  /** How long the chain will be when the last cluster of the volume becomes its end;
      0 if that cannot happen. */
  ghost function Turn(links: seq<nat>, firstFree: nat, chain: seq<nat>): nat
    requires |links| > CLUSTER_FIRST
  {
    if links[|links| - 1] == CLUSTER_FREE then |chain| + Ahead(links, firstFree)
    else if |chain| > 0 && chain[|chain| - 1] == |links| - 1 then |chain|
    else 0
  }

  /** Where the growth stands: room clusters are all there can be, and the last cluster of
      the volume is the end of the chain exactly when it is turn clusters long. */
  ghost predicate Course(links: seq<nat>, firstFree: nat, chain: seq<nat>, room: nat, turn: nat) {
    && |links| > CLUSTER_FIRST && |chain| > 0 && FreeCount(links) + |chain| == room
    && (chain[|chain| - 1] == |links| - 1 <==> |chain| == turn)
    && (links[|links| - 1] == CLUSTER_FREE <==> |chain| < turn)
    && (|chain| < turn ==> Ahead(links, firstFree) == turn - |chain|)
  }

  /** Before anything was added. */
  lemma CourseBegins(links: seq<nat>, firstFree: nat, chain: seq<nat>)
    requires |links| > CLUSTER_FIRST && |chain| > 0
    requires chain[|chain| - 1] < |links| && links[chain[|chain| - 1]] != CLUSTER_FREE
    ensures Course(links, firstFree, chain, FreeCount(links) + |chain|, Turn(links, firstFree, chain))
  {
    if links[|links| - 1] == CLUSTER_FREE {
      CountBusy(links, Start(links, firstFree), |links|);
    }
  }

  /** The first free cluster added. */
  lemma CourseGoes(links: seq<nat>, firstFree: nat, chain: seq<nat>, room: nat, turn: nat, links2: seq<nat>, r: nat)
    requires Course(links, firstFree, chain, room, turn) && FirstFrom(links, Start(links, firstFree), r)
    requires Taken(links, links2, r)
    ensures Course(links2, r, chain + [r], room, turn)
  {
    var last := |links| - 1;
    CountTaken(links, links2, r, CLUSTER_FIRST, |links|);
    if |chain| < turn {
      var s := Start(links, firstFree);
      assert links[last] == CLUSTER_FREE && s <= last;
      assert !Busy(links, s, |links|);
      CountBusy(links, s, r);
      CountSplit(links, s, r, |links|);
      CountTaken(links, links2, r, r, |links|);
      CountBusy(links2, r, |links|);
      assert CountFree(links2, r, |links|) == turn - |chain| - 1;
      if r != last { assert links2[last] == CLUSTER_FREE; }
    }
  }
}
