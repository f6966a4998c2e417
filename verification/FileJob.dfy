/** A write in progress, on values: what has been stored, what of it the file system
    sees, which direct writes were made, and what the cache has fetched meanwhile. */
module FileJob {
  import opened Bits
  import opened Cache
  import opened FatTable
  import opened FatVolume
  import opened FileLayout
  import opened FileImage

  /** The chains of the volume and which is the file's, what the file system saw at first,
      the bytes to be written and where, the size of the file, the sectors that were stale
      and those that were cached at first; the clusters there can be in all, and how many
      the file has when its last cluster is the last of the volume. */
  datatype Job = Job(chains: seq<seq<nat>>, own: nat, img: seq<Sector>, from: nat, data: seq<Byte>, lim: nat,
                     stale: set<nat>, held: set<nat>, room: nat, turn: nat)

  /** Where a write stands: the clusters written over, the contents if every write went
      through, those the file system sees but for stale sectors, the stale and the cached
      sectors, and the direct writes so far. */
  datatype Stage = Stage(chain: seq<nat>, img: seq<Sector>, now: seq<Sector>, stale: set<nat>, cached: set<nat>,
      runs: seq<Direct>)

  function Larger(a: nat, b: nat): nat { if a < b then b else a }

  /** The chain has not become longer than the bytes to be written need. */
  ghost predicate Lean(g: Geometry, chain0: seq<nat>, chain: seq<nat>, end: nat) {
    |chain| > 0 && (|chain| == |chain0| || Offset(g, |chain| - 1, 0, 0) < end)
  }

  // ----- Direct writes -----

  /** The sectors that keep their old contents for good. */
  ghost function Unseen(runs: seq<Direct>): set<nat> {
    if runs == [] then {} else Unseen(runs[..|runs| - 1]) + LostBy(runs[|runs| - 1])
  }

  /** The sectors whose old contents are seen until their page is given up. */
  ghost function Dropped(runs: seq<Direct>): set<nat> {
    if runs == [] then {}
    else Dropped(runs[..|runs| - 1]) + (MissedBy(runs[|runs| - 1]) - Dirt(runs[|runs| - 1].es))
  }

  /** What is stale after the direct writes. */
  ghost function StaleAfter(stale: set<nat>, runs: seq<Direct>): set<nat> {
    if runs == [] then stale else Outdated(StaleAfter(stale, runs[..|runs| - 1]), runs[|runs| - 1])
  }

  /** No sector was missed by any of them. */
  ghost predicate NoneMissed(runs: seq<Direct>) {
    forall i :: 0 <= i < |runs| ==> MissedBy(runs[i]) == {}
  }

  lemma OneMore(stale: set<nat>, runs: seq<Direct>, d: Direct)
    ensures Unseen(runs + [d]) == Unseen(runs) + LostBy(d)
    ensures Dropped(runs + [d]) == Dropped(runs) + (MissedBy(d) - Dirt(d.es))
    ensures StaleAfter(stale, runs + [d]) == Outdated(StaleAfter(stale, runs), d)
  {
    hide MissedBy, Dirt, Outdated, LostBy;
    assert (runs + [d])[..|runs|] == runs;
  }

  /** Stale afterwards is what was dropped, and of what was stale before the part that no
      direct write brought up to date. */
  lemma {:induction false} StaleBound(stale: set<nat>, runs: seq<Direct>)
    ensures StaleAfter(stale, runs) <= stale + Dropped(runs)
    decreases |runs|
  {
    hide MissedBy, Dirt;
    if runs != [] { StaleBound(stale, runs[..|runs| - 1]); }
  }

  lemma {:induction false} NoneMissedNone(runs: seq<Direct>)
    requires NoneMissed(runs)
    ensures Unseen(runs) == {} && Dropped(runs) == {}
    decreases |runs|
  {
    hide MissedBy, Dirt;
    if runs != [] { NoneMissedNone(runs[..|runs| - 1]); }
  }

  /** Nothing was dropped exactly when every missed sector was in a dirty page. */
  lemma {:induction false} DroppedNone(runs: seq<Direct>)
    ensures Dropped(runs) == {} <==> forall i :: 0 <= i < |runs| ==> MissedBy(runs[i]) <= Dirt(runs[i].es)
    decreases |runs|
  {
    hide MissedBy, Dirt;
    if runs != [] {
      var m := |runs| - 1;
      var d := runs[m];
      DroppedNone(runs[..m]);
      assert runs == runs[..m] + [d];
      NoDifference(MissedBy(d), Dirt(d.es));
    }
  }

  lemma NoDifference(a: set<nat>, b: set<nat>)
    ensures a - b == {} <==> a <= b
  {
    if a - b == {} {
      forall t | t in a
        ensures t in b
      {
        assert t in a - b || t in b;
      }
    }
  }

  // ----- Parts of the file that are done -----

  /** Sector t of the chain lies between bytes from and q of the file. */
  ghost predicate Done(g: Geometry, chain: seq<nat>, from: nat, q: nat, t: nat) {
    exists k: nat, s: nat :: OfChain(g, chain, k, s, t) && from <= Offset(g, k, s, 0) && Offset(g, k, s, 0) + SIZE <= q
  }

  ghost predicate Swept(g: Geometry, chain: seq<nat>, from: nat, q: nat, ts: set<nat>) {
    forall t: nat :: t in ts ==> Done(g, chain, from, q, t)
  }

  lemma DoneMore(g: Geometry, chain: seq<nat>, chain2: seq<nat>, from: nat, q: nat, q2: nat, t: nat)
    requires Done(g, chain, from, q, t) && chain <= chain2 && q <= q2
    ensures Done(g, chain2, from, q2, t) && Passed(g, chain2, q2, t)
  {
    hide Offset, SectorOf;
    var k: nat, s: nat :| OfChain(g, chain, k, s, t) && from <= Offset(g, k, s, 0) && Offset(g, k, s, 0) + SIZE <= q;
    assert OfChain(g, chain2, k, s, t);
  }

  lemma SweptMore(g: Geometry, chain: seq<nat>, chain2: seq<nat>, from: nat, q: nat, q2: nat, ts: set<nat>)
    requires Swept(g, chain, from, q, ts) && chain <= chain2 && q <= q2
    ensures Swept(g, chain2, from, q2, ts)
  {
    forall t: nat | t in ts
      ensures Done(g, chain2, from, q2, t)
    {
      DoneMore(g, chain, chain2, from, q, q2, t);
    }
  }

  lemma PassedMore(g: Geometry, chain: seq<nat>, chain2: seq<nat>, q: nat, q2: nat, t: nat)
    requires Passed(g, chain, q, t) && chain <= chain2 && q <= q2
    ensures Passed(g, chain2, q2, t)
  {
    hide Offset, SectorOf;
    var k: nat, s: nat :| OfChain(g, chain, k, s, t) && Offset(g, k, s, 0) < q;
    assert OfChain(g, chain2, k, s, t);
  }

  /** The sector that byte q is in is not done. */
  lemma NotDone(g: Geometry, chain: seq<nat>, from: nat, k: nat, s: nat, off: nat)
    requires Distinct(chain) && k < |chain| && chain[k] >= CLUSTER_FIRST && s < g.spc && off < SIZE
    ensures !Done(g, chain, from, Offset(g, k, s, off), SectorOf(g, chain[k], s))
  {
    hide Offset, SectorOf;
    var at, q := SectorOf(g, chain[k], s), Offset(g, k, s, off);
    OffsetAdd(g, k, s, 0, 0, off);
    if Done(g, chain, from, q, at) {
      var j: nat, r: nat :| OfChain(g, chain, j, r, at) && from <= Offset(g, j, r, 0) && Offset(g, j, r, 0) + SIZE <= q;
      SameSector(g, chain, j, r, k, s);
    }
  }

  /** The sectors of a run are passed by it, and none of them was before. */
  lemma RunPassed(g: Geometry, chain: seq<nat>, from: nat, k: nat, s: nat, m: nat, t: nat)
    requires Distinct(chain) && k < |chain| && chain[k] >= CLUSTER_FIRST && s + m <= g.spc && from <= Offset(g, k, s, 0)
    requires t in Run(SectorOf(g, chain[k], s), m)
    ensures !Passed(g, chain, Offset(g, k, s, 0), t)
    ensures Done(g, chain, from, Offset(g, k, s, 0) + SIZE * m, t)
  {
    var at, q := SectorOf(g, chain[k], s), Offset(g, k, s, 0);
    var i := t - at;
    OffsetAdd(g, k, s, 0, i, 0);
    assert OfChain(g, chain, k, s + i, t);
    hide Offset, SectorOf;
    if Passed(g, chain, q, t) {
      var j: nat, r: nat :| OfChain(g, chain, j, r, t) && Offset(g, j, r, 0) < q;
      RunAhead(g, chain, k, s, i, j, r);
    }
  }

  // ----- What the file system sees -----

  /** The file system sees what is stored except in the unseen sectors, which show what they
      held at first; nothing has changed in sectors that begin at byte q or later. */
  ghost predicate Shown(g: Geometry, chain: seq<nat>, from: nat, q: nat, img0: seq<Sector>, img: seq<Sector>,
                        now: seq<Sector>,
                        unseen: set<nat>) {
    && |img0| == |img| == |now| && Swept(g, chain, from, q, unseen)
    && (forall t: nat :: t < |now| ==> now[t] == if t in unseen then img0[t] else img[t])
    && (forall t: nat :: t < |now| && !Passed(g, chain, q, t) ==> img[t] == img0[t])
  }

  lemma ShownMore(g: Geometry, chain: seq<nat>, chain2: seq<nat>, from: nat, q: nat, q2: nat, img0: seq<Sector>,
                  img: seq<Sector>,
                  now: seq<Sector>, unseen: set<nat>)
    requires Shown(g, chain, from, q, img0, img, now, unseen) && chain <= chain2 && q <= q2
    ensures Shown(g, chain2, from, q2, img0, img, now, unseen)
  {
    hide Done, Passed;
    SweptMore(g, chain, chain2, from, q, q2, unseen);
    forall t: nat | t < |now| && !Passed(g, chain2, q2, t)
      ensures img[t] == img0[t]
    {
      if Passed(g, chain, q, t) { PassedMore(g, chain, chain2, q, q2, t); }
    }
  }

  /** Part of a sector. */
  lemma ShownPart(g: Geometry, chain: seq<nat>, from: nat, img0: seq<Sector>, img: seq<Sector>, now: seq<Sector>,
                  unseen: set<nat>,
                  k: nat, s: nat, off: nat, n: nat, p: Sector)
    requires Shown(g, chain, from, Offset(g, k, s, off), img0, img, now, unseen)
    requires Distinct(chain) && k < |chain| && chain[k] >= CLUSTER_FIRST && s < g.spc && off < SIZE && n > 0
    requires SectorOf(g, chain[k], s) < |img|
    ensures var at := SectorOf(g, chain[k], s);
            now[at] == img[at] && Shown(g, chain, from, Offset(g, k, s, off) + n, img0, img[at := p], now[at := p],
                unseen)
  {
    var at, q := SectorOf(g, chain[k], s), Offset(g, k, s, off);
    NotDone(g, chain, from, k, s, off);
    OffsetAdd(g, k, s, 0, 0, off);
    assert OfChain(g, chain, k, s, at);
    hide Offset, SectorOf;
    assert Passed(g, chain, q + n, at);
    ShownMore(g, chain, chain, from, q, q + n, img0, img, now, unseen);
    hide Done, Passed;
  }

  /** A direct write that leaves some sectors of its run unseen. */
  lemma ShownRun(g: Geometry, chain: seq<nat>, from: nat, img0: seq<Sector>, img: seq<Sector>, now: seq<Sector>,
                 unseen: set<nat>,
                 k: nat, s: nat, buf: seq<Sector>, lost: set<nat>)
    requires Shown(g, chain, from, Offset(g, k, s, 0), img0, img, now, unseen) && from <= Offset(g, k, s, 0)
    requires Distinct(chain) && k < |chain| && chain[k] >= CLUSTER_FIRST && s + |buf| <= g.spc
    requires SectorOf(g, chain[k], s) + |buf| <= |img| && lost <= Run(SectorOf(g, chain[k], s), |buf|)
    ensures var at := SectorOf(g, chain[k], s);
            Shown(g, chain, from, Offset(g, k, s, 0) + SIZE * |buf|, img0, Written(img, at, buf),
                Overwritten(now, at, buf, lost), unseen + lost)
  {
    hide Offset, SectorOf, Done, Passed;
    var at, q := SectorOf(g, chain[k], s), Offset(g, k, s, 0);
    var q2 := q + SIZE * |buf|;
    ShownMore(g, chain, chain, from, q, q2, img0, img, now, unseen);
    forall t: nat | t in Run(at, |buf|)
      ensures !Passed(g, chain, q, t) && Done(g, chain, from, q2, t) && Passed(g, chain, q2, t)
    {
      RunPassed(g, chain, from, k, s, |buf|, t);
      DoneMore(g, chain, chain, from, q2, q2, t);
    }
    forall t: nat | t in unseen
      ensures Passed(g, chain, q, t)
    {
      DoneMore(g, chain, chain, from, q, q, t);
    }
    forall t: nat | at <= t < at + |buf|
      ensures t in Run(at, |buf|)
    {
      assert Within(t, at, |buf|);
    }
  }

  // ----- The record of direct writes -----

  /** The run of d lies between bytes from and q of the file. */
  ghost predicate RunIn(g: Geometry, chain: seq<nat>, from: nat, q: nat, d: Direct) {
    exists k: nat, s: nat :: RunAt(g, chain, k, s, d) && from <= Offset(g, k, s, 0)
        && Offset(g, k, s, 0) + SIZE * d.len <= q
  }

  ghost predicate RunAt(g: Geometry, chain: seq<nat>, k: nat, s: nat, d: Direct) {
    k < |chain| && chain[k] >= CLUSTER_FIRST && s + d.len <= g.spc && d.at == SectorOf(g, chain[k], s)
  }

  /** With the mirror step, or of one sector without it. */
  ghost predicate Recorded(d: Direct) { IsLead(d.es, d.at, d.len, d.n) || (d.len == 1 && d.n == 0) }

  /** Every direct write was one of the file, in the part that is done, and missed only
      sectors that were cached at first. */
  ghost predicate Logged(g: Geometry, chain: seq<nat>, from: nat, q: nat, held: set<nat>, runs: seq<Direct>) {
    forall i :: 0 <= i < |runs| ==> RunIn(g, chain, from, q, runs[i]) && MissedBy(runs[i]) <= held && Recorded(runs[i])
  }

  lemma LoggedMore(g: Geometry, chain: seq<nat>, chain2: seq<nat>, from: nat, q: nat, q2: nat, held: set<nat>,
                   runs: seq<Direct>)
    requires Logged(g, chain, from, q, held, runs) && chain <= chain2 && q <= q2
    ensures Logged(g, chain2, from, q2, held, runs)
  {
    hide Offset, SectorOf, MissedBy, Recorded;
    forall i | 0 <= i < |runs|
      ensures RunIn(g, chain2, from, q2, runs[i])
    {
      var d := runs[i];
      var k: nat, s: nat :| RunAt(g, chain, k, s, d) && from <= Offset(g, k, s, 0)
          && Offset(g, k, s, 0) + SIZE * d.len <= q;
      assert RunAt(g, chain2, k, s, d);
    }
  }

  lemma LoggedOne(g: Geometry, chain: seq<nat>, from: nat, held: set<nat>, runs: seq<Direct>, k: nat, s: nat, d: Direct)
    requires Logged(g, chain, from, Offset(g, k, s, 0), held, runs) && RunAt(g, chain, k, s, d)
    requires from <= Offset(g, k, s, 0)
    requires MissedBy(d) <= held && Recorded(d)
    ensures Logged(g, chain, from, Offset(g, k, s, 0) + SIZE * d.len, held, runs + [d])
  {
    hide Offset, MissedBy, Recorded, RunAt;
    LoggedMore(g, chain, chain, from, Offset(g, k, s, 0), Offset(g, k, s, 0) + SIZE * d.len, held, runs);
  }

  /** Which sectors are stale, and from which direct writes that came. */
  ghost predicate Traced(x: Job, g: Geometry, chain: seq<nat>, q: nat, stale: set<nat>, runs: seq<Direct>) {
    && stale == StaleAfter(x.stale, runs) && Logged(g, chain, x.from, q, x.held, runs)
    && Dropped(runs) <= stale && Swept(g, chain, x.from, q, Dropped(runs))
  }

  lemma TracedMore(x: Job, g: Geometry, chain: seq<nat>, chain2: seq<nat>, q: nat, q2: nat, stale: set<nat>,
                   runs: seq<Direct>)
    requires Traced(x, g, chain, q, stale, runs) && chain <= chain2 && q <= q2
    ensures Traced(x, g, chain2, q2, stale, runs)
  {
    hide Logged, Swept;
    LoggedMore(g, chain, chain2, x.from, q, q2, x.held, runs);
    SweptMore(g, chain, chain2, x.from, q, q2, Dropped(runs));
  }

  /** What was dropped before stays stale: a run does not come back to it. */
  lemma TracedRun(x: Job, g: Geometry, chain: seq<nat>, stale: set<nat>, runs: seq<Direct>, k: nat, s: nat, d: Direct)
    requires Traced(x, g, chain, Offset(g, k, s, 0), stale, runs) && RunAt(g, chain, k, s, d)
    requires x.from <= Offset(g, k, s, 0)
    requires Distinct(chain) && MissedBy(d) <= x.held * Run(d.at, d.len) && Recorded(d)
    ensures Traced(x, g, chain, Offset(g, k, s, 0) + SIZE * d.len, Outdated(stale, d), runs + [d])
  {
    hide Offset, SectorOf, MissedBy, Recorded, Logged, Done, Passed, Dirt;
    var q := Offset(g, k, s, 0);
    var q2 := q + SIZE * d.len;
    OneMore(x.stale, runs, d);
    LoggedOne(g, chain, x.from, x.held, runs, k, s, d);
    SweptMore(g, chain, chain, x.from, q, q2, Dropped(runs));
    forall t: nat | t in Run(d.at, d.len)
      ensures t !in Dropped(runs) && Done(g, chain, x.from, q2, t)
    {
      RunPassed(g, chain, x.from, k, s, d.len, t);
      if t in Dropped(runs) { DoneMore(g, chain, chain, x.from, q, q, t); }
    }
  }

  // ----- Where a write stands -----

  /** The first n bytes have been written, and nothing else but beyond the end of the file. */
  ghost predicate Reached(x: Job, g: Geometry, z: Stage, n: nat) {
    && n <= |x.data| && x.own < |x.chains|
    && Stored(g, x.chains[x.own], x.img, z.chain, z.img, x.from, x.data[..n], x.lim)
    && Shown(g, z.chain, x.from, x.from + n, x.img, z.img, z.now, Unseen(z.runs))
    && Traced(x, g, z.chain, x.from + n, z.stale, z.runs)
    && Fetched(g, z.chain, x.from + n, x.held, z.cached)
    && Lean(g, x.chains[x.own], z.chain, x.from + |x.data|)
  }

  lemma ReachedIs(x: Job, g: Geometry, z: Stage, n: nat)
    requires Reached(x, g, z, n)
    ensures Clusters(g, z.chain, z.img) && n <= |x.data| && x.own < |x.chains| && |z.img| == |x.img| == |z.now|
    ensures x.from + n <= Offset(g, |z.chain|, 0, 0) && x.chains[x.own] <= z.chain
    ensures Stored(g, x.chains[x.own], x.img, z.chain, z.img, x.from, x.data[..n], x.lim)
    ensures Shown(g, z.chain, x.from, x.from + n, x.img, z.img, z.now, Unseen(z.runs))
    ensures Traced(x, g, z.chain, x.from + n, z.stale, z.runs)
    ensures Fetched(g, z.chain, x.from + n, x.held, z.cached)
    ensures Lean(g, x.chains[x.own], z.chain, x.from + |x.data|)
  {
    hide Fetched, Lean, Clusters, Traced, Shown, Stored, Unseen;
    StoredIs(g, x.chains[x.own], x.img, z.chain, z.img, x.from, x.data[..n], x.lim);
    ShownIs(g, z.chain, x.from, x.from + n, x.img, z.img, z.now, Unseen(z.runs));
  }

  lemma ShownIs(g: Geometry, chain: seq<nat>, from: nat, q: nat, img0: seq<Sector>, img: seq<Sector>, now: seq<Sector>,
                unseen: set<nat>)
    requires Shown(g, chain, from, q, img0, img, now, unseen)
    ensures |img0| == |img| == |now|
  {
  }

  /** Before anything was written. */
  lemma ReachedNone(x: Job, g: Geometry)
    requires x.own < |x.chains| && |x.chains[x.own]| > 0 && Clusters(g, x.chains[x.own], x.img)
    requires x.from <= Offset(g, |x.chains[x.own]|, 0, 0)
    ensures Reached(x, g, Stage(x.chains[x.own], x.img, x.img, x.stale, x.held, []), 0)
  {
    hide Offset, Clusters;
    StoredNone(g, x.chains[x.own], x.img, x.from, x.lim);
    assert x.data[..0] == [];
  }

  lemma StoredNext(x: Job, g: Geometry, z: Stage, n: nat, chain2: seq<nat>, img2: seq<Sector>, b: seq<Byte>)
    requires Reached(x, g, z, n) && n + |b| <= |x.data| && b == x.data[n..n + |b|]
    requires Stored(g, z.chain, z.img, chain2, img2, x.from + n, b, Larger(x.lim, x.from + n))
    ensures Stored(g, x.chains[x.own], x.img, chain2, img2, x.from, x.data[..n + |b|], x.lim)
  {
    hide Stored, Fetched, Lean, Shown, Traced, Unseen;
    assert x.data[..n + |b|] == x.data[..n] + b;
    StoredMore(g, x.chains[x.own], x.img, z.chain, z.img, chain2, img2, x.from, x.data[..n], b, x.lim);
  }

  /** Part of a sector. */
  lemma ReachedPart(x: Job, g: Geometry, z: Stage, n: nat, k: nat, s: nat, off: nat, b: seq<Byte>, erase: bool,
                    cached2: set<nat>)
    requires Reached(x, g, z, n) && n + |b| <= |x.data| && b == x.data[n..n + |b|] && |b| > 0
    requires Distinct(z.chain) && k < |z.chain| && z.chain[k] >= CLUSTER_FIRST && s < g.spc && off + |b| <= SIZE
    requires x.from + n == Offset(g, k, s, off)
    requires (erase ==> off == 0 && x.lim <= x.from + n + |b|) && cached2 <= z.cached + {SectorOf(g, z.chain[k], s)}
    ensures SectorOf(g, z.chain[k], s) < |z.img| == |z.now|
    ensures var at := SectorOf(g, z.chain[k], s);
            Reached(x, g, z.(img := z.img[at := Patched(if erase then Zeros() else z.img[at], off, b)],
                          now := z.now[at := Patched(if erase then Zeros() else z.now[at], off, b)], cached := cached2),
                              n + |b|)
  {
    hide Reached, Stored, Fetched, Lean, Clusters, Offset, SectorOf, Distinct, Patched, Zeros, Shown, Traced, Unseen;
    ReachedIs(x, g, z, n);
    PartStored(g, z.chain, z.img, k, s, off, b, erase, Larger(x.lim, x.from + n));
    OffsetAdd(g, k, s, 0, 0, off);
    var at := SectorOf(g, z.chain[k], s);
    var p := Patched(if erase then Zeros() else z.img[at], off, b);
    FetchedPart(g, z.chain, k, s, x.from + n, x.from + n + |b|, x.held, z.cached, cached2);
    StoredNext(x, g, z, n, z.chain, z.img[at := p], b);
    ShownPart(g, z.chain, x.from, x.img, z.img, z.now, Unseen(z.runs), k, s, off, |b|, p);
    TracedMore(x, g, z.chain, z.chain, x.from + n, x.from + n + |b|, z.stale, z.runs);
    ToReached(x, g, z.(img := z.img[at := p], now := z.now[at := p], cached := cached2), n + |b|);
  }

  lemma ToReached(x: Job, g: Geometry, z: Stage, n: nat)
    requires n <= |x.data| && x.own < |x.chains|
    requires Stored(g, x.chains[x.own], x.img, z.chain, z.img, x.from, x.data[..n], x.lim)
    requires Shown(g, z.chain, x.from, x.from + n, x.img, z.img, z.now, Unseen(z.runs))
    requires Traced(x, g, z.chain, x.from + n, z.stale, z.runs)
    requires Fetched(g, z.chain, x.from + n, x.held, z.cached)
    requires Lean(g, x.chains[x.own], z.chain, x.from + |x.data|)
    ensures Reached(x, g, z, n)
  {
  }

  /** Whole sectors, written directly. */
  lemma ReachedRun(x: Job, g: Geometry, z: Stage, n: nat, k: nat, s: nat, buf: seq<Sector>, d: Direct)
    requires Reached(x, g, z, n) && n + SIZE * |buf| <= |x.data| && Flat(buf, 0, |buf|) == x.data[n..n + SIZE * |buf|]
    requires Distinct(z.chain) && k < |z.chain| && z.chain[k] >= CLUSTER_FIRST && s + |buf| <= g.spc
    requires x.from + n == Offset(g, k, s, 0)
    requires d.at == SectorOf(g, z.chain[k], s) && d.len == |buf| && MissedBy(d) <= Run(d.at, d.len) * z.cached
    requires Recorded(d)
    ensures SectorOf(g, z.chain[k], s) + |buf| <= |z.img|
    ensures Reached(x, g, z.(img := Written(z.img, d.at, buf), now := Overwritten(z.now, d.at, buf, LostBy(d)),
                          stale := Outdated(z.stale, d), runs := z.runs + [d]), n + SIZE * |buf|)
  {
    hide Reached, Stored, Fetched, Lean, Clusters, Offset, SectorOf, Distinct, Flat, Run, Written, Overwritten, Shown;
    hide Traced, Recorded, MissedBy, Outdated, Dirt, Unseen;
    ReachedIs(x, g, z, n);
    RunStored(g, z.chain, z.img, k, s, buf, Larger(x.lim, x.from + n));
    RunHeld(g, z.chain, k, s, |buf|, x.held, z.cached);
    assert MissedBy(d) <= x.held * Run(d.at, d.len);
    FetchedMore(g, z.chain, z.chain, x.from + n, x.from + n + SIZE * |buf|, x.held, z.cached, z.cached);
    StoredNext(x, g, z, n, z.chain, Written(z.img, d.at, buf), Flat(buf, 0, |buf|));
    ShownRun(g, z.chain, x.from, x.img, z.img, z.now, Unseen(z.runs), k, s, buf, LostBy(d));
    OneMore(x.stale, z.runs, d);
    TracedRun(x, g, z.chain, z.stale, z.runs, k, s, d);
    ToReached(x, g, z.(img := Written(z.img, d.at, buf), now := Overwritten(z.now, d.at, buf, LostBy(d)),
                    stale := Outdated(z.stale, d), runs := z.runs + [d]), n + SIZE * |buf|);
  }

  /** One more cluster, when it is needed. */
  lemma ReachedLonger(x: Job, g: Geometry, z: Stage, n: nat, c: nat, cached2: set<nat>)
    requires Reached(x, g, z, n) && Clusters(g, z.chain + [c], z.img) && cached2 <= z.cached
    requires x.from + n == Offset(g, |z.chain|, 0, 0) && n < |x.data|
    ensures Reached(x, g, z.(chain := z.chain + [c], cached := cached2), n)
  {
    hide Reached, Stored, Fetched, Clusters, Offset, Shown, Traced, Unseen, Lean;
    ReachedIs(x, g, z, n);
    var chain2 := z.chain + [c];
    OffsetMono(g, |z.chain|, |chain2|);
    Longer(g, z.chain, z.img, c, x.from + n, Larger(x.lim, x.from + n));
    FetchedMore(g, z.chain, chain2, x.from + n, x.from + n, x.held, z.cached, cached2);
    StoredNext(x, g, z, n, chain2, z.img, []);
    assert x.data[..n + 0] == x.data[..n];
    ShownMore(g, z.chain, chain2, x.from, x.from + n, x.from + n, x.img, z.img, z.now, Unseen(z.runs));
    TracedMore(x, g, z.chain, chain2, x.from + n, x.from + n, z.stale, z.runs);
    LeanMore(g, x.chains[x.own], z.chain, c, x.from + |x.data|);
    ToReached(x, g, z.(chain := chain2, cached := cached2), n);
  }

  lemma LeanMore(g: Geometry, chain0: seq<nat>, chain: seq<nat>, c: nat, end: nat)
    requires Offset(g, |chain|, 0, 0) < end
    ensures Lean(g, chain0, chain + [c], end)
  {
  }

  /** Fewer sectors in the cache. */
  lemma ReachedFewer(x: Job, g: Geometry, z: Stage, n: nat, cached2: set<nat>)
    requires Reached(x, g, z, n) && cached2 <= z.cached
    ensures Reached(x, g, z.(cached := cached2), n)
  {
    hide Stored, Lean, Shown, Traced;
    FetchedMore(g, z.chain, z.chain, x.from + n, x.from + n, x.held, z.cached, cached2);
  }

  // ----- How many clusters are needed -----

  function Smaller(a: nat, b: nat): nat { if a < b then a else b }

  /** How many clusters more than have a file that ends at byte end needs. */
  function Need(g: Geometry, have: nat, end: nat): nat
    requires g.spc > 0
  {
    var bpc := g.spc * SIZE;
    if end <= Offset(g, have, 0, 0) then 0 else (end - Offset(g, have, 0, 0) + bpc - 1) / bpc
  }

  lemma OffsetBytes(g: Geometry, k: nat)
    requires g.spc > 0
    ensures g.spc * SIZE > 0 && Offset(g, k, 0, 0) == k * (g.spc * SIZE)
  {
    MulAssoc(k, g.spc, SIZE);
  }

  /** m clusters are enough exactly when they are no fewer than have and those needed. */
  lemma NeedIs(g: Geometry, have: nat, end: nat, m: nat)
    requires g.spc > 0 && have <= m
    ensures end <= Offset(g, m, 0, 0) <==> Need(g, have, end) <= m - have
  {
    hide Offset;
    OffsetBytes(g, have);
    OffsetBytes(g, m);
    EnoughIs(have, end, m, g.spc * SIZE);
  }

  lemma EnoughIs(have: nat, end: nat, m: nat, b: nat)
    requires b > 0 && have <= m
    ensures end <= m * b <==> (if end <= have * b then 0 else (end - have * b + b - 1) / b) <= m - have
  {
    MulMono(have, m, b);
    if end > have * b {
      var d := end - have * b;
      var q := (d + b - 1) / b;
      assert m * b == have * b + (m - have) * b;
      Recombine(d + b - 1, b);
      if q <= m - have { MulMono(q, m - have, b); } else { MulMono(m - have + 1, q, b); }
    }
  }
}
