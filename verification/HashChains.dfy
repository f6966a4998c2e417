/** The hash chains of deflate: head holds the most recent string with each hash,
    prev the one before it, both as window indices with 0 for none. Positions
    without qualification count from the start of all input; window index 0 stands
    for position base. */
module HashChains {
  import opened Bits
  import opened DeflateHash

  /** An index into prev: cur_match & w_mask, for an index below 2 * w_size. */
  function Slot(w: nat, i: nat): nat { if i < w then i else i - w }

  lemma SlotIsMask(k: nat, i: nat)
    requires i < 2 * Pow2(k)
    ensures Slot(Pow2(k), i) == i % Pow2(k)
  {
    hide Pow2;
    if i < Pow2(k) { SmallMod(i, Pow2(k)); } else { DivModUnique(i, Pow2(k), 1, i - Pow2(k)); }
  }

  ghost function HashAt(bits: nat, data: seq<Byte>, p: nat): nat
    requires p + 2 < |data|
  {
    Hash3(bits, data[p], data[p + 1], data[p + 2])
  }

  /** Positions entered in the chains, all below top, with their whole strings. */
  ghost predicate Entered(data: seq<Byte>, top: nat, ins: set<nat>) {
    forall p :: p in ins ==> p < top && p + 2 < |data|
  }

  /** Each head is an entered string with that hash. */
  ghost predicate HeadsOk(bits: nat, head: seq<nat>, base: nat, data: seq<Byte>, ins: set<nat>)
    requires forall p :: p in ins ==> p + 2 < |data|
  {
    && |head| == Pow2(bits)
    && forall h :: 0 <= h < |head| && head[h] != 0 ==> base + head[h] in ins && HashAt(bits, data, base + head[h]) == h
  }

  /** The slot of p still belongs to p. */
  ghost predicate Live(w: nat, base: nat, top: nat, ins: set<nat>, p: nat) {
    p in ins && base <= p < base + 2 * w && top <= p + w
  }

  /** Each link leads to an earlier string with the same hash, as long as its slot has not been taken over. */
  ghost predicate LinksOk(bits: nat, w: nat, prev: seq<nat>, base: nat, data: seq<Byte>, top: nat, ins: set<nat>)
    requires forall p :: p in ins ==> p + 2 < |data|
  {
    && |prev| == w
    && forall p: nat {:trigger Live(w, base, top, ins, p)} :: Live(w, base, top, ins, p) ==>
         var u := prev[Slot(w, p - base)];
         u == 0 || (base + u < p && base + u in ins && HashAt(bits, data, base + u) == HashAt(bits, data, p))
  }

  /** No string in the chains is passed over: a head is the last entered string with its
      hash, and a link leads to the last one before. Index 0 stands for none, so the string
      at position base cannot be found. */
  ghost predicate NonePassed(bits: nat, w: nat, head: seq<nat>, prev: seq<nat>, base: nat, data: seq<Byte>, top: nat,
                             ins: set<nat>)
    requires |prev| == w && |head| == Pow2(bits) && forall p :: p in ins ==> p + 2 < |data|
  {
    && (forall q: nat :: q in ins && q > base ==> q <= base + head[HashAt(bits, data, q)])
    && (forall p: nat, q: nat {:trigger Live(w, base, top, ins, p), q in ins} ::
          Live(w, base, top, ins, p) && q in ins && base < q < p && HashAt(bits, data, q) == HashAt(bits, data, p) ==>
            q <= base + prev[Slot(w, p - base)])
  }

  /** Slots ever used hold indices below top that lead to used slots; this holds of
      stale indices too. */
  ghost predicate SlotsOk(w: nat, head: seq<nat>, prev: seq<nat>, base: nat, top: nat, used: set<nat>) {
    && |prev| == w && top <= base + 2 * w
    && (forall h :: 0 <= h < |head| ==> Leads(w, head[h], base, top, used))
    && (forall s :: s in used ==> s < w && Leads(w, prev[s], base, top, used))
  }

  ghost predicate Leads(w: nat, u: nat, base: nat, top: nat, used: set<nat>) {
    u == 0 || (base + u < top && Slot(w, u) in used)
  }

  ghost predicate Chained(bits: nat, w: nat, head: seq<nat>, prev: seq<nat>, base: nat, data: seq<Byte>, top: nat,
                          ins: set<nat>, used: set<nat>) {
    && Entered(data, top, ins) && HeadsOk(bits, head, base, data, ins)
    && LinksOk(bits, w, prev, base, data, top, ins) && SlotsOk(w, head, prev, base, top, used)
    && NonePassed(bits, w, head, prev, base, data, top, ins)
  }

  lemma Empty(bits: nat, w: nat, head: seq<nat>, prev: seq<nat>)
    requires |head| == Pow2(bits) && |prev| == w && forall h :: 0 <= h < |head| ==> head[h] == 0
    ensures Chained(bits, w, head, prev, 0, [], 0, {}, {})
  {
  }

  /** Input that arrives is not yet in the chains. */
  lemma More(bits: nat, w: nat, head: seq<nat>, prev: seq<nat>, base: nat, data: seq<Byte>, more: seq<Byte>, top: nat,
             ins: set<nat>, used: set<nat>)
    requires Chained(bits, w, head, prev, base, data, top, ins, used)
    ensures Chained(bits, w, head, prev, base, data + more, top, ins, used)
  {
    hide Hash3;
  }

  /** INSERT_STRING(s, str, match_head): the string becomes the head of its chain,
      and the head before it the next. */
  lemma Insert(bits: nat, w: nat, head: seq<nat>, prev: seq<nat>, base: nat, data: seq<Byte>, top: nat,
               ins: set<nat>, used: set<nat>, str: nat, h: nat)
    requires Chained(bits, w, head, prev, base, data, top, ins, used)
    requires top <= base + str && str < 2 * w && base + str + 2 < |data| && h == HashAt(bits, data, base + str)
    requires h < |head|
    ensures Chained(bits, w, head[h := str], prev[Slot(w, str) := head[h]], base, data, base + str + 1,
                    ins + {base + str}, used + {Slot(w, str)})
  {
    InsertHeads(bits, head, base, data, ins, str, h);
    InsertLinks(bits, w, head, prev, base, data, top, ins, str, h);
    InsertSlots(w, head, prev, base, top, used, str, h);
    InsertLast(bits, w, head, prev, base, data, top, ins, str, h);
  }

  lemma InsertLast(bits: nat, w: nat, head: seq<nat>, prev: seq<nat>, base: nat, data: seq<Byte>, top: nat,
                   ins: set<nat>, str: nat, h: nat)
    requires Entered(data, top, ins) && |head| == Pow2(bits) && |prev| == w
    requires NonePassed(bits, w, head, prev, base, data, top, ins)
    requires top <= base + str && str < 2 * w && base + str + 2 < |data| && h == HashAt(bits, data, base + str)
    ensures NonePassed(bits, w, head[h := str], prev[Slot(w, str) := head[h]], base, data, base + str + 1,
                       ins + {base + str})
  {
    hide Hash3, Pow2;
    var prev2, ins2, top2 := prev[Slot(w, str) := head[h]], ins + {base + str}, base + str + 1;
    forall p: nat, q: nat | Live(w, base, top2, ins2, p) && q in ins2 && base < q < p
                            && HashAt(bits, data, q) == HashAt(bits, data, p)
      ensures q <= base + prev2[Slot(w, p - base)]
    {
      if p != base + str {
        assert Live(w, base, top, ins, p);
        assert Slot(w, p - base) != Slot(w, str);
      }
    }
  }

  lemma InsertHeads(bits: nat, head: seq<nat>, base: nat, data: seq<Byte>, ins: set<nat>, str: nat, h: nat)
    requires forall p :: p in ins ==> p + 2 < |data|
    requires HeadsOk(bits, head, base, data, ins)
    requires base + str + 2 < |data| && h == HashAt(bits, data, base + str) && h < |head|
    ensures HeadsOk(bits, head[h := str], base, data, ins + {base + str})
  {
    hide Hash3;
  }

  lemma InsertLinks(bits: nat, w: nat, head: seq<nat>, prev: seq<nat>, base: nat, data: seq<Byte>, top: nat,
                    ins: set<nat>, str: nat, h: nat)
    requires Entered(data, top, ins) && HeadsOk(bits, head, base, data, ins)
    requires LinksOk(bits, w, prev, base, data, top, ins)
    requires top <= base + str && str < 2 * w && base + str + 2 < |data| && h == HashAt(bits, data, base + str)
    requires h < |head|
    ensures LinksOk(bits, w, prev[Slot(w, str) := head[h]], base, data, base + str + 1, ins + {base + str})
  {
    hide Hash3;
    var prev2, ins2, top2 := prev[Slot(w, str) := head[h]], ins + {base + str}, base + str + 1;
    forall p: nat | Live(w, base, top2, ins2, p)
      ensures var u := prev2[Slot(w, p - base)];
              u == 0 || (base + u < p && base + u in ins2 && HashAt(bits, data, base + u) == HashAt(bits, data, p))
    {
      if p != base + str {
        assert Live(w, base, top, ins, p);
        assert Slot(w, p - base) != Slot(w, str);
      }
    }
  }

  lemma InsertSlots(w: nat, head: seq<nat>, prev: seq<nat>, base: nat, top: nat, used: set<nat>, str: nat, h: nat)
    requires SlotsOk(w, head, prev, base, top, used)
    requires top <= base + str && str < 2 * w && h < |head|
    ensures SlotsOk(w, head[h := str], prev[Slot(w, str) := head[h]], base, base + str + 1, used + {Slot(w, str)})
  {
    assert Leads(w, head[h], base, top, used);
  }

  /** With all heads cleared nothing is entered any more. */
  lemma Forget(bits: nat, w: nat, head: seq<nat>, head2: seq<nat>, prev: seq<nat>, base: nat, data: seq<Byte>, top: nat,
               ins: set<nat>, used: set<nat>)
    requires Chained(bits, w, head, prev, base, data, top, ins, used)
    requires |head2| == |head| && forall h :: 0 <= h < |head2| ==> head2[h] == 0
    ensures Chained(bits, w, head2, prev, base, data, top, {}, used)
  {
    hide Pow2, Hash3;
  }

  // ----- Sliding the window -----

  /** *p = (Pos)(m >= wsize ? m-wsize : NIL). */
  function Slid(w: nat, s: seq<nat>): (r: seq<nat>)
    ensures |r| == |s|
  {
    seq(|s|, i requires 0 <= i < |s| => if s[i] >= w then s[i] - w else 0)
  }

  /** Moving the window on by w keeps every chain, less the strings that leave it. */
  lemma Slide(bits: nat, w: nat, head: seq<nat>, prev: seq<nat>, base: nat, data: seq<Byte>, top: nat,
              ins: set<nat>, used: set<nat>)
    requires Chained(bits, w, head, prev, base, data, top, ins, used)
    ensures Chained(bits, w, Slid(w, head), Slid(w, prev), base + w, data, top, ins, used)
  {
    SlideHeads(bits, w, head, base, data, ins);
    SlideLinks(bits, w, prev, base, data, top, ins);
    SlideSlots(w, head, prev, base, top, used);
    SlideLast(bits, w, head, prev, base, data, top, ins);
  }

  lemma SlideHeads(bits: nat, w: nat, head: seq<nat>, base: nat, data: seq<Byte>, ins: set<nat>)
    requires forall p :: p in ins ==> p + 2 < |data|
    requires HeadsOk(bits, head, base, data, ins)
    ensures HeadsOk(bits, Slid(w, head), base + w, data, ins)
  {
    hide Hash3;
  }

  lemma SlideLinks(bits: nat, w: nat, prev: seq<nat>, base: nat, data: seq<Byte>, top: nat, ins: set<nat>)
    requires Entered(data, top, ins) && top <= base + 2 * w
    requires LinksOk(bits, w, prev, base, data, top, ins)
    ensures LinksOk(bits, w, Slid(w, prev), base + w, data, top, ins)
  {
    hide Hash3;
    var prev2, base2 := Slid(w, prev), base + w;
    forall p: nat | Live(w, base2, top, ins, p)
      ensures var u := prev2[Slot(w, p - base2)];
              u == 0 || (base2 + u < p && base2 + u in ins && HashAt(bits, data, base2 + u) == HashAt(bits, data, p))
    {
      SlotStays(w, base, top, ins, p);
    }
  }

  lemma SlotStays(w: nat, base: nat, top: nat, ins: set<nat>, p: nat)
    requires Live(w, base + w, top, ins, p) && p < top <= base + 2 * w
    ensures Live(w, base, top, ins, p) && Slot(w, p - base - w) == Slot(w, p - base) < w
  {
  }

  lemma SlideSlots(w: nat, head: seq<nat>, prev: seq<nat>, base: nat, top: nat, used: set<nat>)
    requires SlotsOk(w, head, prev, base, top, used)
    ensures SlotsOk(w, Slid(w, head), Slid(w, prev), base + w, top, used)
  {
    hide Leads;
    var head2, prev2, base2 := Slid(w, head), Slid(w, prev), base + w;
    forall s | s in used
      ensures s < w && Leads(w, prev2[s], base2, top, used)
    {
      LeadsOn(w, prev[s], base, top, used);
    }
    forall i | 0 <= i < |head2|
      ensures Leads(w, head2[i], base2, top, used)
    {
      LeadsOn(w, head[i], base, top, used);
    }
  }

  lemma LeadsOn(w: nat, u: nat, base: nat, top: nat, used: set<nat>)
    requires Leads(w, u, base, top, used) && top <= base + 2 * w
    ensures Leads(w, if u >= w then u - w else 0, base + w, top, used)
  {
  }

  lemma SlideLast(bits: nat, w: nat, head: seq<nat>, prev: seq<nat>, base: nat, data: seq<Byte>, top: nat,
                  ins: set<nat>)
    requires Entered(data, top, ins) && top <= base + 2 * w && |head| == Pow2(bits) && |prev| == w
    requires NonePassed(bits, w, head, prev, base, data, top, ins)
    ensures NonePassed(bits, w, Slid(w, head), Slid(w, prev), base + w, data, top, ins)
  {
    hide Hash3, Pow2;
    var prev2, base2 := Slid(w, prev), base + w;
    forall p: nat, q: nat | Live(w, base2, top, ins, p) && q in ins && base2 < q < p
                            && HashAt(bits, data, q) == HashAt(bits, data, p)
      ensures q <= base2 + prev2[Slot(w, p - base2)]
    {
      SlotStays(w, base, top, ins, p);
    }
  }

  // ----- Following a chain -----

  /** v is the window index of an entered string before str with the same hash. */
  ghost predicate Candidate(bits: nat, base: nat, data: seq<Byte>, ins: set<nat>, v: nat, str: nat) {
    && v < str && base + v in ins && base + v + 2 < |data| && base + str + 2 < |data|
    && HashAt(bits, data, base + v) == HashAt(bits, data, base + str)
  }

  /** From a candidate less than w behind str, its link leads to another one or nowhere. */
  lemma Follow(bits: nat, w: nat, head: seq<nat>, prev: seq<nat>, base: nat, data: seq<Byte>, top: nat,
               ins: set<nat>, used: set<nat>, v: nat, str: nat)
    requires Chained(bits, w, head, prev, base, data, top, ins, used)
    requires Candidate(bits, base, data, ins, v, str) && top == base + str + 1 && str < v + w && v < 2 * w
    ensures Slot(w, v) < |prev|
    ensures var u := prev[Slot(w, v)]; u == 0 || (u < v && Candidate(bits, base, data, ins, u, str))
    ensures forall q: nat :: q in ins && base + prev[Slot(w, v)] < q < base + v ==>
              HashAt(bits, data, q) != HashAt(bits, data, base + str)
  {
    hide Hash3;
    assert Live(w, base, top, ins, base + v);
  }

  /** The link of a slot ever used leads to another one or nowhere. */
  lemma FollowStale(bits: nat, w: nat, head: seq<nat>, prev: seq<nat>, base: nat, data: seq<Byte>, top: nat,
                    ins: set<nat>, used: set<nat>, v: nat)
    requires Chained(bits, w, head, prev, base, data, top, ins, used) && Slot(w, v) in used
    ensures Slot(w, v) < |prev| && Leads(w, prev[Slot(w, v)], base, top, used)
  {
    hide Hash3;
  }

  /** What INSERT_STRING finds at the head of the chain. */
  lemma FromHead(bits: nat, w: nat, head: seq<nat>, prev: seq<nat>, base: nat, data: seq<Byte>, top: nat,
                 ins: set<nat>, used: set<nat>, str: nat, h: nat)
    requires Chained(bits, w, head, prev, base, data, top, ins, used)
    requires top <= base + str && base + str + 2 < |data| && h == HashAt(bits, data, base + str) && h < |head|
    ensures Leads(w, head[h], base, top, used)
    ensures head[h] == 0 || Candidate(bits, base, data, ins, head[h], str)
    ensures forall q: nat :: q in ins && base + head[h] < q ==> HashAt(bits, data, q) != h
  {
    hide Hash3;
  }

  lemma Sizes(bits: nat, w: nat, head: seq<nat>, prev: seq<nat>, base: nat, data: seq<Byte>, top: nat,
              ins: set<nat>, used: set<nat>)
    requires Chained(bits, w, head, prev, base, data, top, ins, used)
    ensures |head| == Pow2(bits) && |prev| == w && top <= base + 2 * w
  {
  }
}
