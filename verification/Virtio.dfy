/** The virtio disk driver's descriptors and rings (sections 2.6 and 5.2 of Virtio 1.1), with the device
    completing requests in any order and with any status. */
module Virtio {
  import opened Sets

  const NUM: nat := 8
  const BSIZE: nat := 1024
  const NEXT: nat := 1          // VRING_DESC_F_NEXT
  const WRITE: nat := 2         // VRING_DESC_F_WRITE
  const UNSET: nat := 0xff      // the status before the device writes one

  /** What the address in a descriptor leads to: a command header, a buffer's data, or a status byte. */
  datatype Addr = Null | Header(i: nat) | Buffer(b: nat) | Status(i: nat)

  datatype Desc = Desc(addr: Addr, len: nat, flags: nat, next: nat)
  datatype Info = Info(b: nat, status: nat)        // b == 0 for none
  datatype Head = Head(write: bool, sector: nat)   // struct virtio_blk_req
  datatype Op = Op(write: bool, block: nat)

  const BLANK: Desc := Desc(Null, 0, 0, 0)

  /** How far a request has come: in the avail ring, taken by the device, in the used ring, or seen by
      the interrupt handler. */
  datatype Phase = Queued | Taken | Done | Seen

  datatype Req = Req(b: nat, op: Op, d1: nat, d2: nat, phase: Phase, status: nat)

  /** The header of a request: two sectors to a block. */
  function HeadOf(op: Op): Head { Head(op.write, 2 * op.block) }

  // ---------- Descriptors ----------

  /** The three descriptors of the request at head `h` are set up as section 5.2 asks. */
  predicate Chained(desc: seq<Desc>, ops: seq<Head>, h: nat, r: Req) {
    && |desc| == |ops| == NUM && h < NUM && r.d1 < NUM && r.d2 < NUM && h != r.d1 && h != r.d2 && r.d1 != r.d2
    && ops[h] == HeadOf(r.op)
    && desc[h] == Desc(Header(h), 16, NEXT, r.d1)
    && desc[r.d1] == Desc(Buffer(r.b), BSIZE, if r.op.write then NEXT else WRITE + NEXT, r.d2)
    && desc[r.d2] == Desc(Status(h), 1, WRITE, 0)
  }

  /** `own` gives the request of every descriptor in use, and the rest are free: chains are disjoint. */
  ghost predicate Shared(free: seq<bool>, reqs: map<nat, Req>, own: map<nat, nat>) {
    && |free| == NUM && (forall i: nat :: i in own ==> i < NUM)
    && (forall i :: 0 <= i < NUM ==> (free[i] <==> i !in own))
    && (forall i :: i in own ==> own[i] in reqs && (i == own[i] || i == reqs[own[i]].d1 || i == reqs[own[i]].d2))
    && (forall h :: h in reqs ==> OwnsChain(own, h, reqs[h]))
  }

  function Claimed(own: map<nat, nat>, h: nat, d1: nat, d2: nat): map<nat, nat> { own[h := h][d1 := h][d2 := h] }

  predicate OwnsChain(own: map<nat, nat>, h: nat, r: Req) {
    h in own && own[h] == h && r.d1 in own && own[r.d1] == h && r.d2 in own && own[r.d2] == h
  }

  /** In-flight requests never share a descriptor. */
  lemma ChainsDisjoint(free: seq<bool>, reqs: map<nat, Req>, own: map<nat, nat>, g: nat, h: nat)
    requires Shared(free, reqs, own) && g in reqs && h in reqs && g != h
    ensures {g, reqs[g].d1, reqs[g].d2} !! {h, reqs[h].d1, reqs[h].d2}
  {
    assert OwnsChain(own, g, reqs[g]) && OwnsChain(own, h, reqs[h]);
  }

  /** Only the three entries of a chain differ. */
  ghost predicate SameBut<T>(s: seq<T>, t: seq<T>, h: nat, d1: nat, d2: nat) {
    |s| == |t| == NUM && forall i :: 0 <= i < NUM && i != h && i != d1 && i != d2 ==> t[i] == s[i]
  }

  // ---------- Rings ----------

  /** The entries from position `from` on of a ring of NUM are `q`. */
  ghost predicate RingHas(ring: seq<nat>, from: nat, q: seq<nat>) {
    |ring| == NUM && |q| <= NUM && forall j :: 0 <= j < |q| ==> ring[(from + j) % 8] == q[j]
  }

  ghost predicate Distinct(q: seq<nat>) { forall i, j :: 0 <= i < j < |q| ==> q[i] != q[j] }

  /** The queue holds exactly the requests in a phase, each once. */
  ghost predicate Holds(q: seq<nat>, reqs: map<nat, Req>, phase: Phase) {
    Distinct(q) && forall h :: h in q <==> h in reqs && reqs[h].phase == phase
  }

  lemma Apart(from: nat, i: nat, j: nat)
    requires i < 8 && j < 8 && i != j
    ensures (from + i) % 8 != (from + j) % 8
  {
  }

  /** Adding an entry overwrites none that is still wanted. */
  lemma RingPush(ring: seq<nat>, from: nat, q: seq<nat>, h: nat)
    requires RingHas(ring, from, q) && |q| < NUM
    ensures RingHas(ring[(from + |q|) % 8 := h], from, q + [h])
  {
    var now, r := ring[(from + |q|) % 8 := h], q + [h];
    forall j | 0 <= j < |r| ensures now[(from + j) % 8] == r[j] {
      if j < |q| { Apart(from, j, |q|); }
    }
  }

  lemma RingPop(ring: seq<nat>, from: nat, q: seq<nat>)
    requires RingHas(ring, from, q) && q != []
    ensures ring[from % 8] == q[0] && RingHas(ring, from + 1, q[1..])
  {
    assert ring[(from + 0) % 8] == q[0];
    forall j | 0 <= j < |q| - 1 ensures ring[(from + 1 + j) % 8] == q[1..][j] {
      assert ring[(from + (j + 1)) % 8] == q[j + 1];
    }
  }

  // The indices are sixteen bits wide.

  function Idx16(n: nat): nat { n % 0x1_0000 }
  function Next16(i: nat): nat { (i + 1) % 0x1_0000 }
  function Slot(i: nat): nat { i % 8 }

  /** Sixteen bits tell an empty ring from one with entries. */
  lemma EmptyIff(from: nat, n: nat)
    requires n <= NUM
    ensures Idx16(from) == Idx16(from + n) <==> n == 0
  {
  }

  /** ... and find the same slots. */
  lemma SlotOf(n: nat)
    ensures Slot(Idx16(n)) == n % 8 && Next16(Idx16(n)) == Idx16(n + 1)
  {
  }

  lemma PushAt(ring: seq<nat>, from: nat, q: seq<nat>, h: nat, idx: nat)
    requires RingHas(ring, from, q) && |q| < NUM && idx == Idx16(from + |q|)
    ensures Slot(idx) < |ring| && RingHas(ring[Slot(idx) := h], from, q + [h]) && Next16(idx) == Idx16(from + |q + [h]|)
  {
    SlotOf(from + |q|);
    RingPush(ring, from, q, h);
  }

  lemma PopAt(ring: seq<nat>, from: nat, q: seq<nat>, idx: nat)
    requires RingHas(ring, from, q) && q != [] && idx == Idx16(from)
    ensures Slot(idx) < |ring| && ring[Slot(idx)] == q[0] && RingHas(ring, from + 1, q[1..])
            && Next16(idx) == Idx16(from + 1)
  {
    SlotOf(from);
    RingPop(ring, from, q);
  }

  // ---------- Queues and phases ----------

  lemma HoldsOther(q: seq<nat>, reqs: map<nat, Req>, h: nat, r: Req, phase: Phase)
    requires Holds(q, reqs, phase) && (h in reqs ==> reqs[h].phase != phase) && r.phase != phase
    ensures Holds(q, reqs[h := r], phase)
  {
  }

  lemma HoldsAdd(q: seq<nat>, reqs: map<nat, Req>, h: nat, r: Req, phase: Phase)
    requires Holds(q, reqs, phase) && h !in q && r.phase == phase
    ensures Holds(q + [h], reqs[h := r], phase)
  {
  }

  lemma HoldsDrop(q: seq<nat>, reqs: map<nat, Req>, r: Req, phase: Phase)
    requires Holds(q, reqs, phase) && q != [] && r.phase != phase
    ensures Holds(q[1..], reqs[q[0] := r], phase)
  {
    assert forall h :: h in q <==> h == q[0] || h in q[1..];
    assert q[0] !in q[1..];
  }

  lemma HoldsRemove(q: seq<nat>, reqs: map<nat, Req>, h: nat, phase: Phase)
    requires Holds(q, reqs, phase) && h in reqs && reqs[h].phase != phase
    ensures Holds(q, reqs - {h}, phase)
  {
  }

  ghost function Upto(n: nat): (s: set<nat>)
    ensures |s| == n && forall i :: i in s <==> 0 <= i < n
  {
    if n == 0 then {} else Upto(n - 1) + {n - 1}
  }

  ghost function Elements(q: seq<nat>): (s: set<nat>)
    ensures forall h :: h in s <==> h in q
  {
    if q == [] then {} else Elements(q[1..]) + {q[0]}
  }

  lemma {:induction false} DistinctSize(q: seq<nat>)
    requires Distinct(q)
    ensures |Elements(q)| == |q|
  {
    if q != [] {
      assert q[0] !in q[1..];
      DistinctSize(q[1..]);
    }
  }

  /** A queue of different heads that leaves one out has room for it. */
  lemma Room(q: seq<nat>, h: nat)
    requires Distinct(q) && (forall g :: g in q ==> g < NUM) && h < NUM && h !in q
    ensures |q| < NUM
  {
    hide Distinct, Upto, Elements;
    DistinctSize(q);
    var s := Elements(q);
    var t := s + {h};
    assert |t| == |s| + 1;
    assert t <= Upto(NUM);
    Fewer(t, Upto(NUM));
  }

  // ---------- What the steps keep ----------

  ghost predicate AllChained(desc: seq<Desc>, ops: seq<Head>, reqs: map<nat, Req>) {
    forall h :: h in reqs ==> Chained(desc, ops, h, reqs[h])
  }

  ghost predicate InfoKept(info: seq<Info>, reqs: map<nat, Req>) {
    |info| == NUM && forall h :: h in reqs ==> h < NUM && info[h] == Info(reqs[h].b, reqs[h].status)
  }

  /** A buffer is marked busy from the submission of its request until its completion is seen. */
  ghost predicate BusyKept(busy: set<nat>, reqs: map<nat, Req>) {
    && (forall h :: h in reqs ==> (reqs[h].b in busy <==> reqs[h].phase != Seen))
    && (forall g, h :: g in reqs && h in reqs && reqs[g].b == reqs[h].b ==> g == h)
  }

  ghost predicate Sane(reqs: map<nat, Req>, nblocks: nat, bufs: set<nat>) {
    forall h :: h in reqs ==> reqs[h].b > 0 && reqs[h].op.block < nblocks && reqs[h].b in bufs
  }

  lemma InfoSet(info: seq<Info>, reqs: map<nat, Req>, h: nat, r: Req, i: Info)
    requires InfoKept(info, reqs) && h < NUM && i == Info(r.b, r.status)
    ensures InfoKept(info[h := i], reqs[h := r])
  {
  }

  lemma BusySet(busy: set<nat>, reqs: map<nat, Req>, h: nat, r: Req)
    requires BusyKept(busy, reqs) && (forall g :: g in reqs && g != h ==> reqs[g].b != r.b)
    ensures BusyKept(if r.phase == Seen then busy - {r.b} else busy + {r.b}, reqs[h := r])
  {
  }

  /** A change of phase before the completion is seen leaves the marks. */
  lemma BusyPhase(busy: set<nat>, reqs: map<nat, Req>, h: nat, p: Phase, st: nat)
    requires BusyKept(busy, reqs) && h in reqs && reqs[h].phase != Seen && p != Seen
    ensures BusyKept(busy, reqs[h := reqs[h].(phase := p, status := st)])
  {
  }

  lemma SaneSet(reqs: map<nat, Req>, nblocks: nat, bufs: set<nat>, h: nat, r: Req)
    requires Sane(reqs, nblocks, bufs) && r.b > 0 && r.op.block < nblocks && r.b in bufs
    ensures Sane(reqs[h := r], nblocks, bufs)
  {
  }

  /** A new request on three descriptors that were free. */
  lemma Submitted(free: seq<bool>, reqs: map<nat, Req>, own: map<nat, nat>, h: nat, r: Req, free': seq<bool>)
    requires Shared(free, reqs, own) && h < NUM && r.d1 < NUM && r.d2 < NUM && h != r.d1 && h != r.d2 && r.d1 != r.d2
    requires free[h] && free[r.d1] && free[r.d2] && free' == free[h := false][r.d1 := false][r.d2 := false]
    ensures h !in reqs && Shared(free', reqs[h := r], Claimed(own, h, r.d1, r.d2))
  {
    var rs, o := reqs[h := r], Claimed(own, h, r.d1, r.d2);
    assert h in reqs ==> OwnsChain(own, h, reqs[h]);
    forall g | g in rs ensures OwnsChain(o, g, rs[g]) {
      if g != h { assert OwnsChain(own, g, reqs[g]); }
    }
  }

  lemma SubmittedChains(desc: seq<Desc>, ops: seq<Head>, free: seq<bool>, reqs: map<nat, Req>, own: map<nat, nat>,
                        h: nat, r: Req, desc': seq<Desc>, ops': seq<Head>)
    requires AllChained(desc, ops, reqs) && Shared(free, reqs, own) && |desc| == |ops| == |desc'| == |ops'| == NUM
             && h < NUM && r.d1 < NUM && r.d2 < NUM
    requires free[h] && free[r.d1] && free[r.d2] && Chained(desc', ops', h, r)
    requires SameBut(desc, desc', h, r.d1, r.d2) && SameBut(ops, ops', h, r.d1, r.d2)
    ensures AllChained(desc', ops', reqs[h := r])
  {
    var rs := reqs[h := r];
    forall g | g in rs ensures Chained(desc', ops', g, rs[g]) {
      if g != h { assert OwnsChain(own, g, reqs[g]) && Chained(desc, ops, g, reqs[g]); }
    }
  }

  /** A change of phase and status alone. */
  lemma Rephased(free: seq<bool>, reqs: map<nat, Req>, own: map<nat, nat>, h: nat, p: Phase, st: nat)
    requires Shared(free, reqs, own) && h in reqs
    ensures Shared(free, reqs[h := reqs[h].(phase := p, status := st)], own)
  {
    var rs := reqs[h := reqs[h].(phase := p, status := st)];
    forall g | g in rs ensures OwnsChain(own, g, rs[g]) {
      assert OwnsChain(own, g, reqs[g]);
    }
  }

  lemma RephasedChains(desc: seq<Desc>, ops: seq<Head>, reqs: map<nat, Req>, h: nat, p: Phase, st: nat)
    requires AllChained(desc, ops, reqs) && h in reqs
    ensures AllChained(desc, ops, reqs[h := reqs[h].(phase := p, status := st)])
  {
    var rs := reqs[h := reqs[h].(phase := p, status := st)];
    forall g | g in rs ensures Chained(desc, ops, g, rs[g]) {
      assert Chained(desc, ops, g, reqs[g]);
    }
  }

  /** The descriptors of one request given back. */
  lemma Finished(free: seq<bool>, reqs: map<nat, Req>, own: map<nat, nat>, h: nat, free': seq<bool>)
    requires Shared(free, reqs, own) && h in reqs && h < NUM && reqs[h].d1 < NUM && reqs[h].d2 < NUM
    requires free' == free[h := true][reqs[h].d1 := true][reqs[h].d2 := true]
    ensures Shared(free', reqs - {h}, own - {h, reqs[h].d1, reqs[h].d2})
  {
    var rs, o := reqs - {h}, own - {h, reqs[h].d1, reqs[h].d2};
    assert OwnsChain(own, h, reqs[h]);
    forall g | g in rs ensures OwnsChain(o, g, rs[g]) {
      assert OwnsChain(own, g, reqs[g]);
    }
  }

  lemma FinishedChains(desc: seq<Desc>, ops: seq<Head>, free: seq<bool>, reqs: map<nat, Req>, own: map<nat, nat>,
                       h: nat, desc': seq<Desc>)
    requires AllChained(desc, ops, reqs) && Shared(free, reqs, own) && h in reqs && |desc| == |ops| == |desc'| == NUM
    requires SameBut(desc, desc', h, reqs[h].d1, reqs[h].d2)
    ensures AllChained(desc', ops, reqs - {h})
  {
    var rs := reqs - {h};
    assert OwnsChain(own, h, reqs[h]);
    forall g | g in rs ensures Chained(desc', ops, g, rs[g]) {
      assert OwnsChain(own, g, reqs[g]) && Chained(desc, ops, g, reqs[g]);
    }
  }

  // ---------- The two halves of the state ----------

  /** Descriptors, request table and buffer marks. */
  ghost predicate TablesOk(free: seq<bool>, desc: seq<Desc>, ops: seq<Head>, info: seq<Info>, busy: set<nat>,
                           reqs: map<nat, Req>, own: map<nat, nat>,
                           nblocks: nat, bufs: set<nat>) {
    && |desc| == |ops| == NUM && Shared(free, reqs, own) && AllChained(desc, ops, reqs)
    && InfoKept(info, reqs) && BusyKept(busy, reqs) && Sane(reqs, nblocks, bufs)
  }

  /** A ring with `q` in it from position `from`, which holds the requests of a phase, and its indices. */
  ghost predicate RingOk(ring: seq<nat>, from: nat, q: seq<nat>, reqs: map<nat, Req>, phase: Phase, first: nat,
                         last: nat) {
    RingHas(ring, from, q) && Holds(q, reqs, phase) && first == Idx16(from) && last == Idx16(from + |q|)
  }

  lemma SubmitTables(free: seq<bool>, desc: seq<Desc>, ops: seq<Head>, info: seq<Info>, busy: set<nat>,
                     reqs: map<nat, Req>, own: map<nat, nat>, nblocks: nat, bufs: set<nat>, h: nat, r: Req,
                     free': seq<bool>, desc': seq<Desc>, ops': seq<Head>)
    requires TablesOk(free, desc, ops, info, busy, reqs, own, nblocks, bufs) && h < NUM && r.d1 < NUM && r.d2 < NUM
             && |free| == NUM
    requires h != r.d1 && h != r.d2 && r.d1 != r.d2 && r.phase == Queued && r.status == UNSET
             && (forall g :: g in reqs ==> reqs[g].b != r.b)
    requires free[h] && free[r.d1] && free[r.d2] && free' == free[h := false][r.d1 := false][r.d2 := false]
    requires r.b > 0 && r.op.block < nblocks && r.b in bufs && |desc'| == |ops'| == NUM && Chained(desc', ops', h, r)
    requires SameBut(desc, desc', h, r.d1, r.d2) && SameBut(ops, ops', h, r.d1, r.d2)
    ensures h !in reqs && |info| == NUM
    ensures TablesOk(free', desc', ops', info[h := Info(r.b, UNSET)], busy + {r.b}, reqs[h := r],
            Claimed(own, h, r.d1, r.d2), nblocks, bufs)
  {
    hide Shared, Chained, AllChained, BusyKept, Sane, InfoKept, SameBut;
    SharedSize(free, reqs, own);
    InfoSize(info, reqs);
    Submitted(free, reqs, own, h, r, free');
    SubmittedChains(desc, ops, free, reqs, own, h, r, desc', ops');
    InfoSet(info, reqs, h, r, Info(r.b, UNSET));
    BusySet(busy, reqs, h, r);
    SaneSet(reqs, nblocks, bufs, h, r);
  }

  lemma SharedSize(free: seq<bool>, reqs: map<nat, Req>, own: map<nat, nat>)
    requires Shared(free, reqs, own)
    ensures |free| == NUM
  {
  }

  lemma InfoSize(info: seq<Info>, reqs: map<nat, Req>)
    requires InfoKept(info, reqs)
    ensures |info| == NUM
  {
  }

  lemma PhaseTables(free: seq<bool>, desc: seq<Desc>, ops: seq<Head>, info: seq<Info>, busy: set<nat>,
                    reqs: map<nat, Req>, own: map<nat, nat>, nblocks: nat, bufs: set<nat>, h: nat, p: Phase, st: nat)
    requires TablesOk(free, desc, ops, info, busy, reqs, own, nblocks, bufs) && h in reqs && reqs[h].phase != Seen
    ensures h < NUM == |info| && info[h] == Info(reqs[h].b, reqs[h].status)
    ensures st == reqs[h].status ==> info[h := info[h].(status := st)] == info
    ensures TablesOk(free, desc, ops, info[h := info[h].(status := st)], if p == Seen then busy - {reqs[h].b} else busy,
                     reqs[h := reqs[h].(phase := p, status := st)], own, nblocks, bufs)
  {
    hide Shared, Chained, AllChained, Sane;
    var r := reqs[h].(phase := p, status := st);
    Rephased(free, reqs, own, h, p, st);
    RephasedChains(desc, ops, reqs, h, p, st);
    SaneAt(reqs, nblocks, bufs, h);
    SaneSet(reqs, nblocks, bufs, h, r);
    InfoSet(info, reqs, h, r, info[h].(status := st));
    if p != Seen { BusyPhase(busy, reqs, h, p, st); } else { BusySet(busy, reqs, h, r); }
  }

  lemma SaneAt(reqs: map<nat, Req>, nblocks: nat, bufs: set<nat>, h: nat)
    requires Sane(reqs, nblocks, bufs) && h in reqs
    ensures reqs[h].b > 0 && reqs[h].op.block < nblocks && reqs[h].b in bufs
  {
  }

  lemma FinishTables(free: seq<bool>, desc: seq<Desc>, ops: seq<Head>, info: seq<Info>, busy: set<nat>,
                     reqs: map<nat, Req>, own: map<nat, nat>, nblocks: nat, bufs: set<nat>, h: nat, free': seq<bool>,
                     desc': seq<Desc>)
    requires TablesOk(free, desc, ops, info, busy, reqs, own, nblocks, bufs) && h in reqs && reqs[h].d1 < NUM
             && reqs[h].d2 < NUM && h < NUM
    requires free' == free[h := true][reqs[h].d1 := true][reqs[h].d2 := true] && |desc'| == NUM
    requires SameBut(desc, desc', h, reqs[h].d1, reqs[h].d2)
    ensures |info| == NUM
    ensures TablesOk(free', desc', ops, info[h := info[h].(b := 0)], busy, reqs - {h},
            own - {h, reqs[h].d1, reqs[h].d2}, nblocks, bufs)
  {
    hide Shared, Chained, AllChained;
    Finished(free, reqs, own, h, free');
    FinishedChains(desc, ops, free, reqs, own, h, desc');
  }

  lemma PushOk(ring: seq<nat>, from: nat, q: seq<nat>, reqs: map<nat, Req>, phase: Phase, first: nat, last: nat,
               free: seq<bool>, own: map<nat, nat>, h: nat, r: Req)
    requires RingOk(ring, from, q, reqs, phase, first, last) && Shared(free, reqs, own) && h < NUM
    requires (h in reqs ==> reqs[h].phase != phase) && r.phase == phase
    ensures Slot(last) < |ring|
            && RingOk(ring[Slot(last) := h], from, q + [h], reqs[h := r], phase, first, Next16(last))
  {
    hide RingHas, Idx16, Next16, Slot;
    forall g | g in q ensures g < NUM {
      assert OwnsChain(own, g, reqs[g]);
    }
    Room(q, h);
    PushAt(ring, from, q, h, last);
    HoldsAdd(q, reqs, h, r, phase);
  }

  lemma PopOk(ring: seq<nat>, from: nat, q: seq<nat>, reqs: map<nat, Req>, phase: Phase, first: nat, last: nat,
              p: Phase)
    requires RingOk(ring, from, q, reqs, phase, first, last) && q != [] && p != phase
    ensures Slot(first) < |ring| && ring[Slot(first)] == q[0] && q[0] in reqs && reqs[q[0]].phase == phase
    ensures RingOk(ring, from + 1, q[1..], reqs[q[0] := reqs[q[0]].(phase := p)], phase, Next16(first), last)
  {
    hide RingHas, Idx16, Next16, Slot;
    assert q[0] in q;
    PopAt(ring, from, q, first);
    HoldsDrop(q, reqs, reqs[q[0]].(phase := p), phase);
  }

  lemma StayOk(ring: seq<nat>, from: nat, q: seq<nat>, reqs: map<nat, Req>, phase: Phase, first: nat, last: nat,
               h: nat, r: Req)
    requires RingOk(ring, from, q, reqs, phase, first, last) && (h in reqs ==> reqs[h].phase != phase)
             && r.phase != phase
    ensures RingOk(ring, from, q, reqs[h := r], phase, first, last)
  {
    hide Holds, RingHas;
    HoldsOther(q, reqs, h, r, phase);
  }

  lemma GoneOk(ring: seq<nat>, from: nat, q: seq<nat>, reqs: map<nat, Req>, phase: Phase, first: nat, last: nat, h: nat)
    requires RingOk(ring, from, q, reqs, phase, first, last) && h in reqs && reqs[h].phase != phase
    ensures RingOk(ring, from, q, reqs - {h}, phase, first, last)
  {
    hide Holds, RingHas;
    HoldsRemove(q, reqs, h, phase);
  }

  lemma RingEmpty(ring: seq<nat>, from: nat, q: seq<nat>, reqs: map<nat, Req>, phase: Phase, first: nat, last: nat)
    requires RingOk(ring, from, q, reqs, phase, first, last)
    ensures first == last <==> q == []
  {
    EmptyIff(from, |q|);
  }

  lemma ChainAt(free: seq<bool>, desc: seq<Desc>, ops: seq<Head>, info: seq<Info>, busy: set<nat>, reqs: map<nat, Req>,
                own: map<nat, nat>, nblocks: nat, bufs: set<nat>, h: nat)
    requires TablesOk(free, desc, ops, info, busy, reqs, own, nblocks, bufs) && h in reqs
    ensures Chained(desc, ops, h, reqs[h]) && |free| == |info| == NUM && !free[h] && !free[reqs[h].d1]
            && !free[reqs[h].d2]
    ensures reqs[h].op.block < nblocks && reqs[h].b in bufs && (reqs[h].b !in busy ==> reqs[h].phase == Seen)
  {
    assert OwnsChain(own, h, reqs[h]);
  }

  // ---------- The life of requests ----------

  type Data = seq<nat>

  /** What the requests are about: those in flight, the disk and the buffers. */
  datatype Life = Life(reqs: map<nat, Req>, blocks: seq<Data>, data: map<nat, Data>)

  /** A request is queued at head `h`, taken, carried out with some status (after which a failed
      transfer may have left anything), seen and finished; and a buffer that is in no request changes. */
  datatype Move =
    | Begin(h: nat, r: Req)
    | Take(h: nat)
    | Carry(h: nat, status: nat, junk: Data)
    | See(h: nat)
    | Finish(h: nat)
    | Fill(b: nat, content: Data)

  ghost predicate In(s: Life, h: nat, p: Phase) {
    h in s.reqs && s.reqs[h].phase == p && s.reqs[h].op.block < |s.blocks| && s.reqs[h].b in s.data
  }

  ghost predicate Unclaimed(s: Life, b: nat) { b in s.data && forall g :: g in s.reqs ==> s.reqs[g].b != b }

  ghost predicate Enabled(s: Life, m: Move) {
    match m
    case Begin(h, r) => h !in s.reqs && r.phase == Queued && r.op.block < |s.blocks| && Unclaimed(s, r.b)
    case Take(h) => In(s, h, Queued)
    case Carry(h, _, _) => In(s, h, Taken)
    case See(h) => In(s, h, Done) && s.reqs[h].status == 0
    case Finish(h) => In(s, h, Seen)
    case Fill(b, _) => Unclaimed(s, b)
  }

  function Moved(s: Life, h: nat, p: Phase): Life
    requires h in s.reqs
  {
    s.(reqs := s.reqs[h := s.reqs[h].(phase := p)])
  }

  function Carried(s: Life, h: nat, status: nat, junk: Data): Life
    requires h in s.reqs && s.reqs[h].op.block < |s.blocks| && s.reqs[h].b in s.data
  {
    var r := s.reqs[h];
    var now := s.(reqs := s.reqs[h := r.(phase := Done, status := status)]);
    if r.op.write then now.(blocks := s.blocks[r.op.block := if status == 0 then s.data[r.b] else junk])
    else now.(data := s.data[r.b := if status == 0 then s.blocks[r.op.block] else junk])
  }

  ghost function Step(s: Life, m: Move): Life
    requires Enabled(s, m)
  {
    match m
    case Begin(h, r) => s.(reqs := s.reqs[h := r])
    case Take(h) => Moved(s, h, Taken)
    case Carry(h, status, junk) => Carried(s, h, status, junk)
    case See(h) => Moved(s, h, Seen)
    case Finish(h) => s.(reqs := s.reqs - {h})
    case Fill(b, content) => s.(data := s.data[b := content])
  }
}
