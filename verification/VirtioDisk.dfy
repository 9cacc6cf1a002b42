/** The driver and the device in place. */
module VirtioDisk {
  import opened Virtio

  class Disk {
    var free: seq<bool>
    var desc: seq<Desc>
    var ops: seq<Head>
    var info: seq<Info>
    var avail: seq<nat>
    var availIdx: nat         // 16 bits
    var used: seq<nat>
    var usedIdx: nat          // 16 bits, the device's
    var seen: nat             // 16 bits, disk.used_idx
    var busy: set<nat>        // buffers with b->disk == 1
    var lastAvail: nat        // 16 bits, how far the device has read the avail ring
    var blocks: seq<Data>     // what is on the disk
    var data: map<nat, Data>  // what is in the buffers

    ghost var reqs: map<nat, Req>
    ghost var own: map<nat, nat>
    ghost var queue: seq<nat>     // heads in the avail ring that the device has not read
    ghost var ended: seq<nat>     // heads in the used ring that the driver has not seen
    ghost var taken: nat          // how many the device has read
    ghost var handled: nat        // how many the driver has seen

    ghost predicate Tables()
      reads this
    {
      TablesOk(free, desc, ops, info, busy, reqs, own, |blocks|, data.Keys)
    }

    ghost predicate Rings()
      reads this
    {
      && RingOk(avail, taken, queue, reqs, Queued, lastAvail, availIdx)
      && RingOk(used, handled, ended, reqs, Done, seen, usedIdx)
    }

    ghost predicate Valid()
      reads this
    {
      Tables() && Rings()
    }

    ghost function Now(): Life
      reads this
    {
      Life(reqs, blocks, data)
    }

    constructor (blocks: seq<Data>, data: map<nat, Data>)
      ensures Valid() && reqs == map[] && this.blocks == blocks && this.data == data
    {
      free := seq(NUM, _ => true);
      desc := seq(NUM, _ => BLANK);
      ops := seq(NUM, _ => Head(false, 0));
      info := seq(NUM, _ => Info(0, 0));
      avail, used := seq(NUM, _ => 0), seq(NUM, _ => 0);
      availIdx, usedIdx, seen, lastAvail := 0, 0, 0, 0;
      busy := {};
      this.blocks, this.data := blocks, data;
      reqs, own, queue, ended, taken, handled := map[], map[], [], [], 0, 0;
    }

    /** Find a free descriptor and mark it; -1 when there is none. */
    method AllocDesc() returns (i: int)
      requires |free| == NUM
      modifies this`free
      ensures i == -1 ==> free == old(free) && forall k :: 0 <= k < NUM ==> !free[k]
      ensures i != -1 ==>
              0 <= i < NUM && old(free)[i] && (forall k :: 0 <= k < i ==> !old(free)[k])
              && free == old(free)[i := false]
    {
      i := 0;
      while i < NUM
        invariant 0 <= i <= NUM && free == old(free) && forall k :: 0 <= k < i ==> !free[k]
      {
        if free[i] {
          free := free[i := false];
          return;
        }
        i := i + 1;
      }
      return -1;
    }

    /** Mark a descriptor as free.  False is one of the two panics. */
    method FreeDesc(i: nat) returns (ok: bool)
      requires |free| == |desc| == NUM
      modifies this`free, this`desc
      ensures ok <==> i < NUM && !old(free)[i]
      ensures ok ==> free == old(free)[i := true] && desc == old(desc)[i := BLANK]
      ensures !ok ==> free == old(free) && desc == old(desc)
    {
      if i >= NUM || free[i] { return false; }
      desc := desc[i := BLANK];
      free := free[i := true];
      return true;
    }

    /** Allocate three descriptors, or give back those that were found. */
    method Alloc3Desc() returns (ok: bool, idx: seq<nat>)
      requires Valid()
      modifies this`free, this`desc
      ensures ok ==> |idx| == 3 && Distinct(idx) && desc == old(desc) && Picked(old(free), idx, free)
      ensures !ok ==> Valid() && free == old(free) && FewFree(free)
    {
      hide Chained, InfoKept, BusyKept, OwnsChain, FewFree, RingOk, Sane;
      idx := [];
      ghost var f0 := free;
      while |idx| < 3
        invariant |idx| <= 3 && Distinct(idx) && desc == old(desc) && Picked(f0, idx, free)
      {
        var i := AllocDesc();
        if i == -1 {
          NoneLeft(f0, idx, free);
          GiveBack(idx, f0);
          return false, idx;
        }
        idx := idx + [i];
      }
      ok := true;
    }

    /** Free the descriptors picked before one was missing. */
    method GiveBack(idx: seq<nat>, ghost f0: seq<bool>)
      requires |desc| == NUM && Shared(f0, reqs, own) && AllChained(desc, ops, reqs) && Distinct(idx)
               && Picked(f0, idx, free)
      modifies this`free, this`desc
      ensures free == f0 && AllChained(desc, ops, reqs) && |desc| == NUM
    {
      hide Chained, OwnsChain, Shared, AllChained;
      var j := 0;
      while j < |idx|
        invariant j <= |idx| && |desc| == |free| == NUM && AllChained(desc, ops, reqs)
        invariant forall k :: 0 <= k < NUM ==> (free[k] <==> f0[k] && k !in idx[j..])
      {
        assert idx[j] !in idx[j + 1..];
        assert forall k :: k in idx[j..] <==> k == idx[j] || k in idx[j + 1..];
        ghost var d := desc;
        var ok := FreeDesc(idx[j]);
        FreshChains(d, ops, f0, reqs, own, idx[j], desc);
        j := j + 1;
      }
    }

    /** Format the three descriptors of a request. */
    method Format(h: nat, d1: nat, d2: nat, b: nat, write: bool, block: nat)
      requires |desc| == |ops| == NUM && h < NUM && d1 < NUM && d2 < NUM && h != d1 && h != d2 && d1 != d2
      modifies this`desc, this`ops
      ensures |desc| == |ops| == NUM && Chained(desc, ops, h, Req(b, Op(write, block), d1, d2, Queued, UNSET))
      ensures SameBut(old(desc), desc, h, d1, d2) && SameBut(old(ops), ops, h, d1, d2)
    {
      ops := ops[h := Head(write, block * 2)];
      desc := desc[h := Desc(Header(h), 16, NEXT, d1)];
      desc := desc[d1 := Desc(Buffer(b), BSIZE, (if write then 0 else WRITE) + NEXT, d2)];
      desc := desc[d2 := Desc(Status(h), 1, WRITE, 0)];
    }

    /** Hand the request `r`, set up at `h`, to the device. */
    method Post(h: nat, b: nat, ghost r: Req, ghost own': map<nat, nat>, ghost f0: seq<bool>)
      requires h < NUM == |info|
               && TablesOk(free, desc, ops, info[h := Info(b, UNSET)], busy + {b}, reqs[h := r], own', |blocks|,
               data.Keys)
      requires Rings() && h !in reqs && r.phase == Queued && r.b == b && r.status == UNSET && Shared(f0, reqs, own)
      modifies this`busy, this`info, this`avail, this`availIdx, this`queue, this`own, this`reqs
      ensures Valid() && busy == old(busy) + {b} && reqs == old(reqs)[h := r]
    {
      hide TablesOk, RingOk, Slot, Next16, Shared;
      PushOk(avail, taken, queue, reqs, Queued, lastAvail, availIdx, f0, own, h, r);
      StayOk(used, handled, ended, reqs, Done, seen, usedIdx, h, r);
      busy, info, avail, availIdx, queue, own, reqs :=
        busy + {b}, info[h := Info(b, UNSET)], avail[Slot(availIdx) := h], Next16(availIdx), queue + [h], own',
            reqs[h := r];
    }

    /** The first half of virtio_disk_rw: queue a request for buffer `b`.  False when it has to sleep for
        descriptors. */
    method Submit(b: nat, write: bool, block: nat) returns (ok: bool, h: nat)
      requires Valid() && b > 0 && b in data && block < |blocks| && forall g :: g in reqs ==> reqs[g].b != b
      modifies this
      ensures Valid() && blocks == old(blocks) && data == old(data)
      ensures !ok ==> reqs == old(reqs) && FewFree(free)
      ensures ok ==>
              b in busy && exists d1, d2 :: Began(old(Now()), Now(), h, Req(b, Op(write, block), d1, d2, Queued, UNSET))
    {
      hide TablesOk, RingOk, FewFree, Picked, Distinct, Chained, Shared, SameBut, Claimed;
      TablesSize(free, desc, ops, info, busy, reqs, own, |blocks|, data.Keys);
      ghost var f0, d0, o0 := free, desc, ops;
      var idx;
      ok, idx := Alloc3Desc();
      if !ok { return false, 0; }
      h := idx[0];
      PickedThree(f0, idx, free);
      Format(h, idx[1], idx[2], b, write, block);
      ghost var r := Req(b, Op(write, block), idx[1], idx[2], Queued, UNSET);
      SubmitTables(f0, d0, o0, info, busy, reqs, own, |blocks|, data.Keys, h, r, free, desc, ops);
      SharedOf(f0, d0, o0, info, busy, reqs, own, |blocks|, data.Keys);
      Post(h, b, r, Claimed(own, h, idx[1], idx[2]), f0);
      assert Began(old(Now()), Now(), h, Req(b, Op(write, block), idx[1], idx[2], Queued, UNSET));
    }

    /** The device reads the next head from the avail ring. */
    method DeviceTake() returns (got: bool)
      requires Valid()
      modifies this`lastAvail, this`reqs, this`queue, this`taken
      ensures Valid() && got == (old(queue) != [])
      ensures !got ==> unchanged(this)
      ensures got ==> Enabled(old(Now()), Take(old(queue)[0])) && Now() == Step(old(Now()), Take(old(queue)[0]))
    {
      hide TablesOk, RingOk, Slot, Next16;
      RingEmpty(avail, taken, queue, reqs, Queued, lastAvail, availIdx);
      if lastAvail == availIdx { return false; }
      ghost var h := queue[0];
      TakeOk(free, desc, ops, info, busy, reqs, own, |blocks|, data.Keys, avail, taken, queue, lastAvail, availIdx,
             used, handled, ended, seen, usedIdx);
      lastAvail := Next16(lastAvail);
      reqs, queue, taken := reqs[h := reqs[h].(phase := Taken)], queue[1..], taken + 1;
      return true;
    }

    /** The device follows the chain from `h`: the header says what to do, the second descriptor where
        the data is.  When it fails it may leave anything behind. */
    method Transfer(h: nat, status: nat, junk: Data, ghost r: Req)
      requires Chained(desc, ops, h, r) && r.op.block < |blocks| && r.b in data && h in reqs && reqs[h] == r
      modifies this`blocks, this`data
      ensures |blocks| == |old(blocks)| && data.Keys == old(data).Keys
      ensures blocks == Carried(old(Now()), h, status, junk).blocks && data == Carried(old(Now()), h, status, junk).data
    {
      var head := desc[h];
      var body := desc[head.next];
      var op, b := ops[head.addr.i], body.addr.b;
      var block := op.sector / 2;
      assert block == r.op.block by { assert (2 * r.op.block) / 2 == r.op.block; }
      if op.write {
        blocks := blocks[block := if status == 0 then data[b] else junk];
      } else if body.flags >= WRITE {
        data := data[b := if status == 0 then blocks[block] else junk];
      }
    }

    /** The device writes the status of a request where its third descriptor says, and the head into the
        used ring. */
    method Report(h: nat, status: nat)
      requires Valid() && h in reqs && reqs[h].phase == Taken
      modifies this`info, this`used, this`usedIdx, this`reqs, this`ended
      ensures Valid() && reqs == old(reqs)[h := old(reqs)[h].(phase := Done, status := status)]
              && ended == old(ended) + [h]
    {
      hide TablesOk, RingOk, Slot, Next16, Shared, Chained;
      ghost var r := reqs[h].(phase := Done, status := status);
      ReportOk(free, desc, ops, info, busy, reqs, own, |blocks|, data.Keys, avail, taken, queue, lastAvail, availIdx,
               used, handled, ended, seen, usedIdx, h, status);
      var at := StatusOf(desc, ops, h, reqs[h]);
      info, used, usedIdx, ended, reqs :=
        info[at := info[at].(status := status)], used[Slot(usedIdx) := h], Next16(usedIdx), ended + [h], reqs[h := r];
    }

    /** The device carries out a request it has taken, whichever it likes, and reports it. */
    method DeviceDone(h: nat, status: nat, junk: Data)
      requires Valid() && h in reqs && reqs[h].phase == Taken
      modifies this`blocks, this`data, this`info, this`used, this`usedIdx, this`reqs, this`ended
      ensures Valid() && ended == old(ended) + [h]
      ensures Enabled(old(Now()), Carry(h, status, junk)) && Now() == Step(old(Now()), Carry(h, status, junk))
    {
      hide TablesOk, RingOk, Chained;
      ChainAt(free, desc, ops, info, busy, reqs, own, |blocks|, data.Keys, h);
      Transfer(h, status, junk, reqs[h]);
      Report(h, status);
    }

    /** The loop of the handler: `k` completions have been seen when it ends or meets a bad status. */
    method Drain() returns (ok: bool, ghost k: nat)
      requires Valid()
      modifies this`busy, this`seen, this`reqs, this`ended, this`handled
      ensures Valid() && k <= |old(ended)| && ended == old(ended)[k..] && SeenOnly(old(reqs), reqs, old(ended)[..k])
      ensures forall h :: h in old(ended) ==> h in old(reqs)
      ensures forall h :: h in old(ended)[..k] ==> old(reqs)[h].status == 0
      ensures if ok then k == |old(ended)| else k < |old(ended)| && old(reqs)[old(ended)[k]].status != 0
      ensures forall b :: b !in old(busy) ==> b !in busy
    {
      hide TablesOk, RingOk, SeenOnly, Enabled, Step;
      ok, k := true, 0;
      ghost var all, was := ended, reqs;
      SeenNone(reqs);
      assert all[..0] == [] && all[0..] == all;
      EndedIn(used, handled, ended, reqs, seen, usedIdx);
      RingEmpty(used, handled, ended, reqs, Done, seen, usedIdx);
      while seen != usedIdx
        invariant Valid() && (seen == usedIdx <==> ended == []) && k <= |all| && ended == all[k..]
        invariant SeenOnly(was, reqs, all[..k]) && forall h :: h in all[..k] ==> was[h].status == 0
        invariant forall b :: b !in old(busy) ==> b !in busy
        decreases |ended|
      {
        SeenStatus(was, reqs, all, k);
        ghost var mid := reqs;
        ok := See();
        if !ok { return; }
        SeenMore(was, mid, reqs, all, k);
        k := k + 1;
      }
    }

    /** The interrupt handler: see every completion there is.  False is its panic on a bad status, which
        it meets exactly when some completion has one; those before it have been seen. */
    method Intr() returns (ok: bool)
      requires Valid()
      modifies this`busy, this`seen, this`reqs, this`ended, this`handled
      ensures Valid() && (ok <==> forall h :: h in old(ended) ==> h in old(reqs) && old(reqs)[h].status == 0)
      ensures ok ==> ended == []
      ensures exists k ::
              0 <= k <= |old(ended)| && ended == old(ended)[k..] && SeenOnly(old(reqs), reqs, old(ended)[..k])
      ensures forall h :: h in reqs && reqs[h].phase == Seen ==> reqs[h].b !in busy
      ensures forall b :: b !in old(busy) ==> b !in busy
    {
      hide TablesOk, RingOk, SeenOnly;
      ghost var all, k := ended, 0;
      ok, k := Drain();
      if ok { assert all[..k] == all; } else { assert all[k] in all; }
      SeenClear(free, desc, ops, info, busy, reqs, own, |blocks|, data.Keys);
    }

    /** The oldest unseen completion is good: its buffer is done. */
    method Saw(id: nat)
      requires Valid() && ended != [] && id == ended[0] && id in reqs && reqs[id].status == 0
      modifies this`busy, this`seen, this`reqs, this`ended, this`handled
      ensures Valid() && ended == old(ended)[1..] && busy == old(busy) - {old(reqs)[id].b}
              && (seen == usedIdx <==> ended == [])
      ensures Enabled(old(Now()), Virtio.See(id)) && Now() == Step(old(Now()), Virtio.See(id))
      ensures reqs == old(reqs)[id := old(reqs)[id].(phase := Seen)]
    {
      hide TablesOk, RingOk, Slot, Next16, Enabled, Step;
      SawLife(Now(), id);
      SeeOk(free, desc, ops, info, busy, reqs, own, |blocks|, data.Keys, avail, taken, queue, lastAvail, availIdx,
            used, handled, ended, seen, usedIdx);
      busy, seen, reqs, ended, handled :=
        busy - {info[id].b}, Next16(seen), reqs[id := reqs[id].(phase := Seen)], ended[1..], handled + 1;
    }

    /** One round of the handler: the buffer of the oldest unseen completion is done, unless its status
        is bad. */
    method See() returns (ok: bool)
      requires Valid() && ended != []
      modifies this`busy, this`seen, this`reqs, this`ended, this`handled
      ensures Valid() && old(ended)[0] in old(reqs) && (ok <==> old(reqs)[old(ended)[0]].status == 0)
      ensures !ok ==> unchanged(this)
      ensures ok ==>
                && ended == old(ended)[1..] && busy == old(busy) - {old(reqs)[old(ended)[0]].b}
                    && (seen == usedIdx <==> ended == [])
                && Enabled(old(Now()), Virtio.See(old(ended)[0]))
                    && Now() == Step(old(Now()), Virtio.See(old(ended)[0]))
                && reqs == old(reqs)[old(ended)[0] := old(reqs)[old(ended)[0]].(phase := Seen)]
    {
      hide TablesOk, RingOk, Slot, Next16, Enabled, Step;
      SeeOk(free, desc, ops, info, busy, reqs, own, |blocks|, data.Keys, avail, taken, queue, lastAvail, availIdx,
            used, handled, ended, seen, usedIdx);
      var id := used[Slot(seen)];
      ok := info[id].status == 0;
      if ok { Saw(id); }
    }

    /** Free a chain of descriptors from its head on.  False is a panic of free_desc. */
    method FreeChain(h: nat, ghost r: Req) returns (ok: bool)
      requires |free| == NUM && Chained(desc, ops, h, r) && !free[h] && !free[r.d1] && !free[r.d2]
      modifies this`free, this`desc
      ensures ok && free == old(free)[h := true][r.d1 := true][r.d2 := true] && |desc| == NUM
      ensures SameBut(old(desc), desc, h, r.d1, r.d2)
    {
      var i := h;
      ghost var step := 0;
      while true
        invariant 0 <= step <= 2 && i == (if step == 0 then h else if step == 1 then r.d1 else r.d2)
                  && |free| == |desc| == NUM
        invariant free == (if step == 0 then old(free) else if step == 1 then old(free)[h := true]
                  else old(free)[h := true][r.d1 := true])
        invariant forall k ::
                  0 <= k < NUM && !(step > 0 && k == h) && !(step > 1 && k == r.d1) ==> desc[k] == old(desc)[k]
        decreases 2 - step
      {
        var flag, nxt := desc[i].flags, desc[i].next;
        ok := FreeDesc(i);
        if !ok { return; }
        if flag % 2 == NEXT {
          i := nxt;
          step := step + 1;
        } else {
          return;
        }
      }
    }

    /** The chain of a finished request given back, and its slot cleared. */
    method Release(h: nat) returns (ok: bool)
      requires Tables() && h in reqs
      modifies this`info, this`free, this`desc, this`reqs, this`own
      ensures ok && Tables() && reqs == old(reqs) - {h}
      ensures h < |old(info)| && info == old(info)[h := old(info)[h].(b := 0)]
    {
      hide TablesOk;
      ChainAt(free, desc, ops, info, busy, reqs, own, |blocks|, data.Keys, h);
      ghost var r, i0, f0, d0 := reqs[h], info, free, desc;
      info := info[h := info[h].(b := 0)];
      ok := FreeChain(h, r);
      FinishTables(f0, d0, ops, i0, busy, reqs, own, |blocks|, data.Keys, h, free, desc);
      own, reqs := own - {h, r.d1, r.d2}, reqs - {h};
    }

    /** The end of virtio_disk_rw, once the buffer is no longer busy: give the descriptors back. */
    method Finish(h: nat) returns (ok: bool)
      requires Valid() && h in reqs && reqs[h].b !in busy
      modifies this`info, this`free, this`desc, this`reqs, this`own
      ensures ok && Valid() && Enabled(old(Now()), Virtio.Finish(h)) && Now() == Step(old(Now()), Virtio.Finish(h))
    {
      hide TablesOk, RingOk;
      ChainAt(free, desc, ops, info, busy, reqs, own, |blocks|, data.Keys, h);
      GoneOk(avail, taken, queue, reqs, Queued, lastAvail, availIdx, h);
      GoneOk(used, handled, ended, reqs, Done, seen, usedIdx, h);
      ok := Release(h);
    }
  }

  /** What Report does to the tables and the rings. */
  lemma ReportOk(free: seq<bool>, desc: seq<Desc>, ops: seq<Head>, info: seq<Info>, busy: set<nat>, reqs: map<nat, Req>,
                 own: map<nat, nat>, nblocks: nat, bufs: set<nat>, avail: seq<nat>, taken: nat, queue: seq<nat>,
                 lastAvail: nat, availIdx: nat, used: seq<nat>, handled: nat, ended: seq<nat>, seen: nat, usedIdx: nat,
                 h: nat, status: nat)
    requires TablesOk(free, desc, ops, info, busy, reqs, own, nblocks, bufs) && h in reqs && reqs[h].phase == Taken
    requires RingOk(avail, taken, queue, reqs, Queued, lastAvail, availIdx)
             && RingOk(used, handled, ended, reqs, Done, seen, usedIdx)
    ensures Chained(desc, ops, h, reqs[h]) && h < |info| && Slot(usedIdx) < |used|
    ensures var rs := reqs[h := reqs[h].(phase := Done, status := status)];
            && TablesOk(free, desc, ops, info[h := info[h].(status := status)], busy, rs, own, nblocks, bufs)
            && RingOk(avail, taken, queue, rs, Queued, lastAvail, availIdx)
            && RingOk(used[Slot(usedIdx) := h], handled, ended + [h], rs, Done, seen, Next16(usedIdx))
  {
    hide TablesOk, RingOk, Slot, Next16, Shared, Chained;
    var r := reqs[h].(phase := Done, status := status);
    SharedOf(free, desc, ops, info, busy, reqs, own, nblocks, bufs);
    ChainAt(free, desc, ops, info, busy, reqs, own, nblocks, bufs, h);
    ChainBounds(desc, ops, h, reqs[h]);
    PhaseTables(free, desc, ops, info, busy, reqs, own, nblocks, bufs, h, Done, status);
    PushOk(used, handled, ended, reqs, Done, seen, usedIdx, free, own, h, r);
    StayOk(avail, taken, queue, reqs, Queued, lastAvail, availIdx, h, r);
  }

  lemma ChainBounds(desc: seq<Desc>, ops: seq<Head>, h: nat, r: Req)
    requires Chained(desc, ops, h, r)
    ensures h < NUM
  {
  }

  /** What DeviceTake does to them. */
  lemma TakeOk(free: seq<bool>, desc: seq<Desc>, ops: seq<Head>, info: seq<Info>, busy: set<nat>, reqs: map<nat, Req>,
               own: map<nat, nat>,
               nblocks: nat, bufs: set<nat>, avail: seq<nat>, taken: nat, queue: seq<nat>, lastAvail: nat,
                   availIdx: nat,
               used: seq<nat>, handled: nat, ended: seq<nat>, seen: nat, usedIdx: nat)
    requires TablesOk(free, desc, ops, info, busy, reqs, own, nblocks, bufs) && queue != []
    requires RingOk(avail, taken, queue, reqs, Queued, lastAvail, availIdx)
             && RingOk(used, handled, ended, reqs, Done, seen, usedIdx)
    ensures Slot(lastAvail) < |avail| && avail[Slot(lastAvail)] == queue[0] && queue[0] in reqs
    ensures reqs[queue[0]].phase == Queued && reqs[queue[0]].op.block < nblocks && reqs[queue[0]].b in bufs
    ensures var rs := reqs[queue[0] := reqs[queue[0]].(phase := Taken)];
            && TablesOk(free, desc, ops, info, busy, rs, own, nblocks, bufs)
            && RingOk(avail, taken + 1, queue[1..], rs, Queued, Next16(lastAvail), availIdx)
            && RingOk(used, handled, ended, rs, Done, seen, usedIdx)
  {
    hide TablesOk, RingOk, Slot, Next16, Chained;
    PopOk(avail, taken, queue, reqs, Queued, lastAvail, availIdx, Taken);
    var h := queue[0];
    ChainAt(free, desc, ops, info, busy, reqs, own, nblocks, bufs, h);
    PhaseTables(free, desc, ops, info, busy, reqs, own, nblocks, bufs, h, Taken, reqs[h].status);
    StayOk(used, handled, ended, reqs, Done, seen, usedIdx, h, reqs[h].(phase := Taken));
  }

  /** What a round of the interrupt handler does to them. */
  lemma SeeOk(free: seq<bool>, desc: seq<Desc>, ops: seq<Head>, info: seq<Info>, busy: set<nat>, reqs: map<nat, Req>,
              own: map<nat, nat>,
              nblocks: nat, bufs: set<nat>, avail: seq<nat>, taken: nat, queue: seq<nat>, lastAvail: nat, availIdx: nat,
              used: seq<nat>, handled: nat, ended: seq<nat>, seen: nat, usedIdx: nat)
    requires TablesOk(free, desc, ops, info, busy, reqs, own, nblocks, bufs) && ended != []
    requires RingOk(avail, taken, queue, reqs, Queued, lastAvail, availIdx)
             && RingOk(used, handled, ended, reqs, Done, seen, usedIdx)
    ensures Slot(seen) < |used| && used[Slot(seen)] == ended[0] && ended[0] in reqs && ended[0] < |info|
    ensures info[ended[0]] == Info(reqs[ended[0]].b, reqs[ended[0]].status)
    ensures reqs[ended[0]].phase == Done && reqs[ended[0]].op.block < nblocks && reqs[ended[0]].b in bufs
    ensures seen != usedIdx && (Next16(seen) == usedIdx <==> ended[1..] == [])
    ensures var rs := reqs[ended[0] := reqs[ended[0]].(phase := Seen)];
            && TablesOk(free, desc, ops, info, busy - {reqs[ended[0]].b}, rs, own, nblocks, bufs)
            && RingOk(avail, taken, queue, rs, Queued, lastAvail, availIdx)
            && RingOk(used, handled + 1, ended[1..], rs, Done, Next16(seen), usedIdx)
  {
    hide TablesOk, RingOk, Slot, Next16, Chained;
    PopOk(used, handled, ended, reqs, Done, seen, usedIdx, Seen);
    var id := ended[0];
    ChainAt(free, desc, ops, info, busy, reqs, own, nblocks, bufs, id);
    PhaseTables(free, desc, ops, info, busy, reqs, own, nblocks, bufs, id, Seen, reqs[id].status);
    StayOk(avail, taken, queue, reqs, Queued, lastAvail, availIdx, id, reqs[id].(phase := Seen));
    RingEmpty(used, handled, ended, reqs, Done, seen, usedIdx);
    RingEmpty(used, handled + 1, ended[1..], reqs[id := reqs[id].(phase := Seen)], Done, Next16(seen), usedIdx);
  }

  lemma SawLife(s: Life, h: nat)
    requires h in s.reqs
    ensures In(s, h, Done) && s.reqs[h].status == 0 ==>
              Enabled(s, Virtio.See(h)) && Step(s, Virtio.See(h)) == Moved(s, h, Seen)
  {
  }

  /** A submission as a move of the requests. */
  ghost predicate Began(was: Life, now: Life, h: nat, r: Req) {
    Enabled(was, Begin(h, r)) && now == Step(was, Begin(h, r))
  }

  /** The status byte that the chain from `h` leads to. */
  function StatusOf(desc: seq<Desc>, ops: seq<Head>, h: nat, ghost r: Req): (i: nat)
    requires Chained(desc, ops, h, r)
    ensures i == h
  {
    desc[desc[desc[h].next].next].addr.i
  }

  /** Exactly the requests in `q` have been seen. */
  ghost predicate SeenOnly(was: map<nat, Req>, now: map<nat, Req>, q: seq<nat>) {
    now.Keys == was.Keys && forall h :: h in was ==> now[h] == if h in q then was[h].(phase := Seen) else was[h]
  }

  lemma SeenNone(reqs: map<nat, Req>)
    ensures SeenOnly(reqs, reqs, [])
  {
  }

  lemma SeenMore(was: map<nat, Req>, mid: map<nat, Req>, now: map<nat, Req>, all: seq<nat>, k: nat)
    requires k < |all| && SeenOnly(was, mid, all[..k]) && all[k] in mid
             && now == mid[all[k] := mid[all[k]].(phase := Seen)]
    ensures SeenOnly(was, now, all[..k + 1])
  {
    assert all[..k + 1] == all[..k] + [all[k]];
  }

  lemma SeenStatus(was: map<nat, Req>, now: map<nat, Req>, all: seq<nat>, k: nat)
    requires k < |all| && SeenOnly(was, now, all[..k]) && forall h :: h in all ==> h in was
    ensures all[k] in now && now[all[k]].status == was[all[k]].status && all[k] in all
            && all[..k + 1] == all[..k] + [all[k]] && all[k..][1..] == all[k + 1..]
  {
  }

  lemma EndedIn(ring: seq<nat>, from: nat, q: seq<nat>, reqs: map<nat, Req>, first: nat, last: nat)
    requires RingOk(ring, from, q, reqs, Done, first, last)
    ensures forall h :: h in q ==> h in reqs
  {
  }

  lemma SeenClear(free: seq<bool>, desc: seq<Desc>, ops: seq<Head>, info: seq<Info>, busy: set<nat>,
                  reqs: map<nat, Req>, own: map<nat, nat>, nblocks: nat, bufs: set<nat>)
    requires TablesOk(free, desc, ops, info, busy, reqs, own, nblocks, bufs)
    ensures forall h :: h in reqs && reqs[h].phase == Seen ==> reqs[h].b !in busy
  {
  }

  lemma TablesSize(free: seq<bool>, desc: seq<Desc>, ops: seq<Head>, info: seq<Info>, busy: set<nat>,
                   reqs: map<nat, Req>, own: map<nat, nat>, nblocks: nat, bufs: set<nat>)
    requires TablesOk(free, desc, ops, info, busy, reqs, own, nblocks, bufs)
    ensures |free| == |desc| == |ops| == NUM
  {
  }

  lemma SharedOf(free: seq<bool>, desc: seq<Desc>, ops: seq<Head>, info: seq<Info>, busy: set<nat>, reqs: map<nat, Req>,
                 own: map<nat, nat>, nblocks: nat, bufs: set<nat>)
    requires TablesOk(free, desc, ops, info, busy, reqs, own, nblocks, bufs)
    ensures Shared(free, reqs, own)
  {
  }

  lemma PickedThree(f0: seq<bool>, idx: seq<nat>, free: seq<bool>)
    requires |idx| == 3 && Distinct(idx) && Picked(f0, idx, free)
    ensures idx[0] < NUM && idx[1] < NUM && idx[2] < NUM && idx[0] != idx[1] && idx[0] != idx[2] && idx[1] != idx[2]
    ensures f0[idx[0]] && f0[idx[1]] && f0[idx[2]] && free == f0[idx[0] := false][idx[1] := false][idx[2] := false]
  {
  }

  /** `idx` are descriptors that were free and are free no more. */
  ghost predicate Picked(f0: seq<bool>, idx: seq<nat>, free: seq<bool>) {
    && |f0| == |free| == NUM && (forall j :: 0 <= j < |idx| ==> idx[j] < NUM && f0[idx[j]])
    && forall k :: 0 <= k < NUM ==> (free[k] <==> f0[k] && k !in idx)
  }

  /** No three descriptors are free. */
  ghost predicate FewFree(free: seq<bool>) {
    |free| == NUM && forall i, j, k :: 0 <= i < j < k < NUM ==> !(free[i] && free[j] && free[k])
  }

  lemma NoneLeft(f0: seq<bool>, idx: seq<nat>, free: seq<bool>)
    requires |idx| < 3 && Picked(f0, idx, free) && forall k :: 0 <= k < NUM ==> !free[k]
    ensures FewFree(f0)
  {
    forall i, j, k | 0 <= i < j < k < NUM ensures !(f0[i] && f0[j] && f0[k]) {
      assert (f0[i] ==> i in idx) && (f0[j] ==> j in idx) && (f0[k] ==> k in idx);
    }
  }

  /** Clearing a descriptor that is in no chain. */
  lemma FreshChains(desc: seq<Desc>, ops: seq<Head>, free: seq<bool>, reqs: map<nat, Req>, own: map<nat, nat>, i: nat,
                    desc': seq<Desc>)
    requires |desc| == NUM && AllChained(desc, ops, reqs) && Shared(free, reqs, own) && i < NUM && free[i]
             && desc' == desc[i := BLANK]
    ensures AllChained(desc', ops, reqs)
  {
    forall g | g in reqs ensures Chained(desc', ops, g, reqs[g]) {
      assert OwnsChain(own, g, reqs[g]) && Chained(desc, ops, g, reqs[g]);
    }
  }
}
