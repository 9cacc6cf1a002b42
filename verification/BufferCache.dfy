/** The buffer cache: NBUF buffers on one list, most recently released first. */
module BufferCache {
  import opened Ring

  const NBUF: nat := 30
  const DEV: nat := 1          // the disk; buffers start out as device 0

  type Data = seq<nat>

  datatype Buf = Buf(dev: nat, blockno: nat, valid: bool, refcnt: nat, data: Data)

  predicate Hit(bufs: seq<Buf>, dev: nat, k: nat, b: int) {
    0 <= b < |bufs| && bufs[b].dev == dev && bufs[b].blockno == k
  }

  /** No block of a real device is in two buffers. */
  ghost predicate Unique(bufs: seq<Buf>) {
    forall b, c :: 0 <= b < |bufs| && 0 <= c < |bufs| && bufs[b].dev != 0
                   && bufs[b].dev == bufs[c].dev && bufs[b].blockno == bufs[c].blockno ==>
      b == c
  }

  /** A buffer that nobody holds and that holds something has what the disk has. */
  predicate CleanAt(buf: Buf, disk: seq<Data>) {
    buf.dev == DEV && buf.valid && buf.refcnt == 0 && buf.blockno < |disk| ==> buf.data == disk[buf.blockno]
  }

  ghost predicate Clean(bufs: seq<Buf>, disk: seq<Data>) { forall b :: 0 <= b < |bufs| ==> CleanAt(bufs[b], disk) }

  /** What block `k` holds as far as the kernel is concerned: the cached contents, else the disk's. */
  ghost function Logical(bufs: seq<Buf>, disk: seq<Data>, k: nat): Data
    requires k < |disk|
  {
    if exists b :: Hit(bufs, DEV, k, b) && bufs[b].valid then
      var b :| Hit(bufs, DEV, k, b) && bufs[b].valid;
      bufs[b].data
    else disk[k]
  }

  /** The whole disk as the kernel sees it. */
  ghost function View(bufs: seq<Buf>, disk: seq<Data>): seq<Data> {
    seq(|disk|, k requires 0 <= k < |disk| => Logical(bufs, disk, k))
  }

  lemma LogicalHit(bufs: seq<Buf>, disk: seq<Data>, k: nat, b: nat)
    requires Unique(bufs) && k < |disk| && Hit(bufs, DEV, k, b) && bufs[b].valid
    ensures Logical(bufs, disk, k) == bufs[b].data
  {
  }

  lemma LogicalMiss(bufs: seq<Buf>, disk: seq<Data>, k: nat)
    requires k < |disk| && forall b :: Hit(bufs, DEV, k, b) ==> !bufs[b].valid
    ensures Logical(bufs, disk, k) == disk[k]
  {
  }

  /** Changing counts only, or loading a block from disk, changes nothing the kernel sees. */
  lemma SameView(bufs: seq<Buf>, disk: seq<Data>, b: nat, now: Buf)
    requires Unique(bufs) && b < |bufs| && now.dev == bufs[b].dev && now.blockno == bufs[b].blockno
    requires if bufs[b].valid then now.valid && now.data == bufs[b].data
             else now.valid ==> now.dev != DEV || (now.blockno < |disk| && now.data == disk[now.blockno])
    ensures Unique(bufs[b := now]) && View(bufs[b := now], disk) == View(bufs, disk)
  {
    var bs := bufs[b := now];
    forall k | 0 <= k < |disk| ensures Logical(bs, disk, k) == Logical(bufs, disk, k) {
      if c :| Hit(bufs, DEV, k, c) {
        assert Hit(bs, DEV, k, c);
        if bufs[c].valid { LogicalHit(bufs, disk, k, c); } else { LogicalMiss(bufs, disk, k); }
        if bs[c].valid { LogicalHit(bs, disk, k, c); } else { LogicalMiss(bs, disk, k); }
      } else {
        assert forall c :: Hit(bs, DEV, k, c) ==> Hit(bufs, DEV, k, c);
      }
    }
  }

  /** The disk as the kernel sees it once the contents of a buffer are gone. */
  function Forgotten(view: seq<Data>, disk: seq<Data>, buf: Buf): seq<Data>
    requires |view| == |disk|
  {
    if buf.dev == DEV && buf.valid && buf.blockno < |disk| then view[buf.blockno := disk[buf.blockno]] else view
  }

  /** Taking an unused buffer for another block forgets what it held: what the kernel sees stays the same
      exactly when that is on the disk. */
  lemma RecycleView(bufs: seq<Buf>, disk: seq<Data>, b: nat, now: Buf)
    requires Unique(bufs) && b < |bufs| && bufs[b].refcnt == 0 && !now.valid && now.dev != 0
    requires forall c :: !Hit(bufs, now.dev, now.blockno, c)
    ensures Unique(bufs[b := now]) && View(bufs[b := now], disk) == Forgotten(View(bufs, disk), disk, bufs[b])
    ensures View(bufs[b := now], disk) == View(bufs, disk) <==> CleanAt(bufs[b], disk)
  {
    var bs := bufs[b := now];
    assert Unique(bs) by {
      forall c, d | 0 <= c < |bs| && 0 <= d < |bs| && bs[c].dev != 0 && bs[c].dev == bs[d].dev
          && bs[c].blockno == bs[d].blockno ensures c == d {
        assert c != b ==> !Hit(bufs, now.dev, now.blockno, c);
        assert d != b ==> !Hit(bufs, now.dev, now.blockno, d);
      }
    }
    forall k | 0 <= k < |disk|
      ensures Logical(bs, disk, k)
              == if Hit(bufs, DEV, k, b) && bufs[b].valid then disk[k] else Logical(bufs, disk, k) {
      RecycleLogical(bufs, disk, b, now, k);
    }
    var k := bufs[b].blockno;
    if bufs[b].dev == DEV && bufs[b].valid && k < |disk| {
      LogicalHit(bufs, disk, k, b);
      assert View(bufs, disk)[k] == bufs[b].data && View(bs, disk)[k] == disk[k];
    }
  }

  lemma RecycleLogical(bufs: seq<Buf>, disk: seq<Data>, b: nat, now: Buf, k: nat)
    requires Unique(bufs) && b < |bufs| && !now.valid && Unique(bufs[b := now]) && k < |disk|
    ensures Logical(bufs[b := now], disk, k)
            == if Hit(bufs, DEV, k, b) && bufs[b].valid then disk[k] else Logical(bufs, disk, k)
  {
    var bs := bufs[b := now];
    if c :| Hit(bufs, DEV, k, c) && bufs[c].valid {
      LogicalHit(bufs, disk, k, c);
      if c == b {
        assert forall d :: Hit(bs, DEV, k, d) && bs[d].valid ==> d != b && Hit(bufs, DEV, k, d);
        LogicalMiss(bs, disk, k);
      } else {
        assert Hit(bs, DEV, k, c);
        LogicalHit(bs, disk, k, c);
      }
    } else {
      LogicalMiss(bufs, disk, k);
      assert forall d :: Hit(bs, DEV, k, d) && bs[d].valid ==> Hit(bufs, DEV, k, d) && bufs[d].valid;
      LogicalMiss(bs, disk, k);
    }
  }

  // ---------- The list ----------

  /** The circle is the head followed by every buffer. */
  ghost predicate Everyone(ring: seq<nat>) {
    |ring| == NBUF + 1 && ring[0] == NBUF && (forall b: nat :: b in ring <==> b <= NBUF)
  }

  /** Buffers come in the order of their last move to the front, latest first. */
  ghost predicate Recent(ring: seq<nat>, stamp: seq<nat>, clock: nat) {
    && |stamp| == NBUF && (forall b :: 0 <= b < NBUF ==> stamp[b] < clock)
    && (forall i :: 1 <= i < |ring| ==> ring[i] < NBUF)
    && forall i, j :: 1 <= i < j < |ring| ==> stamp[ring[i]] > stamp[ring[j]]
  }

  /** The list after the buffer at place `k` has moved to the front. */
  function Moved(ring: seq<nat>, k: nat): seq<nat>
    requires 0 < k < |ring|
  {
    Fronted(Removed(ring, k), ring[k])
  }

  lemma MovedAt(ring: seq<nat>, k: nat, i: nat)
    requires 0 < k < |ring| && i < |ring|
    ensures |Moved(ring, k)| == |ring|
    ensures Moved(ring, k)[i] == if i == 0 then ring[0] else if i == 1 then ring[k] else if i <= k then ring[i - 1]
            else ring[i]
  {
  }

  lemma MovedEveryone(ring: seq<nat>, k: nat)
    requires Everyone(ring) && 0 < k < |ring|
    ensures Everyone(Moved(ring, k))
  {
    var now := Moved(ring, k);
    MovedAt(ring, k, 0);
    forall b: nat ensures b in now <==> b in ring {
      if b in ring {
        var i :| 0 <= i < |ring| && ring[i] == b;
        var j := if i == 0 then 0 else if i == k then 1 else if i < k then i + 1 else i;
        MovedAt(ring, k, j);
        assert now[j] == b;
      }
      if b in now {
        var i :| 0 <= i < |now| && now[i] == b;
        MovedAt(ring, k, i);
      }
    }
  }

  lemma MovedRecent(ring: seq<nat>, stamp: seq<nat>, clock: nat, k: nat)
    requires Recent(ring, stamp, clock) && Distinct(ring) && 0 < k < |ring|
    ensures Recent(Moved(ring, k), stamp[ring[k] := clock], clock + 1)
  {
    var now, st := Moved(ring, k), stamp[ring[k] := clock];
    forall i | 0 <= i < |now|
      ensures now[i] == if i == 0 then ring[0] else if i == 1 then ring[k] else if i <= k then ring[i - 1]
              else ring[i] {
      MovedAt(ring, k, i);
    }
    forall i, j | 1 <= i < j < |now| ensures st[now[i]] > st[now[j]] {
      Different(ring, if j <= k then j - 1 else j, k);
      if i > 1 { Different(ring, if i <= k then i - 1 else i, k); }
    }
  }

  lemma RingAt(next: seq<nat>, prev: seq<nat>, ring: seq<nat>, i: nat)
    requires Linked(next, prev, ring) && Everyone(ring) && i < |ring| == |next| == |prev|
    ensures |ring| == NBUF + 1 && ring[0] == NBUF && ring[i] <= NBUF && After(|ring|, i) < |ring|
    ensures ring[After(|ring|, i)] <= NBUF
    ensures next[ring[i]] == ring[After(|ring|, i)] && prev[ring[After(|ring|, i)]] == ring[i]
    ensures i > 0 ==> ring[i] < NBUF
  {
    assert LinkAt(next, prev, ring, i);
    assert ring[i] in ring && ring[After(|ring|, i)] in ring;
    Different(ring, 0, i);
  }

  /** Every buffer is somewhere on the list after the head. */
  lemma PlaceOf(ring: seq<nat>, c: nat) returns (j: nat)
    requires Everyone(ring) && c < NBUF
    ensures 1 <= j < |ring| && ring[j] == c
  {
    assert c in ring;
    j :| 0 <= j < |ring| && ring[j] == c;
  }

  /** Coming from the back, the first unreferenced buffer is the one released longest ago. */
  lemma Oldest(bufs: seq<Buf>, ring: seq<nat>, stamp: seq<nat>, clock: nat, i: nat, c: nat)
    requires |bufs| == NBUF && Everyone(ring) && Recent(ring, stamp, clock) && 1 <= i < |ring| && c < NBUF
             && bufs[c].refcnt == 0
    requires forall j :: i < j < |ring| ==> ring[j] < NBUF && bufs[ring[j]].refcnt > 0
    ensures stamp[ring[i]] <= stamp[c]
  {
    var j := PlaceOf(ring, c);
  }

  class BufferCache {
    var bufs: seq<Buf>
    var next: seq<nat>
    var prev: seq<nat>
    var disk: seq<Data>
    ghost var ring: seq<nat>
    ghost var stamp: seq<nat>
    ghost var clock: nat

    ghost predicate Listed()
      reads this
    {
      && |bufs| == |stamp| == NBUF && |next| == |prev| == |ring| == NBUF + 1
      && Linked(next, prev, ring) && Everyone(ring) && Recent(ring, stamp, clock)
    }

    ghost predicate Valid()
      reads this
    {
      Listed() && Unique(bufs)
    }

    /** Put every buffer on the list; they start out as block 0 of device 0. */
    constructor (disk: seq<Data>)
      ensures Valid() && Clean(bufs, disk) && this.disk == disk && View(bufs, disk) == disk
      ensures forall b :: 0 <= b < NBUF ==> bufs[b] == Buf(0, 0, false, 0, [])
    {
      bufs := seq(NBUF, _ => Buf(0, 0, false, 0, []));
      this.disk := disk;
      next := seq(NBUF + 1, _ => NBUF);
      prev := seq(NBUF + 1, _ => NBUF);
      ring, stamp, clock := [NBUF], seq(NBUF, _ => 0), 0;
      new;
      assert LinkAt(next, prev, ring, 0);
      var b := 0;
      while b < NBUF
        invariant b <= NBUF && |next| == |prev| == NBUF + 1 && |stamp| == NBUF && clock == b && |ring| == b + 1
        invariant bufs == seq(NBUF, _ => Buf(0, 0, false, 0, [])) && this.disk == disk
        invariant Linked(next, prev, ring) && ring[0] == NBUF
        invariant forall i :: 1 <= i < |ring| ==> ring[i] == b - i
        invariant forall c :: 0 <= c < b ==> stamp[c] == c
      {
        ghost var n0, p0 := next, prev;
        LinkedAt(next, prev, ring, 0);
        next := next[b := next[NBUF]];
        prev := prev[b := NBUF];
        prev := prev[next[NBUF] := b];
        next := next[NBUF := b];
        FrontLinks(n0, p0, ring, b, next, prev);
        ring := Fronted(ring, b);
        stamp := stamp[b := clock];
        clock := clock + 1;
        b := b + 1;
      }
      forall c: nat ensures c in ring <==> c <= NBUF {
        if c < NBUF { assert ring[NBUF - c] == c; } else if c == NBUF { assert ring[0] == c; }
      }
      forall k | 0 <= k < |disk| ensures Logical(bufs, disk, k) == disk[k] { LogicalMiss(bufs, disk, k); }
    }

    /** Is the block already cached? */
    method Lookup(dev: nat, blockno: nat) returns (found: bool, b: nat)
      requires Valid()
      ensures found ==> Hit(bufs, dev, blockno, b)
      ensures !found ==> forall c :: !Hit(bufs, dev, blockno, c)
    {
      hide Linked, Everyone, Recent, Unique, Clean;
      RingAt(next, prev, ring, 0);
      b := next[NBUF];
      ghost var i: nat := 1;
      while b != NBUF
        invariant 1 <= i <= |ring| && b == ring[if i < |ring| then i else 0] && b <= NBUF
        invariant forall j :: 1 <= j < i && j < |ring| ==> !Hit(bufs, dev, blockno, ring[j])
        decreases |ring| - i
      {
        if bufs[b].dev == dev && bufs[b].blockno == blockno { return true, b; }
        RingAt(next, prev, ring, i);
        b := next[b];
        i := i + 1;
        if i < |ring| { RingAt(next, prev, ring, i); }
      }
      if i < |ring| { RingAt(next, prev, ring, i); }
      forall c ensures !Hit(bufs, dev, blockno, c) {
        if 0 <= c < NBUF { var j := PlaceOf(ring, c); }
      }
      return false, 0;
    }

    /** The unreferenced buffer released longest ago, if any is unreferenced. */
    method Victim() returns (found: bool, b: nat)
      requires Valid()
      ensures found ==>
              b < NBUF && bufs[b].refcnt == 0 && forall c ::
              0 <= c < NBUF && bufs[c].refcnt == 0 ==> stamp[b] <= stamp[c]
      ensures !found ==> forall c :: 0 <= c < NBUF ==> bufs[c].refcnt > 0
    {
      hide Linked, Everyone, Recent, Unique, Clean;
      RingAt(next, prev, ring, |ring| - 1);
      b := prev[NBUF];
      ghost var i: nat := |ring| - 1;
      while b != NBUF
        invariant 0 <= i < |ring| && b == ring[i] && b <= NBUF
        invariant forall j :: i < j < |ring| ==> ring[j] < NBUF && bufs[ring[j]].refcnt > 0
        decreases i
      {
        RingAt(next, prev, ring, i);
        if bufs[b].refcnt == 0 {
          forall c | 0 <= c < NBUF && bufs[c].refcnt == 0 ensures stamp[b] <= stamp[c] {
            Oldest(bufs, ring, stamp, clock, i, c);
          }
          return true, b;
        }
        RingAt(next, prev, ring, i - 1);
        b := prev[b];
        i := i - 1;
      }
      if i > 0 { RingAt(next, prev, ring, i); }
      forall c | 0 <= c < NBUF ensures bufs[c].refcnt > 0 {
        var j := PlaceOf(ring, c);
      }
      return false, 0;
    }

    /** The buffer for a block: the one that has it, else the unreferenced one released longest ago.  It
        panics when every buffer is referenced. */
    method Bget(dev: nat, blockno: nat) returns (found: bool, b: nat)
      requires Valid() && dev != 0
      modifies this`bufs
      ensures Valid() && (Clean(old(bufs), disk) ==> Clean(bufs, disk) && View(bufs, disk) == View(old(bufs), disk))
      ensures found ==> Hit(bufs, dev, blockno, b) && bufs[b].refcnt > 0
      ensures !found ==>
              bufs == old(bufs) && (forall c :: 0 <= c < NBUF ==> bufs[c].refcnt > 0 && !Hit(bufs, dev, blockno, c))
      ensures found && Hit(old(bufs), dev, blockno, b) ==>
                && bufs == old(bufs)[b := old(bufs)[b].(refcnt := old(bufs)[b].refcnt + 1)]
                && View(bufs, disk) == View(old(bufs), disk)
      ensures found && !Hit(old(bufs), dev, blockno, b) ==>
                && (forall c :: !Hit(old(bufs), dev, blockno, c)) && b < NBUF && old(bufs)[b].refcnt == 0
                && (forall c :: 0 <= c < NBUF && old(bufs)[c].refcnt == 0 ==> stamp[b] <= stamp[c])
                && bufs == old(bufs)[b := Buf(dev, blockno, false, 1, old(bufs)[b].data)]
                && View(bufs, disk) == Forgotten(View(old(bufs), disk), disk, old(bufs)[b])
                && (View(bufs, disk) == View(old(bufs), disk) <==> CleanAt(old(bufs)[b], disk))
    {
      hide Linked, Everyone, Recent, View, Unique, Forgotten;
      found, b := Lookup(dev, blockno);
      if found {
        SameView(bufs, disk, b, bufs[b].(refcnt := bufs[b].refcnt + 1));
        bufs := bufs[b := bufs[b].(refcnt := bufs[b].refcnt + 1)];
        return;
      }
      found, b := Victim();
      if found {
        RecycleView(bufs, disk, b, Buf(dev, blockno, false, 1, bufs[b].data));
        bufs := bufs[b := Buf(dev, blockno, false, 1, bufs[b].data)];
      }
    }

    /** A buffer with the contents of a block.  False when every buffer is referenced. */
    method Bread(blockno: nat) returns (found: bool, b: nat)
      requires Valid() && blockno < |disk|
      modifies this`bufs
      ensures Valid() && (Clean(old(bufs), disk) ==> Clean(bufs, disk) && View(bufs, disk) == View(old(bufs), disk))
      ensures found ==> Hit(bufs, DEV, blockno, b) && bufs[b].refcnt > 0 && bufs[b].valid
                        && bufs[b].data == View(bufs, disk)[blockno] == View(old(bufs), disk)[blockno]
    {
      hide Linked, Everyone, Recent, Unique, View;
      found, b := Bget(DEV, blockno);
      if found {
        Elsewhere(old(bufs), bufs, disk, blockno, b);
        if !bufs[b].valid {
          SameView(bufs, disk, b, bufs[b].(data := disk[blockno], valid := true));
          bufs := bufs[b := bufs[b].(data := disk[blockno], valid := true)];
        }
        ViewHit(bufs, disk, blockno, b);
      }
    }

    /** The holder of a buffer changes its contents. */
    method Change(b: nat, data: Data)
      requires Valid() && b < NBUF && bufs[b].dev == DEV && bufs[b].blockno < |disk| && bufs[b].refcnt > 0
               && bufs[b].valid
      modifies this`bufs
      ensures Valid() && (Clean(old(bufs), disk) ==> Clean(bufs, disk))
      ensures View(bufs, disk) == View(old(bufs), disk)[old(bufs[b].blockno) := data]
      ensures bufs == old(bufs)[b := old(bufs[b]).(data := data)]
    {
      hide Linked, Everyone, Recent;
      ChangeView(bufs, disk, b, data);
      bufs := bufs[b := bufs[b].(data := data)];
    }

    /** Write a buffer to disk. */
    method Bwrite(b: nat)
      requires Valid() && b < NBUF && bufs[b].dev == DEV && bufs[b].blockno < |disk| && bufs[b].valid
      modifies this`disk
      ensures Valid() && (Clean(bufs, old(disk)) ==> Clean(bufs, disk)) && CleanAt(bufs[b], disk)
      ensures View(bufs, disk) == View(bufs, old(disk)) && disk == old(disk)[bufs[b].blockno := bufs[b].data]
    {
      hide Linked, Everyone, Recent;
      WriteView(bufs, disk, b);
      disk := disk[bufs[b].blockno := bufs[b].data];
    }

    /** Keep a buffer in the cache. */
    method Bpin(b: nat)
      requires Valid() && b < NBUF
      modifies this`bufs
      ensures Valid() && (Clean(old(bufs), disk) ==> Clean(bufs, disk)) && View(bufs, disk) == View(old(bufs), disk)
      ensures bufs == old(bufs)[b := old(bufs[b]).(refcnt := old(bufs[b].refcnt) + 1)]
    {
      hide Linked, Everyone, Recent, View, Unique;
      SameView(bufs, disk, b, bufs[b].(refcnt := bufs[b].refcnt + 1));
      bufs := bufs[b := bufs[b].(refcnt := bufs[b].refcnt + 1)];
    }

    /** Undo one Bpin.  Buffers stay clean exactly when the last to let go leaves this one so. */
    method Bunpin(b: nat)
      requires Valid() && b < NBUF && bufs[b].refcnt > 0
      modifies this`bufs
      ensures Valid() && View(bufs, disk) == View(old(bufs), disk)
      ensures Clean(old(bufs), disk) ==> (Clean(bufs, disk) <==> CleanAt(bufs[b], disk))
      ensures bufs == old(bufs)[b := old(bufs[b]).(refcnt := old(bufs[b].refcnt) - 1)]
    {
      hide Linked, Everyone, Recent, View, Unique;
      SameView(bufs, disk, b, bufs[b].(refcnt := bufs[b].refcnt - 1));
      bufs := bufs[b := bufs[b].(refcnt := bufs[b].refcnt - 1)];
    }

    /** Let go of a buffer; when nobody else holds it, it goes to the front of the list. */
    method Brelse(b: nat)
      requires Valid() && b < NBUF && bufs[b].refcnt > 0
      modifies this
      ensures Valid() && disk == old(disk) && View(bufs, disk) == View(old(bufs), disk)
      ensures Clean(old(bufs), disk) ==> (Clean(bufs, disk) <==> CleanAt(bufs[b], disk))
      ensures bufs == old(bufs)[b := old(bufs[b]).(refcnt := old(bufs[b].refcnt) - 1)]
      ensures bufs[b].refcnt == 0 ==> ring[1] == b && stamp == old(stamp)[b := old(clock)] && clock == old(clock) + 1
      ensures bufs[b].refcnt > 0 ==> ring == old(ring) && stamp == old(stamp) && next == old(next) && prev == old(prev)
    {
      hide Linked, Everyone, Recent, View, Unique, Moved;
      SameView(bufs, disk, b, bufs[b].(refcnt := bufs[b].refcnt - 1));
      bufs := bufs[b := bufs[b].(refcnt := bufs[b].refcnt - 1)];
      if bufs[b].refcnt == 0 { ToFront(b); }
    }

    /** Unlink a buffer and link it in again behind the head. */
    method ToFront(b: nat)
      requires Listed() && b < NBUF
      modifies this`next, this`prev, this`ring, this`stamp, this`clock
      ensures Listed() && ring[1] == b && stamp == old(stamp)[b := old(clock)] && clock == old(clock) + 1
    {
      hide Linked, Everyone, Recent;
      ghost var k := PlaceOf(ring, b);
      RingAt(next, prev, ring, k);
      RingAt(next, prev, ring, k - 1);
      MovedEveryone(ring, k);
      LinkedDistinct(next, prev, ring);
      MovedRecent(ring, stamp, clock, k);
      MovedAt(ring, k, 1);
      LinkedAt(next, prev, ring, k);
      LinkedAt(next, prev, ring, k - 1);
      ghost var n0, p0 := next, prev;
      prev := prev[next[b] := prev[b]];
      next := next[prev[b] := next[b]];
      RemoveLinks(n0, p0, ring, k, next, prev);
      ghost var n1, p1, r1 := next, prev, Removed(ring, k);
      LinkedAt(n1, p1, r1, 0);
      next := next[b := next[NBUF]];
      prev := prev[b := NBUF];
      prev := prev[next[NBUF] := b];
      next := next[NBUF := b];
      RemovedDistinct(ring, k);
      FrontLinks(n1, p1, r1, b, next, prev);
      stamp := stamp[b := clock];
      clock := clock + 1;
      ring := Moved(ring, k);
    }
  }

  lemma LinkedDistinct(next: seq<nat>, prev: seq<nat>, ring: seq<nat>)
    requires Linked(next, prev, ring)
    ensures Distinct(ring)
  {
  }

  lemma LinkedAt(next: seq<nat>, prev: seq<nat>, ring: seq<nat>, i: nat)
    requires Linked(next, prev, ring) && i < |ring|
    ensures LinkAt(next, prev, ring, i)
  {
  }

  lemma ViewHit(bufs: seq<Buf>, disk: seq<Data>, k: nat, b: nat)
    requires Unique(bufs) && k < |disk| && Hit(bufs, DEV, k, b) && bufs[b].valid
    ensures |View(bufs, disk)| == |disk| && View(bufs, disk)[k] == bufs[b].data
  {
    LogicalHit(bufs, disk, k, b);
  }

  /** The block that a buffer is taken for is not the one it forgets. */
  lemma Elsewhere(was: seq<Buf>, bufs: seq<Buf>, disk: seq<Data>, k: nat, b: nat)
    requires k < |disk| && b < |was|
    requires || View(bufs, disk) == View(was, disk)
             || (!Hit(was, DEV, k, b) && View(bufs, disk) == Forgotten(View(was, disk), disk, was[b]))
    ensures |View(bufs, disk)| == |View(was, disk)| == |disk| && View(bufs, disk)[k] == View(was, disk)[k]
  {
  }

  lemma ChangeView(bufs: seq<Buf>, disk: seq<Data>, b: nat, data: Data)
    requires Unique(bufs) && b < |bufs| && bufs[b].dev == DEV && bufs[b].blockno < |disk| && bufs[b].valid
    ensures Unique(bufs[b := bufs[b].(data := data)])
    ensures View(bufs[b := bufs[b].(data := data)], disk) == View(bufs, disk)[bufs[b].blockno := data]
  {
    var bs := bufs[b := bufs[b].(data := data)];
    forall k | 0 <= k < |disk| ensures Logical(bs, disk, k) == if k == bufs[b].blockno then data
        else Logical(bufs, disk, k) {
      if c :| Hit(bufs, DEV, k, c) && bufs[c].valid {
        assert Hit(bs, DEV, k, c);
        LogicalHit(bs, disk, k, c);
        LogicalHit(bufs, disk, k, c);
      } else {
        LogicalMiss(bufs, disk, k);
        assert forall d :: Hit(bs, DEV, k, d) ==> Hit(bufs, DEV, k, d);
        LogicalMiss(bs, disk, k);
      }
      if k == bufs[b].blockno { assert Hit(bs, DEV, k, b); LogicalHit(bs, disk, k, b); }
    }
  }

  /** Writing a buffer through to the disk changes nothing the kernel sees. */
  lemma WriteView(bufs: seq<Buf>, disk: seq<Data>, b: nat)
    requires Unique(bufs) && b < |bufs| && bufs[b].dev == DEV && bufs[b].blockno < |disk| && bufs[b].valid
    ensures View(bufs, disk[bufs[b].blockno := bufs[b].data]) == View(bufs, disk)
    ensures Clean(bufs, disk) ==> Clean(bufs, disk[bufs[b].blockno := bufs[b].data])
  {
    var d := disk[bufs[b].blockno := bufs[b].data];
    forall k | 0 <= k < |disk| ensures Logical(bufs, d, k) == Logical(bufs, disk, k) {
      if c :| Hit(bufs, DEV, k, c) && bufs[c].valid {
        LogicalHit(bufs, d, k, c);
        LogicalHit(bufs, disk, k, c);
      } else {
        assert !Hit(bufs, DEV, k, b);
        LogicalMiss(bufs, d, k);
        LogicalMiss(bufs, disk, k);
      }
    }
    forall c | 0 <= c < |bufs| && CleanAt(bufs[c], disk) ensures CleanAt(bufs[c], d) {
    }
  }
}
