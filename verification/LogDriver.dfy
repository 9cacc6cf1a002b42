/** The in-memory log and its operations, working on a disk device one block write at a time. */
module LogDriver {
  import opened Disk
  import opened Log

  /** What the log keeps in memory: the block numbers of the running transaction, the pinned
      buffers, how many operations are inside it, and whether commit is under way. */
  datatype Memory = Memory(lh: seq<nat>, cache: map<nat, Block>, outstanding: nat, committing: bool) {

    /** begin_op lets the caller in: no commit, and room for one more worst-case operation. */
    predicate Admits() {
      !committing && |lh| + (outstanding + 1) * MAXOPBLOCKS <= LOGSIZE
    }

    /** log_write stops the kernel. */
    predicate TooBig(L: Layout) {
      |lh| >= LOGSIZE || |lh| + 1 >= L.size
    }

    /** The caller has put `data` in block `b` and logged it; a block already logged is absorbed. */
    function Logged(b: nat, data: Block): Memory {
      this.(lh := if b in lh then lh else lh + [b], cache := cache[b := data])
    }
  }

  /** The pinned buffers left once those of `lh` are unpinned. */
  ghost function Unpinned(cache: map<nat, Block>, lh: seq<nat>): map<nat, Block> {
    cache - (set b | b in lh)
  }

  lemma UnpinnedNext(cache: map<nat, Block>, lh: seq<nat>, i: nat)
    requires i < |lh|
    ensures Unpinned(cache, lh[..i + 1]) == Unpinned(cache, lh[..i]) - {lh[i]}
  {
    assert lh[..i + 1] == lh[..i] + [lh[i]];
    assert forall b :: b in lh[..i + 1] <==> b in lh[..i] || b == lh[i];
  }

  /** Logging a transaction and then installing it are together commit's writes. */
  lemma HalvesMakeCommit(L: Layout, d: Image, lh: seq<nat>, cache: map<nat, Block>, mid: Image, trace: seq<Write>)
    requires CommitReady(L, d, lh, cache) && lh != []
    requires mid == Apply(d, UpToHeader(L, d, lh, cache)) && WellFormed(L, mid)
    ensures Recovered(L, mid) == Apply(d, CommitWrites(L, d, lh, cache))
    ensures trace + UpToHeader(L, d, lh, cache) + RecoverWrites(L, mid) == trace + CommitWrites(L, d, lh, cache)
  {
    var ws := CommitWrites(L, d, lh, cache);
    CommitTailIsRecovery(L, d, lh, cache, mid);
    AfterSplit(d, ws, UpToHeader(L, d, lh, cache), RecoverWrites(L, mid), |ws|);
  }

  /** Turn `tail` of install_trans reads a log copy that the turns before it left alone. */
  lemma InstallReads(L: Layout, d: Image, lh: seq<nat>, tail: nat)
    requires Fits(L, d) && Loggable(L, |d|, lh) && tail < |lh|
    ensures L.Inside(L.start + tail + 1)
    ensures After(d, Installs(L, d, lh), tail)[L.start + tail + 1] == d[L.start + tail + 1]
  {
    InstallPrefix(L, d, lh, tail, After(d, Installs(L, d, lh), tail));
  }

  class KernelLog {
    const L: Layout
    const disk: Device
    const block: array<nat>
    var n: nat
    var cache: map<nat, Block>
    var outstanding: nat
    var committing: bool

    ghost predicate Valid()
      reads this, disk, block
    {
      && block.Length == LOGSIZE
      && n <= LOGSIZE
      && Fits(L, disk.blocks)
      && Loggable(L, |disk.blocks|, Lh())
      && (forall b :: b in cache ==> b < |disk.blocks| && !L.Inside(b))
      && (forall i :: 0 <= i < n ==> block[i] in cache)
    }

    ghost function Lh(): seq<nat>
      requires n <= block.Length
      reads this, block
    {
      block[..n]
    }

    ghost function View(): Memory
      requires n <= block.Length
      reads this, block
    {
      Memory(Lh(), cache, outstanding, committing)
    }

    /** bread: a pinned buffer if there is one, else what the disk holds. */
    function Bread(b: nat): Block
      requires b < |disk.blocks|
      reads this, disk
    {
      if b in cache then cache[b] else disk.blocks[b]
    }

    constructor (layout: Layout, device: Device)
      requires Fits(layout, device.blocks)
      ensures L == layout && disk == device && Valid() && fresh(block)
      ensures View() == Memory([], map[], 0, false)
    {
      L, disk := layout, device;
      block := new nat[LOGSIZE];
      n, cache, outstanding, committing := 0, map[], 0, false;
    }

    method ReadHead()
      requires Valid() && WellFormed(L, disk.blocks) && cache == map[]
      modifies this`n, block
      ensures n == |Entries(disk.blocks[L.start])| && block[..n] == Entries(disk.blocks[L.start])
    {
      var hb := Bread(L.start);
      n := hb.words[0];
      var i := 0;
      while i < n
        invariant 0 <= i <= n == hb.words[0]
        invariant block[..i] == hb.words[1..1 + i]
        modifies block
      {
        block[i] := hb.words[1 + i];
        i := i + 1;
      }
    }

    method WriteHead()
      requires block.Length == LOGSIZE && n <= LOGSIZE && Fits(L, disk.blocks) && L.start !in cache
      modifies disk
      ensures disk.blocks == old(disk.blocks)[L.start := Stamp(old(disk.blocks[L.start]), Lh())]
      ensures disk.trace == old(disk.trace) + [Write(L.start, Stamp(old(disk.blocks[L.start]), Lh()))]
    {
      ghost var was := disk.blocks[L.start].words;
      var hb := Bread(L.start).words;
      hb := hb[0 := n];
      var i := 0;
      while i < n
        invariant 0 <= i <= n
        invariant |hb| == |was| && hb[0] == n
        invariant forall j :: 0 <= j < i ==> hb[1 + j] == block[j]
        invariant forall j :: i < j < |was| ==> hb[j] == was[j]
      {
        hb := hb[1 + i := block[i]];
        i := i + 1;
      }
      assert hb == [n] + block[..n] + was[1 + n..];
      disk.WriteBlock(L.start, Block(hb));
    }

    method WriteLog()
      requires Valid()
      modifies disk
      ensures disk.blocks == Apply(old(disk.blocks), LogCopies(L, Lh(), cache))
      ensures disk.trace == old(disk.trace) + LogCopies(L, Lh(), cache)
    {
      ghost var ws := LogCopies(L, Lh(), cache);
      var tail := 0;
      while tail < n
        invariant 0 <= tail <= n
        invariant disk.blocks == After(old(disk.blocks), ws, tail)
        invariant disk.trace == old(disk.trace) + ws[..tail]
      {
        var from := Bread(block[tail]);
        disk.WriteBlock(L.start + tail + 1, from);
        tail := tail + 1;
      }
      assert ws[..n] == ws;
    }

    method InstallTrans(recovering: bool)
      requires block.Length == LOGSIZE && n <= LOGSIZE && Fits(L, disk.blocks)
      requires Loggable(L, |disk.blocks|, Lh())
      requires forall b :: b in cache ==> b < |disk.blocks| && !L.Inside(b)
      modifies this`cache, disk
      ensures disk.blocks == Apply(old(disk.blocks), Installs(L, old(disk.blocks), Lh()))
      ensures disk.trace == old(disk.trace) + Installs(L, old(disk.blocks), Lh())
      ensures cache == if recovering then old(cache) else Unpinned(old(cache), Lh())
    {
      ghost var was, lh, c0 := disk.blocks, Lh(), cache;
      ghost var ws := Installs(L, was, lh);
      var tail := 0;
      while tail < n
        invariant 0 <= tail <= n
        invariant disk.blocks == After(was, ws, tail)
        invariant disk.trace == old(disk.trace) + ws[..tail]
        invariant cache == if recovering then c0 else Unpinned(c0, lh[..tail])
      {
        InstallReads(L, was, lh, tail);
        UnpinnedNext(c0, lh, tail);
        var lbuf := Bread(L.start + tail + 1);
        disk.WriteBlock(block[tail], lbuf);
        if !recovering {
          cache := cache - {block[tail]};
        }
        tail := tail + 1;
      }
      assert ws[..n] == ws && lh[..n] == lh;
    }

    /** First half of commit: the copies, then the header write that makes them the truth. */
    method LogTransaction()
      requires Valid() && Clean(L, disk.blocks)
      modifies disk
      ensures disk.blocks == Apply(old(disk.blocks), UpToHeader(L, old(disk.blocks), Lh(), cache))
      ensures disk.trace == old(disk.trace) + UpToHeader(L, old(disk.blocks), Lh(), cache)
      ensures WellFormed(L, disk.blocks) && Entries(disk.blocks[L.start]) == Lh()
    {
      HeaderLast(L, disk.blocks, Lh(), cache);
      HeaderCommits(L, disk.blocks, Lh(), cache, Apply(disk.blocks, UpToHeader(L, disk.blocks, Lh(), cache)));
      WriteLog();
      WriteHead();
    }

    /** Second half of commit, and all of recovery once the header is read: install, then clear. */
    method InstallAndClear(recovering: bool)
      requires Valid() || (recovering && cache == map[] && block.Length == LOGSIZE && n <= LOGSIZE)
      requires WellFormed(L, disk.blocks) && Entries(disk.blocks[L.start]) == Lh()
      modifies this`n, this`cache, disk
      ensures n == 0
      ensures disk.blocks == Recovered(L, old(disk.blocks)) && Clean(L, disk.blocks)
      ensures disk.trace == old(disk.trace) + RecoverWrites(L, old(disk.blocks))
      ensures cache == if recovering then old(cache) else Unpinned(old(cache), old(Lh()))
    {
      RecoveredLast(L, disk.blocks, Lh());
      RecoveryInstalls(L, disk.blocks);
      assert L.Inside(L.start);
      InstallTrans(recovering);
      n := 0;
      WriteHead();
    }

    /** Commit, write by write: exactly the sequence whose every cut `Log.CrashAtomic` covers. */
    method Commit()
      requires Valid() && Clean(L, disk.blocks)
      modifies this`n, this`cache, disk
      ensures n == 0
      ensures disk.trace == old(disk.trace) + CommitWrites(L, old(disk.blocks), old(Lh()), old(cache))
      ensures disk.blocks == Apply(old(disk.blocks), CommitWrites(L, old(disk.blocks), old(Lh()), old(cache)))
      ensures cache == Unpinned(old(cache), old(Lh()))
    {
      ghost var was, lh, c0 := disk.blocks, Lh(), cache;
      if n > 0 {
        LogTransaction();
        ghost var mid := disk.blocks;
        InstallAndClear(false);
        HalvesMakeCommit(L, was, lh, c0, mid, old(disk.trace));
      }
    }

    /** Recovery, write by write. */
    method RecoverFromLog()
      requires Valid() && WellFormed(L, disk.blocks) && cache == map[]
      modifies this`n, this`cache, block, disk
      ensures Valid() && n == 0 && cache == map[]
      ensures disk.trace == old(disk.trace) + RecoverWrites(L, old(disk.blocks))
      ensures disk.blocks == Recovered(L, old(disk.blocks)) && Clean(L, disk.blocks)
    {
      ReadHead();
      InstallAndClear(true);
    }

    /** One turn of begin_op's loop: admitted, or told to sleep with nothing changed. */
    method BeginOp() returns (admitted: bool)
      requires Valid()
      modifies this`outstanding
      ensures Valid() && admitted == old(View()).Admits()
      ensures View() == if admitted then old(View()).(outstanding := old(outstanding) + 1) else old(View())
    {
      if committing {
        return false;
      } else if n + (outstanding + 1) * MAXOPBLOCKS > LOGSIZE {
        return false;
      }
      outstanding := outstanding + 1;
      admitted := true;
    }

    /** log_write of a buffer holding `data`; `ok` is false where the kernel panics. */
    method LogWrite(b: nat, data: Block) returns (ok: bool)
      requires Valid() && b < |disk.blocks| && !L.Inside(b)
      modifies this`n, this`cache, block
      ensures Valid()
      ensures ok == !(old(View()).TooBig(L) || outstanding < 1)
      ensures View() == if ok then old(View()).Logged(b, data) else old(View())
    {
      if n >= LOGSIZE || n + 1 >= L.size {
        return false;
      }
      if outstanding < 1 {
        return false;
      }
      var i := 0;
      while i < n && block[i] != b
        invariant 0 <= i <= n
        invariant b !in block[..i]
      {
        i := i + 1;
      }
      ghost var lh := Lh();
      assert i < n ==> lh[i] == b;
      assert i == n ==> b !in lh;
      block[i] := b;
      cache := cache[b := data];
      if i == n {
        n := n + 1;
        assert Lh() == lh + [b];
      } else {
        assert Lh() == lh;
      }
      ok := true;
    }

    /** end_op; `ok` is false where the kernel panics.  The last operation out runs the commit. */
    method EndOp() returns (ok: bool)
      requires Valid() && Clean(L, disk.blocks) && outstanding > 0
      modifies this`n, this`cache, this`outstanding, this`committing, disk
      ensures ok == !old(committing)
      ensures outstanding == old(outstanding) - 1
      ensures |disk.blocks| == |old(disk.blocks)|
      ensures ok ==> Valid() && Clean(L, disk.blocks) && !committing
      ensures ok && outstanding > 0 ==> n == old(n) && cache == old(cache) && disk.trace == old(disk.trace)
      ensures ok && outstanding == 0 ==>
                n == 0 && disk.trace == old(disk.trace) + CommitWrites(L, old(disk.blocks), old(Lh()), old(cache))
      ensures ok ==> forall b :: 0 <= b < |disk.blocks| && !L.Inside(b) ==> Bread(b) == old(Bread(b))
    {
      outstanding := outstanding - 1;
      if committing {
        return false;
      }
      var doCommit := false;
      if outstanding == 0 {
        doCommit := true;
        committing := true;
      }
      if doCommit {
        CommitInstalls(L, disk.blocks, Lh(), cache, |CommitWrites(L, disk.blocks, Lh(), cache)|,
                       Apply(disk.blocks, CommitWrites(L, disk.blocks, Lh(), cache)));
        Commit();
        committing := false;
      }
      ok := true;
    }
  }
}
