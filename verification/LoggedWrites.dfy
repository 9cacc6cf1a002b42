/** The transactions of filewrite among all others in the log. */
module LoggedWrites {
  import opened Disk
  import opened Log
  import opened GroupCommit
  import Bytes
  import FsModel
  import FsOps
  import FsWrite
  import Sets

  /** When the log region is longer than LOGSIZE and lies below the file system's own blocks, filewrite is
      never stopped for want of log space: at every point of every run, an operation that has logged part
      of what a chunk logs before the inode may log any block of the chunk, for the first time or again,
      and unless that block is the last one it is then at such a point again. */
  lemma ChunkNeverStops(L: Layout, base: Image, steps: seq<Step>, sb: FsModel.Super, c: FsWrite.Chunk, last: nat,
                        i: nat, b: nat, data: Block)
    requires Clean(L, base) && L.size > LOGSIZE && L.start + L.size <= sb.inodestart && sb.size <= |base|
    requires FsWrite.Fits(sb, c, last) && b in c.to.logged
    requires i < |Exec(L, Boot(L, base), steps).ops| && Exec(L, Boot(L, base), steps).ops[i].blocks <= c.early
    ensures var s, step := Exec(L, Boot(L, base), steps), LogWrite(i, b, data);
            Enabled(L, s, step) && (b == last || Next(L, s, step).ops[i].blocks <= c.early)
  {
    var s := Exec(L, Boot(L, base), steps);
    ExecKeeps(L, base, steps);
    Sets.Fewer(s.ops[i].blocks, c.early);
    ReservationHolds(L, base, steps, i);
    ExecBase(L, base, steps);
  }

  /** The group has the writes of one transaction of the file system: the last write of each block that the
      transaction logged has what the block holds at its end, and no other block is written.  `enc` gives
      the words of a block of bytes. */
  ghost predicate Carries(enc: Bytes.Block -> Block, g: Group, c: FsWrite.Chunk) {
    forall b: nat, before: Block ::
      Latest(g.writes, b, before) ==
        if b in c.to.logged && b < |c.to.fs.blocks| then enc(c.to.fs.blocks[b]) else before
  }

  lemma ChunkStep(enc: Bytes.Block -> Block, g: Group, c: FsWrite.Chunk, b: nat)
    requires Carries(enc, g, c) && FsOps.Recorded(c.from, c.to) && b < |c.from.fs.blocks|
    ensures |c.to.fs.blocks| == |c.from.fs.blocks|
    ensures Latest(g.writes, b, enc(c.from.fs.blocks[b])) == enc(c.to.fs.blocks[b])
  {
    hide Latest;
  }

  /** Because a transaction logs every block it changes, replaying the transactions gives the file system's
      blocks. */
  lemma {:induction false} ReplayedChunks(base: Image, groups: seq<Group>, enc: Bytes.Block -> Block,
                                          st0: FsOps.State, cs: seq<FsWrite.Chunk>, k: nat, b: nat)
    requires k <= |groups| == |cs| && FsWrite.Follows(st0, cs) && b < |st0.fs.blocks| && b < |base|
    requires base[b] == enc(st0.fs.blocks[b]) && forall j :: 0 <= j < |cs| ==> Carries(enc, groups[j], cs[j])
    ensures |FsWrite.Reached(st0, cs, k).fs.blocks| == |st0.fs.blocks|
    ensures Replay(base, groups[..k], b) == enc(FsWrite.Reached(st0, cs, k).fs.blocks[b])
    decreases k
  {
    hide Latest, Carries, FsOps.Recorded, FsWrite.Follows, FsWrite.Reached;
    FsWrite.ReachedNone(st0, cs);
    if k > 0 {
      FsWrite.FollowsAt(st0, cs, k - 1);
      ReplayedChunks(base, groups, enc, st0, cs, k - 1, b);
      assert groups[..k][..k - 1] == groups[..k - 1];
      ChunkStep(enc, groups[k - 1], cs[k - 1], b);
    }
  }

  /** When the machine stops at any moment, recovery shows the file system as it was between two transactions
      of a write: all that were completed are there, and none is there in part. */
  lemma CrashBetweenChunks(L: Layout, base: Image, steps: seq<Step>, enc: Bytes.Block -> Block,
                           sb: FsModel.Super, st0: FsOps.State, cs: seq<FsWrite.Chunk>)
    returns (k: nat)
    requires Clean(L, base) && L.start + L.size <= sb.inodestart && sb.size <= |base| && |st0.fs.blocks| == sb.size
    requires FsWrite.Follows(st0, cs) && |Exec(L, Boot(L, base), steps).groups| == |cs|
    requires forall j :: 0 <= j < |cs| ==> Carries(enc, Exec(L, Boot(L, base), steps).groups[j], cs[j])
    requires forall b :: sb.inodestart <= b < sb.size ==> base[b] == enc(st0.fs.blocks[b])
    ensures var s := Exec(L, Boot(L, base), steps);
            && WellFormed(L, s.disk) && |s.disk| == |base| && s.completed <= k <= |cs|
            && |FsWrite.Reached(st0, cs, k).fs.blocks| == sb.size
            && forall b :: sb.inodestart <= b < sb.size ==>
                 Recovered(L, s.disk)[b] == enc(FsWrite.Reached(st0, cs, k).fs.blocks[b])
  {
    hide FsWrite.Follows, FsWrite.Reached, Carries;
    var s := Exec(L, Boot(L, base), steps);
    RecoveredIsPrefix(L, base, steps);
    k := Survivors(s);
    SameSize(st0, cs, k);
    forall b | sb.inodestart <= b < sb.size
      ensures Recovered(L, s.disk)[b] == enc(FsWrite.Reached(st0, cs, k).fs.blocks[b]) {
      ReplayedChunks(base, s.groups, enc, st0, cs, k, b);
    }
  }

  lemma {:induction false} SameSize(st0: FsOps.State, cs: seq<FsWrite.Chunk>, k: nat)
    requires FsWrite.Follows(st0, cs) && k <= |cs|
    ensures |FsWrite.Reached(st0, cs, k).fs.blocks| == |st0.fs.blocks|
    decreases k
  {
    hide FsWrite.Follows, FsWrite.Reached;
    FsWrite.ReachedNone(st0, cs);
    if k > 0 {
      SameSize(st0, cs, k - 1);
      FsWrite.FollowsAt(st0, cs, k - 1);
    }
  }
}
