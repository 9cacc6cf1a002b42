/** What the loops of writei, readi and itrunc keep, and what a finished call means for the files as
    byte strings and for the log space it used. */
module FsWrite {
  import opened Bytes
  import opened FsModel
  import opened FsOps
  import Log
  import opened Sets

  // ---------- The loop of writei ----------

  /** Every block that bytes `from`..`to` fall in is mapped in this row of slots. */
  ghost predicate Mapped(row: seq<nat>, from: nat, to: nat) {
    from < to ==>
      forall bn ::
          0 <= bn < MAXFILE && SlotOf(bn) < |row| && BlockOf(from) <= bn && 1024 * bn < to ==> row[SlotOf(bn)] != 0
  }

  /** `st` is `st0` with `data` written into inode `i` from `off`, sizes and disk inodes not yet
      touched. */
  ghost predicate Writing(st0: State, st: State, i: nat, off: nat, data: seq<byte>) {
    && Shape(st0.fs) && Shape(st.fs) && Sound(st.fs) && st.fs.sb == st0.fs.sb && st.dinodes == st0.dinodes
    && i < |st0.fs.inodes| && |st.fs.inodes| == |st0.fs.inodes| && off + |data| <= MAXBYTES
    && Files(st.fs) == WithData(Files(st0.fs), i, off, data) && Sizes(st.fs) == Sizes(st0.fs)
    && Grew(Table(st0.fs), Table(st.fs), i) && Mapped(Table(st.fs)[i], off, off + |data|)
  }

  lemma WritingStarts(st: State, i: nat, off: nat)
    requires Shape(st.fs) && Sound(st.fs) && i < |st.fs.inodes| && off <= MAXBYTES
    ensures Writing(st, st, i, off, [])
  {
    WithNoData(Files(st.fs), i, off);
  }

  lemma GrewMapped(t0: seq<seq<nat>>, t1: seq<seq<nat>>, i: nat, from: nat, to: nat)
    requires Grew(t0, t1, i) && i < |t0| && Mapped(t0[i], from, to)
    ensures Mapped(t1[i], from, to)
  {
  }

  /** Mapping a block leaves what has been written. */
  lemma WritingMaps(st0: State, st: State, i: nat, off: nat, data: seq<byte>, st': State)
    requires Writing(st0, st, i, off, data) && Kept(st, st', i)
    ensures Writing(st0, st', i, off, data)
  {
    hide Shape, Sound, Files, Sizes, Grew, Mapped, Table, WithData;
    GrewTrans(Table(st0.fs), Table(st.fs), Table(st'.fs), i);
    GrewMapped(Table(st.fs), Table(st'.fs), i, off, off + |data|);
  }

  lemma MappedMore(row: seq<nat>, from: nat, mid: nat, to: nat)
    requires |row| == NSLOTS && Mapped(row, from, mid) && from <= mid < to <= MAXBYTES
    requires to <= 1024 * (BlockOf(mid) + 1) && row[SlotOf(BlockOf(mid))] != 0
    ensures Mapped(row, from, to)
  {
  }

  /** One more piece, up to the end of its block. */
  lemma WritingPuts(st0: State, st: State, i: nat, off: nat, data: seq<byte>, piece: seq<byte>, st': State)
    requires Writing(st0, st, i, off, data)
    requires off + |data| + |piece| <= MAXBYTES && OffsetIn(off + |data|) + |piece| <= BSIZE && 0 < |piece|
    requires 0 < At(st.fs, i, SlotOf(BlockOf(off + |data|))) < |st.fs.blocks|
    requires st' == Put(st, i, BlockOf(off + |data|), OffsetIn(off + |data|), piece)
    ensures Writing(st0, st', i, off, data + piece) && Table(st'.fs) == Table(st.fs)
  {
    hide Shape, Sound, Files, Sizes, Grew, Mapped, WithData, At, Put;
    var pos := off + |data|;
    PutKeeps(st, i, BlockOf(pos), OffsetIn(pos), piece, st');
    WithDataTwice(Files(st0.fs), i, off, data, piece);
    MappedMore(Table(st.fs)[i], off, pos, pos + |piece|);
  }

  /** Before a piece is copied its block is mapped; nothing written is lost. */
  lemma WritingReady(st0: State, st: State, i: nat, off: nat, data: seq<byte>, r: Outcome<nat>)
    requires Writing(st0, st, i, off, data) && Sound(st.fs) && off + |data| < MAXBYTES
    requires r == Bmap(st, i, BlockOf(off + |data|)) && r.Ok?
    ensures BlockOf(off + |data|) < MAXFILE && Shape(r.st.fs) && i < |r.st.fs.inodes| == |st.fs.inodes|
    ensures Writing(st0, r.st, i, off, data)
    ensures r.value == At(r.st.fs, i, SlotOf(BlockOf(off + |data|))) && 0 < r.value < |r.st.fs.blocks|
    ensures Full(r.st.fs.blocks[r.value])
  {
    hide Sound, Bmap, Files, Sizes, Grew, BlockOf, Mapped, WithData;
    BmapKeeps(st, i, BlockOf(off + |data|), r);
    WritingMaps(st0, st, i, off, data, r.st);
    InRange(r.st.fs, i, SlotOf(BlockOf(off + |data|)));
  }

  // ---------- Holes ----------

  /** Every block below the size is mapped. */
  ghost predicate NoHoles(fs: Fs, i: nat)
    requires Shape(fs) && i < |fs.inodes|
  {
    Mapped(Table(fs)[i], 0, Sizes(fs)[i])
  }

  lemma MappedJoin(row: seq<nat>, from: nat, size: nat, to: nat)
    requires Mapped(row, 0, size) && Mapped(row, from, to) && from <= size
    ensures Mapped(row, 0, if size < to then to else size)
  {
  }

  // ---------- The log space of one writei ----------

  /** The blocks that bytes `off`..`off + n` fall in. */
  function Span(off: nat, n: nat): nat { if n == 0 then 0 else BlockOf(off + n - 1) - BlockOf(off) + 1 }

  /** `extra` is what the pieces of the data have logged so far: a block and at most one bitmap block
      each, and no bitmap block for a partly written first block. */
  ghost predicate Spent(st0: State, st: State, i: nat, off: nat, n: nat, extra: set<nat>) {
    && Shape(st.fs) && i < |st.fs.inodes|
    && st.logged <= st0.logged + extra + Indirect(st.fs, i)
    && AboveLog(st.fs.sb, extra) && |extra| <= 2 * Span(off, n)
    && (n > 0 && OffsetIn(off) != 0 ==> |extra| < 2 * Span(off, n))
  }

  lemma SpentStarts(st: State, i: nat, off: nat)
    requires Shape(st.fs) && i < |st.fs.inodes|
    ensures Spent(st, st, i, off, 0, {})
  {
  }

  /** A slot once filled stays filled, so the indirect block once charged stays charged. */
  lemma IndirectStays(f: Fs, g: Fs, i: nat)
    requires Shape(f) && Shape(g) && f.sb == g.sb && i < |f.inodes| && i < |g.inodes| && Grew(Table(f), Table(g), i)
    ensures Indirect(f, i) <= Indirect(g, i)
  {
    hide Shape;
  }

  lemma SpanGrows(off: nat, n: nat, m: nat)
    requires 0 < m && OffsetIn(off + n) + m <= BSIZE && (n == 0 || OffsetIn(off + n) == 0)
    ensures Span(off, n + m) == Span(off, n) + 1
  {
  }

  /** Mapping and logging one more block. */
  lemma SpentMore(st0: State, st: State, i: nat, off: nat, n: nat, extra: set<nat>, r: Outcome<nat>, st': State, m: nat)
    requires Spent(st0, st, i, off, n, extra) && Sound(st.fs) && r.Ok? && r == Bmap(st, i, BlockOf(off + n))
    requires Shape(st'.fs) && |st'.fs.inodes| == |st.fs.inodes| && st'.fs.sb == st.fs.sb
    requires Table(st'.fs) == Table(r.st.fs) && st'.logged <= r.st.logged + {r.value}
    requires 0 < m && OffsetIn(off + n) + m <= BSIZE && (n == 0 || OffsetIn(off + n) == 0)
    requires off + n < MAXBYTES
    requires n == 0 && OffsetIn(off) != 0 ==> Table(st.fs)[i][SlotOf(BlockOf(off))] != 0
    ensures Spent(st0, st', i, off, n + m, extra + {r.value} + Fresh(st.fs, i, BlockOf(off + n), r.value))
  {
    hide Shape, Sound, Bmap, Files, Sizes, Grew, Table, Span, AboveLog;
    BmapKeeps(st, i, BlockOf(off + n), r);
    SpanGrows(off, n, m);
    IndirectStays(st.fs, r.st.fs, i);
    var f, bit := Fresh(st.fs, i, BlockOf(off + n), r.value), st.fs.sb.BBlock(r.value);
    SlotAbove(r.st.fs, i, SlotOf(BlockOf(off + n)));
    AboveJoin(st.fs.sb, extra, {r.value, bit}, extra + {r.value} + f);
    TwoMore(extra, r.value, bit, f);
  }

  lemma TwoMore(extra: set<nat>, b: nat, bit: nat, f: set<nat>)
    requires f == {} || f == {b, bit}
    ensures |extra + {b} + f| <= |extra| + (if f == {} then 1 else 2)
  {
    assert extra + {b} + f == extra + ({b} + f);
    CardBound(extra, {b} + f);
    if f == {} { assert {b} + f == {b}; } else { assert {b} + f == {b, bit}; }
  }

  lemma CardBound(s: set<nat>, t: set<nat>)
    ensures |s + t| <= |s| + |t|
  {
    assert s + t == s + (t - s);
    Fewer(t - s, t);
  }

  /** From having logged `was`, an operation logged `early` and then the inode's block `last`: at most
      MAXOPBLOCKS blocks more, so fewer before it came to the last. */
  ghost predicate Charged(sb: Super, was: set<nat>, early: set<nat>, now: set<nat>, last: nat) {
    && now == early + {last} && AboveLog(sb, now - was)
    && |now - was| <= Log.MAXOPBLOCKS && |early - was| < Log.MAXOPBLOCKS
  }

  /** A chunk of at most three blocks' worth of bytes logs at most MAXOPBLOCKS blocks. */
  lemma LogBound(st0: State, st: State, i: nat, off: nat, n: nat, extra: set<nat>, logged: set<nat>)
    requires Spent(st0, st, i, off, n, extra) && n <= 3072 && Sound(st.fs)
    requires logged == st.logged + {st.fs.sb.IBlock(i)}
    ensures Charged(st.fs.sb, st0.logged, st.logged, logged, st.fs.sb.IBlock(i))
  {
    hide Shape, AboveLog, Sound;
    LogAbove(st0, st, i, off, n, extra);
    assert |Indirect(st.fs, i)| <= 2;
    Tally(st0.logged, st.logged, extra, Indirect(st.fs, i), st.fs.sb.IBlock(i));
  }

  lemma Tally(was: set<nat>, now: set<nat>, extra: set<nat>, more: set<nat>, last: nat)
    requires now <= was + extra + more
    ensures |now - was| <= |extra| + |more| && |now + {last} - was| <= |extra| + |more| + 1
  {
    CardBound(extra, more);
    Fewer(now - was, extra + more);
    CardBound(extra + more, {last});
    Fewer(now + {last} - was, extra + more + {last});
  }

  lemma LogAbove(st0: State, st: State, i: nat, off: nat, n: nat, extra: set<nat>)
    requires Spent(st0, st, i, off, n, extra) && Sound(st.fs)
    ensures AboveLog(st.fs.sb, st.logged + {st.fs.sb.IBlock(i)} - st0.logged)
  {
    hide Sound, Span;
    if Table(st.fs)[i][NDIRECT] != 0 { SlotAbove(st.fs, i, NDIRECT); }
  }

  /** One transaction of filewrite: it takes the file system from one state to another, and logs `early`
      before the inode's block. */
  datatype Chunk = Chunk(from: State, early: set<nat>, to: State)

  /** It stays within the reservation of one operation, and below it until the last block. */
  ghost predicate Fits(sb: Super, c: Chunk, last: nat) {
    && |c.early| < Log.MAXOPBLOCKS && |c.to.logged| <= Log.MAXOPBLOCKS
    && AboveLog(sb, c.to.logged) && (c.to.logged == c.early || c.to.logged == c.early + {last})
  }

  lemma ChunkFits(sb: Super, c: Chunk, last: nat)
    requires c.early == c.to.logged == {} || Charged(sb, {}, c.early, c.to.logged, last)
    ensures Fits(sb, c, last)
  {
    assert c.early - {} == c.early && c.to.logged - {} == c.to.logged;
  }

  /** The state after the first `k` transactions. */
  function Reached(st0: State, cs: seq<Chunk>, k: nat): State
    requires k <= |cs|
  {
    if k == 0 then st0 else cs[k - 1].to
  }

  /** The transactions follow on one another, and each logs all that it changes. */
  ghost predicate Follows(st0: State, cs: seq<Chunk>) {
    forall k :: 0 <= k < |cs| ==>
      && cs[k].from == Reached(st0, cs, k).(logged := {})
      && Recorded(cs[k].from, cs[k].to)
  }

  lemma FollowsNone(st0: State)
    ensures Follows(st0, [])
  {
  }

  lemma ReachedNone(st0: State, cs: seq<Chunk>)
    ensures Reached(st0, cs, 0) == st0
  {
  }

  /** Transaction `k` goes from one state reached to the next. */
  lemma FollowsAt(st0: State, cs: seq<Chunk>, k: nat)
    requires Follows(st0, cs) && k < |cs|
    ensures cs[k].from.fs == Reached(st0, cs, k).fs && cs[k].to == Reached(st0, cs, k + 1)
    ensures Recorded(cs[k].from, cs[k].to)
  {
  }

  lemma FollowsMore(st0: State, cs: seq<Chunk>, c: Chunk)
    requires Follows(st0, cs) && c.from == Reached(st0, cs, |cs|).(logged := {}) && Recorded(c.from, c.to)
    ensures Follows(st0, cs + [c])
  {
    hide Recorded;
    forall k | 0 <= k < |cs + [c]|
      ensures (cs + [c])[k].from == Reached(st0, cs + [c], k).(logged := {})
              && Recorded((cs + [c])[k].from, (cs + [c])[k].to) {
      assert Reached(st0, cs + [c], k) == Reached(st0, cs, k);
    }
  }

  /** The transactions `cs` have led from `st0` to `st`, and left no holes in a file that had none, each within
      the reservation of one operation. */
  ghost predicate Led(st0: State, st: State, cs: seq<Chunk>, i: nat)
    requires Shape(st0.fs) && Shape(st.fs) && i < |st0.fs.inodes| && i < |st.fs.inodes|
  {
    && Follows(st0, cs) && st == Reached(st0, cs, |cs|)
    && (NoHoles(st0.fs, i) ==>
          NoHoles(st.fs, i) && forall k :: 0 <= k < |cs| ==> Fits(st0.fs.sb, cs[k], st0.fs.sb.IBlock(i)))
  }

  lemma LedNone(st: State, i: nat)
    requires Shape(st.fs) && i < |st.fs.inodes|
    ensures Led(st, st, [], i)
  {
    hide Shape, NoHoles;
  }

  lemma LedMore(st0: State, st: State, cs: seq<Chunk>, i: nat, c: Chunk)
    requires Shape(st0.fs) && Shape(st.fs) && Shape(c.to.fs) && i < |st0.fs.inodes| && i < |st.fs.inodes|
    requires i < |c.to.fs.inodes| && Led(st0, st, cs, i) && c.from == st.(logged := {}) && Recorded(c.from, c.to)
    requires NoHoles(st.fs, i) ==>
             && NoHoles(c.to.fs, i)
             && (c.early == c.to.logged == {} || Charged(st0.fs.sb, {}, c.early, c.to.logged, st0.fs.sb.IBlock(i)))
    ensures Led(st0, c.to, cs + [c], i)
  {
    hide Shape, NoHoles, Recorded, Charged, Fits, Follows;
    FollowsMore(st0, cs, c);
    if NoHoles(st.fs, i) { ChunkFits(st0.fs.sb, c, st0.fs.sb.IBlock(i)); }
  }

  lemma LedIs(st0: State, st: State, cs: seq<Chunk>, i: nat)
    requires Shape(st0.fs) && Shape(st.fs) && i < |st0.fs.inodes| && i < |st.fs.inodes| && Led(st0, st, cs, i)
    ensures Follows(st0, cs) && st == Reached(st0, cs, |cs|)
    ensures NoHoles(st0.fs, i) ==>
            NoHoles(st.fs, i) && forall k :: 0 <= k < |cs| ==> Fits(st0.fs.sb, cs[k], st0.fs.sb.IBlock(i))
  {
  }

  /** A file without holes has the block of an unaligned offset mapped, as long as the offset is not
      past the end. */
  lemma FirstMapped(st0: State, st: State, i: nat, off: nat)
    requires Writing(st0, st, i, off, []) && NoHoles(st0.fs, i) && off <= Sizes(st0.fs)[i] && OffsetIn(off) != 0
    requires off < MAXBYTES
    ensures BlockOf(off) < MAXFILE && Table(st.fs)[i][SlotOf(BlockOf(off))] != 0
  {
    hide Shape, Sound, Files;
  }

  /** One round of the loop, in which the block of the next piece is mapped and perhaps written. */
  lemma RoundSpent(st0: State, st: State, i: nat, off: nat, data: seq<byte>, extra: set<nat>, r: Outcome<nat>,
                   st': State, m: nat)
    requires Writing(st0, st, i, off, data) && Sound(st.fs) && off + |data| < MAXBYTES
    requires NoHoles(st0.fs, i) && off <= Sizes(st0.fs)[i] && Spent(st0, st, i, off, |data|, extra)
    requires r == Bmap(st, i, BlockOf(off + |data|)) && r.Ok? && Shape(st'.fs) && Shape(r.st.fs)
    requires |st'.fs.inodes| == |st.fs.inodes| && st'.fs.sb == st.fs.sb
    requires Table(st'.fs) == Table(r.st.fs) && st'.logged <= r.st.logged + {r.value}
    requires 0 < m && OffsetIn(off + |data|) + m <= BSIZE && (|data| == 0 || OffsetIn(off + |data|) == 0)
    ensures BlockOf(off + |data|) < MAXFILE
    ensures Spent(st0, st', i, off, |data| + m, extra + {r.value} + Fresh(st.fs, i, BlockOf(off + |data|), r.value))
  {
    hide Shape, Sound, Bmap, Files, Sizes, Grew, Table, Span, Mapped, Spent, NoHoles;
    if |data| == 0 && OffsetIn(off) != 0 {
      assert data == [];
      FirstMapped(st0, st, i, off);
    }
    SpentMore(st0, st, i, off, |data|, extra, r, st', m);
  }

  // ---------- One round of the loop ----------

  /** The loop has written `data` and attempted `reach` bytes; it has logged every block it changed, and with
      the file free of holes `extra` bounds what it logged. */
  ghost predicate Sofar(st0: State, st: State, i: nat, off: nat, data: seq<byte>, reach: nat, extra: set<nat>) {
    && Writing(st0, st, i, off, data) && Recorded(st0, st)
    && (NoHoles(st0.fs, i) && off <= Sizes(st0.fs)[i] ==> Spent(st0, st, i, off, reach, extra))
  }

  lemma SofarStarts(st: State, i: nat, off: nat)
    requires Shape(st.fs) && Sound(st.fs) && i < |st.fs.inodes| && off <= MAXBYTES
    ensures Sofar(st, st, i, off, [], 0, {})
  {
    hide Writing, Recorded, Spent, NoHoles;
    WritingStarts(st, i, off);
    RecordedSelf(st);
    SpentStarts(st, i, off);
  }

  lemma SofarIs(st0: State, st: State, i: nat, off: nat, data: seq<byte>, reach: nat, extra: set<nat>)
    requires Sofar(st0, st, i, off, data, reach, extra)
    ensures Writing(st0, st, i, off, data) && Recorded(st0, st)
    ensures NoHoles(st0.fs, i) && off <= Sizes(st0.fs)[i] ==> Spent(st0, st, i, off, reach, extra)
  {
  }

  /** Mapping the next block: `m` more bytes are attempted. */
  lemma RoundMaps(st0: State, st: State, i: nat, off: nat, data: seq<byte>, extra: set<nat>, r: Outcome<nat>, m: nat)
    requires Sofar(st0, st, i, off, data, |data|, extra) && off + |data| < MAXBYTES
    requires r == Bmap(st, i, BlockOf(off + |data|)) && r.Ok?
    requires 0 < m && OffsetIn(off + |data|) + m <= BSIZE && (|data| == 0 || OffsetIn(off + |data|) == 0)
    ensures BlockOf(off + |data|) < MAXFILE && Shape(st.fs) && i < |st.fs.inodes|
    ensures Shape(r.st.fs) && Sound(r.st.fs) && i < |r.st.fs.inodes|
    ensures r.value == At(r.st.fs, i, SlotOf(BlockOf(off + |data|))) && 0 < r.value < |r.st.fs.blocks|
    ensures Full(r.st.fs.blocks[r.value])
    ensures Sofar(st0, r.st, i, off, data, |data| + m,
                  extra + {r.value} + Fresh(st.fs, i, BlockOf(off + |data|), r.value))
  {
    hide Sound, Bmap, Files, Grew, Mapped, WithData, Spent, Recorded, NoHoles, Full, At, Table, Fresh;
    WritingReady(st0, st, i, off, data, r);
    BmapRecorded(st, i, BlockOf(off + |data|));
    RecordedTrans(st0, st, r.st);
    if NoHoles(st0.fs, i) && off <= Sizes(st0.fs)[i] { RoundSpent(st0, st, i, off, data, extra, r, r.st, m); }
  }

  /** Copying into the block and logging it. */
  lemma RoundPuts(st0: State, st: State, i: nat, off: nat, data: seq<byte>, piece: seq<byte>, reach: nat,
                  extra: set<nat>, st': State)
    requires Sofar(st0, st, i, off, data, reach, extra) && 0 < |piece|
    requires off + |data| + |piece| <= MAXBYTES && OffsetIn(off + |data|) + |piece| <= BSIZE
    requires 0 < At(st.fs, i, SlotOf(BlockOf(off + |data|))) < |st.fs.blocks|
    requires At(st.fs, i, SlotOf(BlockOf(off + |data|))) in extra
    requires st' == Put(st, i, BlockOf(off + |data|), OffsetIn(off + |data|), piece)
    ensures Shape(st'.fs) && Sound(st'.fs) && |st'.fs.inodes| == |st.fs.inodes|
    ensures Sofar(st0, st', i, off, data + piece, reach, extra)
  {
    hide Sound, Shape, Files, Grew, Mapped, WithData, Recorded, NoHoles, Full, At, Table, Patched;
    WritingPuts(st0, st, i, off, data, piece, st');
    RecordedPut(st, st', At(st.fs, i, SlotOf(BlockOf(off + |data|))));
    RecordedTrans(st0, st, st');
  }

  // ---------- A copy that fails in the middle of a block ----------

  /** The disk block that byte `pos` of file `i` is in. */
  function Home(st: State, i: nat, pos: nat): nat
    requires Shape(st.fs) && i < |st.fs.inodes| && pos < MAXBYTES
  {
    At(st.fs, i, SlotOf(BlockOf(pos)))
  }

  /** The bytes `tail` are in the buffer at byte `pos` of file `i`, and the buffer is not logged for them. */
  ghost predicate Spilled(st: State, st': State, i: nat, pos: nat, tail: seq<byte>) {
    if tail == [] then st' == st
    else
      && Shape(st.fs) && i < |st.fs.inodes| && pos < MAXBYTES && OffsetIn(pos) + |tail| <= BSIZE
      && var a := Home(st, i, pos);
         && 0 < a < |st.fs.blocks|
         && st' == st.(fs := Store(st.fs, a, Patched(st.fs.blocks[a], OffsetIn(pos), tail)))
  }

  /** Readers of the buffer see them in the file; sizes, slots and the log are as they were. */
  lemma SpilledKeeps(st: State, st': State, i: nat, pos: nat, tail: seq<byte>)
    requires Spilled(st, st', i, pos, tail) && Shape(st.fs) && Sound(st.fs) && i < |st.fs.inodes|
             && pos + |tail| <= MAXBYTES
    ensures Shape(st'.fs) && Sound(st'.fs) && Table(st'.fs) == Table(st.fs) && Sizes(st'.fs) == Sizes(st.fs)
    ensures Files(st'.fs) == WithData(Files(st.fs), i, pos, tail) && NoHoles(st'.fs, i) == NoHoles(st.fs, i)
    ensures st'.fs.inodes == st.fs.inodes && st'.dinodes == st.dinodes && st'.logged == st.logged
  {
    hide Shape, Sound, Files, Table, Patched;
    if tail == [] {
      WithNoData(Files(st.fs), i, pos);
    } else {
      Within(pos);
      PutKeeps(st, i, BlockOf(pos), OffsetIn(pos), tail, st'.(logged := st.logged + {Home(st, i, pos)}));
    }
  }

  lemma Within(pos: nat)
    requires pos < MAXBYTES
    ensures BlockOf(pos) < MAXFILE && 1024 * BlockOf(pos) + OffsetIn(pos) == pos
  {
  }

  /** Writing the inode back does not touch the buffer. */
  lemma SpilledFinish(st: State, st': State, i: nat, pos: nat, tail: seq<byte>, end: nat)
    requires Spilled(st, st', i, pos, tail) && i < |st.fs.inodes| && i < |st.dinodes|
    ensures i < |st'.fs.inodes| && i < |st'.dinodes| && Spilled(Finish(st, i, end), Finish(st', i, end), i, pos, tail)
  {
    hide Patched;
  }

  /** Then every change is logged if and only if there is no such change: nothing was copied, or what was
      there already, or into a block that the operation has logged. */
  lemma SpilledRecorded(st0: State, st: State, st': State, i: nat, pos: nat, tail: seq<byte>)
    requires Recorded(st0, st) && Spilled(st, st', i, pos, tail) && tail != []
    ensures var a := Home(st, i, pos);
            Recorded(st0, st') <==> a in st.logged || st'.fs.blocks[a] == st.fs.blocks[a]
  {
    hide Patched;
  }

  /** One byte of two, copied over another byte in a block that has not been logged. */
  lemma SpilledExample(st: State, st': State, i: nat, x: byte)
    requires Shape(st.fs) && i < |st.fs.inodes| && st.logged == {} && 0 < Home(st, i, 0) < |st.fs.blocks|
    requires Spilled(st, st', i, 0, [x]) && st.fs.blocks[Home(st, i, 0)].bytes[0] != x
    ensures !Recorded(st, st')
  {
    RecordedSelf(st);
    var a := Home(st, i, 0);
    assert st'.fs.blocks[a].bytes[0] == x;
    SpilledRecorded(st, st, st', i, 0, [x]);
  }

  // ---------- The end of writei ----------

  function Max(a: nat, b: nat): nat { if a < b then b else a }

  /** The size raised to `end`, and the inode written back. */
  function Finish(st: State, i: nat, end: nat): State
    requires i < |st.fs.inodes| && i < |st.dinodes|
  {
    var ino := st.fs.inodes[i].(size := Max(st.fs.inodes[i].size, end));
    st.(fs := st.fs.(inodes := st.fs.inodes[i := ino]), dinodes := st.dinodes[i := ino],
        logged := st.logged + {st.fs.sb.IBlock(i)})
  }

  /** Slots, files and the bitmap do not depend on sizes. */
  lemma SizeSlots(f: Fs, owner: map<nat, Slot>, i: nat, size: nat, g: Fs)
    requires Shape(f) && Slots(f, owner) && i < |f.inodes|
             && g == f.(inodes := f.inodes[i := f.inodes[i].(size := size)])
    ensures Shape(g) && Slots(g, owner) && Files(g) == Files(f) && Table(g) == Table(f)
            && Sizes(g) == Sizes(f)[i := size]
  {
    assert forall j, t :: 0 <= j < |f.inodes| && 0 <= t < NSLOTS ==> At(g, j, t) == At(f, j, t);
    assert SameFiles(f, g);
    SameFilesIs(f, g);
    TableIs(g, Table(f));
  }

  lemma SizeFrame(f: Fs, owner: map<nat, Slot>, i: nat, size: nat, g: Fs)
    requires Shape(f) && Owned(f, owner) && i < |f.inodes|
             && g == f.(inodes := f.inodes[i := f.inodes[i].(size := size)])
    ensures Shape(g) && Owned(g, owner) && Files(g) == Files(f) && Table(g) == Table(f)
            && Sizes(g) == Sizes(f)[i := size]
  {
    hide Slots, Files, Table;
    SizeSlots(f, owner, i, size, g);
    assert forall b :: 0 <= b < f.sb.size ==> Used(f, b) == Used(g, b);
  }

  lemma FinishKeeps(st: State, i: nat, end: nat, st': State)
    requires Sound(st.fs) && Shape(st.fs) && i < |st.fs.inodes| && i < |st.dinodes| && st' == Finish(st, i, end)
    ensures Shape(st'.fs) && Sound(st'.fs) && Files(st'.fs) == Files(st.fs) && Table(st'.fs) == Table(st.fs)
    ensures Sizes(st'.fs) == Sizes(st.fs)[i := Max(Sizes(st.fs)[i], end)]
  {
    hide Shape, Owned, Files, Table;
    var owner :| Owned(st.fs, owner);
    SizeFrame(st.fs, owner, i, Max(st.fs.inodes[i].size, end), st'.fs);
  }

  /** What a writei that copied `data` has done. */
  ghost predicate Wrote(st0: State, st: State, i: nat, off: nat, data: seq<byte>) {
    && Shape(st0.fs) && Shape(st.fs) && Sound(st.fs) && st.fs.sb == st0.fs.sb
    && i < |st0.fs.inodes| && |st.fs.inodes| == |st0.fs.inodes| && off + |data| <= MAXBYTES
    && Files(st.fs) == WithData(Files(st0.fs), i, off, data)
    && Sizes(st.fs) == Sizes(st0.fs)[i := Max(Sizes(st0.fs)[i], off + |data|)]
    && Grew(Table(st0.fs), Table(st.fs), i)
    && |st.dinodes| == |st0.dinodes| && i < |st.dinodes|
    && st.dinodes == st0.dinodes[i := st.fs.inodes[i]]
  }

  lemma WritingEnds(st0: State, st: State, i: nat, off: nat, data: seq<byte>, st': State)
    requires Writing(st0, st, i, off, data) && i < |st.dinodes| && st' == Finish(st, i, off + |data|)
    ensures Wrote(st0, st', i, off, data)
    ensures off <= Sizes(st0.fs)[i] && NoHoles(st0.fs, i) ==> NoHoles(st'.fs, i)
  {
    hide Shape, Sound, Files, Table, Mapped;
    FinishKeeps(st, i, off + |data|, st');
    if off <= Sizes(st0.fs)[i] && NoHoles(st0.fs, i) {
      GrewMapped(Table(st0.fs), Table(st.fs), i, 0, Sizes(st0.fs)[i]);
      MappedJoin(Table(st.fs)[i], off, Sizes(st0.fs)[i], off + |data|);
    }
  }

  /** Holes appear in no other file. */
  lemma OthersNoHoles(st0: State, st: State, i: nat, off: nat, data: seq<byte>, j: nat)
    requires Wrote(st0, st, i, off, data) && j < |st0.fs.inodes| && j != i && NoHoles(st0.fs, j)
    ensures NoHoles(st.fs, j)
  {
    hide Shape, Sound, Files, Mapped;
  }

  lemma MaxTwice(sizes: seq<nat>, i: nat, a: nat, b: nat)
    requires i < |sizes| && a <= b
    ensures sizes[i := Max(sizes[i], a)][i := Max(sizes[i := Max(sizes[i], a)][i], b)] == sizes[i := Max(sizes[i], b)]
  {
  }

  /** Two writes, the second where the first ended, are one write of both. */
  lemma WroteTwice(st0: State, st1: State, st2: State, i: nat, off: nat, d: seq<byte>, e: seq<byte>)
    requires Wrote(st0, st1, i, off, d) && Wrote(st1, st2, i, off + |d|, e)
    ensures Wrote(st0, st2, i, off, d + e)
  {
    hide Shape, Sound, Files, Table, Grew, WithData;
    GrewTrans(Table(st0.fs), Table(st1.fs), Table(st2.fs), i);
    assert WithData(WithData(Files(st0.fs), i, off, d), i, off + |d|, e) == WithData(Files(st0.fs), i, off, d + e) by {
      WithDataTwice(Files(st0.fs), i, off, d, e);
    }
    MaxTwice(Sizes(st0.fs), i, off + |d|, off + |d| + |e|);
  }

  /** What the chunks of a longer write have done so far. */
  ghost predicate Chunked(st0: State, st: State, i: nat, off: nat, data: seq<byte>) {
    if data == [] then st.fs == st0.fs && st.dinodes == st0.dinodes else Wrote(st0, st, i, off, data)
  }

  lemma ChunkedNone(st: State, i: nat, off: nat)
    ensures Chunked(st, st, i, off, [])
  {
  }

  lemma ChunkedSame(st0: State, st: State, st': State, i: nat, off: nat, data: seq<byte>)
    requires Chunked(st0, st, i, off, data) && st'.fs == st.fs && st'.dinodes == st.dinodes
    ensures Chunked(st0, st', i, off, data)
  {
  }

  lemma ChunkedIs(st0: State, st: State, i: nat, off: nat, data: seq<byte>)
    requires Chunked(st0, st, i, off, data) && Shape(st0.fs) && i < |st0.fs.inodes|
    ensures data == [] ==> st.fs == st0.fs
    ensures data != [] ==>
            && Wrote(st0, st, i, off, data) && i < |st.fs.inodes| && off + |data| <= MAXBYTES
            && (off <= st0.fs.inodes[i].size ==> off + |data| <= st.fs.inodes[i].size)
  {
    hide Shape, Files, Table, Grew, WithData;
    if data != [] { assert Sizes(st.fs)[i] == Max(Sizes(st0.fs)[i], off + |data|); }
  }

  lemma ChunkedMore(st0: State, st1: State, st2: State, i: nat, off: nat, src: seq<byte>, w: nat, v: nat)
    requires w + v <= |src| && Chunked(st0, st1, i, off, src[..w]) && Wrote(st1, st2, i, off + w, src[w..][..v])
    requires i < |st0.fs.inodes| && off <= st0.fs.inodes[i].size
    ensures w + v > 0 ==> Wrote(st0, st2, i, off, src[..w + v]) && Chunked(st0, st2, i, off, src[..w + v])
    ensures w + v == 0 ==> Shape(st0.fs) && Files(st2.fs) == Files(st0.fs) && Sizes(st2.fs) == Sizes(st0.fs)
  {
    hide Shape, Sound, Files, Table, Grew, WithData;
    assert src[..w] + src[w..][..v] == src[..w + v];
    if w == 0 {
      assert src[w..][..v] == src[..v];
      assert w + v == 0 ==> WithData(Files(st0.fs), i, off, []) == Files(st0.fs) by {
        if w + v == 0 { WithNoData(Files(st0.fs), i, off); }
      }
    } else {
      WroteTwice(st0, st1, st2, i, off, src[..w], src[w..][..v]);
    }
  }

  // ---------- Files as byte strings ----------

  lemma ContentIs(fs: Fs, i: nat, s: seq<byte>)
    requires Shape(fs) && i < |fs.inodes| && |s| == Sizes(fs)[i]
    requires forall k :: 0 <= k < |s| ==> s[k] == if k < MAXBYTES then Files(fs)[i][k] else 0
    ensures Content(fs, i) == s
  {
    forall k | 0 <= k < |s| ensures Content(fs, i)[k] == s[k] {
      if k < MAXBYTES { assert Files(fs)[i][k] == ByteAt(fs, i, k); }
    }
  }

  lemma ContentAt(fs: Fs, i: nat, k: nat)
    requires Shape(fs) && i < |fs.inodes| && k < Sizes(fs)[i]
    ensures |Content(fs, i)| == Sizes(fs)[i] && Content(fs, i)[k] == if k < MAXBYTES then Files(fs)[i][k] else 0
  {
    if k < MAXBYTES { assert Files(fs)[i][k] == ByteAt(fs, i, k); }
  }

  /** A byte string after writing `data` at `off`, growing if need be. */
  function Overwritten(s: seq<byte>, off: nat, data: seq<byte>): seq<byte>
    requires off <= |s|
  {
    if off + |data| <= |s| then s[..off] + data + s[off + |data|..] else s[..off] + data
  }

  /** Files, seen as byte strings, after bytes were written over one of them. */
  lemma DataContent(f: Fs, g: Fs, i: nat, off: nat, data: seq<byte>, j: nat)
    requires Shape(f) && Shape(g) && i < |f.inodes| && j < |f.inodes| == |g.inodes| && off <= f.inodes[i].size
    requires off + |data| <= MAXBYTES && Files(g) == WithData(Files(f), i, off, data)
    requires Sizes(g) == Sizes(f)[i := Max(Sizes(f)[i], off + |data|)]
    ensures Content(g, j) == if j == i then Overwritten(Content(f, i), off, data) else Content(f, j)
  {
    hide Shape, Files, ByteAt;
    var s := if j == i then Overwritten(Content(f, i), off, data) else Content(f, j);
    forall k | 0 <= k < |s| ensures s[k] == if k < MAXBYTES then Files(g)[j][k] else 0 {
      if k < Sizes(f)[j] { ContentAt(f, j, k); }
    }
    ContentIs(g, j, s);
  }

  /** writei on files as byte strings: this file is overwritten in place, no other file changes. */
  lemma WroteContent(st0: State, st: State, i: nat, off: nat, data: seq<byte>, j: nat)
    requires Wrote(st0, st, i, off, data) && j < |st0.fs.inodes| && off <= st0.fs.inodes[i].size
    ensures Content(st.fs, j) ==
            if j == i then Overwritten(Content(st0.fs, i), off, data) else Content(st0.fs, j)
  {
    hide Shape, Sound, Files, Table, Grew, Content, Overwritten, WithData;
    DataContent(st0.fs, st.fs, i, off, data, j);
  }

  // ---------- readi ----------

  /** The bytes of a mapped block are that part of the file. */
  lemma ReadPiece(fs: Fs, i: nat, pos: nat, m: nat)
    requires Shape(fs) && i < |fs.inodes| && pos + m <= MAXBYTES && 0 < m && OffsetIn(pos) + m <= BSIZE
    requires 0 < At(fs, i, SlotOf(BlockOf(pos))) < |fs.blocks|
    ensures fs.blocks[At(fs, i, SlotOf(BlockOf(pos)))].bytes[OffsetIn(pos)..OffsetIn(pos) + m] ==
            Files(fs)[i][pos..pos + m]
  {
    var there := fs.blocks[At(fs, i, SlotOf(BlockOf(pos)))].bytes[OffsetIn(pos)..OffsetIn(pos) + m];
    var here := Files(fs)[i][pos..pos + m];
    forall k | 0 <= k < m ensures there[k] == here[k] {
      assert BlockOf(pos + k) == BlockOf(pos) && OffsetIn(pos + k) == OffsetIn(pos) + k;
      assert Files(fs)[i][pos + k] == ByteAt(fs, i, pos + k);
    }
  }

  /** A slice of a file is that slice of its bytes. */
  lemma ContentSlice(fs: Fs, i: nat, off: nat, n: nat)
    requires Shape(fs) && i < |fs.inodes| && off + n <= fs.inodes[i].size && off + n <= MAXBYTES
    ensures Content(fs, i)[off..off + n] == Files(fs)[i][off..off + n]
  {
    var s, t := Content(fs, i)[off..off + n], Files(fs)[i][off..off + n];
    forall k | 0 <= k < n ensures s[k] == t[k] {
      ContentAt(fs, i, off + k);
    }
  }

  /** Keeping every file and size keeps every content. */
  lemma KeptContent(st: State, st': State, i: nat, j: nat)
    requires Kept(st, st', i) && j < |st.fs.inodes|
    ensures |st'.fs.inodes| == |st.fs.inodes| && Content(st'.fs, j) == Content(st.fs, j)
  {
    hide Shape, Sound, Files, Table, Grew, ByteAt;
    assert |Sizes(st.fs)| == |st.fs.inodes| && |Sizes(st'.fs)| == |st'.fs.inodes|;
    forall k | 0 <= k < |Content(st.fs, j)|
      ensures Content(st.fs, j)[k] == if k < MAXBYTES then Files(st'.fs)[j][k] else 0 {
      ContentAt(st.fs, j, k);
    }
    ContentIs(st'.fs, j, Content(st.fs, j));
  }

  /** One round of readi: the piece copied out is that part of the file as it was at the start, and a
      file without holes is left as it is. */
  lemma ReadRound(st0: State, st: State, i: nat, pos: nat, m: nat, r: Outcome<nat>)
    requires Kept(st0, st, i) && i < |st.fs.inodes| && Sound(st.fs) && r == Bmap(st, i, BlockOf(pos)) && r.Ok?
    requires 0 < m && OffsetIn(pos) + m <= BSIZE && i < |st0.fs.inodes| && pos + m <= st0.fs.inodes[i].size
    ensures Kept(st0, r.st, i) && Shape(r.st.fs) && r.value < |r.st.fs.blocks| && Full(r.st.fs.blocks[r.value])
    ensures r.st.fs.blocks[r.value].bytes[OffsetIn(pos)..OffsetIn(pos) + m] == Content(st0.fs, i)[pos..pos + m]
    ensures NoHoles(st0.fs, i) && st == st0 ==> r.st == st0
  {
    hide Sound, Bmap, Files, Grew, Content, Mapped;
    BmapKeeps(st, i, BlockOf(pos), r);
    KeptTrans(st0, st, r.st, i);
    InRange(r.st.fs, i, SlotOf(BlockOf(pos)));
    ReadPiece(r.st.fs, i, pos, m);
    ContentSlice(st0.fs, i, pos, m);
    if NoHoles(st0.fs, i) { BelowSize(st0.fs, i, pos); }
  }

  lemma BelowSize(fs: Fs, i: nat, pos: nat)
    requires Shape(fs) && i < |fs.inodes| && NoHoles(fs, i) && pos < fs.inodes[i].size && BlockOf(pos) < MAXFILE
    ensures Table(fs)[i][SlotOf(BlockOf(pos))] != 0
  {
  }

  /** Below the size of a file without holes, mapping a block never has to allocate. */
  lemma NeverStops(st: State, i: nat, pos: nat)
    requires Shape(st.fs) && i < |st.fs.inodes| && pos < st.fs.inodes[i].size <= MAXBYTES
    ensures BlockOf(pos) < MAXFILE && (NoHoles(st.fs, i) ==> Bmap(st, i, BlockOf(pos)).Ok?)
  {
    if NoHoles(st.fs, i) { BelowSize(st.fs, i, pos); }
  }

  // ---------- itrunc ----------

  /** `fs` is `fs0` with the blocks in slots `done` of inode `i` unmarked; only the bitmap and inode `i`
      differ. */
  ghost predicate Freeing(fs0: Fs, owner: map<nat, Slot>, fs: Fs, i: nat, done: set<nat>) {
    && Shape(fs0) && Owned(fs0, owner) && Shape(fs) && fs.sb == fs0.sb && i < |fs0.inodes|
    && (forall j :: 0 <= j < |fs0.inodes| && j != i ==> fs.inodes[j] == fs0.inodes[j])
    && (forall b :: fs0.sb.Meta() <= b < fs0.sb.size ==> fs.blocks[b] == fs0.blocks[b])
    && (forall b :: 0 <= b < fs0.sb.size ==>
          (Used(fs, b) <==> b < fs0.sb.Meta() || (b in owner && !(owner[b].inum == i && owner[b].s in done))))
  }

  lemma FreeingStarts(fs: Fs, owner: map<nat, Slot>, i: nat)
    requires Shape(fs) && Owned(fs, owner) && i < |fs.inodes|
    ensures Freeing(fs, owner, fs, i, {})
  {
  }

  /** The block of the next slot is still marked, so freeing it does not panic; after it is unmarked
      the slot is done too. */
  lemma FreeingStep(fs0: Fs, owner: map<nat, Slot>, fs: Fs, i: nat, done: set<nat>, s: nat, b: nat, fs': Fs)
    requires Freeing(fs0, owner, fs, i, done) && s !in done && s < NSLOTS && b == At(fs0, i, s) != 0
    requires b < fs.sb.size && fs' == SetUsed(fs, b, false)
    ensures Used(fs, b) && Freeing(fs0, owner, fs', i, done + {s})
  {
    hide Slots, SetUsed, Used;
    SlotOwned(fs0, owner, i, s);
    Unmark(fs, b, fs');
    forall c | c in owner && c != b ensures owner[c] != Slot(i, s) {
      OwnerInverse(fs0, owner, c);
    }
  }

  lemma Unmark(fs: Fs, b: nat, g: Fs)
    requires Shape(fs) && b < fs.sb.size && g == SetUsed(fs, b, false)
    ensures Shape(g) && g.sb == fs.sb && g.inodes == fs.inodes
    ensures forall c :: fs.sb.Meta() <= c < fs.sb.size ==> g.blocks[c] == fs.blocks[c]
    ensures forall c :: 0 <= c < fs.sb.size ==> Used(g, c) == (c != b && Used(fs, c))
  {
    hide Bit, WithBit;
    BBlockBounds(fs.sb, b);
    forall c | 0 <= c < fs.sb.size ensures Used(g, c) == (c != b && Used(fs, c)) {
      BBlockBounds(fs.sb, c);
      BitAfterWrite(fs.blocks[fs.sb.BBlock(b)], MapBit(b), false, MapBit(c));
      assert c == b <==> MapBlock(c) == MapBlock(b) && MapBit(c) == MapBit(b);
    }
  }

  lemma SlotOwned(fs: Fs, owner: map<nat, Slot>, i: nat, s: nat)
    requires Slots(fs, owner) && i < |fs.inodes| && s < NSLOTS && At(fs, i, s) != 0
    ensures At(fs, i, s) in owner && owner[At(fs, i, s)] == Slot(i, s) && fs.sb.Meta() <= At(fs, i, s) < fs.sb.size
  {
  }

  lemma OwnerInverse(fs: Fs, owner: map<nat, Slot>, b: nat)
    requires Slots(fs, owner) && b in owner
    ensures owner[b].inum < |fs.inodes| && owner[b].s < NSLOTS && At(fs, owner[b].inum, owner[b].s) == b != 0
  {
  }

  /** An empty slot needs no freeing. */
  lemma FreeingSkip(fs0: Fs, owner: map<nat, Slot>, fs: Fs, i: nat, done: set<nat>, s: nat)
    requires Freeing(fs0, owner, fs, i, done) && s < NSLOTS && At(fs0, i, s) == 0
    ensures Freeing(fs0, owner, fs, i, done + {s})
  {
    forall b | b in owner ensures owner[b] != Slot(i, s) {
      OwnerInverse(fs0, owner, b);
    }
  }

  /** Slots `from`..`to`. */
  ghost function Range(from: nat, to: nat): (r: set<nat>)
    ensures forall t :: t in r <==> from <= t < to
  {
    if from >= to then {} else Range(from, to - 1) + {to - 1}
  }

  lemma RangeMore(from: nat, to: nat)
    requires from <= to
    ensures Range(from, to + 1) == Range(from, to) + {to} && Range(from, from) == {}
  {
  }

  /** Freeing the block of a slot not yet done: bfree finds it marked. */
  lemma FreeingFrees(fs0: Fs, owner: map<nat, Slot>, st: State, i: nat, done: set<nat>, s: nat)
    requires Shape(fs0) && Freeing(fs0, owner, st.fs, i, done) && i < |fs0.inodes| && s !in done && s < NSLOTS
             && At(fs0, i, s) != 0
    ensures Shape(st.fs) && At(fs0, i, s) < st.fs.sb.size
    ensures var r := Bfree(st, At(fs0, i, s));
            && r.Ok? && Shape(r.st.fs) && Freeing(fs0, owner, r.st.fs, i, done + {s})
            && r.st.fs.inodes == st.fs.inodes && r.st.dinodes == st.dinodes
  {
    hide Slots, SetUsed, Used;
    SlotOwned(fs0, owner, i, s);
    var b := At(fs0, i, s);
    FreeingStep(fs0, owner, st.fs, i, done, s, b, SetUsed(st.fs, b, false));
    Unmark(st.fs, b, SetUsed(st.fs, b, false));
  }

  /** `addrs` with the first `k` numbers gone. */
  function Cleared(addrs: seq<nat>, k: nat): (r: seq<nat>)
    requires k <= |addrs|
    ensures |r| == |addrs|
  {
    seq(k, _ => 0) + addrs[k..]
  }

  lemma ClearedMore(addrs: seq<nat>, k: nat)
    requires k < |addrs|
    ensures Cleared(addrs, 0) == addrs && Cleared(addrs, k)[k] == addrs[k]
    ensures Cleared(addrs, k + 1) == Cleared(addrs, k)[k := 0]
  {
  }

  /** The inode being truncated may change meanwhile. */
  lemma FreeingInode(fs0: Fs, owner: map<nat, Slot>, fs: Fs, i: nat, done: set<nat>, ino: Inode)
    requires Freeing(fs0, owner, fs, i, done) && |ino.addrs| == NDIRECT + 1
    ensures Freeing(fs0, owner, fs.(inodes := fs.inodes[i := ino]), i, done)
  {
    hide Owned;
    var g := fs.(inodes := fs.inodes[i := ino]);
    assert Shape(g);
    assert forall b :: 0 <= b < fs0.sb.size ==> Used(g, b) == Used(fs, b);
  }

  /** An entry of the indirect block reads the same while the bitmap changes. */
  lemma EntryStays(fs0: Fs, owner: map<nat, Slot>, fs: Fs, i: nat, done: set<nat>, t: nat)
    requires Freeing(fs0, owner, fs, i, done) && NDIRECT < t < NSLOTS && At(fs0, i, NDIRECT) != 0
    ensures At(fs0, i, NDIRECT) < |fs.blocks| && Full(fs.blocks[At(fs0, i, NDIRECT)])
    ensures Word(fs.blocks[At(fs0, i, NDIRECT)], t - NDIRECT - 1) == At(fs0, i, t)
  {
    SlotOwned(fs0, owner, i, NDIRECT);
  }

  /** With no indirect block there is nothing more to free. */
  lemma FreeingRest(fs0: Fs, owner: map<nat, Slot>, fs: Fs, i: nat, done: set<nat>)
    requires Freeing(fs0, owner, fs, i, done) && i < |fs0.inodes| && fs0.inodes[i].addrs[NDIRECT] == 0
    ensures Freeing(fs0, owner, fs, i, done + Range(NDIRECT, NSLOTS))
  {
    hide Slots, Used;
    forall b | b in owner ensures !(owner[b].inum == i && owner[b].s >= NDIRECT) {
      OwnerInverse(fs0, owner, b);
    }
  }

  lemma AllCleared(addrs: seq<nat>)
    requires |addrs| == NDIRECT + 1
    ensures Cleared(addrs, NDIRECT)[NDIRECT] == addrs[NDIRECT]
    ensures Cleared(addrs, NDIRECT)[NDIRECT := 0] == Emptied().addrs
  {
  }

  /** What is left of the owner map when inode `i` has lost every block. */
  ghost function Without(owner: map<nat, Slot>, i: nat): map<nat, Slot> {
    map b | b in owner && owner[b].inum != i :: owner[b]
  }

  function Emptied(): Inode { Inode(0, seq(NDIRECT + 1, _ => 0)) }

  /** Once inode `i` is emptied no slot of it holds a block, and other inodes' slots are as before. */
  lemma EmptiedAt(fs0: Fs, owner: map<nat, Slot>, fs: Fs, i: nat, done: set<nat>, g: Fs, j: nat, t: nat)
    requires Freeing(fs0, owner, fs, i, done) && g == fs.(inodes := fs.inodes[i := Emptied()])
    requires j < |fs0.inodes| && t < NSLOTS
    ensures Shape(g) && At(g, j, t) == if j == i then 0 else At(fs0, j, t)
  {
    hide Slots, Used;
    if j != i && At(fs0, j, NDIRECT) != 0 { SlotOwned(fs0, owner, j, NDIRECT); }
  }

  lemma EmptiedOwner(fs0: Fs, owner: map<nat, Slot>, i: nat, g: Fs)
    requires Slots(fs0, owner) && Shape(g) && g.sb == fs0.sb && |g.inodes| == |fs0.inodes| && i < |fs0.inodes|
    requires forall j, t ::
             0 <= j < |fs0.inodes| && 0 <= t < NSLOTS ==> At(g, j, t) == if j == i then 0 else At(fs0, j, t)
    ensures Slots(g, Without(owner, i))
  {
  }

  lemma EmptiedByte(fs0: Fs, owner: map<nat, Slot>, fs: Fs, i: nat, done: set<nat>, g: Fs, j: nat, k: nat)
    requires Freeing(fs0, owner, fs, i, done) && g == fs.(inodes := fs.inodes[i := Emptied()])
    requires j < |fs0.inodes|
    ensures Shape(g) && ByteAt(g, j, k) == if j == i then 0 else ByteAt(fs0, j, k)
  {
    hide Slots, Used;
    EmptiedAt(fs0, owner, fs, i, done, g, j, 0);
    if BlockOf(k) < MAXFILE {
      var t := SlotOf(BlockOf(k));
      EmptiedAt(fs0, owner, fs, i, done, g, j, t);
      if At(fs0, j, t) != 0 { SlotOwned(fs0, owner, j, t); }
    }
  }

  /** Truncation frees exactly the inode's blocks: ownership holds without them, the file is empty and
      every other file is as it was. */
  lemma Truncated(fs0: Fs, owner: map<nat, Slot>, fs: Fs, i: nat, done: set<nat>, g: Fs)
    requires Freeing(fs0, owner, fs, i, done) && g == fs.(inodes := fs.inodes[i := Emptied()])
    requires forall s :: 0 <= s < NSLOTS ==> s in done
    ensures Shape(g) && Owned(g, Without(owner, i)) && Shape(fs0)
    ensures Table(g) == Table(fs0)[i := seq(NSLOTS, _ => 0)]
    ensures Files(g) == Files(fs0)[i := seq(MAXBYTES, _ => 0)]
    ensures Sizes(g) == Sizes(fs0)[i := 0]
  {
    EmptiedAt(fs0, owner, fs, i, done, g, i, 0);
    TruncatedOwner(fs0, owner, fs, i, done, g);
    TruncatedFiles(fs0, owner, fs, i, done, g);
  }

  lemma TruncatedOwner(fs0: Fs, owner: map<nat, Slot>, fs: Fs, i: nat, done: set<nat>, g: Fs)
    requires Freeing(fs0, owner, fs, i, done) && g == fs.(inodes := fs.inodes[i := Emptied()])
    requires Shape(g) && forall s :: 0 <= s < NSLOTS ==> s in done
    ensures Shape(fs0) && Owned(g, Without(owner, i)) && Table(g) == Table(fs0)[i := seq(NSLOTS, _ => 0)]
  {
    hide Slots, At;
    forall j, t | 0 <= j < |fs0.inodes| && 0 <= t < NSLOTS ensures At(g, j, t) == if j == i then 0 else At(fs0, j, t) {
      EmptiedAt(fs0, owner, fs, i, done, g, j, t);
    }
    EmptiedOwner(fs0, owner, i, g);
    TableIs(g, Table(fs0)[i := seq(NSLOTS, _ => 0)]);
    forall b | b in owner ensures owner[b].s < NSLOTS {
      OwnerInverse(fs0, owner, b);
    }
    assert forall b :: 0 <= b < g.sb.size ==> Used(g, b) == Used(fs, b);
  }

  lemma TruncatedFiles(fs0: Fs, owner: map<nat, Slot>, fs: Fs, i: nat, done: set<nat>, g: Fs)
    requires Freeing(fs0, owner, fs, i, done) && g == fs.(inodes := fs.inodes[i := Emptied()])
    requires Shape(g)
    ensures Shape(fs0) && Files(g) == Files(fs0)[i := seq(MAXBYTES, _ => 0)] && Sizes(g) == Sizes(fs0)[i := 0]
  {
    hide ByteAt, Used;
    forall j, k | 0 <= j < |fs0.inodes| && 0 <= k < MAXBYTES
      ensures ByteAt(g, j, k) == if j == i then 0 else ByteAt(fs0, j, k) {
      EmptiedByte(fs0, owner, fs, i, done, g, j, k);
    }
    FilesIs(g, Files(fs0)[i := seq(MAXBYTES, _ => 0)]);
  }
}
