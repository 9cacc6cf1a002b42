/** The file-system operations as functions of the state, and what each keeps.  `Panic` is where
    the kernel stops. */
module FsOps {
  import opened Bytes
  import opened FsModel

  const MAXBYTES: nat := 274432   // MAXFILE * BSIZE

  /** `fs` has the blocks and the in-memory inodes, `dinodes` what the inode blocks hold, `logged`
      the blocks the running operation has logged. */
  datatype State = State(fs: Fs, dinodes: seq<Inode>, logged: set<nat>)

  datatype Outcome<T> = Panic | Ok(st: State, value: T)

  // ---------- balloc, bfree, bmap ----------

  /** The first block at or after `b` that is not marked. */
  function FreeFrom(fs: Fs, b: nat): (r: nat)
    requires Shape(fs) && b <= fs.sb.size
    ensures b <= r <= fs.sb.size
    ensures forall c :: b <= c < r ==> Used(fs, c)
    ensures r < fs.sb.size ==> !Used(fs, r)
    decreases fs.sb.size - b
  {
    if b == fs.sb.size || !Used(fs, b) then b else FreeFrom(fs, b + 1)
  }

  function Balloc(st: State): Outcome<nat>
    requires Shape(st.fs)
  {
    var b := FreeFrom(st.fs, 0);
    if b == st.fs.sb.size then Panic
    else Ok(st.(fs := Claimed(st.fs, b), logged := st.logged + {st.fs.sb.BBlock(b), b}), b)
  }

  /** What balloc hands out is never metadata, nor the log, nor in any slot; it stops only when
      every block is marked. */
  lemma BallocFresh(st: State)
    requires Shape(st.fs) && Sound(st.fs)
    ensures match Balloc(st)
            case Ok(_, b) => st.fs.sb.Meta() <= b < st.fs.sb.size && forall x: Slot :: !Holds(st.fs, x, b)
            case Panic => forall b :: 0 <= b < st.fs.sb.size ==> Used(st.fs, b)
  {
    hide Shape, At, Used;
    var owner :| Owned(st.fs, owner);
    var b := FreeFrom(st.fs, 0);
    if b < st.fs.sb.size {
      assert b !in owner && b >= st.fs.sb.Meta() > 0;
      forall x: Slot ensures !Holds(st.fs, x, b) {
        if x.inum < |st.fs.inodes| && x.s < NSLOTS
            && At(st.fs, x.inum, x.s) != 0 { assert At(st.fs, x.inum, x.s) in owner; }
      }
    }
  }

  function Bfree(st: State, b: nat): Outcome<()>
    requires Shape(st.fs) && b < st.fs.sb.size
  {
    if !Used(st.fs, b) then Panic
    else Ok(st.(fs := SetUsed(st.fs, b, false), logged := st.logged + {st.fs.sb.BBlock(b)}), ())
  }

  lemma ClaimedShape(fs: Fs, b: nat)
    requires Shape(fs) && b < fs.sb.size
    ensures Shape(Claimed(fs, b)) && Claimed(fs, b).sb == fs.sb && Claimed(fs, b).inodes == fs.inodes
  {
    BBlockBounds(fs.sb, b);
  }

  /** Fill empty slot `s` of inode `i` with a fresh block. */
  function Fill(st: State, i: nat, s: nat): (r: Outcome<nat>)
    requires Shape(st.fs) && i < |st.fs.inodes| && s < NSLOTS
    ensures r.Ok? ==> Shape(r.st.fs) && |r.st.fs.inodes| == |st.fs.inodes| && r.value < r.st.fs.sb.size
  {
    match Balloc(st)
    case Panic => Panic
    case Ok(st1, b) =>
      ClaimedShape(st.fs, b);
      if s <= NDIRECT then Ok(st1.(fs := Linked(st1.fs, i, s, b)), b)
      else
        var p := At(st1.fs, i, NDIRECT);
        if !(0 < p < |st1.fs.blocks|) then Panic
        else Ok(st1.(fs := Linked(st1.fs, i, s, b), logged := st1.logged + {p}), b)
  }

  function Bmap(st: State, i: nat, bn: nat): (r: Outcome<nat>)
    requires Shape(st.fs) && i < |st.fs.inodes|
    ensures r.Ok? ==> Shape(r.st.fs) && |r.st.fs.inodes| == |st.fs.inodes|
  {
    if bn < NDIRECT then
      var addr := At(st.fs, i, bn);
      if addr != 0 then Ok(st, addr) else Fill(st, i, bn)
    else if bn < MAXFILE then
      var first := if At(st.fs, i, NDIRECT) != 0 then Ok(st, 0) else Fill(st, i, NDIRECT);
      if first.Panic? then Panic
      else
        var addr := At(first.st.fs, i, bn + 1);
        if addr != 0 then Ok(first.st, addr) else Fill(first.st, i, bn + 1)
    else Panic
  }

  // ---------- Every change is logged ----------

  /** Every block whose contents differ has been logged, and so has the inode block of every inode that
      has been written back. */
  ghost predicate Recorded(st: State, st': State) {
    && st'.fs.sb == st.fs.sb && |st'.fs.blocks| == |st.fs.blocks| && |st'.dinodes| == |st.dinodes|
    && st.logged <= st'.logged
    && (forall b :: 0 <= b < |st.fs.blocks| && st'.fs.blocks[b] != st.fs.blocks[b] ==> b in st'.logged)
    && (forall k :: 0 <= k < |st.dinodes| && st'.dinodes[k] != st.dinodes[k] ==> st.fs.sb.IBlock(k) in st'.logged)
  }

  lemma RecordedSelf(st: State)
    ensures Recorded(st, st)
  {
  }

  lemma RecordedTrans(st0: State, st1: State, st2: State)
    requires Recorded(st0, st1) && Recorded(st1, st2)
    ensures Recorded(st0, st2)
  {
  }

  /** One block changed and logged, with any change to the inodes in memory. */
  lemma RecordedPut(st: State, st': State, b: nat)
    requires st'.fs.sb == st.fs.sb && st'.dinodes == st.dinodes && b < |st.fs.blocks| == |st'.fs.blocks|
    requires st'.fs.blocks == st.fs.blocks[b := st'.fs.blocks[b]] && st'.logged == st.logged + {b}
    ensures Recorded(st, st')
  {
  }

  /** Inode `i` changed in memory, written back and its block logged. */
  lemma RecordedUpdate(st0: State, st: State, i: nat, st': State)
    requires Recorded(st0, st) && i < |st.dinodes| && st'.fs.sb == st.fs.sb && st'.fs.blocks == st.fs.blocks
    requires |st'.dinodes| == |st.dinodes| && st'.dinodes == st.dinodes[i := st'.dinodes[i]]
    requires st'.logged == st.logged + {st.fs.sb.IBlock(i)}
    ensures Recorded(st0, st')
  {
  }

  /** Changing an inode in memory logs nothing. */
  lemma RecordedInode(st0: State, st: State, i: nat, ino: Inode)
    requires Recorded(st0, st) && i < |st.fs.inodes|
    ensures Recorded(st0, st.(fs := st.fs.(inodes := st.fs.inodes[i := ino])))
  {
  }

  lemma BallocRecorded(st: State)
    requires Shape(st.fs)
    ensures Balloc(st).Ok? ==> Recorded(st, Balloc(st).st)
  {
    hide WithBit, Zero;
    var b := FreeFrom(st.fs, 0);
    if b < st.fs.sb.size { BBlockBounds(st.fs.sb, b); }
  }

  lemma BfreeRecorded(st: State, b: nat)
    requires Shape(st.fs) && b < st.fs.sb.size
    ensures Bfree(st, b).Ok? ==> Recorded(st, Bfree(st, b).st)
  {
    hide WithBit, Used;
    BBlockBounds(st.fs.sb, b);
  }

  lemma FillRecorded(st: State, i: nat, s: nat)
    requires Shape(st.fs) && i < |st.fs.inodes| && s < NSLOTS
    ensures Fill(st, i, s).Ok? ==> Recorded(st, Fill(st, i, s).st)
  {
    hide Shape, WithWord, Claimed, At;
    BallocRecorded(st);
    if Fill(st, i, s).Ok? {
      var st1, b := Balloc(st).st, Balloc(st).value;
      ClaimedShape(st.fs, b);
      if s > NDIRECT {
        var p := At(st1.fs, i, NDIRECT);
        RecordedPut(st1, Fill(st, i, s).st, p);
        RecordedTrans(st, st1, Fill(st, i, s).st);
      }
    }
  }

  lemma BmapRecorded(st: State, i: nat, bn: nat)
    requires Shape(st.fs) && i < |st.fs.inodes|
    ensures Bmap(st, i, bn).Ok? ==> Recorded(st, Bmap(st, i, bn).st)
  {
    hide Shape, Fill;
    if bn < NDIRECT {
      FillRecorded(st, i, bn);
    } else if bn < MAXFILE && Bmap(st, i, bn).Ok? {
      var first := if At(st.fs, i, NDIRECT) != 0 then Ok(st, 0) else Fill(st, i, NDIRECT);
      FillRecorded(st, i, NDIRECT);
      FillRecorded(first.st, i, bn + 1);
      RecordedTrans(st, first.st, Bmap(st, i, bn).st);
    }
  }

  // ---------- The state as tables ----------

  /** The blocks in the slots of every inode. */
  ghost function Row(fs: Fs, i: nat): seq<nat>
    requires Shape(fs) && i < |fs.inodes|
  {
    seq(NSLOTS, t requires 0 <= t < NSLOTS => At(fs, i, t))
  }

  ghost function Table(fs: Fs): (tab: seq<seq<nat>>)
    requires Shape(fs)
    ensures |tab| == |fs.inodes|
    ensures forall i :: 0 <= i < |tab| ==> |tab[i]| == NSLOTS
  {
    seq(|fs.inodes|, i requires 0 <= i < |fs.inodes| => Row(fs, i))
  }

  /** The bytes of every inode, to the largest size a file can have. */
  ghost function Body(fs: Fs, i: nat): seq<byte>
    requires Shape(fs) && i < |fs.inodes|
  {
    seq(MAXBYTES, k requires 0 <= k < MAXBYTES => ByteAt(fs, i, k))
  }

  ghost function Files(fs: Fs): (files: seq<seq<byte>>)
    requires Shape(fs)
    ensures |files| == |fs.inodes|
    ensures forall i :: 0 <= i < |files| ==> |files[i]| == MAXBYTES
  {
    seq(|fs.inodes|, i requires 0 <= i < |fs.inodes| => Body(fs, i))
  }

  function Sizes(fs: Fs): seq<nat> {
    seq(|fs.inodes|, i requires 0 <= i < |fs.inodes| => fs.inodes[i].size)
  }

  /** The table with `b` in slot `s` of inode `i`. */
  function WithSlot(tab: seq<seq<nat>>, i: nat, s: nat, b: nat): seq<seq<nat>> {
    if i < |tab| && s < |tab[i]| then
      var row: seq<nat> := tab[i][s := b];
      tab[i := row]
    else tab
  }

  lemma TableIs(fs: Fs, tab: seq<seq<nat>>)
    requires Shape(fs) && |tab| == |fs.inodes|
    requires forall i :: 0 <= i < |tab| ==> |tab[i]| == NSLOTS
    requires forall i, t :: 0 <= i < |tab| && 0 <= t < NSLOTS ==> At(fs, i, t) == tab[i][t]
    ensures Table(fs) == tab
  {
    forall i | 0 <= i < |tab| ensures Table(fs)[i] == tab[i] {
      assert Row(fs, i) == tab[i];
    }
  }

  lemma FilesIs(fs: Fs, files: seq<seq<byte>>)
    requires Shape(fs) && |files| == |fs.inodes|
    requires forall i :: 0 <= i < |files| ==> |files[i]| == MAXBYTES
    requires forall i, k :: 0 <= i < |files| && 0 <= k < MAXBYTES ==> ByteAt(fs, i, k) == files[i][k]
    ensures Files(fs) == files
  {
    forall i | 0 <= i < |files| ensures Files(fs)[i] == files[i] {
      assert Body(fs, i) == files[i];
    }
  }

  lemma SameFilesIs(f: Fs, g: Fs)
    requires Shape(f) && Shape(g) && SameFiles(f, g)
    ensures Files(f) == Files(g)
  {
    FilesIs(g, Files(f));
  }

  // ---------- What they keep ----------

  /** `mid` is `fs` with free block `b` claimed, `g` is `mid` with `b` in empty slot `s` of `i`. */
  ghost predicate Linking(fs: Fs, o: map<nat, Slot>, i: nat, s: nat, b: nat, mid: Fs, g: Fs) {
    && Owned(fs, o) && i < |fs.inodes| && s < NSLOTS && At(fs, i, s) == 0
    && b < fs.sb.size && !Used(fs, b) && mid == Claimed(fs, b) && Shape(mid) && b < WORD
    && (s > NDIRECT ==> 0 < At(mid, i, NDIRECT) < |mid.blocks|)
    && g == Linked(mid, i, s, b)
  }

  lemma LinkKeepsOwner(fs: Fs, o: map<nat, Slot>, i: nat, s: nat, b: nat, mid: Fs, g: Fs)
    requires Linking(fs, o, i, s, b, mid, g)
    ensures Shape(g) && Owned(g, o[b := Slot(i, s)]) && b != 0
  {
    ClaimFrame(fs, o, b, mid);
    LinkFrame(mid, o, i, s, b, g);
  }

  lemma LinkKeepsTable(fs: Fs, o: map<nat, Slot>, i: nat, s: nat, b: nat, mid: Fs, g: Fs)
    requires Linking(fs, o, i, s, b, mid, g) && Shape(fs) && Shape(g) && i < |fs.inodes|
    ensures Table(g) == WithSlot(Table(fs), i, s, b)
    ensures At(mid, i, NDIRECT) == Table(fs)[i][NDIRECT]
  {
    hide Shape, Owned, Slots, Used, Blank;
    ClaimFrame(fs, o, b, mid);
    assert Linkable(mid, o, i, s, b);
    LinkedAt(mid, o, i, s, b, g);
    TableIs(g, WithSlot(Table(fs), i, s, b));
  }

  lemma LinkKeepsFiles(fs: Fs, o: map<nat, Slot>, i: nat, s: nat, b: nat, mid: Fs, g: Fs)
    requires Linking(fs, o, i, s, b, mid, g) && Shape(fs) && Shape(g)
    ensures Files(g) == Files(fs) && Sizes(g) == Sizes(fs) && g.sb == fs.sb
  {
    ClaimFrame(fs, o, b, mid);
    LinkFrame(mid, o, i, s, b, g);
    SameFilesIs(fs, mid);
    SameFilesIs(mid, g);
  }

  /** Linking a freshly claimed block: the slot gets it, ownership holds, no file changes. */
  lemma LinkKeeps(fs: Fs, o: map<nat, Slot>, i: nat, s: nat, b: nat, mid: Fs, g: Fs)
    requires Linking(fs, o, i, s, b, mid, g) && Shape(fs) && i < |fs.inodes|
    ensures Shape(g) && Sound(g) && b != 0
    ensures Files(g) == Files(fs) && Table(g) == WithSlot(Table(fs), i, s, b)
    ensures Sizes(g) == Sizes(fs) && g.sb == fs.sb && At(mid, i, NDIRECT) == Table(fs)[i][NDIRECT]
  {
    LinkKeepsOwner(fs, o, i, s, b, mid, g);
    LinkKeepsTable(fs, o, i, s, b, mid, g);
    LinkKeepsFiles(fs, o, i, s, b, mid, g);
  }

  /** What filling a slot does: the new block is logged, and so are its bitmap block and, for an
      entry, the indirect block. */
  lemma FillKeeps(st: State, i: nat, s: nat, r: Outcome<nat>)
    requires Sound(st.fs) && Shape(st.fs) && i < |st.fs.inodes| && s < NSLOTS && At(st.fs, i, s) == 0
    requires r == Fill(st, i, s) && r.Ok?
    ensures Sound(r.st.fs) && r.value != 0
    ensures Files(r.st.fs) == Files(st.fs)
    ensures Table(r.st.fs) == WithSlot(Table(st.fs), i, s, r.value)
    ensures Sizes(r.st.fs) == Sizes(st.fs) && r.st.fs.sb == st.fs.sb && r.st.dinodes == st.dinodes
    ensures r.st.logged == st.logged + {st.fs.sb.BBlock(r.value), r.value}
                             + if s > NDIRECT then {Table(st.fs)[i][NDIRECT]} else {}
  {
    var o :| Owned(st.fs, o);
    ClaimedShape(st.fs, r.value);
    var mid := Claimed(st.fs, r.value);
    assert Linking(st.fs, o, i, s, r.value, mid, r.st.fs);
    LinkKeeps(st.fs, o, i, s, r.value, mid, r.st.fs);
  }

  /** Slots that were filled stay as they were, and only inode `i` gains blocks. */
  ghost predicate Grew(t0: seq<seq<nat>>, t1: seq<seq<nat>>, i: nat) {
    && |t0| == |t1| && (forall j :: 0 <= j < |t0| ==> |t0[j]| == |t1[j]|)
    && (forall j :: 0 <= j < |t0| && j != i ==> t1[j] == t0[j])
    && (i < |t0| ==> forall t :: 0 <= t < |t0[i]| && t0[i][t] != 0 ==> t1[i][t] == t0[i][t])
  }

  lemma GrewBySlot(tab: seq<seq<nat>>, i: nat, s: nat, b: nat)
    requires i < |tab| && s < |tab[i]| && tab[i][s] == 0
    ensures Grew(tab, WithSlot(tab, i, s, b), i)
  {
  }

  lemma GrewTrans(t0: seq<seq<nat>>, t1: seq<seq<nat>>, t2: seq<seq<nat>>, i: nat)
    requires Grew(t0, t1, i) && Grew(t1, t2, i)
    ensures Grew(t0, t2, i)
  {
  }

  /** Nothing about any file is different, though inode `i` may have gained blocks. */
  ghost predicate Kept(st: State, st': State, i: nat) {
    && Shape(st.fs) && Shape(st'.fs) && Sound(st'.fs) && st'.fs.sb == st.fs.sb && st'.dinodes == st.dinodes
    && Files(st'.fs) == Files(st.fs) && Sizes(st'.fs) == Sizes(st.fs)
    && Grew(Table(st.fs), Table(st'.fs), i)
  }

  lemma FillKept(st: State, i: nat, s: nat, r: Outcome<nat>)
    requires Sound(st.fs) && Shape(st.fs) && i < |st.fs.inodes| && s < NSLOTS && At(st.fs, i, s) == 0
    requires r == Fill(st, i, s) && r.Ok?
    ensures Kept(st, r.st, i)
  {
    hide Shape, Sound, Files, Sizes, Fill, Grew;
    FillKeeps(st, i, s, r);
    GrewBySlot(Table(st.fs), i, s, r.value);
  }

  lemma KeptTrans(s0: State, s1: State, s2: State, i: nat)
    requires Kept(s0, s1, i) && Kept(s1, s2, i)
    ensures Kept(s0, s2, i)
  {
    GrewTrans(Table(s0.fs), Table(s1.fs), Table(s2.fs), i);
  }

  lemma KeptSelf(st: State, i: nat)
    requires Shape(st.fs) && Sound(st.fs)
    ensures Kept(st, st, i)
  {
  }

  /** The indirect block of inode `i` and the bitmap block that covers it. */
  ghost function Indirect(fs: Fs, i: nat): set<nat>
    requires Shape(fs) && i < |fs.inodes|
  {
    var p := Table(fs)[i][NDIRECT];
    if p == 0 then {} else {p, fs.sb.BBlock(p)}
  }

  /** The new block and its bitmap block, when mapping `bn` has to allocate. */
  ghost function Fresh(fs: Fs, i: nat, bn: nat, b: nat): set<nat>
    requires Shape(fs) && i < |fs.inodes| && bn < MAXFILE
  {
    if Table(fs)[i][SlotOf(bn)] == 0 then {b, fs.sb.BBlock(b)} else {}
  }

  /** Inode, bitmap and data blocks: all that an operation logs lies above the log. */
  ghost predicate AboveLog(sb: Super, bs: set<nat>) { forall b :: b in bs ==> sb.inodestart <= b < sb.size }

  lemma AboveJoin(sb: Super, a: set<nat>, b: set<nat>, c: set<nat>)
    requires AboveLog(sb, a) && AboveLog(sb, b) && c <= a + b
    ensures AboveLog(sb, c)
  {
  }

  lemma SlotAbove(fs: Fs, i: nat, s: nat)
    requires Sound(fs) && Shape(fs) && i < |fs.inodes| && s < NSLOTS && Table(fs)[i][s] != 0
    ensures AboveLog(fs.sb, {Table(fs)[i][s], fs.sb.BBlock(Table(fs)[i][s])})
  {
    hide Sound;
    InRange(fs, i, s);
    BBlockBounds(fs.sb, At(fs, i, s));
  }

  lemma BmapDirect(st: State, i: nat, bn: nat, r: Outcome<nat>)
    requires Sound(st.fs) && Shape(st.fs) && i < |st.fs.inodes| && bn < NDIRECT && r == Bmap(st, i, bn) && r.Ok?
    ensures Kept(st, r.st, i) && r.value == Table(r.st.fs)[i][bn] != 0
    ensures Table(st.fs)[i][bn] != 0 ==> r.st == st
    ensures r.st.logged <= st.logged + Fresh(st.fs, i, bn, r.value)
  {
    hide Shape, Sound, Files, Sizes, Grew, Fill, Kept;
    if At(st.fs, i, bn) == 0 {
      FillKeeps(st, i, bn, r);
      FillKept(st, i, bn, r);
    } else {
      KeptSelf(st, i);
    }
  }

  /** The indirect block is there, allocated now if it was not. */
  lemma IndirectReady(st: State, i: nat, r: Outcome<nat>)
    requires Sound(st.fs) && Shape(st.fs) && i < |st.fs.inodes|
    requires r == (if At(st.fs, i, NDIRECT) != 0 then Ok(st, 0) else Fill(st, i, NDIRECT)) && r.Ok?
    ensures Kept(st, r.st, i) && Table(r.st.fs)[i][NDIRECT] != 0
    ensures forall t :: 0 <= t < NSLOTS && t != NDIRECT ==> Table(r.st.fs)[i][t] == Table(st.fs)[i][t]
    ensures Table(st.fs)[i][NDIRECT] != 0 ==> r.st == st
    ensures r.st.logged <= st.logged + Indirect(r.st.fs, i)
  {
    hide Shape, Sound, Files, Sizes, Grew, Fill, Kept;
    if At(st.fs, i, NDIRECT) == 0 {
      FillKeeps(st, i, NDIRECT, r);
      FillKept(st, i, NDIRECT, r);
    } else {
      KeptSelf(st, i);
    }
  }

  lemma BmapEntry(st: State, i: nat, bn: nat, r: Outcome<nat>)
    requires Sound(st.fs) && Shape(st.fs) && i < |st.fs.inodes| && Table(st.fs)[i][NDIRECT] != 0
    requires NDIRECT <= bn < MAXFILE
    requires r == (if At(st.fs, i, bn + 1) != 0 then Ok(st, At(st.fs, i, bn + 1)) else Fill(st, i, bn + 1)) && r.Ok?
    ensures Kept(st, r.st, i) && r.value == Table(r.st.fs)[i][bn + 1] != 0
    ensures Table(st.fs)[i][bn + 1] != 0 ==> r.st == st
    ensures Table(r.st.fs)[i][NDIRECT] == Table(st.fs)[i][NDIRECT]
    ensures r.st.logged <= st.logged + Fresh(st.fs, i, bn, r.value) + {Table(st.fs)[i][NDIRECT]}
  {
    hide Shape, Sound, Files, Sizes, Grew, Fill, Kept;
    if At(st.fs, i, bn + 1) == 0 {
      FillKeeps(st, i, bn + 1, r);
      FillKept(st, i, bn + 1, r);
    } else {
      KeptSelf(st, i);
    }
  }

  /** An entry in use implies an indirect block. */
  lemma EntryNeedsIndirect(fs: Fs, i: nat, t: nat)
    requires Shape(fs) && i < |fs.inodes| && NDIRECT < t < NSLOTS && Table(fs)[i][t] != 0
    ensures Table(fs)[i][NDIRECT] != 0
  {
  }

  /** Block mapping returns the block in the slot, filling it if need be; no file changes, nothing
      is logged but the new block, its bitmap block, the indirect block and its bitmap block. */
  lemma BmapKeeps(st: State, i: nat, bn: nat, r: Outcome<nat>)
    requires Sound(st.fs) && Shape(st.fs) && i < |st.fs.inodes| && r == Bmap(st, i, bn) && r.Ok?
    ensures bn < MAXFILE
    ensures Kept(st, r.st, i) && r.value == Table(r.st.fs)[i][SlotOf(bn)] != 0
    ensures Table(st.fs)[i][SlotOf(bn)] != 0 ==> r.st == st
    ensures r.st.logged <= st.logged + Fresh(st.fs, i, bn, r.value) + Indirect(r.st.fs, i)
  {
    hide Shape, Sound, Files, Sizes, Grew, Fill;
    if bn < NDIRECT {
      BmapDirect(st, i, bn, r);
    } else {
      var first := if At(st.fs, i, NDIRECT) != 0 then Ok(st, 0) else Fill(st, i, NDIRECT);
      IndirectReady(st, i, first);
      BmapEntry(first.st, i, bn, r);
      KeptTrans(st, first.st, r.st, i);
      if Table(st.fs)[i][bn + 1] != 0 { EntryNeedsIndirect(st.fs, i, bn + 1); }
    }
  }

  // ---------- Writing bytes ----------

  /** `s` with `data` over it from `off`. */
  function Spliced(s: seq<byte>, off: nat, data: seq<byte>): seq<byte>
    requires off + |data| <= |s|
  {
    s[..off] + data + s[off + |data|..]
  }

  function WithData(files: seq<seq<byte>>, i: nat, off: nat, data: seq<byte>): seq<seq<byte>>
    requires i < |files| && off + |data| <= |files[i]|
  {
    files[i := Spliced(files[i], off, data)]
  }

  /** Writing one piece after the other is writing both at once. */
  lemma WithDataTwice(files: seq<seq<byte>>, i: nat, off: nat, d: seq<byte>, e: seq<byte>)
    requires i < |files| && off + |d| + |e| <= |files[i]|
    ensures WithData(WithData(files, i, off, d), i, off + |d|, e) == WithData(files, i, off, d + e)
  {
    assert Spliced(Spliced(files[i], off, d), off + |d|, e) == Spliced(files[i], off, d + e);
  }

  lemma WithNoData(files: seq<seq<byte>>, i: nat, off: nat)
    requires i < |files| && off <= |files[i]|
    ensures WithData(files, i, off, []) == files
  {
    assert Spliced(files[i], off, []) == files[i];
  }

  /** Bytes copied into the buffer of file block `bn`, and the buffer logged. */
  function Put(st: State, i: nat, bn: nat, o: nat, data: seq<byte>): State
    requires Shape(st.fs) && i < |st.fs.inodes| && bn < MAXFILE && o + |data| <= BSIZE
    requires 0 < At(st.fs, i, SlotOf(bn)) < |st.fs.blocks|
  {
    var a := At(st.fs, i, SlotOf(bn));
    st.(fs := Store(st.fs, a, Patched(st.fs.blocks[a], o, data)), logged := st.logged + {a})
  }

  /** A filled slot holds a block of the disk. */
  lemma InRange(fs: Fs, i: nat, t: nat)
    requires Shape(fs) && Sound(fs) && i < |fs.inodes| && t < NSLOTS
    ensures At(fs, i, t) < |fs.blocks| && (At(fs, i, t) != 0 ==> fs.sb.Meta() <= At(fs, i, t))
  {
    var o :| Owned(fs, o);
    assert At(fs, i, t) != 0 ==> At(fs, i, t) in o;
  }

  lemma PutKeepsOwner(st: State, owner: map<nat, Slot>, i: nat, bn: nat, o: nat, data: seq<byte>, st': State)
    requires Shape(st.fs) && Owned(st.fs, owner) && i < |st.fs.inodes| && bn < MAXFILE && o + |data| <= BSIZE
    requires 0 < At(st.fs, i, SlotOf(bn)) < |st.fs.blocks| && st' == Put(st, i, bn, o, data)
    ensures Shape(st'.fs) && Owned(st'.fs, owner) && Table(st'.fs) == Table(st.fs)
  {
    hide Slots, Patched, Used, ByteAt;
    PatchFrame(st.fs, owner, i, bn, o, data, st'.fs);
    assert Shape(st'.fs);
    TableIs(st'.fs, Table(st.fs));
  }

  lemma PutFiles(st: State, owner: map<nat, Slot>, i: nat, bn: nat, o: nat, data: seq<byte>, st': State)
    requires Shape(st.fs) && Owned(st.fs, owner) && i < |st.fs.inodes| && bn < MAXFILE && o + |data| <= BSIZE
    requires 0 < At(st.fs, i, SlotOf(bn)) < |st.fs.blocks| && st' == Put(st, i, bn, o, data)
    requires Shape(st'.fs)
    ensures Files(st'.fs) == WithData(Files(st.fs), i, 1024 * bn + o, data)
  {
    hide Shape, Slots, Patched, Used, ByteAt, At;
    PatchFrame(st.fs, owner, i, bn, o, data, st'.fs);
    FilesIs(st'.fs, WithData(Files(st.fs), i, 1024 * bn + o, data));
  }

  /** Writing part of a mapped block changes those bytes of that file and nothing else. */
  lemma PutKeeps(st: State, i: nat, bn: nat, o: nat, data: seq<byte>, st': State)
    requires Shape(st.fs) && Sound(st.fs) && i < |st.fs.inodes| && bn < MAXFILE && o + |data| <= BSIZE
    requires 0 < At(st.fs, i, SlotOf(bn)) < |st.fs.blocks| && st' == Put(st, i, bn, o, data)
    ensures Shape(st'.fs) && Sound(st'.fs) && Table(st'.fs) == Table(st.fs)
    ensures Files(st'.fs) == WithData(Files(st.fs), i, 1024 * bn + o, data)
    ensures Sizes(st'.fs) == Sizes(st.fs) && st'.fs.sb == st.fs.sb && st'.dinodes == st.dinodes
    ensures st'.logged == st.logged + {Table(st.fs)[i][SlotOf(bn)]}
  {
    hide Shape, Patched, Files, Owned;
    var owner :| Owned(st.fs, owner);
    PutKeepsOwner(st, owner, i, bn, o, data, st');
    PutFiles(st, owner, i, bn, o, data, st');
  }
}
