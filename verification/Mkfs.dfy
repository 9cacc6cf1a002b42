/** Building the first image: blocks are handed out in order, and the bitmap is written last. */
module Mkfs {
  import opened Bytes
  import opened FsModel
  import opened FsOps
  import opened FsWrite
  import opened FileSystem

  /** `owner` names the one slot of every block handed out, blocks from `free` on are blank and so is
      the bitmap. */
  ghost predicate Building(fs: Fs, owner: map<nat, Slot>, free: nat) {
    && Shape(fs) && Slots(fs, owner) && fs.sb.Meta() <= free <= fs.sb.size
    && (forall b :: b in owner <==> fs.sb.Meta() <= b < free)
    && (forall b :: free <= b < fs.sb.size || fs.sb.bmapstart <= b < fs.sb.Meta() ==> Blank(fs.blocks[b]))
  }

  lemma BuildLink(fs: Fs, owner: map<nat, Slot>, free: nat, i: nat, s: nat, g: Fs)
    requires Building(fs, owner, free) && i < |fs.inodes| && s < NSLOTS && At(fs, i, s) == 0 && free < fs.sb.size
    requires s > NDIRECT ==> 0 < At(fs, i, NDIRECT) < |fs.blocks|
    requires free < WORD && g == Linked(fs, i, s, free)
    ensures Building(g, owner[free := Slot(i, s)], free + 1) && g.sb == fs.sb
    ensures Files(g) == Files(fs) && Table(g) == WithSlot(Table(fs), i, s, free) && Sizes(g) == Sizes(fs)
  {
    hide Blank, Slots, Used, SameFiles, Files;
    LinkFrame(fs, owner, i, s, free, g);
    SameFilesIs(fs, g);
    assert Building(g, owner[free := Slot(i, s)], free + 1) by {
      if s > NDIRECT { SlotOwned(fs, owner, i, NDIRECT); }
    }
    TableIs(g, WithSlot(Table(fs), i, s, free));
  }

  lemma BuildPatch(fs: Fs, owner: map<nat, Slot>, free: nat, i: nat, bn: nat, o: nat, data: seq<byte>, g: Fs)
    requires Building(fs, owner, free) && i < |fs.inodes| && bn < MAXFILE && o + |data| <= BSIZE
    requires 0 < At(fs, i, SlotOf(bn)) < |fs.blocks|
    requires g == Store(fs, At(fs, i, SlotOf(bn)), Patched(fs.blocks[At(fs, i, SlotOf(bn))], o, data))
    ensures Building(g, owner, free) && g.sb == fs.sb && Table(g) == Table(fs) && Sizes(g) == Sizes(fs)
    ensures Files(g) == WithData(Files(fs), i, 1024 * bn + o, data)
  {
    hide Blank, Patched, Slots, Used, ByteAt;
    PatchFrame(fs, owner, i, bn, o, data, g);
    SlotOwned(fs, owner, i, SlotOf(bn));
    BuildPatched(fs, owner, free, At(fs, i, SlotOf(bn)), g);
    TableIs(g, Table(fs));
    FilesIs(g, WithData(Files(fs), i, 1024 * bn + o, data));
  }

  lemma BuildPatched(fs: Fs, owner: map<nat, Slot>, free: nat, a: nat, g: Fs)
    requires Building(fs, owner, free) && a in owner && Slots(g, owner) && Shape(g) && g.sb == fs.sb
    requires forall b :: 0 <= b < |fs.blocks| && b != a ==> g.blocks[b] == fs.blocks[b]
    ensures Building(g, owner, free)
  {
    hide Blank, Slots;
  }

  /** Exactly the blocks that the first `end` bytes fall in are mapped. */
  ghost predicate Exact(row: seq<nat>, end: nat) {
    |row| == NSLOTS && forall bn :: 0 <= bn < MAXFILE ==> (row[SlotOf(bn)] != 0 <==> 1024 * bn < end)
  }

  /** `fs` is `fs0` with `data` appended to inode `i`, the size not yet written. */
  ghost predicate Appending(fs0: Fs, fs: Fs, owner: map<nat, Slot>, free: nat, i: nat, off: nat, data: seq<byte>) {
    && Shape(fs0) && Building(fs, owner, free) && fs.sb == fs0.sb && i < |fs0.inodes| && |fs.inodes| == |fs0.inodes|
    && off + |data| <= MAXBYTES && Files(fs) == WithData(Files(fs0), i, off, data) && Sizes(fs) == Sizes(fs0)
    && Grew(Table(fs0), Table(fs), i) && Exact(Table(fs)[i], off + |data|)
  }

  /** No file differs, and of the file blocks of inode `i` only `fbn` may have become mapped. */
  ghost predicate Placed(f: Fs, g: Fs, i: nat, fbn: nat) {
    && Shape(f) && Shape(g) && g.sb == f.sb && |g.inodes| == |f.inodes|
    && Files(g) == Files(f) && Sizes(g) == Sizes(f) && Grew(Table(f), Table(g), i)
    && (i < |f.inodes| ==>
        forall bn :: 0 <= bn < MAXFILE && bn != fbn ==> Table(g)[i][SlotOf(bn)] == Table(f)[i][SlotOf(bn)])
  }

  lemma LinkPlaces(fs: Fs, owner: map<nat, Slot>, free: nat, i: nat, s: nat, g: Fs, fbn: nat)
    requires Building(fs, owner, free) && i < |fs.inodes| && s < NSLOTS && At(fs, i, s) == 0 && free < fs.sb.size
    requires s > NDIRECT ==> 0 < At(fs, i, NDIRECT) < |fs.blocks|
    requires free < WORD && g == Linked(fs, i, s, free) && fbn < MAXFILE && (s == NDIRECT || s == SlotOf(fbn))
    ensures Building(g, owner[free := Slot(i, s)], free + 1) && free > 0
    ensures Placed(fs, g, i, fbn) && Table(g) == WithSlot(Table(fs), i, s, free)
  {
    hide Building, Linked, Files, Sizes, Grew, Shape;
    BuildLink(fs, owner, free, i, s, g);
    BuildingFree(fs, owner, free);
    BuildingFree(g, owner[free := Slot(i, s)], free + 1);
    GrewBySlot(Table(fs), i, s, free);
  }

  lemma BuildingFree(fs: Fs, owner: map<nat, Slot>, free: nat)
    requires Building(fs, owner, free)
    ensures 0 < free && Shape(fs) && |fs.inodes| == |Table(fs)|
  {
  }

  lemma PlacedTwice(f: Fs, g: Fs, h: Fs, i: nat, fbn: nat)
    requires Placed(f, g, i, fbn) && Placed(g, h, i, fbn)
    ensures Placed(f, h, i, fbn)
  {
    hide Shape, Files, Sizes, Grew;
    GrewTrans(Table(f), Table(g), Table(h), i);
  }

  lemma PlacedSelf(f: Fs, i: nat, fbn: nat)
    requires Shape(f)
    ensures Placed(f, f, i, fbn)
  {
  }

  lemma ExactMore(row: seq<nat>, now: seq<nat>, pos: nat, m: nat)
    requires Exact(row, pos) && 0 < m && OffsetIn(pos) + m <= BSIZE && pos + m <= MAXBYTES && |now| == NSLOTS
    requires forall bn :: 0 <= bn < MAXFILE && bn != BlockOf(pos) ==> now[SlotOf(bn)] == row[SlotOf(bn)]
    requires BlockOf(pos) < MAXFILE && now[SlotOf(BlockOf(pos))] != 0
    ensures Exact(now, pos + m)
  {
  }

  /** One round of iappend: a block placed if need be, and a piece copied into it. */
  lemma AppendingMore(fs0: Fs, fs: Fs, owner: map<nat, Slot>, free: nat, i: nat, off: nat, data: seq<byte>,
                      piece: seq<byte>,
                      mid: Fs, owner': map<nat, Slot>, free': nat, g: Fs)
    requires Appending(fs0, fs, owner, free, i, off, data) && 0 < |piece|
    requires off + |data| + |piece| <= MAXBYTES && OffsetIn(off + |data|) + |piece| <= BSIZE
    requires Placed(fs, mid, i, BlockOf(off + |data|)) && Building(mid, owner', free')
    requires BlockOf(off + |data|) < MAXFILE && 0 < At(mid, i, SlotOf(BlockOf(off + |data|))) < |mid.blocks|
    requires g == Store(mid, At(mid, i, SlotOf(BlockOf(off + |data|))),
                        Patched(mid.blocks[At(mid, i, SlotOf(BlockOf(off + |data|)))], OffsetIn(off + |data|), piece))
    ensures Appending(fs0, g, owner', free', i, off, data + piece)
  {
    hide Building, Files, Sizes, Grew, Shape, Exact, WithData, Patched, At;
    var pos := off + |data|;
    BuildPatch(mid, owner', free', i, BlockOf(pos), OffsetIn(pos), piece, g);
    BuildingFree(g, owner', free');
    GrewTrans(Table(fs0), Table(fs), Table(mid), i);
    WithDataTwice(Files(fs0), i, off, data, piece);
    TableAt(mid, i, SlotOf(BlockOf(pos)));
    ExactMore(Table(fs)[i], Table(mid)[i], pos, |piece|);
  }

  lemma TableAt(fs: Fs, i: nat, t: nat)
    requires Shape(fs) && i < |fs.inodes| && t < NSLOTS
    ensures Table(fs)[i][t] == At(fs, i, t)
  {
  }

  /** Every file has exactly the blocks its bytes fall in. */
  ghost predicate AllExact(fs: Fs) {
    Shape(fs) && forall j :: 0 <= j < |fs.inodes| ==> Exact(Table(fs)[j], Sizes(fs)[j])
  }

  lemma AppendingStarts(fs: Fs, owner: map<nat, Slot>, free: nat, i: nat)
    requires Building(fs, owner, free) && AllExact(fs) && i < |fs.inodes| && fs.inodes[i].size <= MAXBYTES
    ensures Appending(fs, fs, owner, free, i, fs.inodes[i].size, [])
  {
    hide Building, Exact;
    WithNoData(Files(fs), i, fs.inodes[i].size);
  }

  lemma BuildSize(f: Fs, owner: map<nat, Slot>, free: nat, i: nat, size: nat, g: Fs)
    requires Building(f, owner, free) && i < |f.inodes| && g == f.(inodes := f.inodes[i := f.inodes[i].(size := size)])
    ensures Building(g, owner, free) && Files(g) == Files(f) && Table(g) == Table(f) && Sizes(g) == Sizes(f)[i := size]
  {
    hide Slots, Files, Table, Blank;
    SizeSlots(f, owner, i, size, g);
  }

  lemma AppendingEnds(fs0: Fs, fs: Fs, owner: map<nat, Slot>, free: nat, i: nat, off: nat, data: seq<byte>, g: Fs)
    requires Appending(fs0, fs, owner, free, i, off, data) && AllExact(fs0) && off == fs0.inodes[i].size
    requires g == fs.(inodes := fs.inodes[i := fs.inodes[i].(size := off + |data|)])
    ensures Building(g, owner, free) && AllExact(g) && Sizes(g) == Sizes(fs0)[i := off + |data|]
    ensures Files(g) == WithData(Files(fs0), i, off, data) && |g.inodes| == |fs0.inodes|
  {
    hide Building, Shape, Files, Exact, WithData;
    BuildSize(fs, owner, free, i, off + |data|, g);
    BuildingFree(g, owner, free);
    forall j | 0 <= j < |g.inodes| ensures Exact(Table(g)[j], Sizes(g)[j]) {
    }
  }

  /** The entry that file block `fbn` goes through, as a word of the indirect block `p`. */
  lemma EntryAt(fs: Fs, owner: map<nat, Slot>, free: nat, i: nat, fbn: nat, p: nat)
    requires Building(fs, owner, free) && i < |fs.inodes| && NDIRECT <= fbn < MAXFILE
    requires |fs.inodes[i].addrs| == NDIRECT + 1 && p == fs.inodes[i].addrs[NDIRECT] && 0 < p < |fs.blocks|
    ensures Shape(fs) && Full(fs.blocks[p]) && p == At(fs, i, NDIRECT) && SlotOf(fbn) == fbn + 1
            && |fs.blocks| == fs.sb.size
    ensures At(fs, i, fbn + 1) == Word(fs.blocks[p], fbn - NDIRECT) && At(fs, i, fbn + 1) < |fs.blocks|
            && 0 < free <= fs.sb.size <= WORD
  {
    hide Word, Full;
    if At(fs, i, fbn + 1) != 0 { SlotOwned(fs, owner, i, fbn + 1); }
  }

  lemma EntryWritten(b: Block, k: nat, v: nat)
    requires Full(b) && k < NINDIRECT && 0 < v < WORD
    ensures Word(WithWord(b, k, v), k) == v
  {
    WordAfterWrite(b, k, v, k);
  }

  class Image {
    const sb: Super
    var blocks: seq<Block>
    var inodes: seq<Inode>
    var freeblock: nat
    ghost var owner: map<nat, Slot>

    function Now(): Fs
      reads this
    {
      Fs(sb, blocks, inodes)
    }

    /** The image while inode `i` is held in memory as `din`. */
    function With(i: nat, din: Inode): Fs
      requires i < |inodes|
      reads this
    {
      Fs(sb, blocks, inodes[i := din])
    }

    /** The invariant of mkfs. */
    ghost predicate Valid()
      reads this
    {
      Building(Now(), owner, freeblock) && AllExact(Now())
    }

    /** An image of zeros with every inode empty. */
    constructor (sb: Super)
      requires sb.Valid()
      ensures this.sb == sb && Valid() && freeblock == sb.Meta()
    {
      this.sb := sb;
      blocks := seq(sb.size, _ => Zero());
      inodes := seq(sb.ninodes, _ => Emptied());
      freeblock := sb.Meta();
      owner := map[];
      new;
      StartsBuilding(Now());
    }

    /** The block in slot `s` of the inode itself, the next free one when it is empty.  False when the
        image has no block left. */
    method PlaceDirect(i: nat, din0: Inode, s: nat, ghost fbn: nat) returns (ok: bool, din: Inode)
      requires i < |inodes| && Building(With(i, din0), owner, freeblock)
      requires s <= NDIRECT && fbn < MAXFILE && (s == NDIRECT || s == fbn)
      modifies this`freeblock, this`owner
      ensures !ok ==> freeblock == sb.size
      ensures ok ==> Building(With(i, din), owner, freeblock) && Placed(old(With(i, din0)), With(i, din), i, fbn)
      ensures ok ==> |din.addrs| == NDIRECT + 1 && 0 < din.addrs[s] < |blocks| && din.size == din0.size
    {
      hide Slots, Blank, Files, Sizes, Grew, Placed, Full;
      din, ok := din0, true;
      assert With(i, din).inodes[i] == din;
      if din.addrs[s] == 0 {
        if freeblock == sb.size { ok := false; return; }
        ghost var g := Linked(With(i, din), i, s, freeblock);
        LinkPlaces(With(i, din), owner, freeblock, i, s, g, fbn);
        din := din.(addrs := din.addrs[s := freeblock]);
        assert With(i, din).inodes == g.inodes;
        owner := owner[freeblock := Slot(i, s)];
        freeblock := freeblock + 1;
      } else {
        SlotOwned(With(i, din), owner, i, s);
        PlacedSelf(With(i, din), i, fbn);
      }
    }

    /** The block in entry `fbn` - NDIRECT of the indirect block. */
    method PlaceEntry(i: nat, din: Inode, fbn: nat) returns (ok: bool, x: nat)
      requires i < |inodes| && Building(With(i, din), owner, freeblock) && NDIRECT <= fbn < MAXFILE
      requires |din.addrs| == NDIRECT + 1 && 0 < din.addrs[NDIRECT] < |blocks|
      modifies this`blocks, this`freeblock, this`owner
      ensures !ok ==> freeblock == sb.size
      ensures ok ==> Building(With(i, din), owner, freeblock) && Placed(old(With(i, din)), With(i, din), i, fbn)
      ensures ok ==> x == At(With(i, din), i, SlotOf(fbn)) && 0 < x < |blocks|
    {
      hide Building, Shape, Placed, Word, WithWord, Table, WithSlot, At, Full;
      ok, x := true, 0;
      var p := din.addrs[NDIRECT];
      EntryAt(With(i, din), owner, freeblock, i, fbn, p);
      if Word(blocks[p], fbn - NDIRECT) == 0 {
        if freeblock == sb.size { ok := false; return; }
        ghost var g := Linked(With(i, din), i, fbn + 1, freeblock);
        LinkPlaces(With(i, din), owner, freeblock, i, fbn + 1, g, fbn);
        EntryWritten(blocks[p], fbn - NDIRECT, freeblock);
        blocks := blocks[p := WithWord(blocks[p], fbn - NDIRECT, freeblock)];
        owner := owner[freeblock := Slot(i, fbn + 1)];
        freeblock := freeblock + 1;
      } else {
        PlacedSelf(With(i, din), i, fbn);
      }
      EntryAt(With(i, din), owner, freeblock, i, fbn, p);
      x := Word(blocks[p], fbn - NDIRECT);
    }

    /** Append `data` to inode `inum`.  False when the file would be too long or the image is full. */
    method IAppend(inum: nat, data: seq<byte>) returns (ok: bool)
      requires Valid() && inum < |inodes| && inodes[inum].size <= MAXBYTES
      modifies this
      ensures ok ==> Valid() && |inodes| == old(|inodes|)
      ensures ok ==> old(inodes[inum].size) + |data| <= MAXBYTES
      ensures !ok ==> old(inodes[inum].size) + |data| > MAXBYTES || freeblock == sb.size
      ensures ok ==> Sizes(Now()) == Sizes(old(Now()))[inum := old(inodes[inum].size) + |data|]
                     && Files(Now()) == WithData(Files(old(Now())), inum, old(inodes[inum].size), data)
    {
      hide Building, AllExact, Shape, Files, WithData, Table, Word, Placed, Patched, BlockOf, OffsetIn, Grew, Exact;
      ghost var fs0 := Now();
      BuildingFree(fs0, owner, freeblock);
      AppendingStarts(fs0, owner, freeblock, inum);
      var din := inodes[inum];
      assert With(inum, din) == fs0;
      var start := din.size;
      var off := start;
      var k := 0;
      ok := true;
      while k < |data|
        invariant k <= |data| && off == start + k && inodes == fs0.inodes && din.size == start
        invariant Appending(fs0, With(inum, din), owner, freeblock, inum, start, data[..k])
      {
        var fbn := BlockOf(off);
        var n1 := Piece(off, |data| - k);
        Inside(off, n1);
        if fbn >= MAXFILE { ok := false; return; }
        ghost var was := With(inum, din);
        ghost var o, f := owner, freeblock;
        var x;
        if fbn < NDIRECT {
          ok, din := PlaceDirect(inum, din, fbn, fbn);
          if !ok { return; }
          x := din.addrs[fbn];
        } else {
          ok, din := PlaceDirect(inum, din, NDIRECT, fbn);
          if !ok { return; }
          ghost var half := With(inum, din);
          ok, x := PlaceEntry(inum, din, fbn);
          if !ok { return; }
          PlacedTwice(was, half, With(inum, din), inum, fbn);
        }
        ghost var mid := With(inum, din);
        BuildingFull(mid, owner, freeblock, x);
        blocks := blocks[x := Patched(blocks[x], OffsetIn(off), data[k..k + n1])];
        AppendingMore(fs0, was, o, f, inum, start, data[..k], data[k..k + n1], mid, owner, freeblock, With(inum, din));
        assert data[..k] + data[k..k + n1] == data[..k + n1];
        k := k + n1;
        off := off + n1;
      }
      ghost var fs := With(inum, din);
      din := din.(size := off);
      inodes := inodes[inum := din];
      assert data[..k] == data;
      AppendingEnds(fs0, fs, owner, freeblock, inum, start, data, Now());
    }

    /** Round the size of the root directory up to a whole number of blocks, always to a larger one. */
    method FixRoot(root: nat)
      requires Building(Now(), owner, freeblock) && root < |inodes|
      modifies this`inodes
      ensures Building(Now(), owner, freeblock) && |inodes| == old(|inodes|)
      ensures Files(Now()) == Files(old(Now())) && Table(Now()) == Table(old(Now()))
      ensures Sizes(Now()) == Sizes(old(Now()))[root := Rounded(old(inodes[root].size))]
    {
      hide Building, Files, Table;
      BuildSize(Now(), owner, freeblock, root, Rounded(inodes[root].size),
                Now().(inodes := inodes[root := inodes[root].(size := Rounded(inodes[root].size))]));
      inodes := inodes[root := inodes[root].(size := Rounded(inodes[root].size))];
    }

    /** Write the bitmap.  False when more blocks are in use than one bitmap block covers. */
    method Balloc() returns (ok: bool)
      requires Building(Now(), owner, freeblock)
      modifies this`blocks
      ensures ok == (freeblock < 8192)
      ensures ok ==>
              Shape(Now()) && Owned(Now(), owner) && Files(Now()) == Files(old(Now()))
              && Table(Now()) == Table(old(Now()))
    {
      hide Building, Files, Table, Owned, Bit, WithBit;
      ok := freeblock < 8192;
      if !ok { return; }
      var buf := Zero();
      var i := 0;
      forall k | 0 <= k < 8192 ensures !Bit(buf, k) { BlankBit(buf, k); }
      while i < freeblock
        invariant i <= freeblock && Full(buf)
        invariant forall k :: 0 <= k < 8192 ==> (Bit(buf, k) <==> k < i)
      {
        forall k | 0 <= k < 8192 ensures Bit(WithBit(buf, i, true), k) == (k == i || Bit(buf, k)) {
          BitAfterWrite(buf, i, true, k);
        }
        buf := WithBit(buf, i, true);
        i := i + 1;
      }
      BuildingFree(Now(), owner, freeblock);
      MapWritten(Now(), owner, freeblock, buf, Store(Now(), sb.bmapstart, buf));
      blocks := blocks[sb.bmapstart := buf];
    }
  }

  /** The size mkfs gives the root directory. */
  function Rounded(size: nat): nat { (BlockOf(size) + 1) * 1024 }

  /** Rounding leaves a hole exactly when the size was a whole number of blocks already. */
  lemma RoundingHoles(fs: Fs, i: nat)
    requires Shape(fs) && i < |fs.inodes| && Exact(Table(fs)[i], fs.inodes[i].size)
    ensures Mapped(Table(fs)[i], 0, Rounded(fs.inodes[i].size)) <==>
            OffsetIn(fs.inodes[i].size) != 0 || fs.inodes[i].size >= MAXBYTES
  {
    hide Table, Shape;
    var row, size := Table(fs)[i], fs.inodes[i].size;
    if OffsetIn(size) == 0 && size < MAXBYTES {
      assert row[SlotOf(BlockOf(size))] == 0;
    }
  }

  /** A root directory of 64 entries fills one block, and rounding gives it a second one that is missing. */
  lemma RoundingExample()
    ensures var row := seq(NSLOTS, k => if k == 0 then 100 else 0);
            Exact(row, 64 * 16) && !Mapped(row, 0, Rounded(64 * 16))
  {
    var row := seq(NSLOTS, k => if k == 0 then 100 else 0);
    assert row[SlotOf(1)] == 0 && Rounded(1024) == 2048;
    assert BlockOf(1024) == 1;
  }

  /** Until then no file has holes. */
  lemma ExactNoHoles(fs: Fs, i: nat)
    requires AllExact(fs) && i < |fs.inodes|
    ensures NoHoles(fs, i)
  {
    assert Exact(Table(fs)[i], Sizes(fs)[i]);
  }

  /** iappend on files as byte strings. */
  lemma AppendedContent(f: Fs, g: Fs, i: nat, data: seq<byte>, j: nat)
    requires Shape(f) && Shape(g) && i < |f.inodes| && j < |f.inodes| == |g.inodes|
             && f.inodes[i].size + |data| <= MAXBYTES
    requires Files(g) == WithData(Files(f), i, f.inodes[i].size, data)
    requires Sizes(g) == Sizes(f)[i := f.inodes[i].size + |data|]
    ensures Content(g, j) == if j == i then Content(f, i) + data else Content(f, j)
  {
    hide Shape, Files, WithData, ByteAt;
    DataContent(f, g, i, f.inodes[i].size, data, j);
    assert Content(f, i)[..|Content(f, i)|] == Content(f, i);
  }

  lemma BlankBit(b: Block, k: nat)
    requires Blank(b) && k < BPB
    ensures !Bit(b, k)
  {
    TestZero(k % 8);
  }

  lemma {:induction false} TestZero(k: nat)
    ensures !Test(0, k)
  {
    if k > 0 { TestZero(k - 1); }
  }

  /** With the bitmap written, mkfs has established block ownership. */
  lemma MapWritten(fs: Fs, owner: map<nat, Slot>, free: nat, buf: Block, g: Fs)
    requires Building(fs, owner, free) && Full(buf) && free < 8192
             && (forall k :: 0 <= k < 8192 ==> (Bit(buf, k) <==> k < free))
    requires fs.sb.bmapstart < |fs.blocks| && g == Store(fs, fs.sb.bmapstart, buf)
    ensures Shape(fs) && Shape(g) && Owned(g, owner) && Files(g) == Files(fs) && Table(g) == Table(fs)
  {
    hide Slots, Files, Bit, Blank, At;
    assert Shape(g);
    SameSlots(fs, owner, g);
    SameFilesIs(fs, g);
    TableIs(g, Table(fs));
    forall b | 0 <= b < fs.sb.size ensures Used(g, b) <==> b < free {
      BBlockBounds(fs.sb, b);
      if MapBlock(b) != 0 { BlankBit(fs.blocks[fs.sb.BBlock(b)], MapBit(b)); }
    }
  }

  lemma BuildingFull(fs: Fs, owner: map<nat, Slot>, free: nat, b: nat)
    requires Building(fs, owner, free) && b < |fs.blocks|
    ensures Full(fs.blocks[b])
  {
  }

  lemma Inside(pos: nat, m: nat)
    requires OffsetIn(pos) + m <= BSIZE
    ensures BlockOf(pos) < MAXFILE ==> pos + m <= MAXBYTES
    ensures BlockOf(pos) >= MAXFILE ==> pos >= MAXBYTES
  {
  }

  lemma StartsBuilding(fs: Fs)
    requires fs.sb.Valid() && |fs.blocks| == fs.sb.size && |fs.inodes| == fs.sb.ninodes
    requires forall b :: 0 <= b < |fs.blocks| ==> Blank(fs.blocks[b])
    requires forall i :: 0 <= i < |fs.inodes| ==> fs.inodes[i] == Emptied()
    ensures Building(fs, map[], fs.sb.Meta()) && AllExact(fs)
  {
  }
}
