/** Files over blocks: inodes map file offsets to disk blocks through direct slots and one indirect
    block, and a bitmap records which blocks are taken. */
module FsModel {
  import opened Bytes

  const NDIRECT: nat := 12
  const MAXFILE: nat := 268     // NDIRECT + NINDIRECT

  /** Slots of an inode: direct blocks 0..11, the indirect block itself 12, its entries from 13. */
  const NSLOTS: nat := 269      // NDIRECT + 1 + NINDIRECT

  datatype Super = Super(size: nat, ninodes: nat, inodestart: nat, bmapstart: nat) {
    /** First data block: boot, super, log and inode blocks and the bitmap come before it. */
    function Meta(): nat { bmapstart + MapBlock(size) + 1 }
    predicate Valid() { 0 < inodestart && inodestart + ninodes / 16 + 1 <= bmapstart && Meta() <= size < WORD }
    function IBlock(i: nat): nat { i / 16 + inodestart }
    function BBlock(b: nat): nat { MapBlock(b) + bmapstart }
  }

  datatype Inode = Inode(size: nat, addrs: seq<nat>)

  datatype Fs = Fs(sb: Super, blocks: seq<Block>, inodes: seq<Inode>)

  /** Slot `s` of inode `inum`. */
  datatype Slot = Slot(inum: nat, s: nat)

  predicate Shape(fs: Fs) {
    && fs.sb.Valid()
    && |fs.blocks| == fs.sb.size
    && (forall b :: 0 <= b < |fs.blocks| ==> Full(fs.blocks[b]))
    && |fs.inodes| == fs.sb.ninodes
    && (forall i :: 0 <= i < |fs.inodes| ==> |fs.inodes[i].addrs| == NDIRECT + 1)
  }

  /** The block number in a slot, 0 when it is empty. */
  function At(fs: Fs, i: nat, s: nat): nat
    requires Shape(fs) && i < |fs.inodes| && s < NSLOTS
  {
    if s <= NDIRECT then fs.inodes[i].addrs[s]
    else
      var p := fs.inodes[i].addrs[NDIRECT];
      if 0 < p < |fs.blocks| then Word(fs.blocks[p], s - NDIRECT - 1) else 0
  }

  /** The slot that file block `bn` goes through. */
  function SlotOf(bn: nat): nat { if bn < NDIRECT then bn else bn + 1 }

  /** Byte `k` of inode `i`; where no block is mapped a file reads as zeros. */
  ghost function ByteAt(fs: Fs, i: nat, k: nat): byte
    requires Shape(fs) && i < |fs.inodes|
  {
    if BlockOf(k) >= MAXFILE then 0
    else
      var a := At(fs, i, SlotOf(BlockOf(k)));
      if 0 < a < |fs.blocks| then fs.blocks[a].bytes[OffsetIn(k)] else 0
  }

  /** The file as a flat byte string. */
  ghost function Content(fs: Fs, i: nat): seq<byte>
    requires Shape(fs) && i < |fs.inodes|
  {
    seq(fs.inodes[i].size, k requires 0 <= k => ByteAt(fs, i, k))
  }

  ghost predicate SameFiles(f: Fs, g: Fs)
    requires Shape(f) && Shape(g)
  {
    && |f.inodes| == |g.inodes|
    && (forall i, k :: 0 <= i < |f.inodes| && 0 <= k ==> ByteAt(f, i, k) == ByteAt(g, i, k))
  }

  // ---------- Ownership ----------

  predicate Used(fs: Fs, b: nat)
    requires Shape(fs) && b < fs.sb.size
  {
    Bit(fs.blocks[fs.sb.BBlock(b)], MapBit(b))
  }

  /** `owner` names, for every block in some slot, the one slot it is in. */
  ghost predicate Slots(fs: Fs, owner: map<nat, Slot>) {
    && Shape(fs)
    && (forall i, s :: 0 <= i < |fs.inodes| && 0 <= s < NSLOTS && At(fs, i, s) != 0 ==>
          At(fs, i, s) in owner && owner[At(fs, i, s)] == Slot(i, s))
    && (forall b :: b in owner ==>
          && fs.sb.Meta() <= b < fs.sb.size
          && owner[b].inum < |fs.inodes| && owner[b].s < NSLOTS
          && At(fs, owner[b].inum, owner[b].s) == b)
  }

  /** The bitmap marks exactly the metadata blocks and the blocks in slots. */
  ghost predicate Owned(fs: Fs, owner: map<nat, Slot>) {
    && Slots(fs, owner)
    && forall b :: 0 <= b < fs.sb.size ==> (Used(fs, b) <==> b < fs.sb.Meta() || b in owner)
  }

  /** Block ownership holds: some map names the one slot of every block in use. */
  ghost predicate Sound(fs: Fs) {
    exists owner :: Owned(fs, owner)
  }

  ghost predicate Holds(fs: Fs, x: Slot, b: nat)
    requires Shape(fs)
  {
    x.inum < |fs.inodes| && x.s < NSLOTS && At(fs, x.inum, x.s) == b
  }

  /** What `Owned` says without its map: a block is marked exactly when it is metadata or in a slot. */
  lemma MarkedIff(fs: Fs, owner: map<nat, Slot>, b: nat)
    requires Owned(fs, owner) && b < fs.sb.size
    ensures Used(fs, b) <==> (b < fs.sb.Meta() || exists x :: Holds(fs, x, b))
  {
    if b in owner {
      assert Holds(fs, owner[b], b);
    }
  }

  /** Different slots never hold the same block. */
  lemma SlotsDiffer(fs: Fs, owner: map<nat, Slot>, x: Slot, y: Slot)
    requires Slots(fs, owner) && x != y
    requires x.inum < |fs.inodes| && x.s < NSLOTS && y.inum < |fs.inodes| && y.s < NSLOTS
    ensures At(fs, x.inum, x.s) == 0 || At(fs, x.inum, x.s) != At(fs, y.inum, y.s)
  {
  }

  /** ... and no block is in two slots, nor is a metadata block in any. */
  lemma OneSlot(fs: Fs, owner: map<nat, Slot>, x: Slot, y: Slot, b: nat)
    requires Slots(fs, owner) && Holds(fs, x, b) && Holds(fs, y, b) && b != 0
    ensures x == y && fs.sb.Meta() <= b < fs.sb.size
  {
    assert owner[At(fs, x.inum, x.s)] == Slot(x.inum, x.s) && owner[At(fs, y.inum, y.s)] == Slot(y.inum, y.s);
  }

  // ---------- Changing one block or one slot ----------

  function Store(fs: Fs, b: nat, blk: Block): Fs
    requires b < |fs.blocks|
  {
    fs.(blocks := fs.blocks[b := blk])
  }

  function SetUsed(fs: Fs, b: nat, on: bool): Fs
    requires Shape(fs) && b < fs.sb.size
  {
    Store(fs, fs.sb.BBlock(b), WithBit(fs.blocks[fs.sb.BBlock(b)], MapBit(b), on))
  }

  lemma BBlockBounds(sb: Super, b: nat)
    requires sb.Valid() && b < sb.size
    ensures sb.bmapstart <= sb.BBlock(b) < sb.Meta()
  {
  }

  /** Changing one bit of the map changes no other bit, no slot and no file. */
  lemma SetUsedFrame(fs: Fs, owner: map<nat, Slot>, b: nat, on: bool, g: Fs)
    requires Slots(fs, owner) && b < fs.sb.size && g == SetUsed(fs, b, on)
    ensures Slots(g, owner) && SameFiles(fs, g)
    ensures forall c :: 0 <= c < fs.sb.size ==> Used(g, c) == if c == b then on else Used(fs, c)
    ensures forall i, s :: 0 <= i < |fs.inodes| && 0 <= s < NSLOTS ==> At(g, i, s) == At(fs, i, s)
    ensures forall c :: fs.sb.Meta() <= c < fs.sb.size ==> g.blocks[c] == fs.blocks[c]
  {
    BBlockBounds(fs.sb, b);
    assert Shape(g);
    SameSlots(fs, owner, g);
    forall c | 0 <= c < fs.sb.size ensures Used(g, c) == if c == b then on else Used(fs, c) {
      BitAfterWrite(fs.blocks[fs.sb.BBlock(b)], MapBit(b), on, MapBit(c));
      assert c == b <==> MapBlock(c) == MapBlock(b) && MapBit(c) == MapBit(b);
    }
  }

  /** Files and slots depend only on the inodes and on the blocks in slots. */
  lemma SameSlots(fs: Fs, owner: map<nat, Slot>, g: Fs)
    requires Slots(fs, owner) && Shape(g) && g.sb == fs.sb && g.inodes == fs.inodes
    requires forall b :: b in owner ==> b < |g.blocks| && g.blocks[b] == fs.blocks[b]
    ensures Slots(g, owner) && SameFiles(fs, g)
    ensures forall i, s :: 0 <= i < |fs.inodes| && 0 <= s < NSLOTS ==> At(g, i, s) == At(fs, i, s)
  {
    forall i, s | 0 <= i < |fs.inodes| && 0 <= s < NSLOTS ensures At(g, i, s) == At(fs, i, s) {
      assert At(fs, i, NDIRECT) == fs.inodes[i].addrs[NDIRECT];
    }
    forall i, k | 0 <= i < |fs.inodes| && 0 <= k ensures ByteAt(g, i, k) == ByteAt(fs, i, k) {
      if BlockOf(k) < MAXFILE {
        assert At(g, i, SlotOf(BlockOf(k))) == At(fs, i, SlotOf(BlockOf(k)));
      }
    }
  }

  // ---------- Allocating and freeing ----------

  /** balloc's effect: the block is marked and zeroed. */
  function Claimed(fs: Fs, b: nat): Fs
    requires Shape(fs) && b < fs.sb.size
  {
    Store(SetUsed(fs, b, true), b, Zero())
  }

  /** Claiming a free block gives a zeroed block of no slot and changes no file. */
  lemma ClaimFrame(fs: Fs, owner: map<nat, Slot>, b: nat, g: Fs)
    requires Owned(fs, owner) && b < fs.sb.size && !Used(fs, b) && g == Claimed(fs, b)
    ensures b !in owner && fs.sb.Meta() <= b
    ensures Slots(g, owner) && SameFiles(fs, g) && Blank(g.blocks[b])
    ensures forall c :: 0 <= c < fs.sb.size ==> (Used(g, c) <==> c == b || Used(fs, c))
    ensures forall i, s :: 0 <= i < |fs.inodes| && 0 <= s < NSLOTS ==> At(g, i, s) == At(fs, i, s)
  {
    var f := SetUsed(fs, b, true);
    SetUsedFrame(fs, owner, b, true, f);
    StoreFree(f, owner, b, Zero(), g);
  }

  /** Overwriting a data block that is in no slot changes no file, slot or bit. */
  lemma StoreFree(fs: Fs, owner: map<nat, Slot>, b: nat, blk: Block, g: Fs)
    requires Slots(fs, owner) && fs.sb.Meta() <= b < fs.sb.size && b !in owner && Full(blk) && g == Store(fs, b, blk)
    ensures Slots(g, owner) && SameFiles(fs, g)
    ensures forall c :: 0 <= c < fs.sb.size ==> Used(g, c) == Used(fs, c)
    ensures forall i, s :: 0 <= i < |fs.inodes| && 0 <= s < NSLOTS ==> At(g, i, s) == At(fs, i, s)
  {
    assert Shape(g);
    SameSlots(fs, owner, g);
    forall c | 0 <= c < fs.sb.size ensures Used(g, c) == Used(fs, c) {
      BBlockBounds(fs.sb, c);
    }
  }

  /** Block `b` put into slot `s` of inode `i`. */
  function Linked(fs: Fs, i: nat, s: nat, b: nat): Fs
    requires Shape(fs) && i < |fs.inodes| && s < NSLOTS && b < WORD
    requires s > NDIRECT ==> 0 < At(fs, i, NDIRECT) < |fs.blocks|
  {
    if s <= NDIRECT then fs.(inodes := fs.inodes[i := fs.inodes[i].(addrs := fs.inodes[i].addrs[s := b])])
    else
      var p := At(fs, i, NDIRECT);
      Store(fs, p, WithWord(fs.blocks[p], s - NDIRECT - 1, b))
  }

  /** Slot `s` of inode `i` is empty and reachable, and `b` is a data block in no slot. */
  ghost predicate Linkable(fs: Fs, owner: map<nat, Slot>, i: nat, s: nat, b: nat) {
    && Slots(fs, owner) && i < |fs.inodes| && s < NSLOTS
    && fs.sb.Meta() <= b < fs.sb.size && b !in owner
    && At(fs, i, s) == 0 && (s > NDIRECT ==> At(fs, i, NDIRECT) != 0)
  }

  /** Every entry of a blank indirect block is empty. */
  lemma BlankIndirect(fs: Fs, i: nat, b: nat, t: nat)
    requires Shape(fs) && i < |fs.inodes| && 0 < b < |fs.blocks| && Blank(fs.blocks[b])
    requires fs.inodes[i].addrs[NDIRECT] == b && NDIRECT < t < NSLOTS
    ensures At(fs, i, t) == 0
  {
    BlankWord(fs.blocks[b], t - NDIRECT - 1);
  }

  lemma LinkedDirectAt(fs: Fs, i: nat, s: nat, b: nat, g: Fs, j: nat, t: nat)
    requires Shape(fs) && i < |fs.inodes| && s <= NDIRECT && 0 < b < |fs.blocks| && b < WORD
    requires s == NDIRECT ==> Blank(fs.blocks[b])
    requires At(fs, i, s) == 0 && g == Linked(fs, i, s, b)
    requires j < |fs.inodes| && t < NSLOTS
    ensures Shape(g) && At(g, j, t) == if j == i && t == s then b else At(fs, j, t)
  {
    assert Shape(g);
    assert j != i ==> g.inodes[j] == fs.inodes[j];
    if j == i && t > NDIRECT {
      if s == NDIRECT {
        BlankIndirect(g, i, b, t);
      } else {
        assert g.inodes[i].addrs[NDIRECT] == fs.inodes[i].addrs[NDIRECT];
      }
    }
  }

  lemma LinkedEntryAt(fs: Fs, owner: map<nat, Slot>, i: nat, s: nat, b: nat, g: Fs, j: nat, t: nat)
    requires Linkable(fs, owner, i, s, b) && s > NDIRECT && g == Linked(fs, i, s, b)
    requires j < |fs.inodes| && t < NSLOTS
    ensures Shape(g) && At(g, j, t) == if j == i && t == s then b else At(fs, j, t)
  {
    var p := At(fs, i, NDIRECT);
    if t > NDIRECT {
      WordAfterWrite(fs.blocks[p], s - NDIRECT - 1, b, t - NDIRECT - 1);
      if j != i { SlotsDiffer(fs, owner, Slot(i, NDIRECT), Slot(j, NDIRECT)); }
    }
  }

  /** Linking changes that slot and no other. */
  lemma LinkedAt(fs: Fs, owner: map<nat, Slot>, i: nat, s: nat, b: nat, g: Fs)
    requires Linkable(fs, owner, i, s, b) && g == Linked(fs, i, s, b)
    requires s == NDIRECT ==> Blank(fs.blocks[b])
    ensures Shape(g)
    ensures forall j, t :: 0 <= j < |fs.inodes| && 0 <= t < NSLOTS ==>
              At(g, j, t) == if j == i && t == s then b else At(fs, j, t)
  {
    forall j, t | 0 <= j < |fs.inodes| && 0 <= t < NSLOTS
      ensures Shape(g) && At(g, j, t) == if j == i && t == s then b else At(fs, j, t) {
      if s <= NDIRECT { LinkedDirectAt(fs, i, s, b, g, j, t); } else { LinkedEntryAt(fs, owner, i, s, b, g, j, t); }
    }
    assert Shape(g) by {
      if s <= NDIRECT { LinkedDirectAt(fs, i, s, b, g, i, s); } else { LinkedEntryAt(fs, owner, i, s, b, g, i, s); }
    }
  }

  lemma LinkedOwner(fs: Fs, owner: map<nat, Slot>, i: nat, s: nat, b: nat, g: Fs)
    requires Linkable(fs, owner, i, s, b) && Shape(g) && g.sb == fs.sb && |g.inodes| == |fs.inodes|
    requires forall j, t :: 0 <= j < |fs.inodes| && 0 <= t < NSLOTS ==>
              At(g, j, t) == if j == i && t == s then b else At(fs, j, t)
    ensures Slots(g, owner[b := Slot(i, s)])
  {
    var now := owner[b := Slot(i, s)];
    forall j, t | 0 <= j < |g.inodes| && 0 <= t < NSLOTS && At(g, j, t) != 0
      ensures At(g, j, t) in now && now[At(g, j, t)] == Slot(j, t) {
      if j != i || t != s {
        assert At(fs, j, t) in owner && owner[At(fs, j, t)] == Slot(j, t);
      }
    }
    forall c | c in now
      ensures g.sb.Meta() <= c < g.sb.size && now[c].inum < |g.inodes| && now[c].s < NSLOTS
              && At(g, now[c].inum, now[c].s) == c {
      if c != b { assert At(fs, owner[c].inum, owner[c].s) == c != 0; }
    }
  }

  lemma LinkedUsed(fs: Fs, owner: map<nat, Slot>, i: nat, s: nat, b: nat, g: Fs, c: nat)
    requires Linkable(fs, owner, i, s, b) && g == Linked(fs, i, s, b) && Shape(g) && c < fs.sb.size
    ensures Used(g, c) == Used(fs, c)
  {
    BBlockBounds(fs.sb, c);
  }

  lemma LinkedByte(fs: Fs, owner: map<nat, Slot>, i: nat, s: nat, b: nat, g: Fs, j: nat, k: nat)
    requires Linkable(fs, owner, i, s, b) && g == Linked(fs, i, s, b) && Shape(g) && j < |fs.inodes|
    requires Blank(fs.blocks[b])
    requires BlockOf(k) < MAXFILE ==>
               At(g, j, SlotOf(BlockOf(k))) == if j == i
                   && SlotOf(BlockOf(k)) == s then b else At(fs, j, SlotOf(BlockOf(k)))
    ensures ByteAt(g, j, k) == ByteAt(fs, j, k)
  {
    if BlockOf(k) < MAXFILE {
      var t := SlotOf(BlockOf(k));
      SlotsDiffer(fs, owner, Slot(i, NDIRECT), Slot(j, t));
    }
  }

  /** Linking a zeroed free block keeps ownership and every file. */
  lemma LinkFrame(fs: Fs, owner: map<nat, Slot>, i: nat, s: nat, b: nat, g: Fs)
    requires Linkable(fs, owner, i, s, b) && Blank(fs.blocks[b]) && g == Linked(fs, i, s, b)
    ensures Slots(g, owner[b := Slot(i, s)]) && SameFiles(fs, g)
    ensures forall j, t :: 0 <= j < |fs.inodes| && 0 <= t < NSLOTS ==>
              At(g, j, t) == if j == i && t == s then b else At(fs, j, t)
    ensures forall c :: 0 <= c < fs.sb.size ==> Used(g, c) == Used(fs, c)
  {
    LinkedAt(fs, owner, i, s, b, g);
    LinkedOwner(fs, owner, i, s, b, g);
    forall c | 0 <= c < fs.sb.size ensures Used(g, c) == Used(fs, c) {
      LinkedUsed(fs, owner, i, s, b, g, c);
    }
    forall j, k | 0 <= j < |fs.inodes| && 0 <= k ensures ByteAt(g, j, k) == ByteAt(fs, j, k) {
      LinkedByte(fs, owner, i, s, b, g, j, k);
    }
  }

  // ---------- Overwriting part of a block ----------

  function Patched(b: Block, o: nat, data: seq<byte>): (r: Block)
    requires Full(b) && o + |data| <= BSIZE
    ensures Full(r)
  {
    Block(b.bytes[..o] + data + b.bytes[o + |data|..])
  }

  /** Writing into a file's block changes those bytes of that file and nothing else. */
  lemma PatchFrame(fs: Fs, owner: map<nat, Slot>, i: nat, bn: nat, o: nat, data: seq<byte>, g: Fs)
    requires Slots(fs, owner) && i < |fs.inodes| && bn < MAXFILE && o + |data| <= BSIZE
    requires At(fs, i, SlotOf(bn)) != 0
    requires g == Store(fs, At(fs, i, SlotOf(bn)), Patched(fs.blocks[At(fs, i, SlotOf(bn))], o, data))
    ensures Slots(g, owner)
    ensures forall j, t :: 0 <= j < |fs.inodes| && 0 <= t < NSLOTS ==> At(g, j, t) == At(fs, j, t)
    ensures forall c :: 0 <= c < fs.sb.size ==> Used(g, c) == Used(fs, c)
    ensures forall j, k :: 0 <= j < |fs.inodes| && 0 <= k ==>
              ByteAt(g, j, k) == if j == i && 1024 * bn + o <= k < 1024 * bn + o + |data|
                                 then data[k - 1024 * bn - o] else ByteAt(fs, j, k)
  {
    var a := At(fs, i, SlotOf(bn));
    assert Shape(g);
    forall j, t | 0 <= j < |fs.inodes| && 0 <= t < NSLOTS ensures At(g, j, t) == At(fs, j, t) {
      SlotsDiffer(fs, owner, Slot(i, SlotOf(bn)), Slot(j, NDIRECT));
    }
    forall c | 0 <= c < fs.sb.size ensures Used(g, c) == Used(fs, c) {
      BBlockBounds(fs.sb, c);
    }
    forall j, k | 0 <= j < |fs.inodes| && 0 <= k
      ensures ByteAt(g, j, k) == if j == i && 1024 * bn + o <= k < 1024 * bn + o + |data|
                                 then data[k - 1024 * bn - o] else ByteAt(fs, j, k) {
      PatchedByte(fs, owner, i, bn, o, data, g, j, k);
    }
  }

  lemma PatchedByte(fs: Fs, owner: map<nat, Slot>, i: nat, bn: nat, o: nat, data: seq<byte>, g: Fs, j: nat, k: nat)
    requires Slots(fs, owner) && i < |fs.inodes| && j < |fs.inodes| && bn < MAXFILE && o + |data| <= BSIZE
    requires At(fs, i, SlotOf(bn)) != 0
    requires g == Store(fs, At(fs, i, SlotOf(bn)), Patched(fs.blocks[At(fs, i, SlotOf(bn))], o, data))
    requires Shape(g) && (BlockOf(k) < MAXFILE ==> At(g, j, SlotOf(BlockOf(k))) == At(fs, j, SlotOf(BlockOf(k))))
    ensures ByteAt(g, j, k) == if j == i && 1024 * bn + o <= k < 1024 * bn + o + |data|
                               then data[k - 1024 * bn - o] else ByteAt(fs, j, k)
  {
    if BlockOf(k) < MAXFILE && (j != i || BlockOf(k) != bn) {
      SlotsDiffer(fs, owner, Slot(i, SlotOf(bn)), Slot(j, SlotOf(BlockOf(k))));
    }
  }
}
