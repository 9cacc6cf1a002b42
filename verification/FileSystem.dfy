/** The file system's operations in place, over buffers that each operation logs.  A kernel panic is
    the result `Stopped`. */
module FileSystem {
  import opened Bytes
  import opened FsModel
  import opened FsOps
  import opened FsWrite
  import Log

  datatype Result<T> = Stopped | Done(value: T)

  lemma MapPlace(fs: Fs, b: nat, bi: nat)
    requires Shape(fs) && b % 8192 == 0 && bi < 8192 && b + bi < fs.sb.size
    ensures fs.sb.BBlock(b + bi) == fs.sb.BBlock(b) < |fs.blocks| && MapBit(b + bi) == bi && |fs.blocks| == fs.sb.size
    ensures Full(fs.blocks[fs.sb.BBlock(b)])
  {
    BBlockBounds(fs.sb, b + bi);
  }

  lemma FirstFree(fs: Fs, b: nat)
    requires Shape(fs) && b <= fs.sb.size && (forall c :: 0 <= c < b ==> Used(fs, c))
    requires b < fs.sb.size ==> !Used(fs, b)
    ensures FreeFrom(fs, 0) == b
  {
  }

  class FileSystem {
    const sb: Super
    var blocks: seq<Block>
    var inodes: seq<Inode>
    var dinodes: seq<Inode>
    var logged: set<nat>

    function Now(): State
      reads this
    {
      State(Fs(sb, blocks, inodes), dinodes, logged)
    }

    /** Allocate a zeroed disk block: the first one the bitmap has free. */
    method Balloc() returns (r: Result<nat>)
      requires Shape(Now().fs)
      modifies this
      ensures match FsOps.Balloc(old(Now()))
              case Panic => r == Stopped && Now() == old(Now())
              case Ok(st, b) => r == Done(b) && Now() == st
      ensures Recorded(old(Now()), Now())
    {
      hide Shape, Bit, WithBit, Zero, MapBlock, MapBit, FreeFrom, Recorded;
      RecordedSelf(Now());
      BallocRecorded(Now());
      ghost var fs := Now().fs;
      var b := 0;
      while b < sb.size
        invariant Now() == old(Now()) && b % 8192 == 0
        invariant forall c :: 0 <= c < b && c < sb.size ==> Used(fs, c)
      {
        MapPlace(fs, b, 0);
        var bp := sb.BBlock(b);
        var bi := 0;
        while bi < 8192 && b + bi < sb.size
          invariant Now() == old(Now()) && bi <= 8192
          invariant forall c :: 0 <= c < b + bi && c < sb.size ==> Used(fs, c)
        {
          MapPlace(fs, b, bi);
          if !Bit(blocks[bp], bi) {
            FirstFree(fs, b + bi);
            blocks := blocks[bp := WithBit(blocks[bp], bi, true)];
            logged := logged + {bp};
            blocks := blocks[b + bi := Zero()];
            logged := logged + {b + bi};
            assert logged == old(logged) + {bp, b + bi};
            return Done(b + bi);
          }
          bi := bi + 1;
        }
        b := b + 8192;
      }
      FirstFree(fs, sb.size);
      return Stopped;
    }

    /** Free a disk block. */
    method Bfree(b: nat) returns (r: Result<()>)
      requires Shape(Now().fs) && b < sb.size
      modifies this
      ensures match FsOps.Bfree(old(Now()), b)
              case Panic => r == Stopped && Now() == old(Now())
              case Ok(st, _) => r == Done(()) && Now() == st
      ensures Recorded(old(Now()), Now())
    {
      hide Shape, Bit, WithBit, Recorded;
      RecordedSelf(Now());
      BfreeRecorded(Now(), b);
      var bp := sb.BBlock(b);
      var bi := MapBit(b);
      MapPlace(Now().fs, b - bi, bi);
      if !Bit(blocks[bp], bi) { return Stopped; }
      blocks := blocks[bp := WithBit(blocks[bp], bi, false)];
      logged := logged + {bp};
      return Done(());
    }

    /** The block in slot `s` of the inode itself, allocated when it is empty. */
    method FillDirect(i: nat, s: nat) returns (r: Result<nat>)
      requires Shape(Now().fs) && Sound(Now().fs) && i < |inodes| && s <= NDIRECT
      modifies this
      ensures Shape(Now().fs) && Sound(Now().fs) && |inodes| == old(|inodes|)
      ensures r.Done? ==> r.value == At(Now().fs, i, s) != 0
      ensures At(old(Now().fs), i, s) != 0 ==> r == Done(At(old(Now().fs), i, s)) && Now() == old(Now())
      ensures At(old(Now().fs), i, s) == 0 ==>
                match Fill(old(Now()), i, s)
                case Panic => r == Stopped && Now() == old(Now()) && FreeFrom(Now().fs, 0) == sb.size
                case Ok(st, b) => r == Done(b) && Now() == st
    {
      hide Sound, Full, FreeFrom, Claimed;
      var addr := inodes[i].addrs[s];
      if addr == 0 {
        var a := Balloc();
        if a.Stopped? { return Stopped; }
        addr := a.value;
        ClaimedShape(old(Now().fs), addr);
        inodes := inodes[i := inodes[i].(addrs := inodes[i].addrs[s := addr])];
        FillKeeps(old(Now()), i, s, Fill(old(Now()), i, s));
      }
      return Done(addr);
    }

    /** The block in entry `s` of the indirect block `bp`, allocated when it is empty. */
    method FillEntry(i: nat, s: nat, bp: nat) returns (r: Result<nat>)
      requires Shape(Now().fs) && Sound(Now().fs) && i < |inodes| && NDIRECT < s < NSLOTS
      requires bp == At(Now().fs, i, NDIRECT) != 0
      modifies this
      ensures Shape(Now().fs) && Sound(Now().fs) && |inodes| == old(|inodes|)
      ensures At(old(Now().fs), i, s) != 0 ==> r == Done(At(old(Now().fs), i, s)) && Now() == old(Now())
      ensures At(old(Now().fs), i, s) == 0 ==>
                match Fill(old(Now()), i, s)
                case Panic => r == Stopped && Now() == old(Now()) && FreeFrom(Now().fs, 0) == sb.size
                case Ok(st, b) => r == Done(b) && Now() == st
    {
      hide Sound, Word, WithWord, FreeFrom, Claimed;
      InRange(Now().fs, i, NDIRECT);
      var addr := Word(blocks[bp], s - NDIRECT - 1);
      if addr == 0 {
        var a := Balloc();
        if a.Stopped? { return Stopped; }
        addr := a.value;
        ClaimedShape(old(Now().fs), addr);
        blocks := blocks[bp := WithWord(blocks[bp], s - NDIRECT - 1, addr)];
        logged := logged + {bp};
        FillKeeps(old(Now()), i, s, Fill(old(Now()), i, s));
      }
      return Done(addr);
    }

    /** The disk block of file block `bn`, allocated when there is none.  It stops when the file has no
        such block or the disk is full. */
    method Bmap(i: nat, bn: nat) returns (r: Result<nat>)
      requires Shape(Now().fs) && Sound(Now().fs) && i < |inodes|
      modifies this
      ensures Shape(Now().fs) && Sound(Now().fs) && |inodes| == old(|inodes|)
      ensures match FsOps.Bmap(old(Now()), i, bn)
              case Panic => r == Stopped && (bn >= MAXFILE || FreeFrom(Now().fs, 0) == sb.size)
              case Ok(st, b) => r == Done(b) && Now() == st
      ensures r.Done? ==> bn < MAXFILE && Kept(old(Now()), Now(), i) && r.value == Table(Now().fs)[i][SlotOf(bn)] != 0
      ensures r.Done? && Table(old(Now().fs))[i][SlotOf(bn)] != 0 ==> Now() == old(Now())
      ensures r.Done? ==> Recorded(old(Now()), Now())
    {
      hide Sound, Shape, At, Fill, FreeFrom, Kept, Table, Recorded;
      BmapRecorded(Now(), i, bn);
      ghost var mapped := FsOps.Bmap(Now(), i, bn);
      if mapped.Ok? { BmapKeeps(Now(), i, bn, mapped); }
      if bn < NDIRECT {
        r := FillDirect(i, bn);
        return;
      }
      if bn - NDIRECT < NINDIRECT {
        var bp := FillDirect(i, NDIRECT);
        if bp.Stopped? { return Stopped; }
        r := FillEntry(i, bn + 1, bp.value);
        return;
      }
      return Stopped;
    }

    /** Write back inode `i`. */
    method Iupdate(i: nat)
      requires i < |inodes| && i < |dinodes|
      modifies this`dinodes, this`logged
      ensures dinodes == old(dinodes)[i := inodes[i]] && logged == old(logged) + {sb.IBlock(i)}
    {
      dinodes := dinodes[i := inodes[i]];
      logged := logged + {sb.IBlock(i)};
    }

    /** The copying loop of writei.  `reach` bytes were attempted, and with the file free of holes
        `extra` bounds what that logged. */
    method WriteLoop(i: nat, src: seq<byte>, off: nat, n: nat)
                     returns (r: Result<nat>, ghost clean: State, ghost extra: set<nat>, ghost reach: nat)
      requires Shape(Now().fs) && Sound(Now().fs) && i < |inodes| && off + n <= MAXBYTES
      modifies this
      ensures Shape(Now().fs) && Sound(Now().fs)
      ensures r.Stopped? ==> FreeFrom(Now().fs, 0) == sb.size
      ensures r.Done? ==>
                && r.value <= n && r.value <= |src| && Writing(old(Now()), clean, i, off, src[..r.value])
                && (r.value < n ==> r.value + Piece(off + r.value, n - r.value) > |src|)
                && (r.value == 0 || r.value == n || OffsetIn(off + r.value) == 0)
      ensures r.Done? && NoHoles(old(Now().fs), i) && off <= Sizes(old(Now().fs))[i] ==>
                reach <= n && Spent(old(Now()), clean, i, off, reach, extra)
      ensures r.Done? ==> Recorded(old(Now()), clean)
      ensures r.Done? ==> Spilled(clean, Now(), i, off + r.value, Tail(src, r.value, n))
    {
      hide Sound, Shape, At, FreeFrom, FsOps.Bmap, Patched, BlockOf, OffsetIn, Table, NoHoles, Fresh, Piece, Spilled,
          Sofar, Kept, Recorded;
      ghost var st0 := Now();
      clean, extra, reach := st0, {}, 0;
      SofarStarts(st0, i, off);
      var tot := 0;
      while tot < n
        invariant tot <= n && tot <= |src| && i < |inodes| && clean == Now() && reach == tot
        invariant Shape(Now().fs) && Sound(Now().fs) && Sofar(st0, Now(), i, off, src[..tot], tot, extra)
        invariant tot == 0 || tot == n || OffsetIn(off + tot) == 0
      {
        var pos := off + tot;
        ghost var was := Now();
        Within(pos);
        var bp := Bmap(i, BlockOf(pos));
        if bp.Stopped? { r := Stopped; return; }
        ghost var mapped := FsOps.Bmap(was, i, BlockOf(pos));
        var m := Piece(pos, n - tot);
        RoundMaps(st0, was, i, off, src[..tot], extra, mapped, m);
        extra := extra + {bp.value} + Fresh(was.fs, i, BlockOf(pos), bp.value);
        reach, clean := tot + m, mapped.st;
        if tot + m > |src| {
          if tot < |src| {
            blocks := blocks[bp.value := Patched(blocks[bp.value], OffsetIn(pos), src[tot..])];
          }
          SpillsHere(clean, Now(), i, pos, src[tot..], bp.value);
          SpilledKeeps(clean, Now(), i, pos, src[tot..]);
          SofarIs(st0, clean, i, off, src[..tot], reach, extra);
          r := Done(tot);
          return;
        }
        blocks := blocks[bp.value := Patched(blocks[bp.value], OffsetIn(pos), src[tot..tot + m])];
        logged := logged + {bp.value};
        RoundPuts(st0, clean, i, off, src[..tot], src[tot..tot + m], reach, extra, Now());
        assert src[..tot] + src[tot..tot + m] == src[..tot + m];
        clean := Now();
        tot := tot + m;
      }
      SpillsNot(clean, i, off + tot);
      SofarIs(st0, clean, i, off, src[..tot], reach, extra);
      r := Done(tot);
    }

    /** Write `n` bytes of the user's memory to inode `i` at `off`.  `src` is what can be read there, so
        a copy fails when it runs past it.  `early` is what is logged before the inode. */
    method Writei(i: nat, src: seq<byte>, off: nat, n: nat) 
      returns (r: Result<int>, ghost clean: State, ghost early: set<nat>)
      requires Shape(Now().fs) && Sound(Now().fs) && i < |inodes| == |dinodes| && off < WORD && n < WORD
      modifies this
      ensures Shape(Now().fs) && Sound(Now().fs)
      ensures r.Stopped? ==> FreeFrom(Now().fs, 0) == sb.size
      ensures off > old(inodes[i].size) || off + n > MAXBYTES <==> r == Done(-1)
      ensures r == Done(-1) ==> Now() == old(Now())
      ensures r.Done? ==> |inodes| == old(|inodes|) && |dinodes| == old(|dinodes|)
      ensures r.Done? && r != Done(-1) ==>
                && 0 <= r.value <= n && r.value <= |src| && Wrote(old(Now()), clean, i, off, src[..r.value])
                && (r.value < n ==> r.value + Piece(off + r.value, n - r.value) > |src|)
                && (r.value == 0 || r.value == n || OffsetIn(off + r.value) == 0)
                && Spilled(clean, Now(), i, off + r.value, Tail(src, r.value, n))
      ensures r.Done? ==> Shape(clean.fs) && i < |clean.fs.inodes| && NoHoles(Now().fs, i) == NoHoles(clean.fs, i)
      ensures r.Done? && NoHoles(old(Now().fs), i) ==> NoHoles(clean.fs, i)
      ensures r == Done(-1) ==> early == logged && clean == Now()
      ensures r.Done? ==> Recorded(old(Now()), clean) && clean.logged == logged
      ensures r.Done? && r != Done(-1) && NoHoles(old(Now().fs), i) && n <= 3072 ==>
                Charged(sb, old(logged), early, logged, sb.IBlock(i))
    {
      hide Sound, Shape, FreeFrom, Spent, Files, Table, Grew, Mapped, WithData, NoHoles, Charged, Recorded, Spilled;
      ghost var st0 := Now();
      RecordedSelf(st0);
      early, clean := logged, st0;
      if off > inodes[i].size || (off + n) % WORD < off { r := Done(-1); return; }
      if (off + n) % WORD > MAXBYTES { r := Done(-1); return; }
      var loop, done, extra, reach := WriteLoop(i, src, off, n);
      if loop.Stopped? { r := Stopped; return; }
      var tot := loop.value;
      early := logged;
      ghost var st1, tail := Now(), Tail(src, tot, n);
      TailFits(src, tot, off, n);
      SpilledKeeps(done, st1, i, off + tot, tail);
      if off + tot > inodes[i].size {
        inodes := inodes[i := inodes[i].(size := off + tot)];
      }
      Iupdate(i);
      assert inodes == st1.fs.inodes[i := inodes[i]];
      clean := Finish(done, i, off + tot);
      WritingEnds(st0, done, i, off, src[..tot], clean);
      RecordedUpdate(st0, done, i, clean);
      SpilledFinish(done, st1, i, off + tot, tail, off + tot);
      SpilledKeeps(clean, Now(), i, off + tot, tail);
      if NoHoles(st0.fs, i) && n <= 3072 {
        LogBound(st0, done, i, off, reach, extra, logged);
      }
      r := Done(tot);
    }

    /** The copying loop of readi. */
    method ReadLoop(i: nat, room: nat, off: nat, want: nat) returns (r: Result<int>, dst: seq<byte>)
      requires Shape(Now().fs) && Sound(Now().fs) && i < |inodes| && off + want <= inodes[i].size
      modifies this
      ensures Shape(Now().fs) && Sound(Now().fs)
      ensures r.Stopped? ==> FreeFrom(Now().fs, 0) == sb.size || old(inodes[i].size) > MAXBYTES
      ensures r.Done? ==> Kept(old(Now()), Now(), i) && Recorded(old(Now()), Now())
      ensures NoHoles(old(Now().fs), i) && old(inodes[i].size) <= MAXBYTES ==> r.Done? && Now() == old(Now())
      ensures r.Done? && want > room ==> r == Done(-1)
      ensures r.Done? && want <= room ==> r == Done(want) && dst == Content(old(Now().fs), i)[off..off + want]
    {
      hide Sound, Shape, At, FreeFrom, FsOps.Bmap, Files, Table, Sizes, Grew, ByteAt, BlockOf, OffsetIn, NoHoles, Kept,
          Recorded, Piece;
      dst := [];
      ghost var st0 := Now();
      RecordedSelf(st0);
      ghost var whole := NoHoles(st0.fs, i) && st0.fs.inodes[i].size <= MAXBYTES;
      ghost var content := Content(st0.fs, i);
      KeptSelf(st0, i);
      var tot := 0;
      while tot < want
        invariant tot <= want && i < |inodes| && (want <= room || tot < want)
        invariant Shape(Now().fs) && Sound(Now().fs) && Kept(st0, Now(), i) && Recorded(st0, Now())
        invariant dst == content[off..off + tot]
        invariant whole ==> Now() == st0
      {
        var pos := off + tot;
        ghost var was := Now();
        if st0.fs.inodes[i].size <= MAXBYTES { NeverStops(st0, i, pos); }
        var bp := Bmap(i, BlockOf(pos));
        if bp.Stopped? { r := Stopped; return; }
        RecordedTrans(st0, was, Now());
        var m := Piece(pos, want - tot);
        ReadRound(st0, was, i, pos, m, FsOps.Bmap(was, i, BlockOf(pos)));
        if tot + m > room { r := Done(-1); return; }
        dst := dst + blocks[bp.value].bytes[OffsetIn(pos)..OffsetIn(pos) + m];
        assert content[off..pos] + content[pos..pos + m] == content[off..pos + m];
        tot := tot + m;
      }
      r := Done(tot);
    }

    /** Read `n` bytes of inode `i` from `off`.  The user's memory takes `room` bytes, so a copy fails
        when it runs past it. */
    method Readi(i: nat, room: nat, off: nat, n: nat) returns (r: Result<int>, dst: seq<byte>)
      requires Shape(Now().fs) && Sound(Now().fs) && i < |inodes| && off < WORD && n < WORD
      modifies this
      ensures Shape(Now().fs) && Sound(Now().fs)
      ensures r.Stopped? ==> FreeFrom(Now().fs, 0) == sb.size || old(inodes[i].size) > MAXBYTES
      ensures r.Done? ==> Kept(old(Now()), Now(), i) && Recorded(old(Now()), Now())
      ensures NoHoles(old(Now().fs), i) && old(inodes[i].size) <= MAXBYTES ==> r.Done? && Now() == old(Now())
      ensures off > old(inodes[i].size) || off + n >= WORD ==> r == Done(0) && dst == []
      ensures r.Done? && off <= old(inodes[i].size) && off + n < WORD ==>
                var want := if off + n > old(inodes[i].size) then old(inodes[i].size) - off else n;
                if want <= room then r == Done(want) && dst == Content(old(Now().fs), i)[off..off + want]
                else r == Done(-1)
    {
      hide Sound, Shape, FreeFrom, NoHoles, Kept, Content, Recorded;
      RecordedSelf(Now());
      if off > inodes[i].size || (off + n) % WORD < off {
        KeptSelf(Now(), i);
        return Done(0), [];
      }
      var want := if (off + n) % WORD > inodes[i].size then inodes[i].size - off else n;
      r, dst := ReadLoop(i, room, off, want);
    }

    /** Free the blocks in the direct slots of inode `i`. */
    method TruncDirect(i: nat, ghost owner: map<nat, Slot>) returns (r: Result<()>)
      requires Shape(Now().fs) && Owned(Now().fs, owner) && i < |inodes|
      modifies this
      ensures r.Done? && dinodes == old(dinodes) && i < |inodes| && Shape(Now().fs)
      ensures Freeing(old(Now().fs), owner, Now().fs, i, Range(0, NDIRECT))
      ensures inodes[i] == old(inodes[i]).(addrs := Cleared(old(inodes[i].addrs), NDIRECT))
      ensures Recorded(old(Now()), Now())
    {
      hide Owned, SetUsed, Used, Range, Freeing, FsOps.Bfree, Full, Cleared, Recorded;
      RecordedSelf(Now());
      ghost var fs0 := Now().fs;
      ghost var addrs := inodes[i].addrs;
      RangeMore(0, 0);
      ClearedMore(addrs, 0);
      FreeingStarts(fs0, owner, i);
      var s := 0;
      while s < NDIRECT
        invariant s <= NDIRECT && i < |inodes| && dinodes == old(dinodes) && Shape(Now().fs)
        invariant Freeing(fs0, owner, Now().fs, i, Range(0, s)) && Recorded(old(Now()), Now())
        invariant inodes[i] == fs0.inodes[i].(addrs := Cleared(addrs, s))
      {
        RangeMore(0, s);
        ClearedMore(addrs, s);
        if inodes[i].addrs[s] != 0 {
          FreeingFrees(fs0, owner, Now(), i, Range(0, s), s);
          ghost var was := Now();
          var f := Bfree(inodes[i].addrs[s]);
          if f.Stopped? { return Stopped; }
          RecordedTrans(old(Now()), was, Now());
          RecordedInode(old(Now()), Now(), i, inodes[i].(addrs := inodes[i].addrs[s := 0]));
          FreeingInode(fs0, owner, Now().fs, i, Range(0, s + 1), inodes[i].(addrs := inodes[i].addrs[s := 0]));
          inodes := inodes[i := inodes[i].(addrs := inodes[i].addrs[s := 0])];
        } else {
          FreeingSkip(fs0, owner, Now().fs, i, Range(0, s), s);
        }
        s := s + 1;
      }
      r := Done(());
    }

    /** Free the blocks the indirect block `p` lists.  The entries themselves stay as they are. */
    method TruncEntries(i: nat, p: nat, ghost fs0: Fs, ghost owner: map<nat, Slot>) returns (r: Result<()>)
      requires Shape(fs0) && i < |fs0.inodes| && i < |inodes| && p == At(fs0, i, NDIRECT) != 0 && Shape(Now().fs)
      requires Freeing(fs0, owner, Now().fs, i, Range(0, NDIRECT))
      modifies this
      ensures r.Done? && dinodes == old(dinodes) && inodes == old(inodes) && Shape(Now().fs)
      ensures Freeing(fs0, owner, Now().fs, i, Range(0, NDIRECT) + Range(NDIRECT + 1, NSLOTS))
      ensures Recorded(old(Now()), Now())
    {
      hide Shape, Owned, SetUsed, Used, Range, Freeing, FsOps.Bfree, Full, At, Word, Recorded;
      RecordedSelf(Now());
      assert Range(0, NDIRECT) + Range(NDIRECT + 1, NDIRECT + 1) == Range(0, NDIRECT);
      var j := 0;
      while j < NINDIRECT
        invariant j <= NINDIRECT && dinodes == old(dinodes) && inodes == old(inodes) && Shape(Now().fs)
        invariant Freeing(fs0, owner, Now().fs, i, Range(0, NDIRECT) + Range(NDIRECT + 1, NDIRECT + 1 + j))
        invariant Recorded(old(Now()), Now())
      {
        ghost var s := NDIRECT + 1 + j;
        ghost var done := Range(0, NDIRECT) + Range(NDIRECT + 1, s);
        RangeMore(NDIRECT + 1, s);
        assert done + {s} == Range(0, NDIRECT) + Range(NDIRECT + 1, s + 1);
        EntryStays(fs0, owner, Now().fs, i, done, s);
        var a := Word(blocks[p], j);
        if a != 0 {
          FreeingFrees(fs0, owner, Now(), i, done, s);
          ghost var was := Now();
          var f := Bfree(a);
          if f.Stopped? { return Stopped; }
          RecordedTrans(old(Now()), was, Now());
        } else {
          FreeingSkip(fs0, owner, Now().fs, i, done, s);
        }
        j := j + 1;
      }
      r := Done(());
    }

    /** Discard the contents of inode `i`.  No block it frees is free already. */
    method Itrunc(i: nat) returns (r: Result<()>)
      requires Shape(Now().fs) && Sound(Now().fs) && i < |inodes| == |dinodes|
      modifies this
      ensures r.Done? && Shape(Now().fs) && Sound(Now().fs)
      ensures Table(Now().fs) == Table(old(Now().fs))[i := seq(NSLOTS, _ => 0)]
      ensures Files(Now().fs) == Files(old(Now().fs))[i := seq(MAXBYTES, _ => 0)]
      ensures Sizes(Now().fs) == Sizes(old(Now().fs))[i := 0]
      ensures dinodes == old(dinodes)[i := inodes[i]] && Recorded(old(Now()), Now())
    {
      hide Owned, SetUsed, Used, Range, Freeing, FsOps.Bfree, Table, Files, Sizes, Full, Cleared, Without, Recorded;
      ghost var fs0 := Now().fs;
      ghost var owner :| Owned(fs0, owner);
      r := TruncDirect(i, owner);
      if r.Stopped? { return; }
      AllCleared(fs0.inodes[i].addrs);
      ghost var done := Range(0, NDIRECT) + Range(NDIRECT, NSLOTS);
      if inodes[i].addrs[NDIRECT] != 0 {
        ghost var st1 := Now();
        r := TruncEntries(i, inodes[i].addrs[NDIRECT], fs0, owner);
        if r.Stopped? { return; }
        RecordedTrans(old(Now()), st1, Now());
        ghost var st2 := Now();
        done := Range(0, NDIRECT) + Range(NDIRECT + 1, NSLOTS);
        FreeingFrees(fs0, owner, Now(), i, done, NDIRECT);
        r := Bfree(inodes[i].addrs[NDIRECT]);
        if r.Stopped? { return; }
        RecordedTrans(old(Now()), st2, Now());
        done := done + {NDIRECT};
        RecordedInode(old(Now()), Now(), i, inodes[i].(addrs := inodes[i].addrs[NDIRECT := 0]));
        FreeingInode(fs0, owner, Now().fs, i, done, inodes[i].(addrs := inodes[i].addrs[NDIRECT := 0]));
        inodes := inodes[i := inodes[i].(addrs := inodes[i].addrs[NDIRECT := 0])];
      } else {
        FreeingRest(fs0, owner, Now().fs, i, Range(0, NDIRECT));
      }
      ghost var freed, st3 := Now().fs, Now();
      inodes := inodes[i := inodes[i].(size := 0)];
      Iupdate(i);
      RecordedUpdate(old(Now()), st3, i, Now());
      assert inodes[i] == Emptied();
      Truncated(fs0, owner, freed, i, done, Now().fs);
      assert Owned(Now().fs, Without(owner, i));
      r := Done(());
    }

    /** Write to an open file at its offset, a chunk to a transaction.  `chunks` has what each
        transaction logged, the inode last. */
    method FileWrite(i: nat, src: seq<byte>, off0: nat, n: int)
      returns (r: Result<int>, off: nat, ghost chunks: seq<Chunk>, ghost clean: State, ghost tail: seq<byte>)
      requires Shape(Now().fs) && Sound(Now().fs) && i < |inodes| == |dinodes| && off0 < WORD && n < 0x8000_0000
      modifies this
      ensures Shape(Now().fs) && Sound(Now().fs)
      ensures r.Stopped? ==> FreeFrom(Now().fs, 0) == sb.size
      ensures r.Done? ==>
                && off0 <= off && off - off0 <= |src|
                && (off > off0 ==> Wrote(old(Now()), clean, i, off0, src[..off - off0]))
                && (off == off0 ==> Shape(clean.fs) && Files(clean.fs) == Files(old(Now().fs))
                                    && Sizes(clean.fs) == Sizes(old(Now().fs)))
                && Spilled(clean, Now(), i, off, tail) && (tail != [] ==> tail == src[off - off0..])
                && r.value == (if off - off0 == n then n else -1)
      ensures r.Done? && n > 0 ==>
                (r.value == n <==> off0 <= old(inodes[i].size) && off0 + n <= MAXBYTES && n <= |src|)
      ensures r.Done? && NoHoles(old(Now().fs), i) ==>
                NoHoles(Now().fs, i) && forall k :: 0 <= k < |chunks| ==> Fits(sb, chunks[k], sb.IBlock(i))
      ensures r.Done? ==> Follows(old(Now()), chunks) && clean == Reached(old(Now()), chunks, |chunks|)
    {
      hide Sound, Shape, FreeFrom, Files, Table, Grew, Mapped, WithData, NoHoles, Charged, Recorded, Spilled, Led,
          Fits, Follows, Reached, Wrote, Chunked;
      ghost var st0 := Now();
      ChunkedNone(st0, i, off0);
      off, chunks, clean, tail := off0, [], st0, [];
      LedNone(st0, i);
      var w := 0;
      while w < n
        invariant 0 <= w && (w <= n || w == 0) && w <= |src| && off == off0 + w && off < WORD
        invariant i < |inodes| == |dinodes| && Shape(Now().fs) && Sound(Now().fs) && Now() == clean && tail == []
        invariant Led(st0, clean, chunks, i)
        invariant Chunked(st0, clean, i, off0, src[..w]) && (w > 0 ==> off0 <= st0.fs.inodes[i].size)
      {
        var n1 := if n - w > CHUNK then CHUNK else n - w;
        ChunkedIs(st0, clean, i, off0, src[..w]);
        ghost var before := clean;
        logged := {};
        ghost var was, early := Now(), {};
        ChunkedSame(st0, before, was, i, off0, src[..w]);
        r, clean, early := Writei(i, src[w..], off, n1);
        if r.Stopped? { return; }
        LedMore(st0, before, chunks, i, Chunk(was, early, clean));
        chunks := chunks + [Chunk(was, early, clean)];
        if r.value > 0 { off := off + r.value; }
        if r.value >= 0 {
          ChunkedMore(st0, was, clean, i, off0, src, w, r.value);
          tail := Tail(src[w..], r.value, n1);
        }
        if r.value != n1 {
          SpillsNot(clean, i, off);
          LedIs(st0, clean, chunks, i);
          r := Done(-1);
          return;
        }
        SpillsNone(clean, Now(), i, off);
        w := w + r.value;
      }
      SpillsNot(clean, i, off);
      LedIs(st0, clean, chunks, i);
      ChunkedIs(st0, clean, i, off0, src[..w]);
      r := Done(if w == n then n else -1);
    }
  }

  /** The most bytes one transaction writes. */
  const CHUNK: nat := ((Log.MAXOPBLOCKS - 1 - 1 - 2) / 2) * BSIZE

  /** What a copy that fails leaves of the source in the buffer. */
  function Tail(src: seq<byte>, done: nat, n: nat): seq<byte>
    requires done <= |src|
  {
    if done < n then src[done..] else []
  }

  lemma TailFits(src: seq<byte>, done: nat, off: nat, n: nat)
    requires done <= |src| && done <= n && (done < n ==> done + Piece(off + done, n - done) > |src|)
    ensures off + done + |Tail(src, done, n)| <= off + n
  {
  }

  lemma SpillsNot(st: State, i: nat, pos: nat)
    ensures Spilled(st, st, i, pos, [])
  {
  }

  lemma SpillsNone(st: State, st': State, i: nat, pos: nat)
    requires Spilled(st, st', i, pos, [])
    ensures st' == st
  {
  }

  lemma SpillsHere(st: State, st': State, i: nat, pos: nat, tail: seq<byte>, a: nat)
    requires Shape(st.fs) && i < |st.fs.inodes| && pos < MAXBYTES && OffsetIn(pos) + |tail| <= BSIZE
    requires 0 < a < |st.fs.blocks| && a == At(st.fs, i, SlotOf(BlockOf(pos)))
    requires st' == if tail == [] then st else st.(fs := Store(st.fs, a, Patched(st.fs.blocks[a], OffsetIn(pos), tail)))
    ensures Spilled(st, st', i, pos, tail)
  {
  }

  /** The bytes of a transfer of `n` that fall in the block of `pos`. */
  function Piece(pos: nat, n: nat): (m: nat)
    ensures m <= n && OffsetIn(pos) + m <= BSIZE && (n > 0 ==> m > 0)
    ensures m == n || OffsetIn(pos + m) == 0
  {
    if n < 1024 - OffsetIn(pos) then n else 1024 - OffsetIn(pos)
  }
}
