/** Disk blocks as bytes, with the two encodings laid over them: 32-bit words (indirect blocks)
    and single bits (the free map). */
module Bytes {

  const BSIZE: nat := 1024
  const NINDIRECT: nat := 256   // BSIZE / sizeof(uint)
  const BPB: nat := 8192        // bitmap bits per block: BSIZE * 8
  const WORD: nat := 0x1_0000_0000

  type byte = x: int | 0 <= x < 256

  datatype Block = Block(bytes: seq<byte>)

  predicate Full(b: Block) { |b.bytes| == BSIZE }

  predicate Blank(b: Block) {
    Full(b) && forall k :: 0 <= k < BSIZE ==> b.bytes[k] == 0
  }

  /** What bzero and a fresh image hold. */
  function Zero(): (r: Block)
    ensures Blank(r)
  {
    Block(seq(BSIZE, _ => 0))
  }

  /** File offset to block and place in it; bitmap position likewise. */
  function BlockOf(k: nat): nat { k / 1024 }
  function OffsetIn(k: nat): nat { k % 1024 }
  function MapBlock(b: nat): nat { b / 8192 }
  function MapBit(b: nat): nat { b % 8192 }

  // ---------- 32-bit little-endian words ----------

  function Word(b: Block, i: nat): nat
    requires Full(b) && i < NINDIRECT
  {
    b.bytes[4 * i] as int + 0x100 * b.bytes[4 * i + 1] as int
      + 0x1_0000 * b.bytes[4 * i + 2] as int + 0x100_0000 * b.bytes[4 * i + 3] as int
  }

  function WithWord(b: Block, i: nat, v: nat): (r: Block)
    requires Full(b) && i < NINDIRECT && v < WORD
    ensures Full(r)
  {
    Block(b.bytes[4 * i := v % 0x100][4 * i + 1 := v / 0x100 % 0x100]
                 [4 * i + 2 := v / 0x1_0000 % 0x100][4 * i + 3 := v / 0x100_0000])
  }

  lemma Parts(v: nat)
    ensures v == v % 0x100 + 0x100 * (v / 0x100 % 0x100) + 0x1_0000 * (v / 0x1_0000 % 0x100)
                 + 0x100_0000 * (v / 0x100_0000)
  {
    assert v / 0x1_0000 == v / 0x100 / 0x100;
    assert v / 0x100_0000 == v / 0x1_0000 / 0x100;
  }

  /** A stored word reads back, and no other word changes. */
  lemma WordAfterWrite(b: Block, i: nat, v: nat, j: nat)
    requires Full(b) && i < NINDIRECT && v < WORD && j < NINDIRECT
    ensures Word(WithWord(b, i, v), j) == if j == i then v else Word(b, j)
  {
    if j == i { Parts(v); }
  }

  lemma BlankWord(b: Block, i: nat)
    requires Blank(b) && i < NINDIRECT
    ensures Word(b, i) == 0
  {
  }

  // ---------- Bits ----------

  /** Bit `k` of a byte, least significant first. */
  predicate Test(x: int, k: nat)
    decreases k
  {
    if k == 0 then x % 2 == 1 else Test(x / 2, k - 1)
  }

  /** The byte with bit `k` set to `on`. */
  function With(x: int, k: nat, on: bool): int
    decreases k
  {
    if k == 0 then x - x % 2 + (if on then 1 else 0) else 2 * With(x / 2, k - 1, on) + x % 2
  }

  lemma Halves(h: int, r: int)
    requires 0 <= r < 2
    ensures (2 * h + r) / 2 == h && (2 * h + r) % 2 == r
  {
  }

  lemma {:induction false} TestAfter(x: int, k: nat, on: bool, j: nat)
    ensures Test(With(x, k, on), j) == if j == k then on else Test(x, j)
    decreases k
  {
    var y := With(x, k, on);
    if k == 0 {
      Halves(x / 2, if on then 1 else 0);
      assert y / 2 == x / 2;
    } else {
      Halves(With(x / 2, k - 1, on), x % 2);
      if j > 0 { TestAfter(x / 2, k - 1, on, j - 1); }
    }
  }

  lemma {:induction false} WithBound(x: int, k: nat, on: bool, n: nat, bound: int)
    requires k < n && 0 <= x < bound && bound == Doubled(n)
    ensures 0 <= With(x, k, on) < bound
    decreases k
  {
    var half := Doubled(n - 1);
    assert bound == 2 * half;
    if k > 0 { WithBound(x / 2, k - 1, on, n - 1, half); }
  }

  function Doubled(n: nat): int { if n == 0 then 1 else 2 * Doubled(n - 1) }

  predicate Bit(b: Block, i: nat)
    requires Full(b) && i < BPB
  {
    Test(b.bytes[i / 8], i % 8)
  }

  function WithBit(b: Block, i: nat, on: bool): (r: Block)
    requires Full(b) && i < BPB
    ensures Full(r)
  {
    WithBound(b.bytes[i / 8], i % 8, on, 8, 256);
    Block(b.bytes[i / 8 := With(b.bytes[i / 8], i % 8, on)])
  }

  /** A stored bit reads back, and no other bit changes. */
  lemma BitAfterWrite(b: Block, i: nat, on: bool, j: nat)
    requires Full(b) && i < BPB && j < BPB
    ensures Bit(WithBit(b, i, on), j) == if j == i then on else Bit(b, j)
  {
    TestAfter(b.bytes[i / 8], i % 8, on, j % 8);
  }
}
