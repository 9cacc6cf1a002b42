/** The disk under the log: an image of fixed-size blocks whose only primitive is an atomic
    write of one block.  A crash can cut a sequence of such writes after any prefix. */
module Disk {

  /** BSIZE / sizeof(int): a block is seen as 32-bit words, which is how the log reads its header. */
  const BLOCK_WORDS: nat := 256

  datatype Block = Block(words: seq<nat>)

  type Image = seq<Block>

  datatype Write = Write(bno: nat, data: Block)

  /** The image after one write; the device ignores a block number it does not have. */
  function Put(d: Image, w: Write): (r: Image)
    ensures |r| == |d|
  {
    if w.bno < |d| then d[w.bno := w.data] else d
  }

  /** The image after the first `k` writes of `ws`. */
  function After(d: Image, ws: seq<Write>, k: nat): (r: Image)
    requires k <= |ws|
    ensures |r| == |d|
  {
    if k == 0 then d else Put(After(d, ws, k - 1), ws[k - 1])
  }

  /** The image after all of `ws`. */
  function Apply(d: Image, ws: seq<Write>): (r: Image)
    ensures |r| == |d|
  {
    After(d, ws, |ws|)
  }

  /** Only the writes already done matter. */
  lemma {:induction false} AfterPrefix(d: Image, xs: seq<Write>, ys: seq<Write>, k: nat)
    requires k <= |xs| && k <= |ys|
    requires forall i :: 0 <= i < k ==> xs[i] == ys[i]
    ensures After(d, xs, k) == After(d, ys, k)
  {
    if k > 0 { AfterPrefix(d, xs, ys, k - 1); }
  }

  lemma {:induction false} AfterConcat(d: Image, xs: seq<Write>, ys: seq<Write>, k: nat)
    requires k <= |ys|
    ensures After(d, xs + ys, |xs| + k) == After(Apply(d, xs), ys, k)
  {
    if k == 0 {
      AfterPrefix(d, xs + ys, xs, |xs|);
    } else {
      AfterConcat(d, xs, ys, k - 1);
    }
  }

  /** Cutting `xs + ys` inside `ys`. */
  lemma AfterSplit(d: Image, ws: seq<Write>, xs: seq<Write>, ys: seq<Write>, k: nat)
    requires ws == xs + ys && |xs| <= k <= |ws|
    ensures After(d, ws, k) == After(Apply(d, xs), ys, k - |xs|)
  {
    AfterConcat(d, xs, ys, k - |xs|);
  }

  /** A block that none of the first `k` writes names keeps its contents. */
  lemma {:induction false} AfterUntouched(d: Image, ws: seq<Write>, k: nat, b: nat)
    requires k <= |ws| && b < |d|
    requires forall i :: 0 <= i < k ==> ws[i].bno != b
    ensures After(d, ws, k)[b] == d[b]
  {
    if k > 0 { AfterUntouched(d, ws, k - 1, b); }
  }

  /** When the writes go to different blocks, each one done is still there. */
  lemma {:induction false} AfterDistinct(d: Image, ws: seq<Write>, k: nat, i: nat)
    requires i < k <= |ws| && ws[i].bno < |d|
    requires forall p, q :: 0 <= p < q < |ws| ==> ws[p].bno != ws[q].bno
    ensures After(d, ws, k)[ws[i].bno] == ws[i].data
  {
    if i < k - 1 { AfterDistinct(d, ws, k - 1, i); }
  }

  /** A disk device: the blocks it holds, and the writes it has completed so far. */
  class Device {
    var blocks: Image
    ghost var trace: seq<Write>

    constructor (image: Image)
      ensures blocks == image && trace == []
    {
      blocks, trace := image, [];
    }

    method WriteBlock(bno: nat, data: Block)
      requires bno < |blocks|
      modifies this
      ensures blocks == old(blocks)[bno := data]
      ensures trace == old(trace) + [Write(bno, data)]
    {
      blocks := blocks[bno := data];
      trace := trace + [Write(bno, data)];
    }
  }
}
