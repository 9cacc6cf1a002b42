/** The Kernighan and Ritchie allocator: one circle of free blocks in address order.  Addresses and
    sizes count headers. */
module Heap {

  datatype Header = Header(ptr: nat, size: nat)

  // ---------- Tiling ----------

  predicate Inside(blocks: map<nat, nat>, tag: map<nat, nat>, u: nat) {
    u in tag && tag[u] in blocks && tag[u] <= u < tag[u] + blocks[tag[u]]
  }

  ghost predicate Fills(tag: map<nat, nat>, a: nat, n: nat) {
    n > 0 && forall u :: a <= u < a + n ==> u in tag && tag[u] == a
  }

  /** `tag` gives the block of every unit obtained; the blocks tile those units exactly. */
  ghost predicate Tiled(blocks: map<nat, nat>, tag: map<nat, nat>) {
    (forall u :: u in tag ==> Inside(blocks, tag, u)) && (forall a :: a in blocks ==> Fills(tag, a, blocks[a]))
  }

  /** Two blocks never overlap. */
  lemma Disjoint(blocks: map<nat, nat>, tag: map<nat, nat>, a: nat, b: nat)
    requires Tiled(blocks, tag) && a in blocks && b in blocks && a < b
    ensures a + blocks[a] <= b
  {
    assert Fills(tag, a, blocks[a]) && Fills(tag, b, blocks[b]);
    assert b in tag && tag[b] == b;
  }

  lemma StartsTagged(blocks: map<nat, nat>, tag: map<nat, nat>)
    requires Tiled(blocks, tag)
    ensures forall a :: a in blocks ==> a in tag && tag[a] == a
  {
    forall a | a in blocks ensures a in tag && tag[a] == a {
      assert Fills(tag, a, blocks[a]);
    }
  }

  /** Units of block `b` go to block `a`. */
  ghost function Renamed(tag: map<nat, nat>, b: nat, a: nat): map<nat, nat> {
    map u | u in tag :: if tag[u] == b then a else tag[u]
  }

  ghost function Merged(blocks: map<nat, nat>, a: nat, b: nat): map<nat, nat>
    requires a in blocks && b in blocks
  {
    (blocks - {b})[a := blocks[a] + blocks[b]]
  }

  lemma MergeTiles(blocks: map<nat, nat>, tag: map<nat, nat>, a: nat, b: nat)
    requires Tiled(blocks, tag) && a in blocks && b in blocks && a + blocks[a] == b
    ensures Tiled(Merged(blocks, a, b), Renamed(tag, b, a)) && Renamed(tag, b, a).Keys == tag.Keys
  {
    var bs, t := Merged(blocks, a, b), Renamed(tag, b, a);
    forall u | u in t ensures Inside(bs, t, u) {
      assert Inside(blocks, tag, u);
    }
    forall c | c in bs ensures Fills(t, c, bs[c]) {
      assert Fills(tag, c, blocks[c]);
      if c == a { assert Fills(tag, b, blocks[b]); }
    }
  }

  /** Block `a` keeps its first `k` units, the rest become a block of their own. */
  ghost function SplitAt(blocks: map<nat, nat>, a: nat, k: nat): map<nat, nat>
    requires a in blocks && k < blocks[a]
  {
    blocks[a := k][a + k := blocks[a] - k]
  }

  ghost function Retagged(tag: map<nat, nat>, a: nat, k: nat): map<nat, nat> {
    map u | u in tag :: if tag[u] == a && u >= a + k then a + k else tag[u]
  }

  lemma SplitInside(blocks: map<nat, nat>, tag: map<nat, nat>, a: nat, k: nat, u: nat)
    requires a in blocks && 0 < k < blocks[a] && a + k !in blocks && Inside(blocks, tag, u)
    ensures Inside(SplitAt(blocks, a, k), Retagged(tag, a, k), u)
  {
  }

  lemma SplitFills(blocks: map<nat, nat>, tag: map<nat, nat>, a: nat, k: nat, c: nat)
    requires a in blocks && 0 < k < blocks[a] && a + k !in blocks && Fills(tag, a, blocks[a])
             && c in SplitAt(blocks, a, k)
    requires c in blocks ==> Fills(tag, c, blocks[c])
    ensures Fills(Retagged(tag, a, k), c, SplitAt(blocks, a, k)[c])
  {
  }

  lemma SplitTiles(blocks: map<nat, nat>, tag: map<nat, nat>, a: nat, k: nat)
    requires Tiled(blocks, tag) && a in blocks && 0 < k < blocks[a]
    ensures a + k !in blocks
    ensures Tiled(SplitAt(blocks, a, k), Retagged(tag, a, k)) && Retagged(tag, a, k).Keys == tag.Keys
  {
    hide Inside, SplitAt;
    var bs, t := SplitAt(blocks, a, k), Retagged(tag, a, k);
    assert Fills(tag, a, blocks[a]);
    StartsTagged(blocks, tag);
    assert a + k in tag && tag[a + k] == a;
    forall u | u in t ensures Inside(bs, t, u) {
      SplitInside(blocks, tag, a, k, u);
    }
    forall c | c in bs ensures Fills(t, c, bs[c]) {
      SplitFills(blocks, tag, a, k, c);
    }
  }

  ghost function Span(a: nat, n: nat): (s: set<nat>)
    ensures forall u :: u in s <==> a <= u < a + n
  {
    if n == 0 then {} else Span(a, n - 1) + {a + n - 1}
  }

  ghost function Extended(tag: map<nat, nat>, a: nat, n: nat): map<nat, nat> {
    map u | u in tag.Keys + Span(a, n) :: if u in tag then tag[u] else a
  }

  lemma ExtendTiles(blocks: map<nat, nat>, tag: map<nat, nat>, a: nat, n: nat)
    requires Tiled(blocks, tag) && n > 0 && (forall u :: u in tag ==> u < a)
    ensures a !in blocks && Tiled(blocks[a := n], Extended(tag, a, n))
    ensures Extended(tag, a, n).Keys == tag.Keys + Span(a, n)
  {
    hide Inside, Fills, Extended;
    var bs, t := blocks[a := n], Extended(tag, a, n);
    StartsTagged(blocks, tag);
    assert t.Keys == tag.Keys + Span(a, n) by { ExtendedKeys(tag, a, n); }
    forall u | u in t ensures Inside(bs, t, u) {
      ExtendInside(blocks, tag, a, n, u);
    }
    forall c | c in bs ensures Fills(t, c, bs[c]) {
      ExtendFills(blocks, tag, a, n, c);
    }
  }

  lemma ExtendedKeys(tag: map<nat, nat>, a: nat, n: nat)
    ensures Extended(tag, a, n).Keys == tag.Keys + Span(a, n)
  {
  }

  lemma ExtendInside(blocks: map<nat, nat>, tag: map<nat, nat>, a: nat, n: nat, u: nat)
    requires a !in blocks && u in Extended(tag, a, n) && (u in tag ==> Inside(blocks, tag, u))
    ensures Inside(blocks[a := n], Extended(tag, a, n), u)
  {
  }

  lemma ExtendFills(blocks: map<nat, nat>, tag: map<nat, nat>, a: nat, n: nat, c: nat)
    requires a !in blocks && n > 0 && (forall u :: u in tag ==> u < a)
             && (c == a || (c in blocks && Fills(tag, c, blocks[c])))
    ensures Fills(Extended(tag, a, n), c, blocks[a := n][c])
  {
  }

  // ---------- The circle ----------

  /** The place after `i` on a circle of `n`. */
  function After(n: nat, i: nat): nat { if i + 1 < n then i + 1 else 0 }

  /** The block at place `i` leads to the next, and does not touch it. */
  predicate LinkAt(mem: map<nat, Header>, free: seq<nat>, i: nat)
    requires i < |free|
  {
    && free[i] in mem && mem[free[i]].ptr == free[After(|free|, i)]
    && (i + 1 < |free| ==> free[i] + mem[free[i]].size < free[i + 1])
  }

  ghost predicate Sorted(free: seq<nat>) { forall i, j :: 0 <= i < j < |free| ==> free[i] < free[j] }

  /** `free` is the whole circle from `base` on: in address order with one wrap, no two blocks
      touching, `base` lowest and of size 0. */
  ghost predicate Circle(mem: map<nat, Header>, base: nat, free: seq<nat>) {
    && |free| > 0 && free[0] == base && base in mem && mem[base].size == 0 && Sorted(free)
    && (forall i :: 0 <= i < |free| ==> free[i] in mem)
    && forall i :: 0 <= i < |free| ==> LinkAt(mem, free, i)
  }

  /** Where `bp` belongs: after place `t`. */
  ghost predicate Belongs(free: seq<nat>, bp: nat, t: nat) {
    t < |free| && free[t] < bp && (t + 1 < |free| ==> bp < free[t + 1])
  }

  lemma InsertSorted(free: seq<nat>, t: nat, bp: nat, skip: nat)
    requires Sorted(free) && Belongs(free, bp, t) && t < skip <= |free|
    ensures Sorted(free[..t + 1] + [bp] + free[skip..])
  {
  }

  lemma DropSorted(free: seq<nat>, i: nat)
    requires Sorted(free) && i < |free|
    ensures Sorted(free[..i] + free[i + 1..])
  {
  }

  // The links of the four outcomes, place by place.

  lemma AloneLink(mem: map<nat, Header>, free: seq<nat>, t: nat, bp: nat, n: nat, mem': map<nat, Header>,
                  now: seq<nat>, i: nat)
    requires t < |free| && now == free[..t + 1] + [bp] + free[t + 1..] && i < |now| && Sorted(now)
    requires LinkAt(mem, free, t) && (i <= t ==> LinkAt(mem, free, i)) && (i > t + 1 ==> LinkAt(mem, free, i - 1))
    requires (t + 1 < |free| ==> bp + n < free[t + 1]) && free[t] + mem[free[t]].size < bp
    requires mem' == mem[bp := Header(free[After(|free|, t)], n)][free[t] := Header(bp, mem[free[t]].size)]
    ensures LinkAt(mem', now, i)
  {
    hide Sorted;
    Different(now, i, t + 1);
    Different(now, i, t);
    if i <= t {
      assert now[i] == free[i];
    } else if i > t + 1 {
      assert now[i] == free[i - 1];
    }
  }

  lemma Different(s: seq<nat>, i: nat, j: nat)
    requires Sorted(s) && i < |s| && j < |s|
    ensures i != j ==> s[i] != s[j]
  {
  }

  lemma BelowLink(mem: map<nat, Header>, free: seq<nat>, t: nat, bp: nat, n: nat, mem': map<nat, Header>,
                  now: seq<nat>, i: nat)
    requires t + 1 < |free| && now == free[..t + 1] + [bp] + free[t + 2..] && i < |now| && Sorted(now)
    requires LinkAt(mem, free, t) && LinkAt(mem, free, t + 1) && LinkAt(mem, free, i)
    requires bp + n == free[t + 1] && free[t] + mem[free[t]].size < bp
    requires mem' == mem[bp := Header(mem[free[t + 1]].ptr, n + mem[free[t + 1]].size)][free[t] := Header(bp,
             mem[free[t]].size)]
    ensures LinkAt(mem', now, i)
  {
    hide Sorted;
    Different(now, i, t + 1);
    Different(now, i, t);
    assert i != t + 1 ==> now[i] == free[i];
  }

  lemma BetweenLink(mem: map<nat, Header>, free: seq<nat>, t: nat, bp: nat, n: nat, mem': map<nat, Header>,
                    now: seq<nat>, i: nat)
    requires t + 1 < |free| && now == free[..t + 1] + free[t + 2..] && i < |now| && Sorted(now) && bp !in free
    requires LinkAt(mem, free, t) && LinkAt(mem, free, t + 1)
             && (if i <= t then LinkAt(mem, free, i) else LinkAt(mem, free, i + 1))
    requires bp + n == free[t + 1] && free[t] + mem[free[t]].size == bp
    requires mem' == mem[bp := Header(mem[free[t + 1]].ptr, n + mem[free[t + 1]].size)]
                        [free[t] := Header(mem[free[t + 1]].ptr, mem[free[t]].size + (n + mem[free[t + 1]].size))]
    ensures LinkAt(mem', now, i)
  {
    hide Sorted;
    Different(now, i, t);
    if i <= t {
      assert now[i] == free[i] && free[i] in free;
    } else {
      assert now[i] == free[i + 1] && free[i + 1] in free;
    }
  }

  /** Inserted without touching anything. */
  lemma InsertAlone(mem: map<nat, Header>, base: nat, free: seq<nat>, t: nat, bp: nat, n: nat, mem': map<nat, Header>)
    requires Circle(mem, base, free) && Belongs(free, bp, t) && n > 0
    requires (t + 1 < |free| ==> bp + n < free[t + 1]) && free[t] + mem[free[t]].size < bp
    requires mem' == mem[bp := Header(free[After(|free|, t)], n)][free[t] := Header(bp, mem[free[t]].size)]
    ensures Circle(mem', base, free[..t + 1] + [bp] + free[t + 1..])
  {
    hide Sorted, LinkAt;
    var now := free[..t + 1] + [bp] + free[t + 1..];
    InsertSorted(free, t, bp, t + 1);
    forall i | 0 <= i < |now| ensures now[i] in mem' && LinkAt(mem', now, i) {
      AloneLink(mem, free, t, bp, n, mem', now, i);
    }
    BaseKept(free, t, bp);
  }

  lemma BaseKept(free: seq<nat>, t: nat, bp: nat)
    requires Sorted(free) && Belongs(free, bp, t)
    ensures free[0] < bp && (t > 0 ==> free[0] < free[t])
  {
  }

  /** Joined with the block above. */
  lemma InsertBelow(mem: map<nat, Header>, base: nat, free: seq<nat>, t: nat, bp: nat, n: nat, mem': map<nat, Header>)
    requires Circle(mem, base, free) && Belongs(free, bp, t) && n > 0 && t + 1 < |free| && bp + n == free[t + 1]
    requires free[t] + mem[free[t]].size < bp
    requires mem' == mem[bp := Header(mem[free[t + 1]].ptr, n + mem[free[t + 1]].size)][free[t] := Header(bp,
             mem[free[t]].size)]
    ensures Circle(mem', base, free[..t + 1] + [bp] + free[t + 2..])
  {
    hide Sorted, LinkAt;
    var now := free[..t + 1] + [bp] + free[t + 2..];
    InsertSorted(free, t, bp, t + 2);
    forall i | 0 <= i < |now| ensures now[i] in mem' && LinkAt(mem', now, i) {
      BelowLink(mem, free, t, bp, n, mem', now, i);
    }
    BaseKept(free, t, bp);
  }

  /** Joined with the block below. */
  lemma InsertAbove(mem: map<nat, Header>, base: nat, free: seq<nat>, t: nat, bp: nat, n: nat, mem': map<nat, Header>)
    requires Circle(mem, base, free) && Belongs(free, bp, t) && n > 0 && t > 0
    requires (t + 1 < |free| ==> bp + n < free[t + 1]) && free[t] + mem[free[t]].size == bp
    requires mem' == mem[bp := Header(free[After(|free|, t)], n)][free[t] := Header(free[After(|free|, t)],
             mem[free[t]].size + n)]
    ensures Circle(mem', base, free)
  {
    assert LinkAt(mem, free, t);
    forall i | 0 <= i < |free| ensures LinkAt(mem', free, i) {
      assert LinkAt(mem, free, i);
    }
  }

  /** Joined with both. */
  lemma InsertBetween(mem: map<nat, Header>, base: nat, free: seq<nat>, t: nat, bp: nat, n: nat, mem': map<nat, Header>)
    requires Circle(mem, base, free) && Belongs(free, bp, t) && n > 0 && t > 0 && t + 1 < |free|
             && bp + n == free[t + 1]
    requires free[t] + mem[free[t]].size == bp && bp !in free
    requires mem' == mem[bp := Header(mem[free[t + 1]].ptr, n + mem[free[t + 1]].size)]
                        [free[t] := Header(mem[free[t + 1]].ptr, mem[free[t]].size + (n + mem[free[t + 1]].size))]
    ensures Circle(mem', base, free[..t + 1] + free[t + 2..])
  {
    hide Sorted, LinkAt;
    var now := free[..t + 1] + free[t + 2..];
    DropSorted(free, t + 1);
    forall i | 0 <= i < |now| ensures now[i] in mem' && LinkAt(mem', now, i) {
      BetweenLink(mem, free, t, bp, n, mem', now, i);
    }
    BaseKept(free, t, bp);
  }

  // ---------- What free does ----------

  /** The block `bp` of `n` reaches the next free block. */
  predicate Up(free: seq<nat>, t: nat, bp: nat, n: nat) { t + 1 < |free| && bp + n == free[t + 1] }

  /** The free block before it reaches `bp`. */
  predicate Low(mem: map<nat, Header>, free: seq<nat>, t: nat, bp: nat) {
    t < |free| && free[t] in mem && free[t] + mem[free[t]].size == bp
  }

  /** The headers after `bp` is freed behind place `t`. */
  function FreedMem(mem: map<nat, Header>, free: seq<nat>, t: nat, bp: nat): map<nat, Header>
    requires t < |free| && free[t] in mem && mem[free[t]].ptr in mem && bp in mem
  {
    var p, next, n := free[t], mem[free[t]].ptr, mem[bp].size;
    var b := if bp + n == next then Header(mem[next].ptr, n + mem[next].size) else Header(next, n);
    if p + mem[p].size == bp then mem[bp := b][p := Header(b.ptr, mem[p].size + b.size)]
    else mem[bp := b][p := Header(bp, mem[p].size)]
  }

  /** ... and the circle. */
  function FreedList(mem: map<nat, Header>, free: seq<nat>, t: nat, bp: nat, n: nat): seq<nat>
    requires t < |free|
  {
    free[..t + 1] + (if Low(mem, free, t, bp) then [] else [bp]) + free[if Up(free, t, bp, n) then t + 2 else t + 1..]
  }

  lemma FreeCircle(mem: map<nat, Header>, base: nat, free: seq<nat>, t: nat, bp: nat, n: nat)
    requires Circle(mem, base, free) && Belongs(free, bp, t) && bp in mem && mem[bp].size == n > 0 && bp !in free
    requires t + 1 < |free| ==> bp + n <= free[t + 1]
    requires free[t] + mem[free[t]].size <= bp
    ensures mem[free[t]].ptr in mem && Circle(FreedMem(mem, free, t, bp), base, FreedList(mem, free, t, bp, n))
  {
    assert LinkAt(mem, free, t);
    var now := FreedMem(mem, free, t, bp);
    if Up(free, t, bp, n) {
      if Low(mem, free, t, bp) {
        InsertBetween(mem, base, free, t, bp, n, now);
        assert FreedList(mem, free, t, bp, n) == free[..t + 1] + free[t + 2..];
      } else {
        InsertBelow(mem, base, free, t, bp, n, now);
      }
    } else if Low(mem, free, t, bp) {
      InsertAbove(mem, base, free, t, bp, n, now);
      assert FreedList(mem, free, t, bp, n) == free;
    } else {
      InsertAlone(mem, base, free, t, bp, n, now);
    }
  }

  // ---------- The whole heap ----------

  /** The blocks are the live ones and the free ones, `base` aside; their headers have their sizes. */
  ghost predicate Consistent(mem: map<nat, Header>, base: nat, free: seq<nat>, live: set<nat>, blocks: map<nat, nat>) {
    && (forall a :: a in blocks <==> a in live || (a in free && a != base))
    && (forall a :: a in live ==> a !in free)
    && (forall a :: a in blocks ==> base < a && a in mem && mem[a].size == blocks[a])
  }

  ghost predicate Good(mem: map<nat, Header>, base: nat, free: seq<nat>, live: set<nat>, blocks: map<nat, nat>,
                       tag: map<nat, nat>) {
    Circle(mem, base, free) && Consistent(mem, base, free, live, blocks) && Tiled(blocks, tag)
  }

  ghost function FreedBlocks(mem: map<nat, Header>, free: seq<nat>, t: nat, bp: nat,
                             blocks: map<nat, nat>): map<nat, nat>
    requires t < |free| && bp in blocks && (Up(free, t, bp, blocks[bp]) ==> free[t + 1] in blocks)
    requires Low(mem, free, t, bp) ==> free[t] in blocks && free[t] != bp && !(t + 1 < |free| && free[t] == free[t + 1])
  {
    var up := if Up(free, t, bp, blocks[bp]) then Merged(blocks, bp, free[t + 1]) else blocks;
    if Low(mem, free, t, bp) then Merged(up, free[t], bp) else up
  }

  ghost function FreedTag(mem: map<nat, Header>, free: seq<nat>, t: nat, bp: nat, n: nat,
                          tag: map<nat, nat>): map<nat, nat> {
    var up := if Up(free, t, bp, n) then Renamed(tag, free[t + 1], bp) else tag;
    if Low(mem, free, t, bp) then Renamed(up, bp, free[t]) else up
  }

  /** The free blocks next to a block that belongs after place `t` do not overlap it. */
  lemma Neighbours(mem: map<nat, Header>, base: nat, free: seq<nat>, live: set<nat>, blocks: map<nat, nat>,
                   tag: map<nat, nat>, t: nat, bp: nat)
    requires Good(mem, base, free, live, blocks, tag) && bp in live && Belongs(free, bp, t)
    ensures bp in blocks && bp in mem && blocks[bp] == mem[bp].size > 0
    ensures t + 1 < |free| ==> free[t + 1] in blocks && bp + blocks[bp] <= free[t + 1]
    ensures free[t] in mem && free[t] + mem[free[t]].size <= bp && (t > 0 ==> free[t] in blocks)
    ensures Low(mem, free, t, bp) ==> t > 0
  {
    assert free[t] in free;
    assert Fills(tag, bp, blocks[bp]);
    if t + 1 < |free| {
      assert free[t + 1] in free;
      Disjoint(blocks, tag, bp, free[t + 1]);
    }
    if t > 0 { Disjoint(blocks, tag, free[t], bp); }
  }

  lemma FreedTiles(mem: map<nat, Header>, base: nat, free: seq<nat>, live: set<nat>, blocks: map<nat, nat>,
                   tag: map<nat, nat>, t: nat, bp: nat)
    requires Good(mem, base, free, live, blocks, tag) && bp in live && Belongs(free, bp, t)
    ensures bp in blocks && (Up(free, t, bp, blocks[bp]) ==> free[t + 1] in blocks)
            && (Low(mem, free, t, bp) ==> free[t] in blocks)
    ensures Tiled(FreedBlocks(mem, free, t, bp, blocks), FreedTag(mem, free, t, bp, blocks[bp], tag))
    ensures FreedTag(mem, free, t, bp, blocks[bp], tag).Keys == tag.Keys
  {
    hide Tiled, Merged, Renamed;
    Neighbours(mem, base, free, live, blocks, tag, t, bp);
    var n := blocks[bp];
    if Up(free, t, bp, n) {
      MergeTiles(blocks, tag, bp, free[t + 1]);
      var bs, tg := Merged(blocks, bp, free[t + 1]), Renamed(tag, free[t + 1], bp);
      MergedIs(blocks, bp, free[t + 1]);
      if Low(mem, free, t, bp) { MergeTiles(bs, tg, free[t], bp); }
    } else if Low(mem, free, t, bp) {
      MergeTiles(blocks, tag, free[t], bp);
    }
  }

  lemma MergedIs(blocks: map<nat, nat>, a: nat, b: nat)
    requires a in blocks && b in blocks && a != b
    ensures forall c :: c in Merged(blocks, a, b) <==> c in blocks && c != b
    ensures forall c ::
            c in blocks && c != b ==> Merged(blocks, a, b)[c] == if c == a then blocks[a] + blocks[b] else blocks[c]
  {
  }

  lemma FreedMembers(mem: map<nat, Header>, free: seq<nat>, t: nat, bp: nat, n: nat, a: nat)
    requires t < |free| && Sorted(free)
    ensures a in FreedList(mem, free, t, bp, n) <==>
              (a in free && !(Up(free, t, bp, n) && a == free[t + 1])) || (a == bp && !Low(mem, free, t, bp))
  {
    var rest := free[if Up(free, t, bp, n) then t + 2 else t + 1..];
    assert a in rest <==> exists i :: (if Up(free, t, bp, n) then t + 2 else t + 1) <= i < |free| && free[i] == a;
    assert a in free[..t + 1] <==> exists i :: 0 <= i <= t && free[i] == a;
  }

  lemma FreedBlocksIs(mem: map<nat, Header>, free: seq<nat>, t: nat, bp: nat, blocks: map<nat, nat>, a: nat)
    requires t < |free| && bp in blocks && free[t] != bp
             && (Up(free, t, bp, blocks[bp]) ==> free[t + 1] in blocks && free[t + 1] != bp)
    requires Low(mem, free, t, bp) ==> free[t] in blocks && !(t + 1 < |free| && free[t] == free[t + 1])
    ensures var up, low := Up(free, t, bp, blocks[bp]), Low(mem, free, t, bp);
            var n := if up then blocks[bp] + blocks[free[t + 1]] else blocks[bp];
            var bs := FreedBlocks(mem, free, t, bp, blocks);
            && (a in bs <==> a in blocks && !(up && a == free[t + 1]) && !(low && a == bp))
            && (a in bs ==>
                bs[a] == if low && a == free[t] then blocks[free[t]] + n else if a == bp then n else blocks[a])
  {
  }

  lemma FreedAt(mem: map<nat, Header>, base: nat, free: seq<nat>, live: set<nat>, blocks: map<nat, nat>, t: nat,
                bp: nat, a: nat)
    requires Circle(mem, base, free) && Consistent(mem, base, free, live, blocks) && bp in live && Belongs(free, bp, t)
    requires bp in blocks && bp in mem && mem[free[t]].ptr in mem && (t + 1 < |free| ==> free[t + 1] in blocks)
    requires Low(mem, free, t, bp) ==> t > 0 && free[t] in blocks
    ensures var now, bs, m := FreedList(mem, free, t, bp, blocks[bp]), FreedBlocks(mem, free, t, bp, blocks),
            FreedMem(mem, free, t, bp);
            && (a in bs <==> a in live - {bp} || (a in now && a != base))
            && (a in live - {bp} ==> a !in now)
            && (a in bs ==> base < a && a in m && m[a].size == bs[a])
  {
    hide FreedBlocks, FreedList, Sorted;
    SortedAt(free, t);
    FreedMembers(mem, free, t, bp, blocks[bp], a);
    FreedBlocksIs(mem, free, t, bp, blocks, a);
    assert LinkAt(mem, free, t);
    assert free[t] in free;
  }

  lemma SortedAt(free: seq<nat>, t: nat)
    requires Sorted(free) && t < |free|
    ensures t + 1 < |free| ==> free[t] < free[t + 1] && free[0] < free[t + 1]
    ensures t > 0 ==> free[0] < free[t]
  {
  }

  lemma FreedConsistent(mem: map<nat, Header>, base: nat, free: seq<nat>, live: set<nat>, blocks: map<nat, nat>,
                        tag: map<nat, nat>, t: nat, bp: nat)
    requires Good(mem, base, free, live, blocks, tag) && bp in live && Belongs(free, bp, t)
    ensures bp in blocks && (Up(free, t, bp, blocks[bp]) ==> free[t + 1] in blocks)
            && (Low(mem, free, t, bp) ==> free[t] in blocks)
    ensures mem[free[t]].ptr in mem && bp in mem
    ensures Consistent(FreedMem(mem, free, t, bp), base, FreedList(mem, free, t, bp, blocks[bp]), live - {bp},
            FreedBlocks(mem, free, t, bp, blocks))
  {
    hide Tiled, FreedBlocks, FreedList, FreedMem;
    Neighbours(mem, base, free, live, blocks, tag, t, bp);
    assert LinkAt(mem, free, t);
    forall a: nat
      ensures var now, bs, m := FreedList(mem, free, t, bp, blocks[bp]), FreedBlocks(mem, free, t, bp, blocks),
              FreedMem(mem, free, t, bp);
              && (a in bs <==> a in live - {bp} || (a in now && a != base))
              && (a in live - {bp} ==> a !in now)
              && (a in bs ==> base < a && a in m && m[a].size == bs[a]) {
      FreedAt(mem, base, free, live, blocks, t, bp, a);
    }
  }

  /** Freeing a live block keeps the heap good, with neither a unit lost nor one gained. */
  lemma FreeKeeps(mem: map<nat, Header>, base: nat, free: seq<nat>, live: set<nat>, blocks: map<nat, nat>,
                  tag: map<nat, nat>, t: nat, bp: nat)
    requires Good(mem, base, free, live, blocks, tag) && bp in live && Belongs(free, bp, t)
    ensures bp in blocks && (Up(free, t, bp, blocks[bp]) ==> free[t + 1] in blocks)
            && (Low(mem, free, t, bp) ==> free[t] in blocks)
    ensures mem[free[t]].ptr in mem && bp in mem
    ensures Good(FreedMem(mem, free, t, bp), base, FreedList(mem, free, t, bp, blocks[bp]), live - {bp},
                 FreedBlocks(mem, free, t, bp, blocks), FreedTag(mem, free, t, bp, blocks[bp], tag))
    ensures FreedTag(mem, free, t, bp, blocks[bp], tag).Keys == tag.Keys
    ensures forall a ::
            a in live && a != bp ==>
            a in FreedBlocks(mem, free, t, bp, blocks) && FreedBlocks(mem, free, t, bp, blocks)[a] == blocks[a]
  {
    hide Circle, Tiled, Merged, FreedMem, FreedList, FreedTag;
    Neighbours(mem, base, free, live, blocks, tag, t, bp);
    FreedTiles(mem, base, free, live, blocks, tag, t, bp);
    FreedConsistent(mem, base, free, live, blocks, tag, t, bp);
    assert Circle(FreedMem(mem, free, t, bp), base, FreedList(mem, free, t, bp, blocks[bp])) by {
      FreeCircle(mem, base, free, t, bp, blocks[bp]);
    }
    OthersStay(mem, base, free, live, blocks, tag, t, bp);
  }

  lemma OthersStay(mem: map<nat, Header>, base: nat, free: seq<nat>, live: set<nat>, blocks: map<nat, nat>,
                   tag: map<nat, nat>, t: nat, bp: nat)
    requires Good(mem, base, free, live, blocks, tag) && bp in live && Belongs(free, bp, t) && bp in blocks
    requires (Up(free, t, bp, blocks[bp]) ==> free[t + 1] in blocks) && (Low(mem, free, t, bp) ==> free[t] in blocks)
    ensures forall a ::
            a in live && a != bp ==>
            a in FreedBlocks(mem, free, t, bp, blocks) && FreedBlocks(mem, free, t, bp, blocks)[a] == blocks[a]
  {
    hide Tiled, Circle;
    assert free[t] in free;
    if t + 1 < |free| { assert free[t + 1] in free; }
  }

  // ---------- What malloc does ----------

  lemma UnlinkLink(mem: map<nat, Header>, free: seq<nat>, i: nat, mem': map<nat, Header>, now: seq<nat>, j: nat)
    requires 0 < i < |free| && now == free[..i] + free[i + 1..] && j < |now| && Sorted(now)
    requires LinkAt(mem, free, i - 1) && LinkAt(mem, free, i)
             && (if j < i then LinkAt(mem, free, j) else LinkAt(mem, free, j + 1))
    requires mem' == mem[free[i - 1] := Header(mem[free[i]].ptr, mem[free[i - 1]].size)]
    ensures LinkAt(mem', now, j)
  {
    hide Sorted;
    Different(now, j, i - 1);
    if j < i {
      assert now[j] == free[j];
    } else {
      assert now[j] == free[j + 1];
    }
  }

  lemma UnlinkCircle(mem: map<nat, Header>, base: nat, free: seq<nat>, i: nat, mem': map<nat, Header>)
    requires Circle(mem, base, free) && 0 < i < |free|
             && mem' == mem[free[i - 1] := Header(mem[free[i]].ptr, mem[free[i - 1]].size)]
    ensures Circle(mem', base, free[..i] + free[i + 1..])
  {
    hide Sorted, LinkAt;
    var now := free[..i] + free[i + 1..];
    DropSorted(free, i);
    forall j | 0 <= j < |now| ensures now[j] in mem' && LinkAt(mem', now, j) {
      UnlinkLink(mem, free, i, mem', now, j);
    }
    Different(free, 0, i - 1);
  }

  /** A free block that fits exactly is taken off the circle. */
  lemma UnlinkKeeps(mem: map<nat, Header>, base: nat, free: seq<nat>, live: set<nat>, blocks: map<nat, nat>,
                    tag: map<nat, nat>, i: nat, mem': map<nat, Header>)
    requires Good(mem, base, free, live, blocks, tag) && 0 < i < |free|
    requires mem' == mem[free[i - 1] := Header(mem[free[i]].ptr, mem[free[i - 1]].size)]
    ensures Good(mem', base, free[..i] + free[i + 1..], live + {free[i]}, blocks, tag)
  {
    hide Tiled;
    UnlinkCircle(mem, base, free, i, mem');
    assert free[i - 1] in free && free[i] in free;
    forall a ensures a in free[..i] + free[i + 1..] <==> a in free && a != free[i] {
      assert a in free[..i] <==> exists j :: 0 <= j < i && free[j] == a;
      assert a in free[i + 1..] <==> exists j :: i + 1 <= j < |free| && free[j] == a;
    }
  }

  lemma SplitCircle(mem: map<nat, Header>, base: nat, free: seq<nat>, i: nat, n: nat, q: nat, h: Header,
                    mem': map<nat, Header>)
    requires Circle(mem, base, free) && 0 < i < |free| && 0 < n < mem[free[i]].size
             && q == free[i] + (mem[free[i]].size - n)
    requires q !in free && mem' == mem[free[i] := Header(mem[free[i]].ptr, mem[free[i]].size - n)][q := h]
    ensures Circle(mem', base, free)
  {
    assert LinkAt(mem, free, i);
    forall j | 0 <= j < |free| ensures LinkAt(mem', free, j) {
      assert LinkAt(mem, free, j) && free[j] in free;
    }
  }

  /** A larger free block keeps its lower part, and its tail becomes the new block. */
  lemma SplitKeeps(mem: map<nat, Header>, base: nat, free: seq<nat>, live: set<nat>, blocks: map<nat, nat>,
                   tag: map<nat, nat>, i: nat, n: nat,
                   q: nat, h: Header, mem': map<nat, Header>)
    requires Good(mem, base, free, live, blocks, tag) && 0 < i < |free| && 0 < n < mem[free[i]].size
    requires q == free[i] + (mem[free[i]].size - n) && h.size == n
    requires mem' == mem[free[i] := Header(mem[free[i]].ptr, mem[free[i]].size - n)][q := h]
    ensures free[i] in blocks && mem[free[i]].size - n < blocks[free[i]]
    ensures Good(mem', base, free, live + {q}, SplitAt(blocks, free[i], mem[free[i]].size - n),
            Retagged(tag, free[i], mem[free[i]].size - n))
    ensures Retagged(tag, free[i], mem[free[i]].size - n).Keys == tag.Keys && q !in live && q !in free
  {
    hide Tiled;
    assert free[i] in free;
    SplitTiles(blocks, tag, free[i], mem[free[i]].size - n);
    SplitCircle(mem, base, free, i, n, q, h, mem');
  }

  /** Memory from sbrk comes in as one live block, for free to add to the circle. */
  lemma MoreKeeps(mem: map<nat, Header>, base: nat, free: seq<nat>, live: set<nat>, blocks: map<nat, nat>,
                  tag: map<nat, nat>, a: nat, n: nat, h: Header)
    requires Good(mem, base, free, live, blocks, tag) && n > 0 && h.size == n && (forall u :: u in tag ==> u < a)
             && base < a
    ensures a !in blocks && Good(mem[a := h], base, free, live + {a}, blocks[a := n], Extended(tag, a, n))
  {
    hide Tiled;
    ExtendTiles(blocks, tag, a, n);
    var m := mem[a := h];
    forall j | 0 <= j < |free| ensures LinkAt(m, free, j) {
      assert LinkAt(mem, free, j) && free[j] in free;
    }
  }
}
