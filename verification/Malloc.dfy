/** malloc and free in place. */
module Malloc {
  import opened Heap

  /** Steps from place `i` to place `j` going forward on a circle of `n`. */
  function Dist(n: nat, i: nat, j: nat): nat
    requires i < n && j < n
  {
    if i <= j then j - i else n - i + j
  }

  lemma DistStep(n: nat, i: nat, j: nat)
    requires i < n && j < n && i != j
    ensures After(n, i) < n && Dist(n, After(n, i), j) == Dist(n, i, j) - 1
  {
  }

  /** Every block above `base` that is not free has a place on the circle. */
  lemma {:induction false} FindPlace(free: seq<nat>, bp: nat, k: nat) returns (t: nat)
    requires 0 < k <= |free| && free[0] < bp && bp !in free && Sorted(free) && (k < |free| ==> bp < free[k])
    ensures Belongs(free, bp, t)
  {
    assert free[k - 1] in free;
    if free[k - 1] < bp { t := k - 1; } else { t := FindPlace(free, bp, k - 1); }
  }

  /** The two tests of free's loop find the place. */
  lemma Stops(mem: map<nat, Header>, base: nat, free: seq<nat>, bp: nat, i: nat)
    requires Circle(mem, base, free) && base < bp && bp !in free && i < |free|
    ensures var p, next := free[i], mem[free[i]].ptr;
            (p < bp < next) || (p >= next && (bp > p || bp < next)) <==> Belongs(free, bp, i)
  {
    assert LinkAt(mem, free, i);
    assert free[i] in free;
    if i + 1 < |free| { assert free[i + 1] in free; }
  }

  lemma FreedFits(mem: map<nat, Header>, base: nat, free: seq<nat>, live: set<nat>, blocks: map<nat, nat>,
                  tag: map<nat, nat>, t: nat, bp: nat)
    requires Good(mem, base, free, live, blocks, tag) && bp in live && Belongs(free, bp, t) && bp in mem
             && mem[free[t]].ptr in mem && bp in blocks
    ensures var now, m := FreedList(mem, free, t, bp, blocks[bp]), FreedMem(mem, free, t, bp);
            free[t] in now && exists a :: a in now && a in m && m[a].size >= blocks[bp]
  {
    var now, m := FreedList(mem, free, t, bp, blocks[bp]), FreedMem(mem, free, t, bp);
    assert now[t] == free[t];
    if Low(mem, free, t, bp) {
      assert m[free[t]].size >= blocks[bp];
    } else {
      assert now[t + 1] == bp && m[bp].size >= blocks[bp];
    }
  }

  /** The blocks from after place `f` up to before place `i` are too small. */
  ghost predicate Passed(mem: map<nat, Header>, free: seq<nat>, f: nat, i: nat, n: nat)
    requires f < |free| && i < |free|
  {
    forall k: nat :: k < |free| && Dist(|free|, k, f) > Dist(|free|, i, f) ==> TooSmall(mem, free[k], n)
  }

  predicate TooSmall(mem: map<nat, Header>, a: nat, n: nat) { a in mem && mem[a].size < n }

  predicate AllTooSmall(mem: map<nat, Header>, free: seq<nat>, n: nat) { forall a :: a in free ==> TooSmall(mem, a, n) }

  /** `a` is the end of the first block after `freep`, round the circle, that has `n` units. */
  ghost predicate NextFit(mem: map<nat, Header>, free: seq<nat>, freep: nat, n: nat, a: nat) {
    exists f: nat, i: nat :: f < |free| && i < |free| && free[f] == freep && Fits(mem, free, f, i, n, a)
  }

  ghost predicate Fits(mem: map<nat, Header>, free: seq<nat>, f: nat, i: nat, n: nat, a: nat)
    requires f < |free| && i < |free|
  {
    Passed(mem, free, f, i, n) && free[i] in mem && mem[free[i]].size >= n && a == free[i] + mem[free[i]].size - n
  }

  lemma PassedStarts(mem: map<nat, Header>, free: seq<nat>, f: nat, n: nat)
    requires f < |free|
    ensures After(|free|, f) < |free| && Passed(mem, free, f, After(|free|, f), n)
  {
  }

  lemma NextFitIs(mem: map<nat, Header>, free: seq<nat>, freep: nat, f: nat, i: nat, n: nat)
    requires f < |free| && i < |free| && free[f] == freep && Passed(mem, free, f, i, n)
    requires free[i] in mem && mem[free[i]].size >= n
    ensures NextFit(mem, free, freep, n, free[i] + mem[free[i]].size - n)
  {
    assert Fits(mem, free, f, i, n, free[i] + mem[free[i]].size - n);
  }

  lemma PassedMore(mem: map<nat, Header>, free: seq<nat>, f: nat, i: nat, n: nat)
    requires f < |free| && i < |free| && i != f && Passed(mem, free, f, i, n) && TooSmall(mem, free[i], n)
    ensures After(|free|, i) < |free| && Passed(mem, free, f, After(|free|, i), n)
  {
    DistStep(|free|, i, f);
    forall k: nat | k < |free|
        && Dist(|free|, k, f) > Dist(|free|, After(|free|, i), f) ensures TooSmall(mem, free[k], n) {
      assert k == i || Dist(|free|, k, f) > Dist(|free|, i, f);
    }
  }

  lemma PassedAll(mem: map<nat, Header>, free: seq<nat>, f: nat, n: nat)
    requires f < |free| && Passed(mem, free, f, f, n) && TooSmall(mem, free[f], n)
    ensures AllTooSmall(mem, free, n)
  {
    forall a | a in free ensures TooSmall(mem, a, n) {
      var k: nat :| k < |free| && free[k] == a;
      assert k == f || Dist(|free|, k, f) > Dist(|free|, f, f);
    }
  }

  lemma BigEnough(mem: map<nat, Header>, free: seq<nat>, i: nat, n: nat)
    requires i < |free| && free[i] in mem && mem[free[i]].size >= n
    ensures !AllTooSmall(mem, free, n)
  {
    assert free[i] in free;
  }

  lemma SpanHas(a: nat, n: nat)
    ensures a in Span(a, Request(n))
  {
  }

  class UserHeap {
    const base: nat
    var mem: map<nat, Header>
    var freep: nat
    ghost var free: seq<nat>
    ghost var live: set<nat>
    ghost var blocks: map<nat, nat>
    ghost var tag: map<nat, nat>

    ghost predicate Started()
      reads this
    {
      Good(mem, base, free, live, blocks, tag) && freep in free
    }

    ghost predicate Valid()
      reads this
    {
      && base > 0 && base in mem
      && if freep == 0 then live == {} && tag == map[] && blocks == map[] else Started()
    }

    constructor (base: nat)
      requires base > 0
      ensures this.base == base && Valid() && freep == 0
    {
      this.base := base;
      mem := map[base := Header(0, 0)];
      freep := 0;
      free, live, blocks, tag := [], {}, map[], map[];
    }

    /** The free block after which a live block `bp` belongs, sought from `freep` on. */
    method Predecessor(bp: nat) returns (p: nat, ghost i: nat)
      requires Valid() && freep != 0 && bp in live
      ensures Belongs(free, bp, i) && p == free[i] && p in mem && mem[p].ptr in mem
    {
      hide Circle, Consistent, Tiled, Belongs, Sorted;
      LiveFacts(mem, base, free, live, blocks, tag, bp);
      ghost var t := FindPlace(free, bp, |free|);
      InList(free, bp, t);
      ghost var k: nat :| k < |free| && free[k] == freep;
      i := k;
      p := freep;
      CircleAt(mem, base, free, i);
      while !(bp > p && bp < mem[p].ptr)
        invariant i < |free| && p == free[i] && p in mem && mem[p].ptr in mem
        decreases Dist(|free|, i, t)
      {
        Stops(mem, base, free, bp, i);
        if p >= mem[p].ptr && (bp > p || bp < mem[p].ptr) { return; }
        DistStep(|free|, i, t);
        CircleAt(mem, base, free, i);
        p := mem[p].ptr;
        i := After(|free|, i);
        CircleAt(mem, base, free, i);
      }
      Stops(mem, base, free, bp, i);
    }

    /** Give back the block at `ap`. */
    method Free(ap: nat)
      requires Valid() && ap > 0 && ap - 1 in live
      modifies this
      ensures Valid() && freep != 0 && live == old(live) - {ap - 1} && tag.Keys == old(tag).Keys
      ensures forall a :: a in live ==> a in blocks && a in old(blocks) && blocks[a] == old(blocks)[a]
      ensures ap - 1 in old(blocks) && exists a :: a in free && a in mem && mem[a].size >= old(blocks)[ap - 1]
    {
      hide Circle, Consistent, Tiled, FreedList, FreedBlocks, FreedTag, Belongs, Up, Low, Sorted;
      var bp := ap - 1;
      var p, t := Predecessor(bp);
      LiveFacts(mem, base, free, live, blocks, tag, bp);
      InList(free, bp, t);
      FreeKeeps(mem, base, free, live, blocks, tag, t, bp);
      FreedFits(mem, base, free, live, blocks, tag, t, bp);
      ghost var m0 := mem;
      var next := mem[p].ptr;
      if bp + mem[bp].size == next {
        mem := mem[bp := Header(mem[next].ptr, mem[bp].size + mem[next].size)];
      } else {
        mem := mem[bp := Header(next, mem[bp].size)];
      }
      if p + mem[p].size == bp {
        mem := mem[p := Header(mem[bp].ptr, mem[p].size + mem[bp].size)];
      } else {
        mem := mem[p := Header(bp, mem[p].size)];
      }
      freep := p;
      assert mem == FreedMem(m0, free, t, bp);
      ghost var n := blocks[bp];
      free, live, blocks, tag := FreedList(m0, free, t, bp, n), live - {bp}, FreedBlocks(m0, free, t, bp, blocks),
          FreedTag(m0, free, t, bp, n, tag);
      assert base in mem && freep != 0 by { BaseStays(mem, base, free, live, blocks, tag, freep); }
    }

    /** Get memory from the kernel and put it on the circle.  `core` is the address that sbrk gives, 0
        when it fails. */
    method MoreCore(nunits: nat, core: nat) returns (p: nat)
      requires Valid() && freep != 0 && nunits > 0 && (core != 0 ==> base < core && forall u :: u in tag ==> u < core)
      modifies this
      ensures Valid() && freep != 0
      ensures core == 0 ==> p == 0 && unchanged(this)
      ensures core != 0 ==>
                && p == freep && live == old(live) && tag.Keys == old(tag).Keys + Span(core, Request(nunits))
                && (forall a :: a in live ==> a in blocks && a in old(blocks) && blocks[a] == old(blocks)[a])
                && exists a :: a in free && a in mem && mem[a].size >= nunits
    {
      hide Circle, Consistent, Tiled, Span;
      var nu := Request(nunits);
      if core == 0 { return 0; }
      ghost var bs := blocks;
      var h := Header(if core in mem then mem[core].ptr else 0, nu);
      MoreKeeps(mem, base, free, live, blocks, tag, core, nu, h);
      NewLive(mem, base, free, live, blocks, tag, core, nu);
      mem := mem[core := h];
      live, blocks, tag := live + {core}, blocks[core := nu], Extended(tag, core, nu);
      Free(core + 1);
      p := freep;
    }

    /** Start the circle with `base` alone. */
    method Start()
      requires Valid() && freep == 0
      modifies this
      ensures Valid() && freep == base && free == [base] && base in mem && mem[base].size == 0
      ensures live == old(live) && tag == old(tag) && blocks == old(blocks)
    {
      mem := mem[base := Header(base, 0)];
      freep := base;
      free := [base];
      assert LinkAt(mem, free, 0);
    }

    /** Take `nunits` from the free block at place `i`. */
    method Take(p0: nat, prevp: nat, nunits: nat, ghost i: nat) returns (p: nat)
      requires Valid() && freep != 0 && 0 < i < |free| && p0 == free[i] && prevp == free[i - 1]
      requires p0 in mem && prevp in mem && mem[p0].size >= nunits > 0
      modifies this
      ensures Valid() && freep == prevp && p !in old(live) && live == old(live) + {p} && tag.Keys == old(tag).Keys
      ensures p in blocks && blocks[p] == nunits && p > base && p == p0 + old(mem[p0].size) - nunits
      ensures forall a :: a in old(live) ==> a in blocks && a in old(blocks) && blocks[a] == old(blocks)[a]
    {
      hide Circle, Tiled, Retagged, Sorted, Consistent, SplitAt;
      p := p0;
      PlaceFacts(mem, base, free, live, blocks, tag, i);
      if mem[p].size == nunits {
        ghost var m := mem;
        mem := mem[prevp := Header(mem[p].ptr, mem[prevp].size)];
        UnlinkKeeps(m, base, free, live, blocks, tag, i, mem);
        ghost var list := free[..i] + free[i + 1..];
        assert list[i - 1] == prevp;
        LiveBlocks(m, base, free, live, blocks, tag);
        free, live := list, live + {p};
      } else {
        ghost var m, k := mem, mem[p].size - nunits;
        mem := mem[p := Header(mem[p].ptr, mem[p].size - nunits)];
        var q := p + mem[p].size;
        var h := Header(if q in mem then mem[q].ptr else 0, nunits);
        mem := mem[q := h];
        SplitKeeps(m, base, free, live, blocks, tag, i, nunits, q, h, mem);
        LiveBlocks(m, base, free, live, blocks, tag);
        SplitIs(blocks, p, k, q);
        live, blocks, tag := live + {q}, SplitAt(blocks, p, k), Retagged(tag, p, k);
        p := q;
      }
      freep := prevp;
    }

    /** More memory, and the search from `freep` again; a block at place `j` is now big enough. */
    method Restart(nunits: nat, core: nat) returns (p: nat, ghost i: nat, ghost j: nat, ghost f: nat)
      requires Valid() && freep != 0 && nunits > 0 && (core != 0 ==> base < core && forall u :: u in tag ==> u < core)
      modifies this
      ensures Valid() && freep != 0 && live == old(live) && forall a ::
              a in live ==> a in blocks && a in old(blocks) && blocks[a] == old(blocks)[a]
      ensures p == 0 <==> core == 0
      ensures core == 0 ==> unchanged(this)
      ensures core != 0 ==> tag.Keys == old(tag).Keys + Span(core, Request(nunits))
      ensures p != 0 ==>
                && f < |free| && i < |free| && j < |free| && free[f] == freep == p && p in mem
                    && mem[p].ptr == free[i] && Before(free, i, p)
                && free[i] in mem && free[j] in mem && mem[free[j]].size >= nunits
                    && Dist(|free|, i, j) <= Dist(|free|, i, f)
    {
      hide Circle, Consistent, Tiled, Span, Sorted, After, Dist;
      LiveBlocks(mem, base, free, live, blocks, tag);
      p := MoreCore(nunits, core);
      i, j, f := 0, 0, 0;
      if p != 0 {
        ghost var big :| big in free && big in mem && mem[big].size >= nunits;
        j :| j < |free| && free[j] == big;
        f :| f < |free| && free[f] == freep;
        i := After(|free|, f);
        CircleAt(mem, base, free, f);
        DistMax(|free|, f, j);
        AfterBefore(free, f);
      }
    }

    /** The search: from the block after `freep`, around the circle. */
    method Search(nunits: nat, core: nat) returns (r: nat)
      requires Valid() && freep != 0 && nunits > 0 && (core != 0 ==> base < core && forall u :: u in tag ==> u < core)
      modifies this
      ensures Valid() && freep != 0
      ensures r == 0 ==> core == 0 && live == old(live) && tag.Keys == old(tag).Keys
      ensures r != 0 ==>
                && r - 1 !in old(live) && live == old(live) + {r - 1} && r - 1 > base && r - 1 in blocks
                    && blocks[r - 1] == nunits
                && (tag.Keys == old(tag).Keys || (core != 0 && tag.Keys == old(tag).Keys + Span(core, Request(nunits))))
      ensures r != 0 && tag.Keys == old(tag).Keys <==> !AllTooSmall(old(mem), old(free), nunits)
      ensures r != 0 && tag.Keys == old(tag).Keys ==> NextFit(old(mem), old(free), old(freep), nunits, r - 1)
      ensures forall a :: a in old(live) ==> a in blocks && a in old(blocks) && blocks[a] == old(blocks)[a]
    {
      hide Circle, Consistent, Tiled, Span, Sorted, After, Dist, Passed, Before, AllTooSmall, Request, NextFit, Good;
      var prevp := freep;
      LiveBlocks(mem, base, free, live, blocks, tag);
      ghost var f: nat :| f < |free| && free[f] == freep;
      ghost var i: nat, j: nat, grown := After(|free|, f), 0, false;
      GoodCircle(mem, base, free, live, blocks, tag);
      CircleAt(mem, base, free, f);
      AfterBefore(free, f);
      PassedStarts(mem, free, f, nunits);
      ghost var m0, f0 := mem, free;
      var p := mem[prevp].ptr;
      while true
        invariant Valid() && freep != 0 && f < |free| && free[f] == freep && i < |free| && p == free[i] && p in mem
        invariant prevp in mem && Before(free, i, prevp) && live == old(live)
        invariant forall a :: a in live ==> a in blocks && a in old(blocks) && blocks[a] == old(blocks)[a]
        invariant if grown then core != 0
                  && tag.Keys == old(tag).Keys + Span(core, Request(nunits)) else tag.Keys == old(tag).Keys
        invariant !grown ==> tag == old(tag)
        invariant grown ==>
                  j < |free| && free[j] in mem && mem[free[j]].size >= nunits
                  && Dist(|free|, i, j) <= Dist(|free|, i, f)
        invariant !grown ==> freep == old(freep) && mem == m0 && free == f0 && Passed(mem, free, f, i, nunits)
        invariant grown ==> AllTooSmall(m0, f0, nunits)
        decreases !grown, Dist(|free|, i, f)
      {
        GoodCircle(mem, base, free, live, blocks, tag);
        if mem[p].size >= nunits {
          SpanHas(core, nunits);
          FoundIt(mem, base, free, f, i, prevp, nunits);
          p := Take(p, prevp, nunits, i);
          return p + 1;
        }
        if p == freep {
          SamePlace(mem, base, free, i, f);
          DistZero(|free|, i);
          if grown { DistOnlyZero(|free|, i, j); } else { PassedAll(mem, free, f, nunits); }
          p, i, j, f := Restart(nunits, core);
          if p == 0 { return 0; }
          grown := true;
        } else {
          if grown {
            ToNext(mem, base, free, i, f, j);
          } else {
            ToNext(mem, base, free, i, f, f);
            PassedMore(mem, free, f, i, nunits);
          }
          i := After(|free|, i);
        }
        prevp := p;
        p := mem[p].ptr;
      }
    }

    /** Allocate `nbytes` bytes.  `core` is the address that sbrk gives if malloc has to ask, 0 when it
        would fail.  Malloc asks exactly when no free block is big enough, and returns 0 only when it
        asked and sbrk failed. */
    method Malloc(nbytes: nat, core: nat) returns (r: nat)
      requires Valid() && (core != 0 ==> base < core && forall u :: u in tag ==> u < core)
      modifies this
      ensures Valid() && freep != 0
      ensures r == 0 ==> core == 0 && live == old(live) && tag.Keys == old(tag).Keys
      ensures r != 0 ==>
                && r - 1 !in old(live) && live == old(live) + {r - 1} && r - 1 > base
                && r - 1 in blocks && blocks[r - 1] == Units(nbytes) && nbytes <= 16 * (blocks[r - 1] - 1) < nbytes + 16
                && (tag.Keys == old(tag).Keys
                    || (core != 0 && tag.Keys == old(tag).Keys + Span(core, Request(Units(nbytes)))))
      ensures r != 0 && tag.Keys == old(tag).Keys <==>
              old(freep) != 0 && !AllTooSmall(old(mem), old(free), Units(nbytes))
      ensures r != 0 && tag.Keys == old(tag).Keys ==>
              NextFit(old(mem), old(free), old(freep), Units(nbytes), r - 1)
      ensures forall a :: a in old(live) ==> a in blocks && a in old(blocks) && blocks[a] == old(blocks)[a]
    {
      hide Good, Span;
      if freep == 0 {
        Start();
      }
      r := Search(Units(nbytes), core);
    }
  }

  lemma AfterBefore(free: seq<nat>, i: nat)
    requires i < |free|
    ensures Before(free, After(|free|, i), free[i])
  {
  }

  lemma BigPlace(mem: map<nat, Header>, base: nat, free: seq<nat>, i: nat, prevp: nat)
    requires Circle(mem, base, free) && i < |free| && mem[free[i]].size > 0 && Before(free, i, prevp)
    ensures i > 0 && prevp == free[i - 1]
  {
  }

  /** The block at place `i` will do. */
  lemma FoundIt(mem: map<nat, Header>, base: nat, free: seq<nat>, f: nat, i: nat, prevp: nat, n: nat)
    requires Circle(mem, base, free) && i < |free| && f < |free| && Before(free, i, prevp)
    requires free[i] in mem && mem[free[i]].size >= n > 0
    ensures i > 0 && prevp == free[i - 1] && !AllTooSmall(mem, free, n)
    ensures Passed(mem, free, f, i, n) ==> NextFit(mem, free, free[f], n, free[i] + mem[free[i]].size - n)
  {
    hide Circle, Passed, NextFit;
    BigPlace(mem, base, free, i, prevp);
    BigEnough(mem, free, i, n);
    if Passed(mem, free, f, i, n) { NextFitIs(mem, free, free[f], f, i, n); }
  }

  /** The place after `i` is one nearer to `f` and to `j`. */
  lemma ToNext(mem: map<nat, Header>, base: nat, free: seq<nat>, i: nat, f: nat, j: nat)
    requires Circle(mem, base, free) && i < |free| && f < |free| && j < |free| && i != f && i != j
    ensures var k := After(|free|, i);
            && k < |free| && mem[free[i]].ptr == free[k] && free[k] in mem && Before(free, k, free[i])
            && Dist(|free|, k, f) == Dist(|free|, i, f) - 1 && Dist(|free|, k, j) == Dist(|free|, i, j) - 1
  {
    hide Circle, Dist;
    CircleAt(mem, base, free, i);
    DistStep(|free|, i, f);
    DistStep(|free|, i, j);
    AfterBefore(free, i);
  }

  lemma SamePlace(mem: map<nat, Header>, base: nat, free: seq<nat>, i: nat, f: nat)
    requires Circle(mem, base, free) && i < |free| && f < |free| && free[i] == free[f]
    ensures i == f
  {
  }

  lemma DistZero(n: nat, i: nat)
    requires i < n
    ensures Dist(n, i, i) == 0
  {
  }

  lemma DistOnlyZero(n: nat, i: nat, j: nat)
    requires i < n && j < n && Dist(n, i, j) == 0
    ensures i == j
  {
  }

  /** From just after `g` the way to `g` is longest. */
  lemma DistMax(n: nat, g: nat, k: nat)
    requires g < n && k < n
    ensures After(n, g) < n && Dist(n, After(n, g), k) <= Dist(n, After(n, g), g)
  {
  }

  /** Headers for `nbytes` bytes, and one more for the block's own. */
  function Units(nbytes: nat): nat { (nbytes + 15) / 16 + 1 }

  /** `q` is at the place before `i`. */
  ghost predicate Before(free: seq<nat>, i: nat, q: nat) {
    i < |free| && q == free[if i == 0 then |free| - 1 else i - 1]
  }

  lemma LiveBlocks(mem: map<nat, Header>, base: nat, free: seq<nat>, live: set<nat>, blocks: map<nat, nat>,
                   tag: map<nat, nat>)
    requires Good(mem, base, free, live, blocks, tag)
    ensures forall a :: a in live ==> a in blocks
  {
  }

  lemma SplitIs(blocks: map<nat, nat>, a: nat, k: nat, q: nat)
    requires a in blocks && 0 < k < blocks[a] && q == a + k
    ensures q in SplitAt(blocks, a, k) && SplitAt(blocks, a, k)[q] == blocks[a] - k
    ensures forall b ::
            b in blocks && b != a && b != q ==> b in SplitAt(blocks, a, k) && SplitAt(blocks, a, k)[b] == blocks[b]
  {
  }

  /** What morecore asks for: at least 4096 units. */
  function Request(nunits: nat): (r: nat)
    ensures r >= nunits && r >= 4096 && (r == nunits || r == 4096)
  {
    if nunits < 4096 then 4096 else nunits
  }

  lemma NewLive(mem: map<nat, Header>, base: nat, free: seq<nat>, live: set<nat>, blocks: map<nat, nat>,
                tag: map<nat, nat>, a: nat, n: nat)
    requires Good(mem, base, free, live, blocks, tag) && n > 0 && (forall u :: u in tag ==> u < a)
    ensures a !in live && Extended(tag, a, n).Keys == tag.Keys + Span(a, n)
  {
    ExtendTiles(blocks, tag, a, n);
  }

  lemma PlaceFacts(mem: map<nat, Header>, base: nat, free: seq<nat>, live: set<nat>, blocks: map<nat, nat>,
                   tag: map<nat, nat>, i: nat)
    requires Good(mem, base, free, live, blocks, tag) && 0 < i < |free|
    ensures free[i] in free && free[i - 1] in free && base <= free[i - 1] < free[i] && free[i] in blocks
            && free[i] in mem && blocks[free[i]] == mem[free[i]].size
    ensures free[i] !in live && free[i] != base && base in mem && free[0] == base
  {
  }

  lemma InList(free: seq<nat>, bp: nat, t: nat)
    requires Belongs(free, bp, t)
    ensures t < |free| && free[t] < bp && free[t] in free
  {
  }

  lemma BaseStays(mem: map<nat, Header>, base: nat, free: seq<nat>, live: set<nat>, blocks: map<nat, nat>,
                  tag: map<nat, nat>, p: nat)
    requires Good(mem, base, free, live, blocks, tag) && p in free
    ensures base in mem && base <= p
  {
  }

  lemma LiveFacts(mem: map<nat, Header>, base: nat, free: seq<nat>, live: set<nat>, blocks: map<nat, nat>,
                  tag: map<nat, nat>, bp: nat)
    requires Good(mem, base, free, live, blocks, tag) && bp in live
    ensures base < bp && bp !in free && bp in mem && bp in blocks && mem[bp].size == blocks[bp] > 0
    ensures |free| > 0 && free[0] == base && Sorted(free) && forall a :: a in live ==> a in blocks
  {
    assert Fills(tag, bp, blocks[bp]);
  }

  lemma GoodCircle(mem: map<nat, Header>, base: nat, free: seq<nat>, live: set<nat>, blocks: map<nat, nat>,
                   tag: map<nat, nat>)
    requires Good(mem, base, free, live, blocks, tag)
    ensures Circle(mem, base, free)
  {
  }

  lemma CircleAt(mem: map<nat, Header>, base: nat, free: seq<nat>, i: nat)
    requires Circle(mem, base, free) && i < |free|
    ensures After(|free|, i) < |free| && free[i] in mem && mem[free[i]].ptr == free[After(|free|, i)]
            && free[After(|free|, i)] in mem
  {
    assert LinkAt(mem, free, i);
  }
}
