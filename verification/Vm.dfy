/** kalloc.c and vm.c in place: one physical memory, its free list, and the page tables in it. */
module Vm {
  import opened Pages
  import opened PageTable
  import opened Kalloc
  import opened FreeWalk
  import opened Costs

  /** What walk finds: it panics, or there is no table, or the entry `k` of a leaf table. */
  datatype Result = Panic | Done(value: int)

  datatype Found = Fault | Missing | Slot(table: nat, k: nat)

  /** The pages of the allocator: all those from `end` to `top`. */
  ghost predicate Covers(role: Roles, end: nat, top: nat) {
    forall p :: p in role <==> end <= p * 4096 < top
  }

  class Memory {
    const end: nat        // first address after the kernel
    const physTop: nat    // PHYSTOP
    var mem: Mem
    var freelist: nat
    ghost var role: Roles
    ghost var free: seq<nat>

    /** The free list is sound. */
    ghost predicate Pool()
      reads this
    {
      && Chain(mem, role, free, freelist)
      && physTop % 4096 == 0 && Covers(role, end, physTop)
    }

    /** ... and so are the page tables. */
    ghost predicate Valid()
      reads this
    {
      Tree(mem, role) && Pool()
    }

    /** No page is handed out yet and none is free. */
    constructor (end: nat, physTop: nat)
      requires 0 < end && physTop % 4096 == 0
      ensures this.end == end && this.physTop == physTop && Valid()
      ensures forall p :: p in role ==> role[p] == Held
    {
      this.end, this.physTop := end, physTop;
      mem := seq(physTop / 4096, _ => Junk(0));
      freelist := 0;
      free := [];
      role := map p: nat | p < physTop / 4096 && end <= p * 4096 :: Held;
    }

    /** kinit: give every whole page of the range to the allocator. */
    method FreeRange() returns (ok: bool)
      requires Valid() && forall p :: p in role ==> role[p] == Held
      modifies this
      ensures ok && Valid() && (forall p :: p in role <==> p in old(role)) && forall p :: p in role ==> role[p] == Free
    {
      hide Tree, Spaces, Junk, Chain, Covers;
      var p := PgRoundUp(end);
      ghost var k := (end + 4095) / 4096;
      CoversFrom(role, end, physTop, k);
      while p + 4096 <= physTop
        invariant Valid() && p == k * 4096 && end <= p && role.Keys == old(role).Keys
        invariant forall q :: q in role ==> role[q] == if q < k then Free else Held
      {
        assert p / 4096 == k && p % 4096 == 0;
        ok := Kfree(p);
        if !ok { return; }
        p := p + 4096;
        k := k + 1;
      }
      CoversBelow(role, end, physTop, k);
      ok := true;
    }

    /** Allocate a page, filled with junk; 0 when there is none. */
    method Kalloc() returns (pa: nat)
      requires Valid()
      modifies this
      ensures Valid() && Spaces(mem, role) == Spaces(old(mem), old(role))
      ensures pa == 0 <==> old(free) == []
      ensures pa == 0 ==> unchanged(this)
      ensures pa != 0 ==>
                && pa % 4096 == 0 && pa / 4096 in old(role) && old(role)[pa / 4096] == Free && pa / 4096 < |old(mem)|
                && role == old(role)[pa / 4096 := Held] && free == old(free)[1..]
                && mem == old(mem)[pa / 4096 := Junk(5)]
    {
      hide Tree, Junk;
      pa := freelist;
      if pa != 0 {
        var p := pa / 4096;
        ghost var m := mem[p := Junk(5)];
        ChainPop(mem, role, free, freelist, Junk(5));
        FreeChanges(mem, role, p, Junk(5));
        RoleKeep(m, role, p, Held);
        freelist := mem[p].words[0];
        mem := mem[p := Junk(5)];
        role := role[p := Held];
        free := free[1..];
      }
    }

    /** Free a page.  False is the panic for an address that is no page of the allocator's. */
    method Kfree(pa: nat) returns (ok: bool)
      requires Pool() && (pa / 4096 in role && pa % 4096 == 0 ==> role[pa / 4096] != Free)
      modifies this
      ensures Pool()
      ensures ok <==> pa % 4096 == 0 && end <= pa < physTop
      ensures pa % 4096 == 0 && pa / 4096 in old(role) ==> ok
      ensures !ok ==> unchanged(this)
      ensures ok ==>
                && pa / 4096 in old(role) && pa / 4096 < |old(mem)|
                && role == old(role)[pa / 4096 := Free] && free == [pa / 4096] + old(free)
                && mem == old(mem)[pa / 4096 := Page(Junk(1).words[0 := old(freelist)])]
      ensures ok && old(Valid()) && old(role)[pa / 4096] == Held ==>
              Valid() && Spaces(mem, role) == Spaces(old(mem), old(role))
    {
      hide Tree, Junk, Links;
      if pa % 4096 != 0 || pa < end || pa >= physTop { return false; }
      var p := pa / 4096;
      var page := Page(Junk(1).words[0 := freelist]);
      ChainPush(mem, role, free, freelist, p, page);
      if Tree(mem, role) && role[p] == Held {
        FreeChanges(mem, role, p, page);
        RoleKeep(mem[p := page], role, p, Free);
      }
      mem := mem[p := page];
      freelist := pa;
      role := role[p := Free];
      free := [p] + free;
      return true;
    }

    /** Fill a page that is held. */
    method Fill(p: nat, page: Page)
      requires Valid() && p in role && role[p] == Held && |page.words| == 512
      modifies this`mem
      ensures Valid() && p < |old(mem)| && mem == old(mem)[p := page] && Spaces(mem, role) == Spaces(old(mem), role)
    {
      hide Tree, Spaces, Links;
      FreeChanges(mem, role, p, page);
      ChainKeep(mem, role, free, freelist, mem[p := page], role);
      mem := mem[p := page];
    }

    /** Hang a zeroed page from entry `k` of table `p`. */
    method Link(p: nat, level: nat, k: nat, c: nat)
      requires Valid() && Table(role, p, level) && 0 < level && k < (if level == 2 then 256 else 512) && p < |mem|
               && |mem[p].words| == 512
      requires !IsValid(mem[p].words[k]) && c in role && role[c] == Held && c < |mem| && mem[c] == ZeroPage()
      modifies this`mem, this`role
      ensures Valid() && role == old(role)[c := Node(level - 1, p, k)]
              && mem == SetWord(old(mem), p, k, Entry(c, PTE_V))
      ensures Spaces(mem, role) == Spaces(old(mem), old(role))
    {
      hide Tree, Spaces, Links, ZeroPage, Zeroed;
      NewTable(mem, role, free, freelist, p, level, k, c, SetWord(mem, p, k, Entry(c, PTE_V)),
          role[c := Node(level - 1, p, k)], freelist);
      mem := SetWord(mem, p, k, Entry(c, PTE_V));
      role := role[c := Node(level - 1, p, k)];
    }

    /** A new table page below entry `k` of table `p`; 0 when memory is out. */
    method Descend(p: nat, level: nat, k: nat) returns (c: nat)
      requires Valid() && Table(role, p, level) && 0 < level && k < (if level == 2 then 256 else 512) && p < |mem|
               && |mem[p].words| == 512
      requires !IsValid(mem[p].words[k])
      modifies this
      ensures Valid() && Spaces(mem, role) == Spaces(old(mem), old(role)) && Extends(old(mem), old(role), mem, role)
      ensures c == 0 ==> free == [] && unchanged(this)
      ensures c != 0 ==>
              c < |old(mem)| && c != p && c in old(role) && old(role)[c] == Free
              && role == old(role)[c := Node(level - 1, p, k)]
                         && mem == SetWord(old(mem)[c := ZeroPage()], p, k, Entry(c, PTE_V))
                         && |free| + 1 == |old(free)|
    {
      hide Tree, Spaces, Junk, Chain, Covers, ZeroPage, Entry, Extends;
      ExtendsSelf(mem, role);
      var pa := Kalloc();
      if pa == 0 { return 0; }
      c := pa / 4096;
      Fill(c, ZeroPage());
      assert mem == old(mem)[c := ZeroPage()];
      Link(p, level, k, c);
      TookTable(old(mem), old(role), p, level, k, c, ZeroPage(), Entry(c, PTE_V), mem, role);
    }

    /** The entry for address `va`.  With `alloc` the tables on the way are made as needed. */
    method Walk(root: nat, va: nat, alloc: bool) returns (r: Found)
      requires Valid() && root in role && role[root] == Root
      modifies this
      ensures Valid() && Spaces(mem, role) == Spaces(old(mem), old(role)) && Extends(old(mem), old(role), mem, role)
      ensures r == Fault <==> va >= MAXVA
      ensures r == Fault || !alloc ==> unchanged(this)
      ensures r == Missing ==> Leaf(mem, root, va / 4096) == 0 && (alloc ==> free == [])
      ensures r.Slot? ==> r.table == Leaf(mem, root, va / 4096) != 0 && r.k == I0(va / 4096) && Table(role, r.table, 0)
      ensures r.Slot? ==> r.table < |mem| && |mem[r.table].words| == 512 && r.k < 512
      ensures alloc && r.Missing? ==> |old(free)| < Lack(old(mem), root, va / 4096)
      ensures alloc && r.Slot? ==>
              |free| + Lack(old(mem), root, va / 4096) == |old(free)| && Tabled(old(mem), mem, root, va / 4096)
    {
      hide Tree, Spaces, Extends, OnPath, Leaf, I0, I1, I2, Px, Chain, Covers, Lack, Tabling, NoLeaf;
      ExtendsSelf(mem, role);
      if va >= MAXVA { return Fault; }
      PxIndices(va);
      ghost var vpn := va / 4096;
      var p := root;
      var level := 2;
      PathStarts(mem, role, root, vpn);
      TablingSelf(mem, root, vpn);
      while level > 0
        invariant 0 <= level <= 2 && p != 0 && root in role && role[root] == Root
        invariant Valid() && OnPath(mem, root, vpn, level, p)
        invariant Spaces(mem, role) == Spaces(old(mem), old(role)) && Extends(old(mem), old(role), mem, role)
        invariant !alloc ==> unchanged(this)
        invariant Tabling(old(mem), mem, root, vpn)
                  && |free| + Lack(old(mem), root, vpn) == |old(free)| + Lack(mem, root, vpn)
      {
        LackZero(mem, root, vpn);
        var k := Px(level, va);
        OnPathTable(mem, role, root, vpn, level, p);
        OnPathDown(mem, role, root, vpn, level, p, k);
        var e := mem[p].words[k];
        if IsValid(e) {
          p := Ppn(e);
        } else {
          if !alloc { return Missing; }
          ghost var m, ro := mem, role;
          var c := Descend(p, level, k);
          if c == 0 { return Missing; }
          OnPathNew(m, ro, root, vpn, level, p, k, c, mem);
          HungTabling(m, ro, root, vpn, level, p, k, c, mem);
          TablingTrans(old(mem), m, mem, root, vpn);
          ExtendsTrans(old(mem), old(role), m, ro, mem, role);
          p := c;
        }
        level := level - 1;
      }
      OnPathTable(mem, role, root, vpn, 0, p);
      PathEnds(mem, root, vpn, p);
      LackZero(mem, root, vpn);
      LeafThere(old(mem), mem, root, vpn);
      return Slot(p, Px(0, va));
    }

    /** Write the leaf entry of page `vpn`, with the change of roles `now`. */
    method SetLeaf(ghost root: nat, ghost vpn: nat, t: nat, k: nat, e: nat, ghost now: Roles)
      requires Valid() && root in role && role[root] == Root && vpn < MAXVPN && t == Leaf(mem, root, vpn) != 0
               && k == I0(vpn)
      requires Table(role, t, 0) && t < |mem| && k < 512 && |mem[t].words| == 512 && now.Keys == role.Keys
      requires Reframed(role, t, k, mem[t].words[k], e, now)
      modifies this`mem, this`role
      ensures Valid() && mem == SetWord(old(mem), t, k, e) && role == now
      ensures Spaces(mem, role) == Spaces(old(mem), old(role))[root := Space(old(mem), root)[vpn := e]]
    {
      hide Tree, Leaf, I0, Spaces, Space, Links;
      LeafKeeps(mem, role, root, vpn, e, SetWord(mem, t, k, e), now);
      ReframedFree(role, t, k, mem[t].words[k], e, now);
      ChainKeep(mem, role, free, freelist, SetWord(mem, t, k, e), now);
      mem := SetWord(mem, t, k, e);
      role := now;
    }

    /** Map the page of address `a` to the page of address `pa`: one round of mappages. */
    method MapPage(root: nat, a: nat, pa: nat, perm: nat, ghost own: bool) returns (r: Result)
      requires Valid() && root in role && role[root] == Root && perm < 1024 && Leafy(perm)
      requires own ==> pa / 4096 in role && role[pa / 4096] == Held
      modifies this
      ensures Valid() && root in role && role[root] == Root
      ensures r == Panic <==> a >= MAXVA || IsValid(Space(old(mem), root)[a / 4096])
      ensures r.Done? ==> r == Done(0) || r == Done(-1)
      ensures r == Done(-1) ==>
              free == [] && Spaces(mem, role) == Spaces(old(mem), old(role)) && Extends(old(mem), old(role), mem, role)
      ensures r == Done(0) ==>
                && Spaces(mem, role) == Spaces(old(mem),
                    old(role))[root := Space(old(mem), root)[a / 4096 := Entry(pa / 4096, Validated(perm))]]
                && ExtendsBut(old(mem), old(role), mem, role, if own then {pa / 4096} else {})
                && (own ==> Owns(role, root, a / 4096, pa / 4096))
                && |free| + Lack(old(mem), root, a / 4096) == |old(free)| && Tabled(old(mem), mem, root, a / 4096)
      ensures r == Done(-1) <==> a < MAXVA && |old(free)| < Lack(old(mem), root, a / 4096)
    {
      hide Tree, Space, Spaces, Extends, ExtendsBut, Owns, Chain, Reframed, Framed, Leafy, Covers, Lack, Tabled,
          Tabling, SameLacks;
      var f := Walk(root, a, true);
      if f.Fault? { return Panic; }
      ghost var vpn, m, ro := a / 4096, mem, role;
      ExtendsRoles(old(mem), old(role), mem, role);
      SpaceOf(old(mem), old(role), root);
      SpaceOf(mem, role, root);
      SpaceAt(mem, root, vpn);
      if f.Missing? { return Done(-1); }
      LackZero(old(mem), root, vpn);
      if IsValid(mem[f.table].words[f.k]) { return Panic; }
      var e := Entry(pa / 4096, Validated(perm));
      FramedIs(mem, role, f.table, f.k, pa / 4096, perm, own, SetWord(mem, f.table, f.k, e));
      SetLeaf(root, vpn, f.table, f.k, e, Framed(role, f.table, f.k, pa / 4096, own));
      LeafLacks(m, ro, root, vpn, e, mem);
      StillTabled(old(mem), m, mem, root, vpn);
      ExtendsThenBut(old(mem), old(role), m, ro, mem, role, if own then {pa / 4096} else {});
      if own { FramedOwns(m, ro, root, vpn, pa / 4096); }
      return Done(0);
    }

    /** Map the pages that `size` bytes from `va` fall in to the pages from `pa` on.  -1 when memory runs
        out, with `m` pages mapped; it panics on a page that is mapped already or past MAXVA.  With `own`
        the one page mapped becomes the frame of its entry. */
    method MapPages(root: nat, va: nat, size: nat, pa: nat, perm: nat, ghost own: bool)
                    returns (r: Result, ghost m: nat)
      requires Valid() && root in role && role[root] == Root && perm < 1024 && Leafy(perm) && va < U64 && size < U64
      requires own ==> va % 4096 == 0 && size == 4096 && va + size < U64 && pa / 4096 in role && role[pa / 4096] == Held
      modifies this
      ensures Valid() && root in role && role[root] == Root && (r.Panic? || r == Done(0) || r == Done(-1))
      ensures r == Panic ==> LastPage(va, size) < va / 4096 || LastPage(va, size) >= MAXVPN
                             || exists v :: va / 4096 <= v <= LastPage(va, size) && IsValid(Space(old(mem), root)[v])
      ensures r.Done? ==>
                && m == (if r == Done(0) then LastPage(va, size) - va / 4096 + 1 else m) && va / 4096 + m <= MAXVPN
                && Spaces(mem, role) == Spaces(old(mem),
                    old(role))[root := Mapped(Space(old(mem), root), va / 4096, m, pa / 4096, Validated(perm))]
                && (forall v :: va / 4096 <= v < va / 4096 + m ==> !IsValid(Space(old(mem), root)[v]))
      ensures r == Done(-1) ==> free == [] && (own ==> m == 0)
      ensures r.Done? ==> ExtendsBut(old(mem), old(role), mem, role, if own && r == Done(0) then {pa / 4096} else {})
      ensures own && r == Done(0) ==> m == 1 && Owns(role, root, va / 4096, pa / 4096)
      ensures r == Done(0) ==> |free| + Lacks(old(mem), root, va / 4096, va / 4096 + m) == |old(free)|
      ensures r == Done(-1) ==> |old(free)| < Lacks(old(mem), root, va / 4096, va / 4096 + m + 1)
      ensures own ==>
                && (r == Panic <==> va >= MAXVA || IsValid(Space(old(mem), root)[va / 4096]))
                && (r == Done(-1) <==> va < MAXVA && |old(free)| < Lack(old(mem), root, va / 4096))
                && (r == Done(0) ==> Tabled(old(mem), mem, root, va / 4096))
    {
      hide Tree, Space, Spaces, Extends, ExtendsBut, Owns, Leafy, Mapped, Chain, Entry, IsValid, Covers, Lack, Lacks,
          Tabled, Mapping;
      ghost var m0, r0, first, ppn, flags, used: nat := mem, role, va / 4096, pa / 4096, Validated(perm), 0;
      MappingStarts(m0, r0, root, first, ppn, flags);
      var lastPage := LastPage(va, size);
      var a, p := PgRoundDown(va), pa;
      m := 0;
      while true
        invariant Valid() && root in role && role[root] == Root && a == (first + m) * 4096 && p == pa + m * 4096
        invariant |free| + used == |old(free)| && Mapping(m0, r0, mem, role, root, first, m, ppn, flags, used, {})
        invariant (own ==> m == used == 0 && role == r0 && mem == m0) && (first <= lastPage ==> first + m <= lastPage)
        decreases MAXVA - a
      {
        ghost var m1, r1 := mem, role;
        MappingNext(m0, r0, m1, r1, root, first, m, ppn, flags, used);
        r := MapPage(root, a, p, perm, own);
        if r == Panic { return; }
        if r == Done(-1) {
          MappingFails(m0, r0, m1, r1, mem, role, root, first, m, ppn, flags, used);
          return;
        }
        ghost var but := if own then {ppn} else {};
        MappingMore(m0, r0, m1, r1, mem, role, root, first, m, ppn, flags, used, but);
        used := used + Lack(m1, root, first + m);
        m := m + 1;
        MappingIs(m0, r0, mem, role, root, first, m, ppn, flags, used, but);
        if a == lastPage * 4096 { return; }
        a := a + 4096;
        p := p + 4096;
      }
    }

    /** Free the frame of page `vpn`, whose entry still names it. */
    method FreeFrame(ghost root: nat, ghost vpn: nat, f: nat) returns (ok: bool)
      requires Valid() && Owns(role, root, vpn, f) && vpn < MAXVPN
      modifies this
      ensures ok && Valid() && Spaces(mem, role) == Spaces(old(mem), old(role)) && role == old(role)[f := Free]
      ensures exists page: Page :: |page.words| == 512 && f < |old(mem)| && mem == old(mem)[f := page]
    {
      hide Tree, Spaces, Links, Junk;
      DropFrame(mem, role, f);
      ChainKeep(mem, role, free, freelist, mem, role[f := Held]);
      ghost var page := Page(Junk(1).words[0 := freelist]);
      role := role[f := Held];
      ok := Kfree(f * 4096);
      assert ok ==> mem == old(mem)[f := page];
    }

    /** Clear the valid entry of page `vpn` and, with `doFree`, free its frame first. */
    method ClearEntry(ghost root: nat, ghost vpn: nat, t: nat, k: nat, doFree: bool)
                      returns (ok: bool, ghost gone: set<nat>)
      requires Valid() && root in role && role[root] == Root && vpn < MAXVPN && t == Leaf(mem, root, vpn) != 0
               && k == I0(vpn)
      requires Table(role, t, 0) && t < |mem| && k < 512 && |mem[t].words| == 512 && IsValid(mem[t].words[k])
      requires doFree ==> Owns(role, root, vpn, Ppn(mem[t].words[k]))
      modifies this
      ensures ok && Valid() && root in role && role[root] == Root
      ensures Spaces(mem, role) == Spaces(old(mem), old(role))[root := Space(old(mem), root)[vpn := 0]]
      ensures Released(old(mem), old(role), mem, role, gone, if doFree then Free else Held)
      ensures doFree ==> gone == {Ppn(old(mem[t].words[k]))}
    {
      hide Tree, Space, Spaces, Chain, Reframed, Covers, PteAt, Released, LetGo, Owns, Leaf, I0, IsValid, Ppn, Table;
      var e := mem[t].words[k];
      ok := true;
      if doFree {
        OwnsTable(mem, role, root, vpn, Ppn(e));
        ok := FreeFrame(root, vpn, Ppn(e));
        if !ok { gone := {}; return; }
        FreedSame(old(mem), old(role), mem, role, root, vpn, t, Ppn(e));
      }
      ghost var m, ro := mem, role;
      ghost var now := LetGo(role, t, k, Ppn(e));
      SpaceOf(old(mem), old(role), root);
      SpaceOf(mem, role, root);
      LetGoIs(mem, role, t, k, SetWord(mem, t, k, 0));
      SetLeaf(root, vpn, t, k, 0, now);
      if doFree {
        gone := {Ppn(e)};
        ghost var page: Page :| |page.words| == 512 && Ppn(e) < |old(mem)| && m == old(mem)[Ppn(e) := page];
        FreedThenCleared(old(mem), old(role), m, ro, mem, Ppn(e), page, t, k);
      } else {
        gone := if now == ro then {} else {Ppn(e)};
      }
    }

    /** Remove the mapping of the page of address `a` and, with `doFree`, free its frame: one round of
        uvmunmap. */
    method UnmapPage(root: nat, a: nat, doFree: bool) returns (r: Result, ghost gone: set<nat>)
      requires Valid() && root in role && role[root] == Root
      requires doFree ==> OwnsRange(role, root, Space(mem, root), a / 4096, a / 4096 + 1)
      modifies this
      ensures Valid() && root in role && role[root] == Root
      ensures r == Panic <==> a >= MAXVA || !IsValid(Space(old(mem), root)[a / 4096])
      ensures r.Done? ==>
                && r == Done(0) && Spaces(mem, role) ==
                    Spaces(old(mem), old(role))[root := Space(old(mem), root)[a / 4096 := 0]]
                && Released(old(mem), old(role), mem, role, gone, if doFree then Free else Held)
                && (doFree ==> gone == {Ppn(Space(old(mem), root)[a / 4096])})
    {
      hide Tree, Space, Spaces, Extends, Chain, Covers, Leafy, PteAt, Released, Owns;
      var w := Walk(root, a, false);
      if w.Fault? { return Panic, {}; }
      ghost var vpn := a / 4096;
      SpaceAt(mem, root, vpn);
      LeafAt(mem, root, vpn);
      if w.Missing? { return Panic, {}; }
      var e := mem[w.table].words[w.k];
      if !IsValid(e) { return Panic, {}; }
      LeafIsLeafy(mem, role, w.table, w.k);
      if Flags(e) == PTE_V { return Panic, {}; }
      var ok;
      ok, gone := ClearEntry(root, vpn, w.table, w.k, doFree);
      return Done(0), gone;
    }

    /** Remove `npages` mappings from `va` on and, with `doFree`, free their frames.  It panics when `va`
        is not the start of a page or some page is not mapped. */
    method UvmUnmap(root: nat, va: nat, npages: nat, doFree: bool) returns (r: Result, ghost gone: set<nat>)
      requires Valid() && root in role && role[root] == Root && va + npages * 4096 < U64
      requires doFree ==> OwnsRange(role, root, Space(mem, root), va / 4096, va / 4096 + npages)
      modifies this
      ensures Valid() && root in role && role[root] == Root
      ensures r.Panic? <==> va % 4096 != 0 || (npages > 0 && va / 4096 + npages > MAXVPN)
                            || exists v ::
                                va / 4096 <= v < va / 4096 + npages && v < MAXVPN && !IsValid(Space(old(mem), root)[v])
      ensures r.Done? ==>
                && r == Done(0) && Spaces(mem, role) ==
                    Spaces(old(mem), old(role))[root := Unmapped(Space(old(mem), root), va / 4096, npages)]
                && Released(old(mem), old(role), mem, role, gone, if doFree then Free else Held)
                && (doFree && npages > 0 ==> gone == Frames(Space(old(mem), root), va / 4096, npages))
    {
      hide Tree, Space, Spaces, Chain, Covers, Released, OwnsRange, Unmapped, IsValid;
      gone := {};
      if va % 4096 != 0 { return Panic, {}; }
      ghost var first, s0, ss, to := va / 4096, Space(mem, root), Spaces(mem, role), if doFree then Free else Held;
      SpaceOf(mem, role, root);
      ReleasedNone(mem, role, to);
      UnmappedNone(s0, first);
      var a := va;
      ghost var n := 0;
      while a < va + npages * 4096
        invariant n <= npages && a == va + n * 4096 && (n > 0 ==> first + n <= MAXVPN)
        invariant Valid() && root in role && role[root] == Root
        invariant Space(mem, root) == Unmapped(s0, first, n) && Spaces(mem, role) == ss[root := Unmapped(s0, first, n)]
        invariant forall v :: first <= v < first + n ==> IsValid(s0[v])
        invariant doFree ==> OwnsRange(role, root, s0, first + n, first + npages)
        invariant Released(old(mem), old(role), mem, role, gone, to)
        invariant doFree ==> gone == if n == 0 then {} else Frames(s0, first, n)
      {
        ghost var m, ro := mem, role;
        if first + n < MAXVPN { UnmappedMore(s0, first, n); }
        if doFree { OwnsFirst(role, root, s0, first + n, first + npages, Space(mem, root)); }
        ghost var g;
        r, g := UnmapPage(root, a, doFree);
        if r.Panic? { return; }
        if doFree { OwnsRest(m, ro, mem, role, root, s0, first + n, first + npages); }
        SpaceOf(mem, role, root);
        ReleasedMore(old(mem), old(role), m, ro, mem, role, gone, g, to);
        gone := gone + g;
        n := n + 1;
        a := a + 4096;
      }
      return Done(0), gone;
    }

    /** Allocate a page and fill it; 0 when there is none. */
    method NewFrame(page: Page) returns (pa: nat)
      requires Valid() && |page.words| == 512
      modifies this
      ensures Valid() && Spaces(mem, role) == Spaces(old(mem), old(role))
      ensures pa == 0 <==> old(free) == []
      ensures pa == 0 ==> unchanged(this)
      ensures pa != 0 ==>
                && pa % 4096 == 0 && pa / 4096 in old(role) && old(role)[pa / 4096] == Free && pa / 4096 < |old(mem)|
                && role == old(role)[pa / 4096 := Held] && |free| + 1 == |old(free)|
                && mem == old(mem)[pa / 4096 := page]
    {
      hide Tree, Spaces, Chain, Covers, Junk;
      pa := Kalloc();
      if pa != 0 {
        Fill(pa / 4096, page);
        assert mem == old(mem)[pa / 4096 := page];
      }
    }

    /** Map a new frame with the given contents at address `a`: one round of uvmalloc and of uvmcopy. */
    method GrowPage(root: nat, a: nat, page: Page, perm: nat) returns (r: Result, ghost f: nat)
      requires Valid() && root in role && role[root] == Root && perm < 1024 && Leafy(perm)
      requires a % 4096 == 0 && a + 4096 < U64 && |page.words| == 512
      modifies this
      ensures Valid() && root in role && role[root] == Root && (r.Panic? || r == Done(0) || r == Done(-1))
      ensures r == Panic <==> old(free) != [] && (a >= MAXVA || IsValid(Space(old(mem), root)[a / 4096]))
      ensures r == Done(-1) <==> |old(free)| < 1 + Lack(old(mem), root, a / 4096)
      ensures r == Done(0) ==>
              |free| + 1 + Lack(old(mem), root, a / 4096) == |old(free)| && Tabled(old(mem), mem, root, a / 4096)
      ensures r == Done(-1) ==>
              Spaces(mem, role) == Spaces(old(mem), old(role)) && Extends(old(mem), old(role), mem, role)
      ensures r == Done(0) ==>
                && a / 4096 < MAXVPN && !IsValid(Space(old(mem), root)[a / 4096])
                && Spaces(mem, role) == Spaces(old(mem),
                    old(role))[root := Space(old(mem), root)[a / 4096 := Entry(f, Validated(perm))]]
                && Owns(role, root, a / 4096, f) && Took(old(mem), old(role), mem, role, {f}) && f < |mem|
                    && mem[f] == page
    {
      hide Tree, Space, Spaces, Chain, Extends, ExtendsBut, Owns, Covers, Took, Leafy, Entry, IsValid, Mapped,
          Lack, Lacks, Tabled, SameLacks;
      ExtendsSelf(mem, role);
      LackZero(mem, root, a / 4096);
      if a < MAXVA && IsValid(Space(mem, root)[a / 4096]) { ValidLack(mem, root, a / 4096); }
      var pa := NewFrame(page);
      f := pa / 4096;
      if pa == 0 { return Done(-1), 0; }
      ghost var m1, r1 := mem, role;
      FilledFree(old(mem), old(role), root, f, page, a / 4096);
      SpaceOf(old(mem), old(role), root);
      SpaceOf(mem, role, root);
      ghost var m;
      r, m := MapPages(root, a, 4096, pa, perm, true);
      if r == Panic { return; }
      ghost var m2, r2 := mem, role;
      ExtendsButRoles(m1, r1, m2, r2, if r == Done(0) then {f} else {});
      MappedNone(Space(m1, root), a / 4096, f, Validated(perm));
      if r != Done(0) {
        var ok := Kfree(pa);
        TookBack(old(mem), old(role), m1, r1, m2, r2, mem, role, f, page);
        return Done(-1), f;
      }
      MappedMore(Space(m1, root), a / 4096, 0, f, Validated(perm));
      TookFrame(old(mem), old(role), m1, r1, m2, r2, f, page);
      LackOne(m1, root, a / 4096);
      FilledTabled(old(mem), m1, mem, root, a / 4096);
    }

    /** Make an empty page table; 0 when memory is out. */
    method UvmCreate() returns (root: nat)
      requires Valid()
      modifies this
      ensures Valid() && (root == 0 <==> old(free) == [])
      ensures root == 0 ==> unchanged(this)
      ensures root != 0 ==> root in old(role) && old(role)[root] == Free && role == old(role)[root := Root]
                            && Spaces(mem, role) == Spaces(old(mem), old(role))[root := seq(MAXVPN, _ => 0)]
    {
      hide Tree, Spaces, Links, Covers;
      var pa := Kalloc();
      if pa == 0 { return 0; }
      root := pa / 4096;
      Fill(root, ZeroPage());
      NewRoot(mem, role, free, freelist, root);
      CoversSame(role, role[root := Root], end, physTop);
      role := role[root := Root];
    }

    /** Shrink a process from `oldsz` to `newsz` bytes. */
    method UvmDealloc(root: nat, oldsz: nat, newsz: nat) returns (r: Result, ghost gone: set<nat>)
      requires Valid() && root in role && role[root] == Root && oldsz < U64 - 4096
      requires OwnsRange(role, root, Space(mem, root), UpPages(newsz), UpPages(oldsz))
      modifies this
      ensures Valid() && root in role && role[root] == Root
      ensures r.Panic? <==>
                && UpPages(newsz) < UpPages(oldsz)
                && (UpPages(oldsz) > MAXVPN || exists v ::
                      UpPages(newsz) <= v < UpPages(oldsz) && v < MAXVPN && !IsValid(Space(old(mem), root)[v]))
      ensures r.Done? ==> r.value == (if newsz < oldsz then newsz else oldsz)
      ensures r.Done? && UpPages(newsz) >= UpPages(oldsz) ==> unchanged(this)
      ensures r.Done? && UpPages(newsz) < UpPages(oldsz) ==>
                && UpPages(oldsz) <= MAXVPN
                && Spaces(mem, role) == Spaces(old(mem),
                    old(role))[root := Unmapped(Space(old(mem), root), UpPages(newsz), UpPages(oldsz) - UpPages(newsz))]
                && Released(old(mem), old(role), mem, role, gone, Free)
                && gone == Frames(Space(old(mem), root), UpPages(newsz), UpPages(oldsz) - UpPages(newsz))
    {
      hide Tree, Space, Spaces, Chain, Covers, Released, OwnsRange, Unmapped, IsValid;
      gone := {};
      if newsz >= oldsz { return Done(oldsz), {}; }
      if PgRoundUp(newsz) < PgRoundUp(oldsz) {
        var npages := (PgRoundUp(oldsz) - PgRoundUp(newsz)) / 4096;
        assert npages == UpPages(oldsz) - UpPages(newsz);
        r, gone := UvmUnmap(root, PgRoundUp(newsz), npages, true);
        if r.Panic? { return; }
      }
      r := Done(newsz);
    }

    /** Take down again what was built from `start` to `a`. */
    method RollBack(root: nat, start: nat, a: nat, ghost m0: Mem, ghost r0: Roles) returns (r: Result)
      requires Valid() && root in role && role[root] == Root && start % 4096 == 0 && a % 4096 == 0
               && start <= a < U64 - 4096
      requires Tree(m0, r0)
      requires if start == a then Spaces(mem, role) == Spaces(m0, r0) && Extends(m0, r0, mem, role)
               else Grown(m0, r0, mem, role, root, start / 4096, a / 4096)
      modifies this
      ensures r.Done? && Valid() && root in role && role[root] == Root
      ensures Spaces(mem, role) == Spaces(m0, r0) && Extends(m0, r0, mem, role)
    {
      hide Tree, Space, Spaces, Chain, Covers, Extends, Took, Owns, OwnsRange, IsValid, Released, Unmapped;
      ghost var m2, r2 := mem, role;
      if start == a { OwnsNone(role, root, Space(mem, root), start / 4096); }
      ghost var gone;
      r, gone := UvmDealloc(root, a, start);
      if start != a { GrownUndone(m0, r0, m2, r2, mem, role, root, start / 4096, a / 4096); }
    }

    /** Grow a process from `oldsz` to `newsz` bytes with zeroed frames.  0 when memory runs out: then
        every translation is as before and every frame is free again. */
    method UvmAlloc(root: nat, oldsz: nat, newsz: nat) returns (r: Result)
      requires Valid() && root in role && role[root] == Root && oldsz < U64 - 4096 && newsz < U64 - 8192
      modifies this
      ensures Valid() && root in role && role[root] == Root
      ensures newsz < oldsz ==> r == Done(oldsz) && unchanged(this)
      ensures r.Panic? ==>
              UpPages(newsz) > MAXVPN || exists v ::
              UpPages(oldsz) <= v < UpPages(newsz) && v < MAXVPN && IsValid(Space(old(mem), root)[v])
      ensures oldsz <= newsz && r.Done? && r != Done(newsz) ==>
                r == Done(0) && Spaces(mem, role) == Spaces(old(mem), old(role))
                    && Extends(old(mem), old(role), mem, role)
      ensures oldsz <= newsz ==> UpPages(oldsz) <= UpPages(newsz)
      ensures oldsz <= newsz && r.Done? ==>
                (r == Done(newsz) <==> |old(free)| >= Need(old(mem), root, UpPages(oldsz), UpPages(newsz)))
      ensures oldsz <= newsz && r == Done(newsz) ==>
                |free| + Need(old(mem), root, UpPages(oldsz), UpPages(newsz)) == |old(free)|
      ensures oldsz <= newsz && r == Done(newsz) && UpPages(oldsz) < UpPages(newsz) ==>
                var n := UpPages(newsz) - UpPages(oldsz);
                Built(old(mem), old(role), mem, role, root, UpPages(oldsz), UpPages(newsz), seq(n, _ => 31),
                    seq(n, _ => ZeroPage()))
    {
      hide Tree, Space, Spaces, Chain, Covers, Built, Grown, Extends, Took, Owns, OwnsRange, IsValid, Released,
          Unmapped, Entry, Lack, Lacks, Spent, Tabled;
      if newsz < oldsz { return Done(oldsz); }
      ghost var m0, r0, from, used: nat := mem, role, UpPages(oldsz), 0;
      SpentNone(mem, root, from);
      ghost var flags: seq<nat>, want: seq<Page> := [], [];
      SpaceOf(m0, r0, root);
      ExtendsSelf(m0, r0);
      var start := PgRoundUp(oldsz);
      var a := start;
      ghost var n := 0;
      while a < newsz
        invariant Valid() && root in role && role[root] == Root && a == start + n * 4096 && from + n <= UpPages(newsz)
        invariant |free| + n + used == |old(free)| && Spent(m0, mem, root, from, from + n, used)
        invariant flags == seq(n, _ => 31) && want == seq(n, _ => ZeroPage())
        invariant if n == 0 then mem == m0 && role == r0 && free == old(free) && freelist == old(freelist)
                  else from + n <= MAXVPN && Built(m0, r0, mem, role, root, from, from + n, flags, want)
      {
        ghost var f;
        ghost var m1, r1, left := mem, role, |free|;
        if n == 0 && from <= MAXVPN { BuiltNone(m0, r0, root, from); }
        r, f := GrowPage(root, a, ZeroPage(), PTE_W + PTE_X + PTE_R + PTE_U);
        if from + n < MAXVPN { BuiltSame(m0, r0, m1, r1, root, from, from + n, flags, want); }
        if r.Panic? { return; }
        if r != Done(0) {
          if n > 0 { BuiltOwns(m0, r0, m1, r1, mem, role, root, from, from + n, flags, want); }
          TooFew(m0, m1, root, from, from + n, used, UpPages(newsz), left);
          r := RollBack(root, start, a, m0, r0);
          return Done(0);
        }
        SpentMore(m0, m1, mem, root, from, from + n, used);
        used := used + Lack(m1, root, from + n);
        BuiltMore(m0, r0, m1, r1, mem, role, root, from, from + n, flags, want, f, 31, ZeroPage());
        flags, want := flags + [31], want + [ZeroPage()];
        a := a + 4096;
        n := n + 1;
      }
      SpentIs(m0, mem, root, from, from + n, used);
      return Done(newsz);
    }

    /** Copy the page of address `i` from one address space into another: one round of uvmcopy. */
    method CopyPage(from: nat, into: nat, i: nat) returns (r: Result, ghost f: nat)
      requires Valid() && from in role && role[from] == Root && into in role && role[into] == Root && i % 4096 == 0
               && i + 4096 < U64
      requires OwnsRange(role, from, Space(mem, from), i / 4096, i / 4096 + 1)
      modifies this
      ensures Valid() && into in role && role[into] == Root && (r.Panic? || r == Done(0) || r == Done(-1))
      ensures r == Panic <==>
              i / 4096 >= MAXVPN || !IsValid(Space(old(mem), from)[i / 4096])
              || (old(free) != [] && IsValid(Space(old(mem), into)[i / 4096]))
      ensures r == Done(-1) <==> i / 4096 < MAXVPN && IsValid(Space(old(mem), from)[i / 4096])
                                 && |old(free)| < 1 + Lack(old(mem), into, i / 4096)
      ensures r == Done(0) ==>
              |free| + 1 + Lack(old(mem), into, i / 4096) == |old(free)| && Tabled(old(mem), mem, into, i / 4096)
      ensures r == Done(-1) ==>
              Spaces(mem, role) == Spaces(old(mem), old(role)) && Extends(old(mem), old(role), mem, role)
      ensures r == Done(0) ==>
                && i / 4096 < MAXVPN && IsValid(Space(old(mem), from)[i / 4096])
                    && !IsValid(Space(old(mem), into)[i / 4096])
                && var e := Space(old(mem), from)[i / 4096];
                && Ppn(e) < |old(mem)| && Flags(e) < 1024 && Flags(e) % 2 == 1
                && Spaces(mem, role) == Spaces(old(mem),
                    old(role))[into := Space(old(mem), into)[i / 4096 := Entry(f, Flags(e))]]
                && Owns(role, into, i / 4096, f) && Took(old(mem), old(role), mem, role, {f}) && f < |mem|
                    && mem[f] == old(mem)[Ppn(e)]
    {
      hide Tree, Space, Spaces, Chain, Covers, Extends, Took, Owns, Entry, Leafy, PteAt, Flags, Validated, Lack,
          Tabled;
      f := 0;
      var w := Walk(from, i, false);
      if w.Fault? { return Panic, 0; }
      SpaceAt(mem, from, i / 4096);
      LeafAt(mem, from, i / 4096);
      if w.Missing? { return Panic, 0; }
      var e := mem[w.table].words[w.k];
      if !IsValid(e) { return Panic, 0; }
      LeafIsLeafy(mem, role, w.table, w.k);
      FlagsOfLeaf(e);
      ValidFlags(e);
      OwnedPage(mem, role, from, i / 4096, Ppn(e));
      r, f := GrowPage(into, i, mem[Ppn(e)], Flags(e));
    }

    /** Copy the first `sz` bytes of one address space into another that has nothing there: every page
        gets a frame of its own with the same flags and contents.  -1 when memory runs out, with the
        new space as it was. */
    method UvmCopy(from: nat, into: nat, sz: nat) returns (r: Result)
      requires Valid() && from in role && role[from] == Root && into in role && role[into] == Root && from != into
               && sz < U64 - 8192
      requires OwnsRange(role, from, Space(mem, from), 0, UpPages(sz))
      modifies this
      ensures Valid() && into in role && role[into] == Root
      ensures r.Panic? ==> exists v :: 0 <= v < UpPages(sz) &&
                             (v >= MAXVPN || !IsValid(Space(old(mem), from)[v]) || IsValid(Space(old(mem), into)[v]))
      ensures r.Done? ==> r == Done(0) || r == Done(-1)
      ensures r.Done? ==> (r == Done(0) <==> |old(free)| >= Need(old(mem), into, 0, UpPages(sz)))
      ensures r == Done(0) ==> |free| + Need(old(mem), into, 0, UpPages(sz)) == |old(free)|
      ensures r == Done(-1) ==>
              Spaces(mem, role) == Spaces(old(mem), old(role)) && Extends(old(mem), old(role), mem, role)
      ensures r == Done(0) ==>
                && UpPages(sz) <= MAXVPN
                    && (forall v :: 0 <= v < UpPages(sz) ==> Ppn(Space(old(mem), from)[v]) < |old(mem)|)
                && Built(old(mem), old(role), mem, role, into, 0, UpPages(sz),
                         FlagsOf(Space(old(mem), from), UpPages(sz)),
                             PagesOf(old(mem), Space(old(mem), from), UpPages(sz)))
    {
      hide Tree, Space, Spaces, Chain, Covers, Built, Grown, Extends, Took, Owns, OwnsRange, IsValid, Entry, Flags,
          SourceKept, Lack, Lacks, Spent, Tabled;
      ghost var used: nat := 0;
      SpentNone(mem, into, 0);
      ghost var m0, r0, s := mem, role, Space(mem, from);
      ghost var top := UpPages(sz);
      SpaceOf(m0, r0, from);
      SpaceOf(m0, r0, into);
      ExtendsSelf(m0, r0);
      BuiltNone(m0, r0, into, 0);
      SourceStarts(m0, r0, from, s, top);
      assert FlagsOf(s, 0) == [] && PagesOf(m0, s, 0) == [];
      var i := 0;
      ghost var n := 0;
      while i < sz
        invariant Valid() && into in role && role[into] == Root && from in role && role[from] == Root && i == n * 4096
        invariant n <= top && n <= MAXVPN && SourceKept(m0, mem, role, from, s, top) && Space(mem, from) == s
        invariant |free| + n + used == |old(free)| && Spent(m0, mem, into, 0, n, used)
        invariant (n == 0 ==> mem == m0 && role == r0) && forall v :: 0 <= v < n ==> Ppn(s[v]) < |m0|
        invariant Built(m0, r0, mem, role, into, 0, n, FlagsOf(s, n), PagesOf(m0, s, n))
      {
        ghost var m1, r1, left := mem, role, |free|;
        SourceFirst(m0, m1, r1, from, s, n, top);
        if n < MAXVPN { BuiltSame(m0, r0, m1, r1, into, 0, n, FlagsOf(s, n), PagesOf(m0, s, n)); }
        ghost var f;
        r, f := CopyPage(from, into, i);
        if r.Panic? { return; }
        if r != Done(0) {
          BuiltOwns(m0, r0, m1, r1, mem, role, into, 0, n, FlagsOf(s, n), PagesOf(m0, s, n));
          TooFew(m0, m1, into, 0, n, used, top, left);
          r := RollBack(into, 0, i, m0, r0);
          return Done(-1);
        }
        SpentMore(m0, m1, mem, into, 0, n, used);
        used := used + Lack(m1, into, n);
        SourceStays(m0, m1, r1, mem, role, from, s, n, top, {f});
        SpaceOf(m1, r1, from);
        SpaceOf(mem, role, from);
        BuiltMore(m0, r0, m1, r1, mem, role, into, 0, n, FlagsOf(s, n), PagesOf(m0, s, n), f, Flags(s[n]), mem[f]);
        assert FlagsOf(s, n + 1) == FlagsOf(s, n) + [Flags(s[n])];
        assert PagesOf(m0, s, n + 1) == PagesOf(m0, s, n) + [m0[Ppn(s[n])]];
        i := i + 4096;
        n := n + 1;
      }
      SpentIs(m0, mem, into, 0, n, used);
      return Done(0);
    }

    /** Clear entry `i` of a page that is in use. */
    method Clear(p: nat, i: nat)
      requires Pool() && p in role && role[p] != Free && p < |mem| && |mem[p].words| == 512 && i < 512
      modifies this`mem
      ensures Pool() && mem == SetWord(old(mem), p, i, 0)
    {
      hide Links;
      ChainKeep(mem, role, free, freelist, SetWord(mem, p, i, 0), role);
      mem := SetWord(mem, p, i, 0);
    }

    /** Free a table and all tables below it.  False is the panic for a leaf that is still there. */
    method FreeTables(p: nat, ghost level: nat, ghost off: set<nat>) returns (ok: bool)
      requires Pool() && TreeOff(mem, role, off) && Table(role, p, level) && Above(role, off, level) && p !in off
      requires role[p] == Root || role[p].parent in off
      modifies this
      ensures Pool()
      ensures ok <==> NoLeaves(old(mem), old(role), p)
      ensures ok ==> Freed(old(mem), old(role), mem, role, off, p)
      decreases level
    {
      hide TreeOff, Walking, Freed, Chain, Covers, Above, NoLeaves, NoneYet, Junk, IsValid, Leafy, Ppn;
      ghost var m0, r0 := mem, role;
      WalkingStarts(m0, r0, off, p, level);
      NoneYetStarts(m0, r0, off, p);
      var i := 0;
      while i < 512
        invariant i <= 512 && Pool() && Walking(m0, r0, mem, role, off, p, level, i) && NoneYet(m0, r0, p, i)
      {
        WalkingTable(m0, r0, mem, role, off, p, level, i);
        var e := mem[p].words[i];
        if IsValid(e) && !Leafy(e) {
          var child := Ppn(e);
          ghost var m1, r1 := mem, role;
          WalkingChild(m0, r0, m1, r1, off, p, level, i, child);
          if NoLeaves(m0, r0, p) { ChildNoLeaves(m0, r0, m1, r1, off, p, level, i, child); }
          ok := FreeTables(child, level - 1, off + {p});
          if !ok { return; }
          NoneYetMore(m0, r0, m1, r1, off, p, level, i, child);
          TableLevel(m0, r0, m1, r1, off, p, level, i);
          FreedStays(m1, r1, mem, role, off + {p}, p, level, child);
          ghost var m2, r2 := mem, role;
          Clear(p, i);
          WalkingMore(m0, r0, m1, r1, off, p, level, i, child, m2, r2, mem);
        } else if IsValid(e) {
          LeafFound(m0, r0, mem, role, off, p, level, i);
          return false;
        } else {
          NoneYetSkips(m0, r0, mem, role, off, p, level, i);
          WalkingSkips(m0, r0, mem, role, off, p, level, i);
        }
        i := i + 1;
      }
      NoneYetEnds(m0, r0, off, p, level);
      WalkingTable(m0, r0, mem, role, off, p, level, 512);
      WalkingEnds(m0, r0, mem, role, off, p, level, Page(Junk(1).words[0 := freelist]));
      ok := Kfree(p * 4096);
    }

    /** Free the first `sz` bytes of an address space and then its tables: every page of it is free
        afterwards, and nothing else has changed.  It does so exactly when those pages and
        no others are mapped, and panics otherwise. */
    method UvmFree(root: nat, sz: nat) returns (r: Result)
      requires Valid() && root in role && role[root] == Root && sz < U64 - 8192
      requires OwnsRange(role, root, Space(mem, root), 0, UpPages(sz))
      modifies this
      ensures r.Done? <==> Exactly(Space(old(mem), root), UpPages(sz))
      ensures r.Done? ==>
                && Valid() && Spaces(mem, role) == Spaces(old(mem), old(role)) - {root} && UpPages(sz) <= MAXVPN
                && role.Keys == old(role).Keys
                && forall q :: q in role ==>
                     role[q] == if Gone(old(role), root, Frames(Space(old(mem), root), 0, UpPages(sz)), q) then Free
                         else old(role)[q]
    {
      hide Tree, Space, Spaces, Chain, Covers, Released, OwnsRange, Unmapped, TreeOff, NoLeaves, Above, Freed, Gone,
          Frames;
      ghost var m0, r0, s, n := mem, role, Space(mem, root), UpPages(sz);
      ghost var gone: set<nat> := {};
      ReleasedNone(m0, r0, Free);
      UnmappedNone(s, 0);
      SpaceOf(m0, r0, root);
      NoFrames(s);
      if sz > 0 {
        r, gone := UvmUnmap(root, 0, PgRoundUp(sz) / 4096, true);
        if r.Panic? { return; }
      }
      ghost var m1, r1 := mem, role;
      SpaceOf(m1, r1, root);
      if Exactly(s, n) { ExactlyEmpties(m1, r1, root, s, n); }
      RootAlone(m1, r1, root);
      var ok := FreeTables(root, 2, {});
      if !ok { return Panic; }
      WasExactly(m1, r1, root, s, n);
      FreedSpaces(m1, r1, mem, role, root);
      forall f | f in gone ensures f in r0 && r0[f].Frame? {
        FramesOwned(r0, root, s, n, n, f);
      }
      AllGone(m0, r0, m1, r1, mem, role, root, gone);
      r := Done(0);
    }
  }

  lemma CoversFrom(role: Roles, end: nat, top: nat, k: nat)
    requires Covers(role, end, top) && k == (end + 4095) / 4096
    ensures forall q :: q in role ==> k <= q
  {
  }

  lemma CoversBelow(role: Roles, end: nat, top: nat, k: nat)
    requires Covers(role, end, top) && top % 4096 == 0 && k * 4096 + 4096 > top
    ensures forall q :: q in role ==> q < k
  {
  }

  lemma CoversSame(role: Roles, now: Roles, end: nat, top: nat)
    requires Covers(role, end, top) && now.Keys == role.Keys
    ensures Covers(now, end, top)
  {
    assert forall p :: p in now <==> p in role;
  }

  lemma NoFrames(s: seq<nat>)
    ensures Frames(s, 0, 0) == {}
  {
  }

  lemma TableLevel(m0: Mem, r0: Roles, mem: Mem, role: Roles, off: set<nat>, p: nat, level: nat, i: nat)
    requires Walking(m0, r0, mem, role, off, p, level, i)
    ensures Table(role, p, level)
  {
    WalkingTable(m0, r0, mem, role, off, p, level, i);
  }

  lemma ValidFlags(e: nat)
    requires IsValid(Flags(e))
    ensures Flags(e) % 2 == 1
  {
  }

  lemma OwnedPage(mem: Mem, role: Roles, root: nat, vpn: nat, f: nat)
    requires Tree(mem, role) && Owns(role, root, vpn, f)
    ensures f < |mem| && |mem[f].words| == 512
  {
  }

  /** The flags of the first `n` pages, and what their frames hold. */
  ghost function FlagsOf(s: seq<nat>, n: nat): seq<nat>
    requires n <= |s|
  {
    seq(n, v requires 0 <= v < n => Flags(s[v]))
  }

  ghost function PagesOf(mem: Mem, s: seq<nat>, n: nat): seq<Page>
    requires n <= |s| && forall v :: 0 <= v < n ==> Ppn(s[v]) < |mem|
  {
    seq(n, v requires 0 <= v < n => mem[Ppn(s[v])])
  }

  /** The frames of `from` still belong to it and hold what they held. */
  ghost predicate SourceKept(m0: Mem, mem: Mem, role: Roles, from: nat, s: seq<nat>, to: nat) {
    && |mem| == |m0| && OwnsRange(role, from, s, 0, to) && from in role && role[from] == Root
    && forall v :: 0 <= v < to && v < |s| && IsValid(s[v]) ==> Ppn(s[v]) < |m0| && mem[Ppn(s[v])] == m0[Ppn(s[v])]
  }

  lemma SourceStarts(mem: Mem, role: Roles, from: nat, s: seq<nat>, to: nat)
    requires Tree(mem, role) && OwnsRange(role, from, s, 0, to) && from in role && role[from] == Root
    ensures SourceKept(mem, mem, role, from, s, to)
  {
    forall v | 0 <= v < to && v < |s| && IsValid(s[v]) ensures Ppn(s[v]) < |mem| {
      OwnedPage(mem, role, from, v, Ppn(s[v]));
    }
  }

  lemma SourceFirst(m0: Mem, mem: Mem, role: Roles, from: nat, s: seq<nat>, n: nat, to: nat)
    requires SourceKept(m0, mem, role, from, s, to) && n < to
    ensures OwnsRange(role, from, s, n, n + 1)
  {
  }

  lemma SourceStays(m0: Mem, m1: Mem, r1: Roles, m2: Mem, r2: Roles, from: nat, s: seq<nat>, n: nat, to: nat,
                    taken: set<nat>)
    requires SourceKept(m0, m1, r1, from, s, to) && Took(m1, r1, m2, r2, taken) && n < to && n < |s| && IsValid(s[n])
    ensures SourceKept(m0, m2, r2, from, s, to) && from in r2 && r2[from] == Root && Ppn(s[n]) < |m0| == |m1|
            && m1[Ppn(s[n])] == m0[Ppn(s[n])]
  {
    forall v | 0 <= v < to && v < |s| && IsValid(s[v]) ensures Owns(r2, from, v, Ppn(s[v]))
        && m2[Ppn(s[v])] == m1[Ppn(s[v])] {
      assert Owns(r1, from, v, Ppn(s[v]));
    }
  }

  /** Whole pages for `n` bytes. */
  function UpPages(n: nat): nat { PgRoundUp(n) / 4096 }

  lemma OwnsTable(mem: Mem, role: Roles, root: nat, vpn: nat, f: nat)
    requires Tree(mem, role) && Owns(role, root, vpn, f) && vpn < MAXVPN
    ensures f in role && role[f] == Frame(Leaf(mem, root, vpn), I0(vpn)) && f != root
  {
    OwnsTranslates(mem, role, root, vpn, f);
  }

  /** Freeing a frame leaves its entry and the way to it. */
  lemma FreedSame(m0: Mem, r0: Roles, m1: Mem, r1: Roles, root: nat, vpn: nat, t: nat, f: nat)
    requires Tree(m0, r0) && Owns(r0, root, vpn, f) && vpn < MAXVPN && t == Leaf(m0, root, vpn) && r1 == r0[f := Free]
    requires exists page: Page :: |page.words| == 512 && f < |m0| && m1 == m0[f := page]
    ensures Leaf(m1, root, vpn) == t && Table(r1, t, 0) && t < |m1| && t < |m0| && m1[t] == m0[t] && r1.Keys == r0.Keys
  {
    WalkTables(m0, r0, root, vpn);
    OwnsTranslates(m0, r0, root, vpn, f);
  }

  lemma LeafAt(mem: Mem, root: nat, vpn: nat)
    ensures Leaf(mem, root, vpn) == 0 ==> PteAt(mem, root, vpn) == 0
    ensures 0 < Leaf(mem, root, vpn) < |mem| && I0(vpn) < |mem[Leaf(mem, root, vpn)].words| ==>
              PteAt(mem, root, vpn) == mem[Leaf(mem, root, vpn)].words[I0(vpn)]
  {
  }

  const U64: nat := 0x1_0000_0000_0000_0000

  /** The page of the last of `size` bytes from `va`, in 64-bit arithmetic. */
  function LastPage(va: nat, size: nat): nat { (va + size + U64 - 1) % U64 / 4096 }

  /** From `m0` to `mem`, `n` pages from `first` have been mapped, with `used` pages taken for tables. */
  ghost predicate Mapping(m0: Mem, r0: Roles, mem: Mem, role: Roles, root: nat, first: nat, n: nat, ppn: nat,
                          flags: nat, used: nat, but: set<nat>)
    requires flags < 1024
  {
    && root in r0 && r0[root] == Root && root in role && role[root] == Root
    && Spaces(mem, role) == Spaces(m0, r0)[root := Mapped(Space(m0, root), first, n, ppn, flags)]
    && (n > 0 ==> first + n <= MAXVPN) && (forall v :: first <= v < first + n ==> !IsValid(Space(m0, root)[v]))
    && ExtendsBut(m0, r0, mem, role, but) && Spent(m0, mem, root, first, first + n, used)
  }

  lemma MappingStarts(mem: Mem, role: Roles, root: nat, first: nat, ppn: nat, flags: nat)
    requires Tree(mem, role) && root in role && role[root] == Root && flags < 1024
    ensures Mapping(mem, role, mem, role, root, first, 0, ppn, flags, 0, {})
  {
    hide Tree, Space, Mapped, Spent, Extends, Spaces;
    ExtendsSelf(mem, role);
    ExtendsIsBut(mem, role, mem, role);
    SpaceOf(mem, role, root);
    MappedNone(Space(mem, root), first, ppn, flags);
    SpentNone(mem, root, first);
  }

  lemma MappingIs(m0: Mem, r0: Roles, mem: Mem, role: Roles, root: nat, first: nat, n: nat, ppn: nat, flags: nat,
                  used: nat, but: set<nat>)
    requires flags < 1024 && Mapping(m0, r0, mem, role, root, first, n, ppn, flags, used, but)
    ensures used == Lacks(m0, root, first, first + n) && ExtendsBut(m0, r0, mem, role, but)
    ensures Spaces(mem, role) == Spaces(m0, r0)[root := Mapped(Space(m0, root), first, n, ppn, flags)]
    ensures (n > 0 ==> first + n <= MAXVPN) && forall v :: first <= v < first + n ==> !IsValid(Space(m0, root)[v])
  {
    hide Spaces, Spent, ExtendsBut;
    SpentIs(m0, mem, root, first, first + n, used);
  }

  /** The next page is mapped if it was, and its tables are missing as they were. */
  lemma MappingNext(m0: Mem, r0: Roles, mem: Mem, role: Roles, root: nat, first: nat, n: nat, ppn: nat, flags: nat,
                    used: nat)
    requires flags < 1024 && Mapping(m0, r0, mem, role, root, first, n, ppn, flags, used, {})
    ensures first + n < MAXVPN ==> Space(mem, root)[first + n] == Space(m0, root)[first + n]
    ensures used + Lack(mem, root, first + n) == Lacks(m0, root, first, first + n + 1)
    ensures (n > 0 ==> first + n <= MAXVPN) && forall v :: first <= v < first + n ==> !IsValid(Space(m0, root)[v])
  {
    hide Spent, ExtendsBut, Lack, Lacks, Space;
    SpentIs(m0, mem, root, first, first + n, used);
    SpaceOf(mem, role, root);
    if first + n < MAXVPN { MappedMore(Space(m0, root), first, n, ppn, flags); }
  }

  lemma MappingMore(m0: Mem, r0: Roles, m1: Mem, r1: Roles, m2: Mem, r2: Roles, root: nat, first: nat, n: nat,
                    ppn: nat, flags: nat, used: nat, but: set<nat>)
    requires flags < 1024 && Mapping(m0, r0, m1, r1, root, first, n, ppn, flags, used, {}) && first + n < MAXVPN
    requires root in r2 && r2[root] == Root && !IsValid(Space(m1, root)[first + n])
    requires Spaces(m2, r2) == Spaces(m1, r1)[root := Space(m1, root)[first + n := Entry(ppn + n, flags)]]
    requires ExtendsBut(m1, r1, m2, r2, but) && (forall p :: p in but ==> p in r0 && r0[p] != Free)
    requires Tabled(m1, m2, root, first + n)
    ensures Mapping(m0, r0, m2, r2, root, first, n + 1, ppn, flags, used + Lack(m1, root, first + n), but)
  {
    hide Space, Spent, ExtendsBut, Lack, Entry, IsValid, Tabled, Spaces;
    SpaceOf(m1, r1, root);
    MappedMore(Space(m0, root), first, n, ppn, flags);
    SpentMore(m0, m1, m2, root, first, first + n, used);
    ExtendsButTrans(m0, r0, m1, r1, m2, r2, but);
  }

  lemma MappingFails(m0: Mem, r0: Roles, m1: Mem, r1: Roles, m2: Mem, r2: Roles, root: nat, first: nat, n: nat,
                     ppn: nat, flags: nat, used: nat)
    requires flags < 1024 && Mapping(m0, r0, m1, r1, root, first, n, ppn, flags, used, {})
    requires Spaces(m2, r2) == Spaces(m1, r1) && Extends(m1, r1, m2, r2)
    ensures Spaces(m2, r2) == Spaces(m0, r0)[root := Mapped(Space(m0, root), first, n, ppn, flags)]
    ensures ExtendsBut(m0, r0, m2, r2, {})
  {
    hide Space, Spent, ExtendsBut, Extends, Spaces;
    ExtendsIsBut(m1, r1, m2, r2);
    ExtendsButTrans(m0, r0, m1, r1, m2, r2, {});
  }

  /** Unless the addresses wrap around, the pages that are mapped are those that some of the bytes fall in. */
  lemma MappedRange(s: seq<nat>, va: nat, size: nat, pa: nat, perm: nat, v: nat)
    requires 0 < size && va + size <= U64 && perm < 1024 && v < |s|
    ensures LastPage(va, size) >= va / 4096
    ensures Mapped(s, va / 4096, LastPage(va, size) - va / 4096 + 1, pa / 4096, Validated(perm))[v]
            == if va < (v + 1) * 4096 && v * 4096 < va + size then Entry(pa / 4096 + (v - va / 4096), Validated(perm))
               else s[v]
  {
  }

  lemma ExtendsRoles(mem: Mem, role: Roles, mem': Mem, role': Roles)
    requires Extends(mem, role, mem', role')
    ensures role'.Keys == role.Keys && forall p :: p in role && role[p] != Free ==> role'[p] == role[p]
  {
  }

  lemma SpaceAt(mem: Mem, root: nat, vpn: nat)
    requires vpn < MAXVPN
    ensures Space(mem, root)[vpn] == PteAt(mem, root, vpn)
  {
  }

  /** Changing a leaf entry frees no page and takes none off the free list. */
  lemma ReframedFree(role: Roles, t: nat, k: nat, was: nat, e: nat, now: Roles)
    requires Reframed(role, t, k, was, e, now)
    ensures forall p :: (p in role && role[p] == Free) <==> (p in now && now[p] == Free)
  {
  }

  lemma TookTable(m0: Mem, r0: Roles, p: nat, level: nat, k: nat, c: nat, page: Page, e: nat, mem: Mem, role: Roles)
    requires Tree(m0, r0) && Table(r0, p, level) && p < |m0| && c < |m0| && c != p && c in r0 && r0[c] == Free
             && k < |m0[p].words|
    requires level > 0 && mem == SetWord(m0[c := page], p, k, e) && role == r0[c := Node(level - 1, p, k)]
    ensures Extends(m0, r0, mem, role)
  {
  }

  lemma PathStarts(mem: Mem, role: Roles, root: nat, vpn: nat)
    requires Tree(mem, role) && root in role
    ensures OnPath(mem, root, vpn, 2, root) && root != 0
  {
  }

  lemma FilledFree(mem: Mem, role: Roles, root: nat, f: nat, page: Page, v: nat)
    requires Tree(mem, role) && root in role && role[root] == Root && f in role && f < |mem| && |page.words| == 512
    requires role[f] == Free
    ensures SameLacks(mem, mem[f := page], root) && Lack(mem[f := page], root, v) == Lack(mem, root, v)
  {
    hide Tree;
    FilledLacks(mem, role, root, f, page);
  }

  lemma FilledTabled(m0: Mem, m1: Mem, m2: Mem, root: nat, v: nat)
    requires SameLacks(m0, m1, root) && Tabled(m1, m2, root, v)
    ensures Tabled(m0, m2, root, v)
  {
    SameTabled(m0, m1, m2, m2, root, v);
  }

  lemma StillTabled(m0: Mem, m1: Mem, m2: Mem, root: nat, vpn: nat)
    requires Tabled(m0, m1, root, vpn) && SameLacks(m1, m2, root)
    ensures Tabled(m0, m2, root, vpn)
  {
    SameTabled(m0, m0, m1, m2, root, vpn);
  }

  lemma LeafThere(m0: Mem, mem: Mem, root: nat, vpn: nat)
    requires Tabling(m0, mem, root, vpn) && vpn < MAXVPN && Leaf(mem, root, vpn) != 0
    ensures Tabled(m0, mem, root, vpn)
  {
  }

  lemma PathEnds(mem: Mem, root: nat, vpn: nat, p: nat)
    requires OnPath(mem, root, vpn, 0, p)
    ensures p == Leaf(mem, root, vpn)
  {
  }

  lemma ExtendsSelf(mem: Mem, role: Roles)
    requires Tree(mem, role)
    ensures Extends(mem, role, mem, role)
  {
  }
}
