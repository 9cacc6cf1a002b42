/** Taking a page table down.  While a subtree goes, the entries above it dangle. */
module FreeWalk {
  import opened Pages
  import opened PageTable
  import opened Kalloc

  /** The tables are sound except that entries of the tables in `off` may dangle. */
  ghost predicate TreeOff(mem: Mem, role: Roles, off: set<nat>) {
    && Up(mem, role)
    && forall p: nat, level: nat, k: nat ::
        Table(role, p, level) && p !in off && k < 512 ==> Good(mem, role, p, level, k)
  }

  lemma TreeOffNone(mem: Mem, role: Roles)
    ensures TreeOff(mem, role, {}) <==> Tree(mem, role)
  {
  }

  /** Page `q` is table `p` or a table below it. */
  predicate Below(role: Roles, p: nat, q: nat) {
    q == p || (q in role && role[q].Node? &&
               (role[q].parent == p || (role[q].parent in role && role[role[q].parent].Node?
                   && role[role[q].parent].parent == p)))
  }

  /** ... and hangs from one of the first `i` entries of `p`. */
  predicate BelowFirst(role: Roles, p: nat, i: nat, q: nat) {
    q in role && role[q].Node? &&
    ((role[q].parent == p && role[q].k < i) ||
     (role[q].parent in role && role[role[q].parent].Node? && role[role[q].parent].parent == p
         && role[role[q].parent].k < i))
  }

  /** No leaf entry is left in the tables from `p` down. */
  ghost predicate NoLeaves(mem: Mem, role: Roles, p: nat) {
    Shape(mem, role) &&
    forall t: nat, k: nat :: Table(role, t, 0) && Below(role, p, t) && k < 512 ==> !IsValid(mem[t].words[k])
  }

  /** The tables in `off` are of a higher level. */
  ghost predicate Above(role: Roles, off: set<nat>, level: nat) {
    forall a: nat, l: nat :: a in off && Table(role, a, l) ==> l > level
  }

  /** The state of freewalk at entry `i` of table `p`: the subtrees of the entries before it are free and
      those entries are 0; the rest is as it was at the start. */
  ghost predicate Walking(m0: Mem, r0: Roles, mem: Mem, role: Roles, off: set<nat>, p: nat, level: nat, i: nat) {
    && TreeOff(m0, r0, off) && Table(r0, p, level) && Above(r0, off, level) && p !in off && i <= 512
    && (r0[p] == Root || r0[p].parent in off)
    && TreeOff(mem, role, off + {p}) && |mem| == |m0| && role.Keys == r0.Keys
    && (forall q :: q in r0 ==> role[q] == if BelowFirst(r0, p, i, q) then Free else r0[q])
    && (forall q :: 0 <= q < |m0| && q != p && !BelowFirst(r0, p, i, q) ==> mem[q] == m0[q])
    && p < |m0| && (forall k :: 0 <= k < 512 ==> mem[p].words[k] == if k < i then 0 else m0[p].words[k])
  }

  /** Exactly the tables from `p` down are free, and nothing else has changed. */
  ghost predicate Freed(m0: Mem, r0: Roles, mem: Mem, role: Roles, off: set<nat>, p: nat) {
    && TreeOff(mem, role, off) && |mem| == |m0| && role.Keys == r0.Keys
    && (forall q :: q in r0 ==> role[q] == if Below(r0, p, q) then Free else r0[q])
    && (forall q :: 0 <= q < |m0| && !Below(r0, p, q) ==> mem[q] == m0[q])
  }

  lemma WalkingStarts(mem: Mem, role: Roles, off: set<nat>, p: nat, level: nat)
    requires TreeOff(mem, role, off) && Table(role, p, level) && Above(role, off, level) && p !in off
    requires role[p] == Root || role[p].parent in off
    ensures Walking(mem, role, mem, role, off, p, level, 0)
  {
  }

  /** At an entry that is not valid there is nothing below. */
  lemma WalkingSkips(m0: Mem, r0: Roles, mem: Mem, role: Roles, off: set<nat>, p: nat, level: nat, i: nat)
    requires Walking(m0, r0, mem, role, off, p, level, i) && i < 512 && !IsValid(mem[p].words[i])
    ensures Walking(m0, r0, mem, role, off, p, level, i + 1)
  {
    assert Good(m0, r0, p, level, i);
    forall q | q in r0 ensures BelowFirst(r0, p, i + 1, q) == BelowFirst(r0, p, i, q) {
      assert Hangs(m0, r0, q);
      if r0[q].Node? { assert Hangs(m0, r0, r0[q].parent); }
    }
  }

  /** The child at a valid entry is a table one level down that is all there. */
  lemma WalkingChild(m0: Mem, r0: Roles, mem: Mem, role: Roles, off: set<nat>, p: nat, level: nat, i: nat, c: nat)
    requires Walking(m0, r0, mem, role, off, p, level, i) && i < 512 && IsValid(mem[p].words[i])
             && !Leafy(mem[p].words[i])
    requires c == Ppn(mem[p].words[i])
    ensures 0 < level && Table(role, c, level - 1) && c !in off + {p} && c in r0
            && role[c] == r0[c] == Node(level - 1, p, i)
    ensures Above(role, off + {p}, level - 1)
  {
    assert Good(m0, r0, p, level, i);
    assert Table(r0, c, level - 1);
    assert forall a: nat, l: nat :: Table(role, a, l) ==> Table(r0, a, l);
  }

  lemma ChildNoLeaves(m0: Mem, r0: Roles, mem: Mem, role: Roles, off: set<nat>, p: nat, level: nat, i: nat, c: nat)
    requires Walking(m0, r0, mem, role, off, p, level, i) && NoLeaves(m0, r0, p) && c in r0 && c != p
    requires role[c] == r0[c] && r0[c].Node? && r0[c].parent == p && 0 < level && r0[c].level == level - 1
    ensures NoLeaves(mem, role, c)
  {
    forall t: nat, k: nat | Table(role, t, 0) && Below(role, c, t) && k < 512 ensures !IsValid(mem[t].words[k]) {
      assert Hangs(mem, role, t);
      assert Table(r0, t, 0) && Below(r0, p, t);
    }
  }

  lemma LeafFound(m0: Mem, r0: Roles, mem: Mem, role: Roles, off: set<nat>, p: nat, level: nat, i: nat)
    requires Walking(m0, r0, mem, role, off, p, level, i) && i < 512 && IsValid(mem[p].words[i])
             && Leafy(mem[p].words[i])
    ensures !NoLeaves(m0, r0, p)
  {
    var e := m0[p].words[i];
    assert Good(m0, r0, p, level, i);
    assert Flags(e) == PTE_V ==> !Leafy(e) by { EntryParts(e / 1024, e % 1024); assert e == Entry(e / 1024, e % 1024); }
    assert Below(r0, p, p);
  }

  /** What was below the first i + 1 entries is what was below the first i and below the child at i. */
  lemma BelowNext(m0: Mem, r0: Roles, mem: Mem, role: Roles, off: set<nat>, p: nat, level: nat, i: nat, c: nat, q: nat)
    requires Walking(m0, r0, mem, role, off, p, level, i) && i < 512 && IsValid(mem[p].words[i])
             && c == Ppn(mem[p].words[i])
    requires c in r0 && 0 < level && role[c] == r0[c] == Node(level - 1, p, i) && q in r0
    ensures BelowFirst(r0, p, i + 1, q) <==> BelowFirst(r0, p, i, q) || Below(role, c, q)
  {
    assert Hangs(m0, r0, q);
    if r0[q].Node? {
      assert Hangs(m0, r0, r0[q].parent);
    }
  }

  /** The subtree at entry `i` gone and the entry cleared. */
  lemma WalkingMore(m0: Mem, r0: Roles, mem: Mem, role: Roles, off: set<nat>, p: nat, level: nat, i: nat, c: nat,
                    m1: Mem, r1: Roles, m2: Mem)
    requires Walking(m0, r0, mem, role, off, p, level, i) && i < 512 && IsValid(mem[p].words[i])
             && c == Ppn(mem[p].words[i])
    requires c in r0 && 0 < level && role[c] == r0[c] == Node(level - 1, p, i) && c != p
    requires Freed(mem, role, m1, r1, off + {p}, c) && |m1[p].words| == 512 && m2 == SetWord(m1, p, i, 0)
    ensures Walking(m0, r0, m2, r1, off, p, level, i + 1)
  {
    hide Good;
    forall q | q in r0 ensures BelowFirst(r0, p, i + 1, q) <==> BelowFirst(r0, p, i, q) || Below(role, c, q) {
      BelowNext(m0, r0, mem, role, off, p, level, i, c, q);
    }
    NotBelow(mem, role, off + {p}, p, level, c);
    ClearedTree(m1, r1, off + {p}, p, i, m2, c);
  }

  lemma NotBelow(mem: Mem, role: Roles, off: set<nat>, p: nat, level: nat, c: nat)
    requires TreeOff(mem, role, off) && Table(role, p, level) && c in role && role[c].Node? && role[c].level < level
             && c != p
    ensures !Below(role, c, p)
  {
    assert Hangs(mem, role, p);
    if role[p].Node? && role[p].parent in role { assert Hangs(mem, role, role[p].parent); }
  }

  lemma ClearedTree(mem: Mem, role: Roles, off: set<nat>, p: nat, i: nat, mem': Mem, c: nat)
    requires TreeOff(mem, role, off) && p in off && p in role && i < 512 && mem' == SetWord(mem, p, i, 0)
    requires c in role && role[c] == Free && Ppn(mem[p].words[i]) == c
    ensures TreeOff(mem', role, off)
  {
    forall d | d in role ensures Hangs(mem', role, d) {
      assert Hangs(mem, role, d);
    }
    forall q: nat, l: nat, j: nat | Table(role, q, l) && q !in off && j < 512 ensures Good(mem', role, q, l, j) {
      assert Good(mem, role, q, l, j);
    }
  }

  lemma BelowAll(m0: Mem, r0: Roles, off: set<nat>, p: nat, level: nat, q: nat)
    requires TreeOff(m0, r0, off) && Table(r0, p, level) && q in r0
    ensures Below(r0, p, q) <==> q == p || BelowFirst(r0, p, 512, q)
  {
    assert Hangs(m0, r0, q);
    if r0[q].Node? { assert Hangs(m0, r0, r0[q].parent); }
  }

  lemma BelowEach(m0: Mem, r0: Roles, off: set<nat>, p: nat, level: nat, q: nat)
    requires TreeOff(m0, r0, off) && Table(r0, p, level)
    ensures Below(r0, p, q) <==> q == p || BelowFirst(r0, p, 512, q)
  {
    if q in r0 { BelowAll(m0, r0, off, p, level, q); }
  }

  /** The table itself freed at the end. */
  lemma WalkingEnds(m0: Mem, r0: Roles, mem: Mem, role: Roles, off: set<nat>, p: nat, level: nat, page: Page)
    requires Walking(m0, r0, mem, role, off, p, level, 512) && |page.words| == 512
    ensures Freed(m0, r0, mem[p := page], role[p := Free], off, p)
  {
    hide Good, Below, BelowFirst, TreeOff;
    forall q: nat ensures Below(r0, p, q) <==> q == p || BelowFirst(r0, p, 512, q) {
      BelowEach(m0, r0, off, p, level, q);
    }
    FreedTree(m0, r0, mem, role, off, p, level, page);
  }

  lemma FreedTree(m0: Mem, r0: Roles, mem: Mem, role: Roles, off: set<nat>, p: nat, level: nat, page: Page)
    requires Walking(m0, r0, mem, role, off, p, level, 512) && |page.words| == 512
    ensures TreeOff(mem[p := page], role[p := Free], off)
  {
    var m, r := mem[p := page], role[p := Free];
    forall d | d in r ensures Hangs(m, r, d) {
      FreedHangs(m0, r0, mem, role, off, p, level, page, d);
    }
    forall q: nat, l: nat, j: nat | Table(r, q, l) && q !in off && j < 512 ensures Good(m, r, q, l, j) {
      assert Table(role, q, l) && Good(mem, role, q, l, j);
      if l > 0 && IsValid(mem[q].words[j]) { FreedGood(m0, r0, mem, role, off, p, level, q, l, j); }
    }
  }

  lemma FreedHangs(m0: Mem, r0: Roles, mem: Mem, role: Roles, off: set<nat>, p: nat, level: nat, page: Page, d: nat)
    requires Walking(m0, r0, mem, role, off, p, level, 512) && |page.words| == 512 && d in role
    ensures Shape(mem[p := page], role[p := Free]) && Hangs(mem[p := page], role[p := Free], d)
  {
    hide Good;
    assert Hangs(mem, role, d);
    assert Hangs(m0, r0, d);
  }

  /** No other table leads to the one that is freed. */
  lemma FreedGood(m0: Mem, r0: Roles, mem: Mem, role: Roles, off: set<nat>, p: nat, level: nat, q: nat, l: nat, j: nat)
    requires Walking(m0, r0, mem, role, off, p, level, 512) && Table(role, q, l) && q != p && q !in off && j < 512
             && l > 0
    requires IsValid(mem[q].words[j])
    ensures Ppn(mem[q].words[j]) != p
  {
    assert Good(mem, role, q, l, j);
    assert Hangs(m0, r0, p);
  }

  lemma WalkingTable(m0: Mem, r0: Roles, mem: Mem, role: Roles, off: set<nat>, p: nat, level: nat, i: nat)
    requires Walking(m0, r0, mem, role, off, p, level, i)
    ensures p < |mem| && |mem[p].words| == 512 && p in role && role[p] != Free && TreeOff(mem, role, off + {p})
  {
    assert Hangs(m0, r0, p);
    if r0[p].Node? { assert Hangs(m0, r0, r0[p].parent); }
  }

  lemma FreedStays(m0: Mem, r0: Roles, mem: Mem, role: Roles, off: set<nat>, p: nat, level: nat, c: nat)
    requires TreeOff(m0, r0, off) && Freed(m0, r0, mem, role, off, c) && Table(r0, p, level) && c in r0 && r0[c].Node?
             && r0[c].level < level && c != p
    ensures p < |mem| && |mem[p].words| == 512 && p in role && role[p] == r0[p]
  {
    NotBelow(m0, r0, off, p, level, c);
  }

  /** No leaf in the part of the tables the walk has been through. */
  ghost predicate NoneYet(m0: Mem, r0: Roles, p: nat, i: nat) {
    Shape(m0, r0) &&
    forall t: nat, k: nat ::
        Table(r0, t, 0) && k < 512 && (BelowFirst(r0, p, i, t) || (t == p && k < i)) ==> !IsValid(m0[t].words[k])
  }

  lemma NoneYetStarts(mem: Mem, role: Roles, off: set<nat>, p: nat)
    requires TreeOff(mem, role, off)
    ensures NoneYet(mem, role, p, 0)
  {
  }

  lemma NoneYetSkips(m0: Mem, r0: Roles, mem: Mem, role: Roles, off: set<nat>, p: nat, level: nat, i: nat)
    requires Walking(m0, r0, mem, role, off, p, level, i) && i < 512 && !IsValid(mem[p].words[i])
             && NoneYet(m0, r0, p, i)
    ensures NoneYet(m0, r0, p, i + 1)
  {
    forall t: nat, k: nat | Table(r0, t, 0) && k < 512
        && (BelowFirst(r0, p, i + 1, t) || (t == p && k < i + 1)) ensures !IsValid(m0[t].words[k]) {
      assert Good(m0, r0, p, level, i) && Hangs(m0, r0, t);
      if r0[t].Node? { assert Hangs(m0, r0, r0[t].parent); }
    }
  }

  lemma NoneYetMore(m0: Mem, r0: Roles, mem: Mem, role: Roles, off: set<nat>, p: nat, level: nat, i: nat, c: nat)
    requires Walking(m0, r0, mem, role, off, p, level, i) && i < 512 && IsValid(mem[p].words[i])
             && c == Ppn(mem[p].words[i])
    requires c in r0 && 0 < level && role[c] == r0[c] == Node(level - 1, p, i) && c != p
    requires NoneYet(m0, r0, p, i) && NoLeaves(mem, role, c)
    ensures NoneYet(m0, r0, p, i + 1)
  {
    hide Good;
    forall t: nat, k: nat | Table(r0, t, 0) && k < 512
        && (BelowFirst(r0, p, i + 1, t) || (t == p && k < i + 1)) ensures !IsValid(m0[t].words[k]) {
      if !BelowFirst(r0, p, i, t) {
        assert t != p;
        BelowNext(m0, r0, mem, role, off, p, level, i, c, t);
        assert Table(role, t, 0) && mem[t] == m0[t];
      }
    }
  }

  lemma NoneYetEnds(m0: Mem, r0: Roles, off: set<nat>, p: nat, level: nat)
    requires TreeOff(m0, r0, off) && Table(r0, p, level) && NoneYet(m0, r0, p, 512)
    ensures NoLeaves(m0, r0, p)
  {
    hide Good;
    forall t: nat, k: nat | Table(r0, t, 0) && Below(r0, p, t) && k < 512 ensures !IsValid(m0[t].words[k]) {
      BelowEach(m0, r0, off, p, level, t);
    }
  }

  // ---------- A whole page table ----------

  /** Tables without leaves map nothing. */
  lemma NoLeavesEmpty(mem: Mem, role: Roles, root: nat, vpn: nat)
    requires Tree(mem, role) && root in role && role[root] == Root && NoLeaves(mem, role, root) && vpn < MAXVPN
    ensures !IsValid(Space(mem, root)[vpn])
  {
    WalkTables(mem, role, root, vpn);
    var t := Leaf(mem, root, vpn);
    if t != 0 { assert Table(role, t, 0) && Below(role, root, t); }
    assert Space(mem, root)[vpn] == PteAt(mem, root, vpn);
  }

  /** What was mapped before the first `n` pages went was exactly those pages. */
  lemma WasExactly(mem: Mem, role: Roles, root: nat, s: seq<nat>, n: nat)
    requires Tree(mem, role) && root in role && role[root] == Root && NoLeaves(mem, role, root)
    requires |s| == MAXVPN && n <= MAXVPN && Space(mem, root) == Unmapped(s, 0, n) && forall v ::
             0 <= v < n ==> IsValid(s[v])
    ensures Exactly(s, n)
  {
    hide Tree, NoLeaves, Space, IsValid;
    forall v | n <= v < MAXVPN ensures !IsValid(s[v]) {
      NoLeavesEmpty(mem, role, root, v);
      assert Unmapped(s, 0, n)[v] == s[v];
    }
  }

  lemma EmptySlot(mem: Mem, role: Roles, root: nat, t: nat, k: nat)
    requires Tree(mem, role) && root in role && role[root] == Root && Table(role, t, 0) && Below(role, root, t)
             && k < 512
    requires forall vpn :: 0 <= vpn < MAXVPN ==> !IsValid(PteAt(mem, root, vpn))
    ensures !IsValid(mem[t].words[k])
  {
    assert Hangs(mem, role, t);
    var p, k1 := role[t].parent, role[t].k;
    assert Hangs(mem, role, p);
    var k2 := role[p].k;
    assert Good(mem, role, root, 2, k2);
    var vpn := k2 * 262144 + k1 * 512 + k;
    VpnOf(k2, k1, k, vpn);
    assert Leaf(mem, root, vpn) == t;
    assert !IsValid(PteAt(mem, root, vpn));
  }

  /** An address space with nothing mapped has no leaves in its tables. */
  lemma EmptyNoLeaves(mem: Mem, role: Roles, root: nat)
    requires Tree(mem, role) && root in role && role[root] == Root
    requires forall vpn :: 0 <= vpn < MAXVPN ==> !IsValid(Space(mem, root)[vpn])
    ensures NoLeaves(mem, role, root)
  {
    forall vpn | 0 <= vpn < MAXVPN ensures !IsValid(PteAt(mem, root, vpn)) {
      assert Space(mem, root)[vpn] == PteAt(mem, root, vpn);
    }
    forall t: nat, k: nat | Table(role, t, 0) && Below(role, root, t) && k < 512 ensures !IsValid(mem[t].words[k]) {
      EmptySlot(mem, role, root, t, k);
    }
  }

  lemma FreedPte(m0: Mem, r0: Roles, mem: Mem, role: Roles, root: nat, r: nat, vpn: nat)
    requires Tree(m0, r0) && root in r0 && r0[root] == Root && Freed(m0, r0, mem, role, {}, root)
    requires r in r0 && r0[r] == Root && r != root && vpn < MAXVPN
    ensures PteAt(mem, r, vpn) == PteAt(m0, r, vpn)
  {
    WalkTables(m0, r0, r, vpn);
  }

  /** Taking one page table down leaves every other address space as it was. */
  lemma FreedSpaces(m0: Mem, r0: Roles, mem: Mem, role: Roles, root: nat)
    requires Tree(m0, r0) && root in r0 && r0[root] == Root && Freed(m0, r0, mem, role, {}, root)
    ensures Tree(mem, role) && Spaces(mem, role) == Spaces(m0, r0) - {root}
  {
    hide Tree, PteAt, TreeOff;
    TreeOffNone(mem, role);
    forall r | r in r0 && r0[r] == Root && r != root ensures Space(mem, r) == Space(m0, r) {
      forall vpn | 0 <= vpn < MAXVPN ensures Space(m0, r)[vpn] == PteAt(mem, r, vpn) {
        FreedPte(m0, r0, mem, role, root, r, vpn);
      }
      SpaceIs(mem, r, Space(m0, r));
    }
  }

  /** Every frame of an address space and every table of it. */
  ghost function Gone(role: Roles, root: nat, frames: set<nat>, q: nat): bool { Below(role, root, q) || q in frames }

  /** Frames released first and tables freed after: together exactly the pages of the address space. */
  lemma AllGone(m0: Mem, r0: Roles, m1: Mem, r1: Roles, m2: Mem, r2: Roles, root: nat, frames: set<nat>)
    requires Shape(m0, r0) && Released(m0, r0, m1, r1, frames, Free) && Freed(m1, r1, m2, r2, {}, root)
    requires forall f :: f in frames ==> f in r0 && r0[f].Frame?
    ensures r2.Keys == r0.Keys && forall q :: q in r0 ==> r2[q] == if Gone(r0, root, frames, q) then Free else r0[q]
  {
    forall q | q in r0 && q !in frames ensures Below(r1, root, q) == Below(r0, root, q) {
      if r0[q].Node? && r0[q].parent in r0 { assert r0[r0[q].parent].Node? ==> r0[q].parent !in frames; }
    }
  }

  lemma {:induction false} FramesOwned(role: Roles, root: nat, s: seq<nat>, n: nat, to: nat, f: nat)
    requires OwnsRange(role, root, s, 0, to) && n <= to && n <= |s| && (forall v :: 0 <= v < n ==> IsValid(s[v]))
             && f in Frames(s, 0, n)
    ensures f in role && role[f].Frame?
  {
    if f == Ppn(s[n - 1]) {
      assert Owns(role, root, n - 1, f);
    } else {
      FramesOwned(role, root, s, n - 1, to, f);
    }
  }

  /** Exactly the first `n` pages are mapped. */
  ghost predicate Exactly(s: seq<nat>, n: nat) {
    |s| == MAXVPN && n <= MAXVPN && forall v :: 0 <= v < MAXVPN ==> (IsValid(s[v]) <==> v < n)
  }

  lemma ExactlyEmpties(mem: Mem, role: Roles, root: nat, s: seq<nat>, n: nat)
    requires Tree(mem, role) && root in role && role[root] == Root && Exactly(s, n)
             && Space(mem, root) == Unmapped(s, 0, n)
    ensures NoLeaves(mem, role, root)
  {
    hide Tree, NoLeaves, Space;
    EmptyNoLeaves(mem, role, root);
  }

  lemma RootAlone(mem: Mem, role: Roles, root: nat)
    requires Tree(mem, role) && root in role && role[root] == Root
    ensures TreeOff(mem, role, {}) && Table(role, root, 2) && Above(role, {}, 2)
  {
  }
}
