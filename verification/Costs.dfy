/** How many pages the tables of an address space take when it grows: exactly the tables that are missing
    on the way to the new pages. */
module Costs {
  import opened Pages
  import opened PageTable
  import opened Kalloc
  import opened Sets

  function Bit(b: bool): nat { if b then 1 else 0 }

  /** No table of level 1, and none of level 0, on the way to page `v`. */
  predicate NoMid(mem: Mem, root: nat, v: nat) { v < MAXVPN && Child(mem, root, I2(v)) == 0 }

  predicate NoLeaf(mem: Mem, root: nat, v: nat) { v < MAXVPN && Leaf(mem, root, v) == 0 }

  /** The tables missing on the way to one page. */
  function Lack(mem: Mem, root: nat, v: nat): nat { Bit(NoMid(mem, root, v)) + Bit(NoLeaf(mem, root, v)) }

  /** The tables missing on the way to pages `from`..`to`, by the part of the address they are for. */
  function Mids(mem: Mem, root: nat, from: nat, to: nat): set<nat> {
    set v: nat | from <= v < to && NoMid(mem, root, v) :: v / 262144
  }

  function Leaves(mem: Mem, root: nat, from: nat, to: nat): set<nat> {
    set v: nat | from <= v < to && NoLeaf(mem, root, v) :: v / 512
  }

  function Lacks(mem: Mem, root: nat, from: nat, to: nat): nat {
    |Mids(mem, root, from, to)| + |Leaves(mem, root, from, to)|
  }

  lemma LackZero(mem: Mem, root: nat, v: nat)
    ensures Lack(mem, root, v) == 0 <==> v >= MAXVPN || Leaf(mem, root, v) != 0
  {
  }

  /** A mapped page lacks no table. */
  lemma ValidLack(mem: Mem, root: nat, v: nat)
    requires v < MAXVPN && IsValid(Space(mem, root)[v])
    ensures Lack(mem, root, v) == 0
  {
  }

  lemma LackOne(mem: Mem, root: nat, v: nat)
    ensures Lacks(mem, root, v, v + 1) == Lack(mem, root, v) && Lacks(mem, root, v, v) == 0
  {
    assert Mids(mem, root, v, v) == {} && Leaves(mem, root, v, v) == {};
    assert Mids(mem, root, v, v + 1) == if NoMid(mem, root, v) then {v / 262144} else {};
    assert Leaves(mem, root, v, v + 1) == if NoLeaf(mem, root, v) then {v / 512} else {};
  }

  lemma LacksGrow(mem: Mem, root: nat, from: nat, to: nat, top: nat)
    requires to <= top
    ensures Lacks(mem, root, from, to) <= Lacks(mem, root, from, top)
  {
    Fewer(Mids(mem, root, from, to), Mids(mem, root, from, top));
    Fewer(Leaves(mem, root, from, to), Leaves(mem, root, from, top));
  }

  /** The pages it takes to give pages `from`..`to` frames of their own: the frames and the missing tables. */
  function Need(mem: Mem, root: nat, from: nat, to: nat): nat
    requires from <= to
  {
    to - from + Lacks(mem, root, from, to)
  }

  // ---------- Making the tables of one page ----------

  /** Tables may have been made on the way to page `v`, and none elsewhere. */
  ghost predicate Tabling(mem: Mem, mem': Mem, root: nat, v: nat) {
    forall w: nat :: w < MAXVPN ==>
      && (I2(w) != I2(v) ==> NoMid(mem', root, w) == NoMid(mem, root, w))
      && (w / 512 != v / 512 ==> NoLeaf(mem', root, w) == NoLeaf(mem, root, w))
  }

  /** ... and all of them are there. */
  ghost predicate Tabled(mem: Mem, mem': Mem, root: nat, v: nat) {
    Tabling(mem, mem', root, v) && v < MAXVPN && !NoLeaf(mem', root, v)
  }

  lemma TablingSelf(mem: Mem, root: nat, v: nat)
    ensures Tabling(mem, mem, root, v)
  {
  }

  lemma TablingTrans(m0: Mem, m1: Mem, m2: Mem, root: nat, v: nat)
    requires Tabling(m0, m1, root, v) && Tabling(m1, m2, root, v)
    ensures Tabling(m0, m2, root, v)
  {
    hide NoMid, NoLeaf;
  }

  /** A zeroed table hung where one was missing. */
  lemma HungTabling(mem: Mem, role: Roles, root: nat, v: nat, level: nat, p: nat, k: nat, c: nat, mem': Mem)
    requires Tree(mem, role) && root in role && role[root] == Root && v < MAXVPN && 0 < level <= 2
             && OnPath(mem, root, v, level, p) && p != 0
    requires k == (if level == 2 then I2(v) else I1(v)) && p < |mem| && c < |mem| && c != p && c in role
             && role[c] == Free
    requires k < |mem[p].words| && !IsValid(mem[p].words[k])
    requires mem' == SetWord(mem[c := ZeroPage()], p, k, Entry(c, PTE_V))
    ensures Tabling(mem, mem', root, v) && Lack(mem', root, v) + 1 == Lack(mem, root, v)
  {
    hide Entry, ZeroPage;
    forall w: nat | w < MAXVPN
      ensures I2(w) != I2(v) ==> NoMid(mem', root, w) == NoMid(mem, root, w)
      ensures w / 512 != v / 512 ==> NoLeaf(mem', root, w) == NoLeaf(mem, root, w) {
      HungElsewhere(mem, role, root, v, level, p, k, c, mem', w);
    }
    HungHere(mem, role, root, v, level, p, k, c, mem');
  }

  lemma HungHere(mem: Mem, role: Roles, root: nat, v: nat, level: nat, p: nat, k: nat, c: nat, mem': Mem)
    requires Tree(mem, role) && root in role && role[root] == Root && v < MAXVPN && 0 < level <= 2
             && OnPath(mem, root, v, level, p) && p != 0
    requires k == (if level == 2 then I2(v) else I1(v)) && p < |mem| && c < |mem| && c != p && c in role
             && role[c] == Free
    requires k < |mem[p].words| && !IsValid(mem[p].words[k])
    requires mem' == SetWord(mem[c := ZeroPage()], p, k, Entry(c, PTE_V))
    ensures Lack(mem', root, v) + 1 == Lack(mem, root, v)
  {
    OnPathTable(mem, role, root, v, level, p);
    EntryParts(c, PTE_V);
    WalkTables(mem, role, root, v);
  }

  lemma HungElsewhere(mem: Mem, role: Roles, root: nat, v: nat, level: nat, p: nat, k: nat, c: nat, mem': Mem, w: nat)
    requires Tree(mem, role) && root in role && role[root] == Root && v < MAXVPN && 0 < level <= 2
             && OnPath(mem, root, v, level, p) && p != 0 && w < MAXVPN
    requires k == (if level == 2 then I2(v) else I1(v)) && p < |mem| && c < |mem| && c != p && c in role
             && role[c] == Free
    requires k < |mem[p].words| && !IsValid(mem[p].words[k])
    requires mem' == SetWord(mem[c := ZeroPage()], p, k, Entry(c, PTE_V))
    ensures I2(w) != I2(v) ==> NoMid(mem', root, w) == NoMid(mem, root, w)
    ensures w / 512 != v / 512 ==> NoLeaf(mem', root, w) == NoLeaf(mem, root, w)
  {
    OnPathTable(mem, role, root, v, level, p);
    EntryParts(c, PTE_V);
    WalkTables(mem, role, root, v);
    WalkTables(mem, role, root, w);
    IndicesDiffer(w, w);
    UpperParts(v, w);
  }

  lemma UpperParts(v: nat, w: nat)
    ensures v / 512 == w / 512 <==> I2(v) == I2(w) && I1(v) == I1(w)
  {
    assert v / 262144 == v / 512 / 512 && w / 262144 == w / 512 / 512;
  }

  // ---------- Pages that are no tables ----------

  /** The tables on the way are the same for every page. */
  ghost predicate SameLacks(mem: Mem, mem': Mem, root: nat) {
    forall w: nat :: NoMid(mem', root, w) == NoMid(mem, root, w) && NoLeaf(mem', root, w) == NoLeaf(mem, root, w)
  }

  lemma SamePage(mem: Mem, mem': Mem, role: Roles, root: nat, v: nat)
    requires Tree(mem, role) && SameTables(mem, mem', role) && root in role && role[root] == Root && v < MAXVPN
    ensures NoMid(mem', root, v) == NoMid(mem, root, v) && NoLeaf(mem', root, v) == NoLeaf(mem, root, v)
  {
    WalkTables(mem, role, root, v);
    assert Table(role, root, 2);
    var p := Child(mem, root, I2(v));
    assert p != 0 ==> Table(role, p, 1);
  }

  lemma FilledLacks(mem: Mem, role: Roles, root: nat, f: nat, page: Page)
    requires Tree(mem, role) && root in role && role[root] == Root && f in role && f < |mem| && |page.words| == 512
    requires role[f] == Free || role[f] == Held
    ensures SameLacks(mem, mem[f := page], root)
  {
    var mem' := mem[f := page];
    assert SameTables(mem, mem', role);
    forall w: nat
      ensures NoMid(mem', root, w) == NoMid(mem, root, w) && NoLeaf(mem', root, w) == NoLeaf(mem, root, w) {
      if w < MAXVPN { hide Tree, SameTables; SamePage(mem, mem', role, root, w); }
    }
  }

  /** Writing a leaf entry makes and removes no table. */
  lemma LeafLacks(mem: Mem, role: Roles, root: nat, v: nat, e: nat, mem': Mem)
    requires Tree(mem, role) && root in role && role[root] == Root && v < MAXVPN && Leaf(mem, root, v) != 0
    requires Leaf(mem, root, v) < |mem| && I0(v) < |mem[Leaf(mem, root, v)].words|
    requires mem' == SetWord(mem, Leaf(mem, root, v), I0(v), e)
    ensures SameLacks(mem, mem', root)
  {
    WalkTables(mem, role, root, v);
    forall w: nat
      ensures NoMid(mem', root, w) == NoMid(mem, root, w) && NoLeaf(mem', root, w) == NoLeaf(mem, root, w) {
      if w < MAXVPN { WalkTables(mem, role, root, w); }
    }
  }

  lemma SameTabled(m0: Mem, m1: Mem, m2: Mem, m3: Mem, root: nat, v: nat)
    requires SameLacks(m0, m1, root) && Tabling(m1, m2, root, v) && SameLacks(m2, m3, root)
    ensures Tabling(m0, m3, root, v) && Lack(m0, root, v) == Lack(m1, root, v)
    ensures Tabled(m1, m2, root, v) ==> Tabled(m0, m3, root, v)
  {
    hide NoMid, NoLeaf;
  }

  // ---------- A run of pages ----------

  /** From `m0` to `mem` the tables for pages `from`..`to` have been made, `used` of them new. */
  ghost predicate Spent(m0: Mem, mem: Mem, root: nat, from: nat, to: nat, used: nat) {
    forall top :: to <= top ==> used + Lacks(mem, root, to, top) == Lacks(m0, root, from, top)
  }

  lemma SpentNone(mem: Mem, root: nat, from: nat)
    ensures Spent(mem, mem, root, from, from, 0)
  {
  }

  lemma OneLess(x: set<nat>, y: set<nat>, k: nat)
    requires y == x - {k}
    ensures |x| == |y| + Bit(k in x)
  {
    assert k in x ==> x == y + {k};
    assert k !in x ==> x == y;
  }

  /** Once the tables of the first page are there, the rest lacks them no longer. */
  lemma LacksStep(m1: Mem, m2: Mem, root: nat, v: nat, top: nat)
    requires Tabled(m1, m2, root, v) && v < top
    ensures Lacks(m1, root, v, top) == Lack(m1, root, v) + Lacks(m2, root, v + 1, top)
  {
    MidsStep(m1, m2, root, v, top);
    LeavesStep(m1, m2, root, v, top);
  }

  lemma MidsStep(m1: Mem, m2: Mem, root: nat, v: nat, top: nat)
    requires Tabled(m1, m2, root, v) && v < top
    ensures |Mids(m1, root, v, top)| == Bit(NoMid(m1, root, v)) + |Mids(m2, root, v + 1, top)|
  {
    var x, y := Mids(m1, root, v, top), Mids(m2, root, v + 1, top);
    forall k ensures k in y <==> k in x && k != I2(v) {
      if k in x && k != I2(v) {
        var w: nat :| v <= w < top && NoMid(m1, root, w) && w / 262144 == k;
        assert NoMid(m2, root, w);
      }
      if k in y {
        var w: nat :| v + 1 <= w < top && NoMid(m2, root, w) && w / 262144 == k;
        assert I2(w) != I2(v);
        assert NoMid(m1, root, w);
      }
    }
    assert y == x - {I2(v)};
    OneLess(x, y, I2(v));
    if I2(v) in x {
      var w: nat :| v <= w < top && NoMid(m1, root, w) && w / 262144 == I2(v);
      assert NoMid(m1, root, v);
    }
  }

  lemma LeavesStep(m1: Mem, m2: Mem, root: nat, v: nat, top: nat)
    requires Tabled(m1, m2, root, v) && v < top
    ensures |Leaves(m1, root, v, top)| == Bit(NoLeaf(m1, root, v)) + |Leaves(m2, root, v + 1, top)|
  {
    hide Leaf;
    var x, y := Leaves(m1, root, v, top), Leaves(m2, root, v + 1, top);
    forall k ensures k in y <==> k in x && k != v / 512 {
      if k in x && k != v / 512 {
        var w: nat :| v <= w < top && NoLeaf(m1, root, w) && w / 512 == k;
        assert NoLeaf(m2, root, w);
      }
      if k in y {
        var w: nat :| v + 1 <= w < top && NoLeaf(m2, root, w) && w / 512 == k;
        SameLeafTable(m2, root, v, w);
        assert NoLeaf(m1, root, w);
      }
    }
    assert y == x - {v / 512};
    OneLess(x, y, v / 512);
    if v / 512 in x {
      var w: nat :| v <= w < top && NoLeaf(m1, root, w) && w / 512 == v / 512;
      SameLeafTable(m1, root, v, w);
    }
  }

  lemma SameLeafTable(mem: Mem, root: nat, v: nat, w: nat)
    ensures v / 512 == w / 512 ==> Leaf(mem, root, v) == Leaf(mem, root, w)
  {
    UpperParts(v, w);
  }

  lemma SpentMore(m0: Mem, m1: Mem, m2: Mem, root: nat, from: nat, to: nat, used: nat)
    requires Spent(m0, m1, root, from, to, used) && Tabled(m1, m2, root, to)
    ensures Spent(m0, m2, root, from, to + 1, used + Lack(m1, root, to))
  {
    hide Lacks, Lack, Tabled;
    forall top | to + 1 <= top
      ensures used + Lack(m1, root, to) + Lacks(m2, root, to + 1, top) == Lacks(m0, root, from, top) {
      LacksStep(m1, m2, root, to, top);
    }
  }

  /** Out of memory at page `to`: there was not enough for all. */
  lemma TooFew(m0: Mem, mem: Mem, root: nat, from: nat, to: nat, used: nat, top: nat, left: nat)
    requires Spent(m0, mem, root, from, to, used) && from <= to < top && left < 1 + Lack(mem, root, to)
    ensures left + (to - from) + used < Need(m0, root, from, top)
  {
    hide Lacks, Lack, Spent;
    SpentIs(m0, mem, root, from, to, used);
    LacksGrow(m0, root, from, to + 1, top);
  }

  /** What was used is what was missing; the next page lacks what makes up the difference. */
  lemma SpentIs(m0: Mem, mem: Mem, root: nat, from: nat, to: nat, used: nat)
    requires Spent(m0, mem, root, from, to, used)
    ensures used == Lacks(m0, root, from, to) && used + Lack(mem, root, to) == Lacks(m0, root, from, to + 1)
  {
    hide Lacks, Lack;
    LackOne(mem, root, to);
  }
}
