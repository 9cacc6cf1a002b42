/** Three-level page tables in physical memory, and the role each physical page plays. */
module PageTable {
  import opened Pages

  datatype Page = Page(words: seq<nat>)

  /** What a page is used for.  A node or a frame names the one entry that leads to it. */
  datatype Role = Free | Held | Root | Node(level: nat, parent: nat, k: nat) | Frame(table: nat, k: nat)

  type Mem = seq<Page>
  type Roles = map<nat, Role>

  predicate Shape(mem: Mem, role: Roles) {
    && (forall p :: 0 <= p < |mem| ==> |mem[p].words| == 512)
    && (forall p :: p in role ==> 0 < p < |mem|)
  }

  /** The level of a table page. */
  predicate Table(role: Roles, p: nat, level: nat) {
    p in role && ((role[p] == Root && level == 2) || (role[p].Node? && role[p].level == level <= 1))
  }

  predicate Good(mem: Mem, role: Roles, p: nat, level: nat, k: nat)
    requires p < |mem| && k < |mem[p].words|
  {
    var e := mem[p].words[k];
    if !IsValid(e) then e == 0
    else if level == 0 then Leafy(e)
    else Flags(e) == PTE_V && Ppn(e) in role && role[Ppn(e)] == Node(level - 1, p, k) && (level == 2 ==> k < 256)
  }

  /** Every valid entry of a table leads one level down to the page that names it, or is a leaf; one
      that is not valid is 0. */
  ghost predicate Down(mem: Mem, role: Roles) {
    Shape(mem, role) &&
    forall p: nat, level: nat, k: nat :: Table(role, p, level) && k < 512 ==> Good(mem, role, p, level, k)
  }

  /** A node or frame hangs from the entry it names. */
  predicate Hangs(mem: Mem, role: Roles, c: nat)
    requires Shape(mem, role) && c in role
  {
    match role[c]
    case Node(level, p, k) => level <= 1 && k < 512 && Table(role, p, level + 1) && IsValid(mem[p].words[k])
        && Ppn(mem[p].words[k]) == c
    case Frame(t, k) => k < 512 && Table(role, t, 0) && IsValid(mem[t].words[k]) && Ppn(mem[t].words[k]) == c
    case _ => true
  }

  ghost predicate Up(mem: Mem, role: Roles) {
    Shape(mem, role) && forall c :: c in role ==> Hangs(mem, role, c)
  }

  ghost predicate Tree(mem: Mem, role: Roles) { Down(mem, role) && Up(mem, role) }

  // ---------- Translation ----------

  /** The page an entry of table `p` leads to, 0 when there is none. */
  function Child(mem: Mem, p: nat, k: nat): nat {
    if p < |mem| && k < |mem[p].words| && IsValid(mem[p].words[k]) then Ppn(mem[p].words[k]) else 0
  }

  /** The leaf table of page `vpn`, 0 when there is none. */
  function Leaf(mem: Mem, root: nat, vpn: nat): nat {
    var p := Child(mem, root, I2(vpn));
    if p == 0 then 0 else Child(mem, p, I1(vpn))
  }

  /** The entry that translates page `vpn`, 0 when there is none. */
  function PteAt(mem: Mem, root: nat, vpn: nat): nat {
    var t := Leaf(mem, root, vpn);
    if 0 < t < |mem| && I0(vpn) < |mem[t].words| then mem[t].words[I0(vpn)] else 0
  }

  /** The address space of a root: the simple map from pages to entries. */
  ghost function Space(mem: Mem, root: nat): (s: seq<nat>)
    ensures |s| == MAXVPN
  {
    seq(MAXVPN, vpn requires 0 <= vpn => PteAt(mem, root, vpn))
  }

  ghost function Spaces(mem: Mem, role: Roles): map<nat, seq<nat>> {
    map r | r in role && role[r] == Root :: Space(mem, r)
  }

  lemma SpaceIs(mem: Mem, root: nat, s: seq<nat>)
    requires |s| == MAXVPN && forall vpn :: 0 <= vpn < MAXVPN ==> s[vpn] == PteAt(mem, root, vpn)
    ensures Space(mem, root) == s
  {
  }

  /** The tables on the way to a page are what they should be, and know where they hang. */
  lemma WalkTables(mem: Mem, role: Roles, root: nat, vpn: nat)
    requires Tree(mem, role) && root in role && role[root] == Root && vpn < MAXVPN
    ensures var p := Child(mem, root, I2(vpn)); p == 0 || (p in role && role[p] == Node(1, root, I2(vpn)))
    ensures var p, t := Child(mem, root, I2(vpn)), Leaf(mem, root, vpn);
            t == 0 || (p != 0 && t in role && role[t] == Node(0, p, I1(vpn)))
  {
    IndicesDiffer(vpn, vpn);
    assert Table(role, root, 2) && Good(mem, role, root, 2, I2(vpn));
    var p := Child(mem, root, I2(vpn));
    if p != 0 {
      assert Table(role, p, 1) && Good(mem, role, p, 1, I1(vpn));
    }
  }

  /** A page that is not mapped has 0 for its entry. */
  lemma InvalidIsZero(mem: Mem, role: Roles, root: nat, vpn: nat)
    requires Tree(mem, role) && root in role && role[root] == Root && vpn < MAXVPN
    ensures IsValid(PteAt(mem, root, vpn)) || PteAt(mem, root, vpn) == 0
  {
    WalkTables(mem, role, root, vpn);
    IndicesDiffer(vpn, vpn);
    var t := Leaf(mem, root, vpn);
    if t != 0 { assert Table(role, t, 0) && Good(mem, role, t, 0, I0(vpn)); }
  }

  /** No two pages of any address spaces share a leaf slot. */
  lemma SlotsDistinct(mem: Mem, role: Roles, r: nat, v: nat, s: nat, w: nat)
    requires Tree(mem, role) && r in role && role[r] == Root && s in role && role[s] == Root
    requires v < MAXVPN && w < MAXVPN && Leaf(mem, r, v) == Leaf(mem, s, w) != 0 && I0(v) == I0(w)
    ensures r == s && v == w
  {
    WalkTables(mem, role, r, v);
    WalkTables(mem, role, s, w);
    IndicesDiffer(v, w);
  }

  // ---------- Changing memory ----------

  ghost predicate SameTables(mem: Mem, mem': Mem, role: Roles) {
    && |mem'| == |mem| && (forall p :: 0 <= p < |mem'| ==> |mem'[p].words| == 512)
    && forall p: nat, level: nat :: Table(role, p, level) && p < |mem| ==> mem'[p] == mem[p]
  }

  /** Translation depends only on the tables on the way. */
  lemma PteSame(mem: Mem, mem': Mem, role: Roles, r: nat, vpn: nat)
    requires Tree(mem, role) && SameTables(mem, mem', role) && r in role && role[r] == Root && vpn < MAXVPN
    ensures PteAt(mem', r, vpn) == PteAt(mem, r, vpn)
  {
    WalkTables(mem, role, r, vpn);
    assert Table(role, r, 2);
    var p, t := Child(mem, r, I2(vpn)), Leaf(mem, r, vpn);
    assert p != 0 ==> Table(role, p, 1);
    assert t != 0 ==> Table(role, t, 0);
  }

  lemma SameTablesTree(mem: Mem, mem': Mem, role: Roles)
    requires Tree(mem, role) && SameTables(mem, mem', role)
    ensures Tree(mem', role)
  {
    forall p: nat, level: nat, k: nat | Table(role, p, level) && k < 512 ensures Good(mem', role, p, level, k) {
      assert Good(mem, role, p, level, k);
    }
    forall c | c in role ensures Hangs(mem', role, c) {
      assert Hangs(mem, role, c);
    }
  }

  /** Pages that are not tables can change freely. */
  lemma SameTablesKeep(mem: Mem, mem': Mem, role: Roles)
    requires Tree(mem, role) && SameTables(mem, mem', role)
    ensures Tree(mem', role) && Spaces(mem', role) == Spaces(mem, role)
  {
    hide Tree, SameTables, PteAt;
    SameTablesTree(mem, mem', role);
    forall r | r in role && role[r] == Root ensures Space(mem', r) == Space(mem, r) {
      forall vpn | 0 <= vpn < MAXVPN ensures Space(mem, r)[vpn] == PteAt(mem', r, vpn) {
        PteSame(mem, mem', role, r, vpn);
      }
      SpaceIs(mem', r, Space(mem, r));
    }
  }

  lemma SpacesSame(mem: Mem, role: Roles, role': Roles)
    requires forall r :: (r in role && role[r] == Root) <==> (r in role' && role'[r] == Root)
    ensures Spaces(mem, role) == Spaces(mem, role')
  {
    hide Space;
  }

  lemma SpaceOf(mem: Mem, role: Roles, r: nat)
    requires r in role && role[r] == Root
    ensures r in Spaces(mem, role) && Spaces(mem, role)[r] == Space(mem, r)
  {
  }

  lemma SameRoles(mem: Mem, role: Roles, role': Roles)
    requires Tree(mem, role) && Shape(mem, role') && role.Keys == role'.Keys
    requires forall p ::
             p in role && role'[p] != role[p] ==>
             (role[p] == Free || role[p] == Held) && (role'[p] == Free || role'[p] == Held)
    ensures Tree(mem, role')
  {
    assert forall q: nat, level: nat :: Table(role, q, level) <==> Table(role', q, level);
    forall d | d in role' ensures Hangs(mem, role', d) {
      assert Hangs(mem, role, d);
    }
    forall q: nat, level: nat, k: nat | Table(role', q, level) && k < 512 ensures Good(mem, role', q, level, k) {
      assert Table(role, q, level) && Good(mem, role, q, level, k);
    }
  }

  /** Taking a page off the free list or putting it back. */
  lemma RoleKeep(mem: Mem, role: Roles, p: nat, to: Role)
    requires Tree(mem, role) && p in role && (role[p] == Free || role[p] == Held) && (to == Free || to == Held)
    ensures Tree(mem, role[p := to]) && Spaces(mem, role[p := to]) == Spaces(mem, role)
  {
    hide Spaces, Hangs, Table, Good;
    SameRoles(mem, role, role[p := to]);
    SpacesSame(mem, role, role[p := to]);
  }

  function SetWord(mem: Mem, p: nat, k: nat, e: nat): Mem
    requires p < |mem| && k < |mem[p].words|
  {
    mem[p := Page(mem[p].words[k := e])]
  }

  predicate Zeroed(page: Page) { |page.words| == 512 && forall k :: 0 <= k < 512 ==> page.words[k] == 0 }

  // A zeroed page hung from an empty entry of a table.

  ghost predicate Linking(mem: Mem, role: Roles, p: nat, level: nat, k: nat, c: nat, mem': Mem, role': Roles) {
    && Tree(mem, role) && Table(role, p, level) && 0 < level && k < (if level == 2 then 256 else 512)
        && !IsValid(mem[p].words[k])
    && c in role && role[c] == Held && Zeroed(mem[c])
    && mem' == SetWord(mem, p, k, Entry(c, PTE_V)) && role' == role[c := Node(level - 1, p, k)]
  }

  lemma LinkTree(mem: Mem, role: Roles, p: nat, level: nat, k: nat, c: nat, mem': Mem, role': Roles)
    requires Linking(mem, role, p, level, k, c, mem', role')
    ensures Tree(mem', role')
  {
    EntryParts(c, PTE_V);
    forall q: nat, l: nat, j: nat | Table(role', q, l) && j < 512 ensures Good(mem', role', q, l, j) {
      if q != c { assert Table(role, q, l) && Good(mem, role, q, l, j); }
    }
    forall d | d in role' ensures Hangs(mem', role', d) {
      assert Hangs(mem, role, d);
    }
  }

  lemma LinkPte(mem: Mem, role: Roles, p: nat, level: nat, k: nat, c: nat, mem': Mem, role': Roles, r: nat, vpn: nat)
    requires Linking(mem, role, p, level, k, c, mem', role') && r in role && role[r] == Root && vpn < MAXVPN
    ensures PteAt(mem', r, vpn) == PteAt(mem, r, vpn)
  {
    EntryParts(c, PTE_V);
    IndicesDiffer(vpn, vpn);
    WalkTables(mem, role, r, vpn);
  }

  /** Adding a table page changes no translation. */
  lemma LinkKeeps(mem: Mem, role: Roles, p: nat, level: nat, k: nat, c: nat, mem': Mem, role': Roles)
    requires Linking(mem, role, p, level, k, c, mem', role')
    ensures Tree(mem', role') && Spaces(mem', role') == Spaces(mem, role)
  {
    hide Tree, PteAt, Zeroed, Table;
    LinkTree(mem, role, p, level, k, c, mem', role');
    forall r | r in role && role[r] == Root ensures Space(mem', r) == Space(mem, r) {
      forall vpn | 0 <= vpn < MAXVPN ensures Space(mem, r)[vpn] == PteAt(mem', r, vpn) {
        LinkPte(mem, role, p, level, k, c, mem', role', r, vpn);
      }
      SpaceIs(mem', r, Space(mem, r));
    }
  }

  // A leaf entry written.

  /** What happens to the role of the frame when the entry `k` of leaf table `t` goes from `was` to `e`:
      a page may become the frame of the new entry, and the frame of the old one is let go. */
  ghost predicate Reframed(role: Roles, t: nat, k: nat, was: nat, e: nat, role': Roles) {
    if IsValid(was) then
      && e == 0
      && (if Ppn(was) in role && role[Ppn(was)] == Frame(t, k) then role' == role[Ppn(was) := Held]
          else role' == role && forall f :: f in role ==> role[f] != Frame(t, k))
    else
      && IsValid(e) && Leafy(e)
      && (role' == role || (Ppn(e) in role && role[Ppn(e)] == Held && role' == role[Ppn(e) := Frame(t, k)]))
  }

  lemma ReframedTree(mem: Mem, role: Roles, t: nat, k: nat, e: nat, mem': Mem, role': Roles)
    requires Tree(mem, role) && Table(role, t, 0) && k < 512
    requires Reframed(role, t, k, mem[t].words[k], e, role') && mem' == SetWord(mem, t, k, e)
    ensures Tree(mem', role')
  {
    assert Shape(mem', role');
    assert forall q: nat, l: nat :: Table(role, q, l) <==> Table(role', q, l);
    forall q: nat, l: nat, j: nat | Table(role', q, l) && j < 512 ensures Good(mem', role', q, l, j) {
      assert Table(role, q, l) && Good(mem, role, q, l, j);
    }
    forall d | d in role' ensures Hangs(mem', role', d) {
      ReframedHangs(mem, role, t, k, e, mem', role', d);
    }
  }

  lemma ReframedHangs(mem: Mem, role: Roles, t: nat, k: nat, e: nat, mem': Mem, role': Roles, d: nat)
    requires Shape(mem, role) && Table(role, t, 0) && k < 512 && Shape(mem', role') && d in role && d in role'
    requires Hangs(mem, role, d) && forall q: nat, l: nat :: Table(role, q, l) <==> Table(role', q, l)
    requires Reframed(role, t, k, mem[t].words[k], e, role') && mem' == SetWord(mem, t, k, e)
    ensures Hangs(mem', role', d)
  {
  }

  /** A leaf entry translates one page of one address space. */
  lemma LeafPte(mem: Mem, role: Roles, root: nat, vpn: nat, e: nat, mem': Mem, r: nat, v: nat)
    requires Tree(mem, role) && root in role && role[root] == Root && vpn < MAXVPN && Leaf(mem, root, vpn) != 0
    requires Leaf(mem, root, vpn) < |mem| && I0(vpn) < |mem[Leaf(mem, root, vpn)].words|
    requires mem' == SetWord(mem, Leaf(mem, root, vpn), I0(vpn), e) && r in role && role[r] == Root && v < MAXVPN
    ensures Leaf(mem', r, v) == Leaf(mem, r, v)
    ensures PteAt(mem', r, v) == if r == root && v == vpn then e else PteAt(mem, r, v)
  {
    IndicesDiffer(v, vpn);
    WalkTables(mem, role, root, vpn);
    WalkTables(mem, role, r, v);
    if Leaf(mem, r, v) == Leaf(mem, root, vpn) && I0(v) == I0(vpn) {
      SlotsDistinct(mem, role, r, v, root, vpn);
    }
  }

  /** Writing the leaf entry of page `vpn` changes that translation and no other. */
  lemma LeafKeeps(mem: Mem, role: Roles, root: nat, vpn: nat, e: nat, mem': Mem, role': Roles)
    requires Tree(mem, role) && root in role && role[root] == Root && vpn < MAXVPN && Leaf(mem, root, vpn) != 0
    requires Leaf(mem, root, vpn) < |mem| && I0(vpn) < |mem[Leaf(mem, root, vpn)].words|
    requires Reframed(role, Leaf(mem, root, vpn), I0(vpn), mem[Leaf(mem, root, vpn)].words[I0(vpn)], e, role')
    requires mem' == SetWord(mem, Leaf(mem, root, vpn), I0(vpn), e)
    ensures Tree(mem', role')
    ensures root in Spaces(mem, role) && Spaces(mem', role') == Spaces(mem, role)[root := Space(mem, root)[vpn := e]]
  {
    WalkTables(mem, role, root, vpn);
    assert Table(role, Leaf(mem, root, vpn), 0);
    IndicesDiffer(vpn, vpn);
    ReframedTree(mem, role, Leaf(mem, root, vpn), I0(vpn), e, mem', role');
    LeafSpaces(mem, role, root, vpn, e, mem');
    SpacesSame(mem', role, role');
  }

  lemma LeafSpaces(mem: Mem, role: Roles, root: nat, vpn: nat, e: nat, mem': Mem)
    requires Tree(mem, role) && root in role && role[root] == Root && vpn < MAXVPN && Leaf(mem, root, vpn) != 0
    requires Leaf(mem, root, vpn) < |mem| && I0(vpn) < |mem[Leaf(mem, root, vpn)].words|
    requires mem' == SetWord(mem, Leaf(mem, root, vpn), I0(vpn), e)
    ensures Spaces(mem', role) == Spaces(mem, role)[root := Space(mem, root)[vpn := e]]
  {
    hide Tree, PteAt, Leaf, SetWord, I0;
    forall r | r in role && role[r] == Root ensures Space(mem', r) == if r == root then Space(mem, root)[vpn := e]
        else Space(mem, r) {
      var s := if r == root then Space(mem, root)[vpn := e] else Space(mem, r);
      forall v | 0 <= v < MAXVPN ensures s[v] == PteAt(mem', r, v) {
        LeafPte(mem, role, root, vpn, e, mem', r, v);
      }
      SpaceIs(mem', r, s);
    }
  }
}
