/** The physical page allocator: free pages threaded through their own first words. */
module Kalloc {
  import opened Pages
  import opened PageTable

  /** The pages `free`, each once, linked from address `head` on. */
  ghost predicate Links(mem: Mem, free: seq<nat>, head: nat)
    decreases |free|
  {
    if free == [] then head == 0
    else
      && 0 < free[0] < |mem| && head == free[0] * 4096 && free[0] !in free[1..]
      && |mem[free[0]].words| == 512 && Links(mem, free[1..], mem[free[0]].words[0])
  }

  /** The list has exactly the pages whose role is Free. */
  ghost predicate Chain(mem: Mem, role: Roles, free: seq<nat>, head: nat) {
    Shape(mem, role) && Links(mem, free, head) && forall p :: p in free <==> p in role && role[p] == Free
  }

  ghost predicate Inv(mem: Mem, role: Roles, free: seq<nat>, head: nat) {
    Tree(mem, role) && Chain(mem, role, free, head)
  }

  /** A page of the same junk byte throughout, eight bytes to a word. */
  function Junk(b: nat): (r: Page)
    ensures |r.words| == 512
  {
    Page(seq(512, _ => b * 0x0101_0101_0101_0101))
  }

  lemma {:induction false} LinksKeep(mem: Mem, free: seq<nat>, head: nat, mem': Mem)
    requires Links(mem, free, head) && |mem'| == |mem|
    requires forall p :: p in free ==> p < |mem| && mem'[p] == mem[p]
    ensures Links(mem', free, head)
    decreases |free|
  {
    if free != [] {
      assert forall p :: p in free[1..] ==> p in free;
      LinksKeep(mem, free[1..], mem[free[0]].words[0], mem');
    }
  }

  lemma ChainPop(mem: Mem, role: Roles, free: seq<nat>, head: nat, page: Page)
    requires Chain(mem, role, free, head) && head != 0 && |page.words| == 512
    ensures free != [] && head == free[0] * 4096 && 0 < free[0] < |mem| && free[0] in role && role[free[0]] == Free
    ensures Chain(mem[free[0] := page], role[free[0] := Held], free[1..], mem[free[0]].words[0])
  {
    var p, rest := free[0], free[1..];
    assert free == [p] + rest;
    assert p in free;
    assert forall q :: q in free <==> q == p || q in rest;
    LinksKeep(mem, rest, mem[p].words[0], mem[p := page]);
  }

  lemma ChainPush(mem: Mem, role: Roles, free: seq<nat>, head: nat, p: nat, page: Page)
    requires Chain(mem, role, free, head) && p in role && role[p] != Free && |page.words| == 512
             && page.words[0] == head
    ensures Chain(mem[p := page], role[p := Free], [p] + free, p * 4096)
  {
    var now := [p] + free;
    assert now[1..] == free;
    LinksKeep(mem, free, head, mem[p := page]);
  }

  /** The list does not depend on pages that are not free. */
  lemma ChainKeep(mem: Mem, role: Roles, free: seq<nat>, head: nat, mem': Mem, role': Roles)
    requires Chain(mem, role, free, head) && Shape(mem', role') && |mem'| == |mem|
    requires forall p :: (p in role && role[p] == Free) <==> (p in role' && role'[p] == Free)
    requires forall p :: p in role && role[p] == Free ==> p < |mem| && mem'[p] == mem[p]
    ensures Chain(mem', role', free, head)
  {
    LinksKeep(mem, free, head, mem');
  }

  lemma FreeChanges(mem: Mem, role: Roles, p: nat, page: Page)
    requires Tree(mem, role) && p in role && p < |mem| && (role[p] == Free || role[p] == Held) && |page.words| == 512
    ensures Tree(mem[p := page], role) && Spaces(mem[p := page], role) == Spaces(mem, role)
  {
    hide Good, Hangs;
    SameTablesKeep(mem, mem[p := page], role);
  }

  // ---------- Growing the tables ----------

  function ZeroPage(): (r: Page)
    ensures Zeroed(r)
  {
    Page(seq(512, _ => 0))
  }

  /** Between two states only free pages have been taken, and only for tables; what is held or mapped
      is untouched. */
  ghost predicate Extends(mem: Mem, role: Roles, mem': Mem, role': Roles) {
    && |mem'| == |mem| && role'.Keys == role.Keys && Shape(mem, role)
    && (forall p :: p in role && role[p] != Free ==> role'[p] == role[p])
    && (forall p :: p in role && role[p] == Free ==> role'[p] == Free || role'[p].Node?)
    && (forall p :: p in role && (role[p] == Held || role[p].Frame?) ==> mem'[p] == mem[p])
  }

  lemma ExtendsTrans(m0: Mem, r0: Roles, m1: Mem, r1: Roles, m2: Mem, r2: Roles)
    requires Extends(m0, r0, m1, r1) && Extends(m1, r1, m2, r2)
    ensures Extends(m0, r0, m2, r2)
  {
    forall p | p in r0 && (r0[p] == Held || r0[p].Frame?) ensures m2[p] == m0[p] {
      assert r1[p] == r0[p];
    }
  }

  /** A free page taken, zeroed and hung from entry `k` of table `p`. */
  lemma NewTable(mem: Mem, role: Roles, free: seq<nat>, head: nat, p: nat, level: nat, k: nat, c: nat, mem': Mem,
                 role': Roles, head': nat)
    requires Tree(mem, role) && Table(role, p, level) && 0 < level && k < (if level == 2 then 256 else 512)
             && p < |mem| && !IsValid(mem[p].words[k])
    requires c in role && c < |mem| && role[c] == Held && Zeroed(mem[c]) && Chain(mem, role, free, head)
    requires mem' == SetWord(mem, p, k, Entry(c, PTE_V)) && role' == role[c := Node(level - 1, p, k)]
    ensures Inv(mem', role', free, head) && Spaces(mem', role') == Spaces(mem, role)
  {
    hide Good, Hangs, Zeroed, Spaces;
    LinkKeeps(mem, role, p, level, k, c, mem', role');
    ChainKeep(mem, role, free, head, mem', role');
  }

  // ---------- Walking down ----------

  /** `p` is the table that `vpn` goes through at `level`. */
  ghost predicate OnPath(mem: Mem, root: nat, vpn: nat, level: nat, p: nat) {
    if level == 2 then p == root
    else if level == 1 then p == Child(mem, root, I2(vpn))
    else p == Leaf(mem, root, vpn)
  }

  lemma OnPathTable(mem: Mem, role: Roles, root: nat, vpn: nat, level: nat, p: nat)
    requires Tree(mem, role) && root in role && role[root] == Root && vpn < MAXVPN && level <= 2
             && OnPath(mem, root, vpn, level, p) && p != 0
    ensures Table(role, p, level) && p < |mem| && |mem[p].words| == 512
    ensures I2(vpn) < 512 && I1(vpn) < 512 && I0(vpn) < 512
  {
    WalkTables(mem, role, root, vpn);
    IndicesDiffer(vpn, vpn);
  }

  /** Following a valid entry goes one level down. */
  lemma OnPathDown(mem: Mem, role: Roles, root: nat, vpn: nat, level: nat, p: nat, k: nat)
    requires Tree(mem, role) && root in role && role[root] == Root && vpn < MAXVPN && 0 < level <= 2
             && OnPath(mem, root, vpn, level, p) && p != 0
    requires k == (if level == 2 then I2(vpn) else I1(vpn))
    ensures p < |mem| && k < |mem[p].words| && (level == 2 ==> k < 256)
    ensures if IsValid(mem[p].words[k]) then OnPath(mem, root, vpn, level - 1, Ppn(mem[p].words[k]))
            && Ppn(mem[p].words[k]) != 0
            else Leaf(mem, root, vpn) == 0
  {
    OnPathTable(mem, role, root, vpn, level, p);
    assert Good(mem, role, p, level, k);
  }

  /** ... and so does following one just made. */
  lemma OnPathNew(mem: Mem, role: Roles, root: nat, vpn: nat, level: nat, p: nat, k: nat, c: nat, mem': Mem)
    requires Tree(mem, role) && root in role && role[root] == Root && vpn < MAXVPN && 0 < level <= 2
             && OnPath(mem, root, vpn, level, p) && p != 0
    requires k == (if level == 2 then I2(vpn) else I1(vpn)) && p < |mem| && c < |mem| && c != p && c in role
             && role[c] == Free
    requires k < |mem[p].words| && mem' == SetWord(mem[c := ZeroPage()], p, k, Entry(c, PTE_V))
    ensures OnPath(mem', root, vpn, level - 1, c)
  {
    OnPathTable(mem, role, root, vpn, level, p);
    EntryParts(c, PTE_V);
  }

  // ---------- Which frames an address space owns ----------

  /** Page `vpn` of `root` owns frame `f`: the roles of the pages lead from one to the other. */
  predicate Owns(role: Roles, root: nat, vpn: nat, f: nat) {
    && root in role && role[root] == Root
    && f in role && role[f].Frame? && role[f].k == I0(vpn)
    && role[f].table in role && role[role[f].table].Node? && role[role[f].table].level == 0
        && role[role[f].table].k == I1(vpn)
    && role[role[f].table].parent in role && role[role[role[f].table].parent] == Node(1, root, I2(vpn))
  }

  /** An owned frame is what the page translates to. */
  lemma OwnsTranslates(mem: Mem, role: Roles, root: nat, vpn: nat, f: nat)
    requires Tree(mem, role) && Owns(role, root, vpn, f) && vpn < MAXVPN
    ensures Leaf(mem, root, vpn) == role[f].table != 0 && IsValid(PteAt(mem, root, vpn))
            && Ppn(PteAt(mem, root, vpn)) == f
  {
    var t := role[f].table;
    var p := role[t].parent;
    assert Hangs(mem, role, f) && Hangs(mem, role, t) && Hangs(mem, role, p);
    IndicesDiffer(vpn, vpn);
  }

  /** Every mapped page from `from` to `to` owns the frame it translates to. */
  ghost predicate OwnsRange(role: Roles, root: nat, s: seq<nat>, from: nat, to: nat) {
    forall vpn :: from <= vpn < to && vpn < |s| && IsValid(s[vpn]) ==> Owns(role, root, vpn, Ppn(s[vpn]))
  }

  /** A frame is owned by one page only. */
  lemma OwnsOnce(role: Roles, r: nat, v: nat, q: nat, w: nat, f: nat)
    requires Owns(role, r, v, f) && Owns(role, q, w, f) && v < MAXVPN && w < MAXVPN
    ensures r == q && v == w
  {
    IndicesDiffer(v, w);
  }

  /** Like Extends, but the pages in `but` may change their role. */
  ghost predicate ExtendsBut(mem: Mem, role: Roles, mem': Mem, role': Roles, but: set<nat>) {
    && |mem'| == |mem| && role'.Keys == role.Keys && Shape(mem, role)
    && (forall p :: p in role && p !in but && role[p] != Free ==> role'[p] == role[p])
    && (forall p :: p in role && p !in but && role[p] == Free ==> role'[p] == Free || role'[p].Node?)
    && (forall p :: p in role && (role[p] == Held || role[p].Frame?) ==> mem'[p] == mem[p])
  }

  lemma ExtendsThenBut(m0: Mem, r0: Roles, m1: Mem, r1: Roles, m2: Mem, r2: Roles, but: set<nat>)
    requires Extends(m0, r0, m1, r1) && ExtendsBut(m1, r1, m2, r2, but) && forall p ::
             p in but ==> p in r0 && r0[p] != Free
    ensures ExtendsBut(m0, r0, m2, r2, but)
  {
    forall p | p in r0 && (r0[p] == Held || r0[p].Frame?) ensures m2[p] == m0[p] {
      assert r1[p] == r0[p];
    }
  }

  // ---------- Mapping a run of pages ----------

  function MappedAt(s: seq<nat>, first: nat, n: nat, ppn: nat, flags: nat, v: nat): nat
    requires flags < 1024 && v < |s|
  {
    if first <= v < first + n then Entry(ppn + (v - first), flags) else s[v]
  }

  /** An address space with `n` pages from `first` mapped to the pages from `ppn`. */
  function Mapped(s: seq<nat>, first: nat, n: nat, ppn: nat, flags: nat): seq<nat>
    requires flags < 1024
  {
    seq(|s|, v requires 0 <= v < |s| => MappedAt(s, first, n, ppn, flags, v))
  }

  lemma MappedNone(s: seq<nat>, first: nat, ppn: nat, flags: nat)
    requires flags < 1024
    ensures Mapped(s, first, 0, ppn, flags) == s
  {
  }

  lemma MappedMore(s: seq<nat>, first: nat, n: nat, ppn: nat, flags: nat)
    requires flags < 1024 && first + n < |s|
    ensures Mapped(s, first, n + 1, ppn, flags) == Mapped(s, first, n, ppn, flags)[first + n := Entry(ppn + n, flags)]
    ensures Mapped(s, first, n, ppn, flags)[first + n] == s[first + n]
  {
  }

  /** An address space with `n` pages from `first` unmapped. */
  function Unmapped(s: seq<nat>, first: nat, n: nat): seq<nat> {
    seq(|s|, v requires 0 <= v < |s| => if first <= v < first + n then 0 else s[v])
  }

  lemma UnmappedNone(s: seq<nat>, first: nat)
    ensures Unmapped(s, first, 0) == s
  {
  }

  lemma UnmappedMore(s: seq<nat>, first: nat, n: nat)
    requires first + n < |s|
    ensures Unmapped(s, first, n + 1) == Unmapped(s, first, n)[first + n := 0]
    ensures Unmapped(s, first, n)[first + n] == s[first + n]
  {
  }

  /** The role of the page when the entry of `vpn` in leaf table `t` is set up: with `own` it becomes
      the frame of that entry. */
  ghost function Framed(role: Roles, t: nat, k: nat, ppn: nat, own: bool): Roles {
    if own && ppn in role then role[ppn := Frame(t, k)] else role
  }

  lemma FramedOwns(mem: Mem, role: Roles, root: nat, vpn: nat, ppn: nat)
    requires Tree(mem, role) && root in role && role[root] == Root && vpn < MAXVPN && Leaf(mem, root, vpn) != 0
    requires ppn in role && role[ppn] == Held
    ensures Owns(Framed(role, Leaf(mem, root, vpn), I0(vpn), ppn, true), root, vpn, ppn)
  {
    WalkTables(mem, role, root, vpn);
  }

  /** Setting up an entry that was not valid, in the terms of Reframed and ExtendsBut. */
  lemma FramedIs(mem: Mem, role: Roles, t: nat, k: nat, ppn: nat, perm: nat, own: bool, mem': Mem)
    requires Tree(mem, role) && Table(role, t, 0) && k < 512 && t < |mem| && |mem[t].words| == 512
             && !IsValid(mem[t].words[k])
    requires perm < 1024 && Leafy(perm) && (own ==> ppn in role && role[ppn] == Held)
    requires mem' == SetWord(mem, t, k, Entry(ppn, Validated(perm)))
    ensures Reframed(role, t, k, mem[t].words[k], Entry(ppn, Validated(perm)), Framed(role, t, k, ppn, own))
    ensures ExtendsBut(mem, role, mem', Framed(role, t, k, ppn, own), if own then {ppn} else {})
    ensures IsValid(Entry(ppn, Validated(perm)))
  {
    EntryParts(ppn, Validated(perm));
  }

  lemma ExtendsButTrans(m0: Mem, r0: Roles, m1: Mem, r1: Roles, m2: Mem, r2: Roles, but: set<nat>)
    requires ExtendsBut(m0, r0, m1, r1, {}) && ExtendsBut(m1, r1, m2, r2, but) && forall p ::
             p in but ==> p in r0 && r0[p] != Free
    ensures ExtendsBut(m0, r0, m2, r2, but)
  {
    forall p | p in r0 && (r0[p] == Held || r0[p].Frame?) ensures m2[p] == m0[p] {
      assert r1[p] == r0[p];
    }
  }

  lemma ExtendsIsBut(m0: Mem, r0: Roles, m1: Mem, r1: Roles)
    ensures Extends(m0, r0, m1, r1) <==> ExtendsBut(m0, r0, m1, r1, {})
  {
  }

  // ---------- Unmapping ----------

  /** Between two states the pages `gone` have changed their role to `to`, and nothing that is held or
      mapped elsewhere is touched. */
  ghost predicate Released(mem: Mem, role: Roles, mem': Mem, role': Roles, gone: set<nat>, to: Role) {
    && |mem'| == |mem| && role'.Keys == role.Keys && Shape(mem, role) && (forall p :: p in gone ==> p in role)
    && (forall p :: p in role ==> role'[p] == if p in gone then to else role[p])
    && (forall p :: p in role && p !in gone && (role[p] == Held || role[p].Frame?) ==> mem'[p] == mem[p])
  }

  lemma ReleasedMore(m0: Mem, r0: Roles, m1: Mem, r1: Roles, m2: Mem, r2: Roles, g: set<nat>, h: set<nat>, to: Role)
    requires Released(m0, r0, m1, r1, g, to) && Released(m1, r1, m2, r2, h, to)
    ensures Released(m0, r0, m2, r2, g + h, to)
  {
  }

  lemma ReleasedNone(mem: Mem, role: Roles, to: Role)
    requires Tree(mem, role)
    ensures Released(mem, role, mem, role, {}, to)
  {
  }

  /** A frame let go of by its entry is held until it is freed. */
  lemma DropFrame(mem: Mem, role: Roles, f: nat)
    requires Tree(mem, role) && f in role && role[f].Frame?
    ensures Tree(mem, role[f := Held]) && Spaces(mem, role[f := Held]) == Spaces(mem, role)
  {
    var now := role[f := Held];
    SpacesSame(mem, role, now);
    DropFrameTree(mem, role, f, now);
  }

  lemma DropFrameTree(mem: Mem, role: Roles, f: nat, now: Roles)
    requires Tree(mem, role) && f in role && role[f].Frame? && now == role[f := Held]
    ensures Tree(mem, now)
  {
    assert forall q: nat, level: nat :: Table(role, q, level) <==> Table(now, q, level);
    forall d | d in now ensures Hangs(mem, now, d) {
      assert Hangs(mem, role, d);
    }
    forall q: nat, level: nat, k: nat | Table(now, q, level) && k < 512 ensures Good(mem, now, q, level, k) {
      assert Table(role, q, level) && Good(mem, role, q, level, k);
    }
  }

  /** No valid entry of a leaf table looks like a pointer to a table. */
  lemma LeafIsLeafy(mem: Mem, role: Roles, t: nat, k: nat)
    requires Tree(mem, role) && Table(role, t, 0) && t < |mem| && k < 512 && k < |mem[t].words|
             && IsValid(mem[t].words[k])
    ensures Flags(mem[t].words[k]) != PTE_V && Leafy(mem[t].words[k])
  {
    assert Leafy(mem[t].words[k]) by { assert Good(mem, role, t, 0, k); }
    hide Leafy, Flags, IsValid, Tree;
    LeafyFlags(mem[t].words[k]);
  }

  /** The roles once entry `k` of leaf table `t` is cleared: its frame, if it has one, is held. */
  function LetGo(role: Roles, t: nat, k: nat, f: nat): Roles {
    if f in role && role[f] == Frame(t, k) then role[f := Held] else role
  }

  lemma LetGoIs(mem: Mem, role: Roles, t: nat, k: nat, mem': Mem)
    requires Tree(mem, role) && Table(role, t, 0) && t < |mem| && |mem[t].words| == 512 && k < 512
             && IsValid(mem[t].words[k])
    requires mem' == SetWord(mem, t, k, 0)
    ensures Reframed(role, t, k, mem[t].words[k], 0, LetGo(role, t, k, Ppn(mem[t].words[k])))
    ensures LetGo(role, t, k, Ppn(mem[t].words[k])).Keys == role.Keys
    ensures forall r :: r in role && role[r] == Root ==> LetGo(role, t, k, Ppn(mem[t].words[k]))[r] == Root
    ensures var now := LetGo(role, t, k, Ppn(mem[t].words[k]));
            Released(mem, role, mem', now, if now == role then {} else {Ppn(mem[t].words[k])}, Held)
  {
    hide Good;
    var f := Ppn(mem[t].words[k]);
    forall g | g in role && g != f ensures role[g] != Frame(t, k) {
      assert Hangs(mem, role, g);
    }
  }

  /** Freeing an owned frame and then clearing its entry. */
  lemma FreedThenCleared(m0: Mem, r0: Roles, m1: Mem, r1: Roles, m2: Mem, f: nat, page: Page, t: nat, k: nat)
    requires Tree(m0, r0) && f in r0 && r0[f] == Frame(t, k) && m1 == m0[f := page] && r1 == r0[f := Free]
    requires Table(r0, t, 0) && k < 512 && |page.words| == 512 && m2 == SetWord(m1, t, k, 0)
    ensures Released(m0, r0, m2, LetGo(r1, t, k, f), {f}, Free)
  {
  }

  /** The frames that `n` pages from `first` translate to. */
  ghost function Frames(s: seq<nat>, first: nat, n: nat): set<nat>
    requires first + n <= |s|
  {
    if n == 0 then {} else Frames(s, first, n - 1) + {Ppn(s[first + n - 1])}
  }

  /** Letting go of the frame of one page leaves the others theirs. */
  lemma OwnsRest(mem: Mem, role: Roles, mem': Mem, role': Roles, root: nat, s: seq<nat>, from: nat, to: nat)
    requires OwnsRange(role, root, s, from, to) && |s| == MAXVPN && from < to && from < MAXVPN && IsValid(s[from])
    requires Released(mem, role, mem', role', {Ppn(s[from])}, Free)
    ensures OwnsRange(role', root, s, from + 1, to)
  {
    forall vpn | from + 1 <= vpn < to && vpn < |s| && IsValid(s[vpn]) ensures Owns(role', root, vpn, Ppn(s[vpn])) {
      if Ppn(s[vpn]) == Ppn(s[from]) { OwnsOnce(role, root, vpn, root, from, Ppn(s[vpn])); }
    }
  }

  lemma OwnsFirst(role: Roles, root: nat, s: seq<nat>, from: nat, to: nat, s': seq<nat>)
    requires OwnsRange(role, root, s, from, to) && from < to && |s'| == |s| && (from < |s| ==> s'[from] == s[from])
    ensures OwnsRange(role, root, s', from, from + 1)
  {
  }

  // ---------- Growing an address space ----------

  /** Between two states free pages have been taken: `taken` for frames, others for tables.  What was in
      use is untouched. */
  ghost predicate Took(mem: Mem, role: Roles, mem': Mem, role': Roles, taken: set<nat>) {
    && |mem'| == |mem| && role'.Keys == role.Keys && Shape(mem, role)
    && (forall p :: p in taken ==> p in role && role[p] == Free)
    && (forall p :: p in role && role[p] != Free ==> role'[p] == role[p])
    && (forall p :: p in role && role[p] == Free && p !in taken ==> role'[p] == Free || role'[p].Node?)
    && (forall p :: p in role && (role[p] == Held || role[p].Frame?) ==> mem'[p] == mem[p])
  }

  lemma TookMore(m0: Mem, r0: Roles, m1: Mem, r1: Roles, m2: Mem, r2: Roles, t: set<nat>, u: set<nat>)
    requires Took(m0, r0, m1, r1, t) && Took(m1, r1, m2, r2, u)
    ensures Took(m0, r0, m2, r2, t + u)
  {
  }

  /** A page taken, filled and then made the frame of an entry. */
  lemma TookFrame(m0: Mem, r0: Roles, m1: Mem, r1: Roles, m2: Mem, r2: Roles, f: nat, page: Page)
    requires Tree(m0, r0) && f in r0 && f < |m0| && r0[f] == Free && m1 == m0[f := page] && r1 == r0[f := Held]
    requires ExtendsBut(m1, r1, m2, r2, {f})
    ensures Took(m0, r0, m2, r2, {f}) && m2[f] == page
  {
  }

  /** A page taken and given back, with tables perhaps made in between. */
  lemma TookBack(m0: Mem, r0: Roles, m1: Mem, r1: Roles, m2: Mem, r2: Roles, m3: Mem, r3: Roles, f: nat, page: Page)
    requires Tree(m0, r0) && f in r0 && f < |m0| && r0[f] == Free && m1 == m0[f := page] && r1 == r0[f := Held]
    requires ExtendsBut(m1, r1, m2, r2, {}) && r3 == r2[f := Free] && |m3| == |m2|
    requires forall p :: p in r2 && p != f && p < |m2| ==> m3[p] == m2[p]
    ensures Extends(m0, r0, m3, r3)
  {
    forall p | p in r0 && (r0[p] == Held || r0[p].Frame?) ensures m3[p] == m0[p] {
      assert r1[p] == r0[p];
    }
  }

  /** Frames taken and all released again. */
  lemma TookReleased(m0: Mem, r0: Roles, m1: Mem, r1: Roles, m2: Mem, r2: Roles, t: set<nat>)
    requires Took(m0, r0, m1, r1, t) && Released(m1, r1, m2, r2, t, Free)
    ensures Extends(m0, r0, m2, r2)
  {
  }

  lemma ExtendsButRoles(mem: Mem, role: Roles, mem': Mem, role': Roles, but: set<nat>)
    requires ExtendsBut(mem, role, mem', role', but)
    ensures |mem'| == |mem| && role'.Keys == role.Keys && forall p ::
            p in role && p !in but && role[p] != Free ==> role'[p] == role[p]
  {
  }

  /** Pages `from`..`to` of `root` have new frames of their own, and all else about the address spaces is
      as before. */
  ghost predicate Grown(mem: Mem, role: Roles, mem': Mem, role': Roles, root: nat, from: nat, to: nat) {
    && root in role && role[root] == Root && from <= to <= MAXVPN
    && Spaces(mem', role') == Spaces(mem, role)[root := Space(mem', root)]
    && (forall v :: 0 <= v < MAXVPN && !(from <= v < to) ==> Space(mem', root)[v] == Space(mem, root)[v])
    && (forall v :: from <= v < to ==> IsValid(Space(mem', root)[v]) && !IsValid(Space(mem, root)[v]))
    && OwnsRange(role', root, Space(mem', root), from, to)
    && Took(mem, role, mem', role', Frames(Space(mem', root), from, to - from))
  }

  lemma GrownNone(mem: Mem, role: Roles, root: nat, from: nat)
    requires Tree(mem, role) && root in role && role[root] == Root && from <= MAXVPN
    ensures Grown(mem, role, mem, role, root, from, from)
  {
    hide Space;
    assert Spaces(mem, role)[root] == Space(mem, root);
  }

  lemma {:induction false} FramesSame(s: seq<nat>, first: nat, n: nat, s': seq<nat>)
    requires first + n <= |s| && |s'| == |s| && forall v :: first <= v < first + n ==> s'[v] == s[v]
    ensures Frames(s', first, n) == Frames(s, first, n)
  {
    if n > 0 { FramesSame(s, first, n - 1, s'); }
  }

  lemma {:induction false} FramesOf(s: seq<nat>, first: nat, n: nat, v: nat)
    requires first + n <= |s| && first <= v < first + n
    ensures Ppn(s[v]) in Frames(s, first, n)
  {
    if v < first + n - 1 { FramesOf(s, first, n - 1, v); }
  }

  lemma GrownOwns(m1: Mem, r1: Roles, m2: Mem, r2: Roles, root: nat, from: nat, to: nat, s: seq<nat>, e: nat,
                  taken: set<nat>)
    requires OwnsRange(r1, root, s, from, to) && Took(m1, r1, m2, r2, taken) && to < |s| == MAXVPN
             && Owns(r2, root, to, Ppn(e))
    ensures OwnsRange(r2, root, s[to := e], from, to + 1)
  {
  }

  lemma GrownMore(m0: Mem, r0: Roles, m1: Mem, r1: Roles, m2: Mem, r2: Roles, root: nat, from: nat, to: nat, e: nat)
    requires Grown(m0, r0, m1, r1, root, from, to) && to < MAXVPN && root in r2 && r2[root] == Root
    requires Spaces(m2, r2) == Spaces(m1, r1)[root := Space(m1, root)[to := e]] && IsValid(e)
             && !IsValid(Space(m1, root)[to])
    requires Owns(r2, root, to, Ppn(e)) && Took(m1, r1, m2, r2, {Ppn(e)})
    ensures Grown(m0, r0, m2, r2, root, from, to + 1) && Space(m2, root) == Space(m1, root)[to := e]
  {
    hide Space, Took, Owns, OwnsRange, IsValid, Ppn, Spaces;
    SpaceOf(m2, r2, root);
    var s1 := Space(m1, root);
    GrownOwns(m1, r1, m2, r2, root, from, to, s1, e, {Ppn(e)});
    FramesSame(s1, from, to - from, s1[to := e]);
    TookMore(m0, r0, m1, r1, m2, r2, Frames(s1, from, to - from), {Ppn(e)});
  }

  /** Making tables changes nothing that has been mapped. */
  lemma GrownExtends(m0: Mem, r0: Roles, m1: Mem, r1: Roles, m2: Mem, r2: Roles, root: nat, from: nat, to: nat)
    requires Grown(m0, r0, m1, r1, root, from, to) && Extends(m1, r1, m2, r2) && Spaces(m2, r2) == Spaces(m1, r1)
    requires root in r2 && r2[root] == Root && root in r1 && r1[root] == Root
    ensures Grown(m0, r0, m2, r2, root, from, to) && Space(m2, root) == Space(m1, root)
  {
    hide Space, IsValid, Ppn, Spaces;
    SpaceOf(m2, r2, root);
    SpaceOf(m1, r1, root);
    GrownTook(m0, r0, m1, r1, m2, r2, Frames(Space(m1, root), from, to - from));
  }

  lemma GrownTook(m0: Mem, r0: Roles, m1: Mem, r1: Roles, m2: Mem, r2: Roles, t: set<nat>)
    requires Took(m0, r0, m1, r1, t) && Extends(m1, r1, m2, r2)
    ensures Took(m0, r0, m2, r2, t)
  {
    assert Took(m1, r1, m2, r2, {});
    TookMore(m0, r0, m1, r1, m2, r2, t, {});
    assert t + {} == t;
  }

  /** Unmapping what was grown, with its frames freed, restores every translation. */
  lemma GrownUndone(m0: Mem, r0: Roles, m1: Mem, r1: Roles, m2: Mem, r2: Roles, root: nat, from: nat, to: nat)
    requires Tree(m0, r0) && Grown(m0, r0, m1, r1, root, from, to) && root in r1 && r1[root] == Root
    requires Spaces(m2, r2) == Spaces(m1, r1)[root := Unmapped(Space(m1, root), from, to - from)]
    requires Released(m1, r1, m2, r2, Frames(Space(m1, root), from, to - from), Free)
    ensures Spaces(m2, r2) == Spaces(m0, r0) && Extends(m0, r0, m2, r2)
  {
    hide Tree, Space, IsValid, Released, Took, OwnsRange, Extends, Spaces;
    TookReleased(m0, r0, m1, r1, m2, r2, Frames(Space(m1, root), from, to - from));
    var s := Unmapped(Space(m1, root), from, to - from);
    forall v | 0 <= v < MAXVPN ensures s[v] == Space(m0, root)[v] {
      EntryZero(m0, r0, root, v);
    }
    assert s == Space(m0, root);
    SpaceOf(m0, r0, root);
  }

  lemma EntryZero(mem: Mem, role: Roles, root: nat, vpn: nat)
    requires Tree(mem, role) && root in role && role[root] == Root && vpn < MAXVPN
    ensures IsValid(Space(mem, root)[vpn]) || Space(mem, root)[vpn] == 0
  {
    InvalidIsZero(mem, role, root, vpn);
  }

  /** Frames `from`..`to` hold what `want` says, with those flags. */
  ghost predicate Holding(mem: Mem, s: seq<nat>, from: nat, to: nat, flags: seq<nat>, want: seq<Page>) {
    && |flags| == |want| == to - from && to <= |s|
    && forall v :: from <= v < to ==>
         Flags(s[v]) == flags[v - from] && Ppn(s[v]) < |mem| && mem[Ppn(s[v])] == want[v - from]
  }

  lemma HoldingMore(m1: Mem, r1: Roles, m2: Mem, r2: Roles, root: nat, s: seq<nat>, from: nat, to: nat,
                    flags: seq<nat>, want: seq<Page>,
                    f: nat, fl: nat, page: Page)
    requires from <= to && Holding(m1, s, from, to, flags, want) && OwnsRange(r1, root, s, from, to) && to < |s|
    requires forall v :: from <= v < to ==> IsValid(s[v])
    requires Took(m1, r1, m2, r2, {f}) && f < |m2| && m2[f] == page && fl < 1024
    ensures Holding(m2, s[to := Entry(f, fl)], from, to + 1, flags + [fl], want + [page])
  {
    EntryParts(f, fl);
    forall v | from <= v < to ensures m2[Ppn(s[v])] == want[v - from] {
      assert Owns(r1, root, v, Ppn(s[v]));
    }
  }

  /** Pages `from`..`to` of `root` have been given new frames with these flags and contents. */
  ghost predicate Built(mem: Mem, role: Roles, mem': Mem, role': Roles, root: nat, from: nat, to: nat,
                        flags: seq<nat>, want: seq<Page>) {
    Grown(mem, role, mem', role', root, from, to) && Holding(mem', Space(mem', root), from, to, flags, want)
  }

  lemma BuiltNone(mem: Mem, role: Roles, root: nat, from: nat)
    requires Tree(mem, role) && root in role && role[root] == Root && from <= MAXVPN
    ensures Built(mem, role, mem, role, root, from, from, [], [])
  {
    hide Grown, Tree, Space;
    GrownNone(mem, role, root, from);
  }

  lemma BuiltMore(m0: Mem, r0: Roles, m1: Mem, r1: Roles, m2: Mem, r2: Roles, root: nat, from: nat, to: nat,
                  flags: seq<nat>, want: seq<Page>, f: nat, fl: nat, page: Page)
    requires Built(m0, r0, m1, r1, root, from, to, flags, want) && to < MAXVPN && root in r2 && r2[root] == Root
             && fl < 1024 && fl % 2 == 1
    requires Spaces(m2, r2) == Spaces(m1, r1)[root := Space(m1, root)[to := Entry(f, fl)]]
             && !IsValid(Space(m1, root)[to])
    requires Owns(r2, root, to, f) && Took(m1, r1, m2, r2, {f}) && f < |m2| && m2[f] == page
    ensures Built(m0, r0, m2, r2, root, from, to + 1, flags + [fl], want + [page])
  {
    hide Holding, Space, Spaces, Took, Owns, OwnsRange, Entry;
    EntryParts(f, fl);
    GrownMore(m0, r0, m1, r1, m2, r2, root, from, to, Entry(f, fl));
    HoldingMore(m1, r1, m2, r2, root, Space(m1, root), from, to, flags, want, f, fl, page);
  }

  /** What was built can be taken down: the pages own their frames. */
  lemma BuiltOwns(m0: Mem, r0: Roles, m1: Mem, r1: Roles, m2: Mem, r2: Roles, root: nat, from: nat, to: nat,
                  flags: seq<nat>, want: seq<Page>)
    requires Built(m0, r0, m1, r1, root, from, to, flags, want) && Extends(m1, r1, m2, r2)
             && Spaces(m2, r2) == Spaces(m1, r1)
    requires root in r2 && r2[root] == Root && root in r1 && r1[root] == Root
    ensures Grown(m0, r0, m2, r2, root, from, to) && OwnsRange(r2, root, Space(m2, root), from, to)
    ensures forall v :: from <= v < to ==> v < MAXVPN && IsValid(Space(m2, root)[v])
  {
    hide Holding, Space, Spaces, Took, Owns, Extends, IsValid;
    GrownExtends(m0, r0, m1, r1, m2, r2, root, from, to);
  }

  lemma BuiltSame(m0: Mem, r0: Roles, m1: Mem, r1: Roles, root: nat, from: nat, to: nat, flags: seq<nat>,
                  want: seq<Page>)
    requires Built(m0, r0, m1, r1, root, from, to, flags, want) && to < MAXVPN
    ensures Space(m1, root)[to] == Space(m0, root)[to]
  {
  }

  lemma OwnsNone(role: Roles, root: nat, s: seq<nat>, from: nat)
    ensures OwnsRange(role, root, s, from, from)
  {
  }

  // ---------- A new address space ----------

  lemma NewRoot(mem: Mem, role: Roles, free: seq<nat>, head: nat, c: nat)
    requires Tree(mem, role) && Chain(mem, role, free, head) && c in role && c < |mem| && role[c] == Held
             && Zeroed(mem[c])
    ensures Inv(mem, role[c := Root], free, head)
    ensures Spaces(mem, role[c := Root]) == Spaces(mem, role)[c := seq(MAXVPN, _ => 0)]
  {
    hide PteAt, Space;
    var now := role[c := Root];
    NewRootTree(mem, role, c, now);
    ChainKeep(mem, role, free, head, mem, now);
    forall vpn | 0 <= vpn < MAXVPN ensures PteAt(mem, c, vpn) == 0 {
      NewRootPte(mem, c, vpn);
    }
    SpaceIs(mem, c, seq(MAXVPN, _ => 0));
  }

  lemma NewRootPte(mem: Mem, c: nat, vpn: nat)
    requires c < |mem| && Zeroed(mem[c]) && vpn < MAXVPN
    ensures PteAt(mem, c, vpn) == 0
  {
    IndicesDiffer(vpn, vpn);
  }

  lemma NewRootTree(mem: Mem, role: Roles, c: nat, now: Roles)
    requires Tree(mem, role) && c in role && role[c] == Held && Zeroed(mem[c]) && now == role[c := Root]
    ensures Tree(mem, now)
  {
    assert forall q: nat, level: nat :: Table(role, q, level) ==> Table(now, q, level);
    forall d | d in now ensures Hangs(mem, now, d) {
      assert Hangs(mem, role, d);
    }
    forall q: nat, level: nat, k: nat | Table(now, q, level) && k < 512 ensures Good(mem, now, q, level, k) {
      if q != c { assert Table(role, q, level) && Good(mem, role, q, level, k); }
    }
  }
}
