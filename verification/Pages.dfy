/** Sv39 arithmetic: pages, page-table entries, and the three indices of a virtual page. */
module Pages {

  const PGSIZE: nat := 4096
  const MAXVA: nat := 0x40_0000_0000          // 1 << 38
  const MAXVPN: nat := 0x400_0000             // MAXVA / PGSIZE
  const PTE_V: nat := 1
  const PTE_R: nat := 2
  const PTE_W: nat := 4
  const PTE_X: nat := 8
  const PTE_U: nat := 16

  function PgRoundDown(a: nat): nat { a / 4096 * 4096 }
  function PgRoundUp(a: nat): nat { (a + 4095) / 4096 * 4096 }

  // ---------- Entries ----------

  predicate IsValid(e: nat) { e % 2 == 1 }
  function Ppn(e: nat): nat { e / 1024 }
  function Flags(e: nat): nat { e % 1024 }

  /** PA2PTE(pa) | flags for the page numbered `ppn`. */
  function Entry(ppn: nat, flags: nat): nat
    requires flags < 1024
  {
    ppn * 1024 + flags
  }

  /** `flags` with the valid bit. */
  function Validated(flags: nat): nat { if flags % 2 == 1 then flags else flags + 1 }

  /** Some of R, W and X is set: flags / 2 % 8 are those three bits. */
  predicate Leafy(e: nat) { e / 2 % 8 != 0 }

  /** An entry holds the page and the flags put into it. */
  lemma EntryParts(ppn: nat, flags: nat)
    requires flags < 1024
    ensures Ppn(Entry(ppn, flags)) == ppn && Flags(Entry(ppn, flags)) == flags
    ensures IsValid(Entry(ppn, flags)) == IsValid(flags) && Leafy(Entry(ppn, flags)) == Leafy(flags)
  {
    assert (ppn * 1024 + flags) / 2 == ppn * 512 + flags / 2;
  }

  /** A leaf entry does not look like a pointer to a table. */
  lemma LeafyFlags(e: nat)
    requires Leafy(e)
    ensures Flags(e) != PTE_V
  {
  }

  /** The flags of a valid leaf entry are valid and a leaf's. */
  lemma FlagsOfLeaf(e: nat)
    requires IsValid(e) && Leafy(e)
    ensures Flags(e) < 1024 && IsValid(Flags(e)) && Leafy(Flags(e)) && Validated(Flags(e)) == Flags(e)
  {
    assert e == e / 1024 * 1024 + e % 1024;
    EntryParts(e / 1024, e % 1024);
  }

  // ---------- Indices ----------

  function I2(vpn: nat): nat { vpn / 262144 }
  function I1(vpn: nat): nat { vpn / 512 % 512 }
  function I0(vpn: nat): nat { vpn % 512 }

  /** The three indices are in range and together determine the page. */
  lemma IndicesDiffer(v: nat, w: nat)
    requires v < MAXVPN && w < MAXVPN
    ensures I2(v) < 512 && I1(v) < 512 && I0(v) < 512
    ensures I2(v) == I2(w) && I1(v) == I1(w) && I0(v) == I0(w) ==> v == w
  {
    assert v / 262144 == v / 512 / 512 && w / 262144 == w / 512 / 512;
  }

  /** The 9-bit index of an address at a level. */
  function Px(level: nat, va: nat): nat {
    if level == 0 then va / 0x1000 % 512 else if level == 1 then va / 0x20_0000 % 512 else va / 0x4000_0000 % 512
  }

  lemma PxIndices(va: nat)
    requires va < MAXVA
    ensures va / 4096 < MAXVPN && Px(2, va) == I2(va / 4096) && Px(1, va) == I1(va / 4096) && Px(0, va) == I0(va / 4096)
  {
    assert va / 0x20_0000 == va / 4096 / 512;
    assert va / 0x4000_0000 == va / 4096 / 262144;
  }

  /** The page with the given indices. */
  lemma VpnOf(k2: nat, k1: nat, k0: nat, vpn: nat)
    requires k2 < 256 && k1 < 512 && k0 < 512 && vpn == k2 * 262144 + k1 * 512 + k0
    ensures vpn < MAXVPN && I2(vpn) == k2 && I1(vpn) == k1 && I0(vpn) == k0
  {
    assert vpn / 512 == k2 * 512 + k1;
  }
}
