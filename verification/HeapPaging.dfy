// kernel/memory.c: the page-table entries that the page allocator keeps in a map are those the hardware walks.

module HeapPaging {
  import opened Pages
  import opened PageTables

  /** Every heap page translates to its frame in the kernel pool, and to nothing when it is not mapped. */
  ghost predicate Shows(m: Mem, dir: nat, s: PageState) {
    forall page: nat :: page < |s.vbits| ==> ShowsPage(m, dir, s.ptes, page)
  }

  ghost predicate ShowsPage(m: Mem, dir: nat, ptes: map<nat, nat>, page: nat) {
    Walk(m, dir, Vaddr(page)) == if page in ptes then At(Phys(ptes[page]) / 0x1000, 0) else Fault
  }

  /** The page tables of the kernel quarter exist from boot on, each once, and none is the directory. */
  ghost predicate KernelTables(m: Mem, dir: nat) {
    && (forall j: nat :: 768 <= j < 1023 ==> Present(m(dir, j)))
    && (forall j: nat, k: nat :: 768 <= j < k < 1023 ==> FrameOf(m(dir, j)) != FrameOf(m(dir, k)))
    && (forall j: nat :: j < 1023 && Present(m(dir, j)) ==> FrameOf(m(dir, j)) != dir)
  }

  /** The heap ends below the self map. */
  ghost predicate HeapFits(s: PageState) {
    Vaddr(|s.vbits|) <= 0xffc0_0000
  }

  lemma HeapPage(page: nat)
    requires Vaddr(page) < 0xffc0_0000
    ensures 768 <= PdeIdx(Vaddr(page)) < 1023 && Vaddr(page) % 0x1000 == 0 && Vaddr(page) / 0x1000 == 0xc0100 + page
  {
  }

  /** Two heap pages never share a table entry. */
  lemma OwnEntry(m: Mem, dir: nat, page: nat, other: nat)
    requires KernelTables(m, dir) && Vaddr(page) < 0xffc0_0000 && Vaddr(other) < 0xffc0_0000 && page != other
    ensures !Uses(m, dir, Vaddr(other), FrameOf(m(dir, PdeIdx(Vaddr(page)))), PteIdx(Vaddr(page)))
  {
    HeapPage(page);
    HeapPage(other);
    SamePage(Vaddr(page), Vaddr(other));
    var j, k := PdeIdx(Vaddr(page)), PdeIdx(Vaddr(other));
    assert j < k || k < j || j == k;
  }

  /** page_table_add for a heap page: what Pages does to its map, the hardware sees. */
  lemma AddShows(m: Mem, n: Mem, dir: nat, s: PageState, t: PageState, page: nat, f: nat, spare: nat)
    requires Shows(m, dir, s) && KernelTables(m, dir) && HeapFits(s) && page < |s.vbits| == |t.vbits|
    requires t.ptes == s.ptes[page := f] && spare != dir && NotATable(m, dir, spare)
    requires Added(m, n, dir, Vaddr(page), Phys(f) / 0x1000, spare)
    ensures Shows(n, dir, t) && KernelTables(n, dir)
  {
    hide Added, Walk, NotATable;
    HeapPage(page);
    forall other: nat | other < |t.vbits| ensures ShowsPage(n, dir, t.ptes, other) {
      HeapPage(other);
      assert ShowsPage(m, dir, s.ptes, other);
      AddTranslates(m, n, dir, Vaddr(page), Phys(f) / 0x1000, spare, Vaddr(other));
      if other != page {
        OwnEntry(m, dir, page, other);
      }
    }
    DirSame(m, n, dir, Vaddr(page), Phys(f) / 0x1000, spare);
  }

  lemma DirSame(m: Mem, n: Mem, dir: nat, v: nat, p: nat, spare: nat)
    requires KernelTables(m, dir) && 768 <= PdeIdx(v) < 1023 && Added(m, n, dir, v, p, spare)
    ensures KernelTables(n, dir)
  {
    assert forall b: nat :: n(dir, b) == m(dir, b);
  }

  /** Memory after page_table_pte_remove: only the present bit of v's entry is cleared. */
  ghost predicate Removed(m: Mem, n: Mem, dir: nat, v: nat) {
    && Present(m(dir, PdeIdx(v)))
    && var t, i := FrameOf(m(dir, PdeIdx(v))), PteIdx(v);
    && Present(m(t, i)) && forall a: nat, b: nat :: n(a, b) == Write(m, t, i, m(t, i) - 1)(a, b)
  }

  /** page_table_pte_remove for a heap page: the page is gone for the hardware too, and no other. */
  lemma RemoveShows(m: Mem, n: Mem, dir: nat, s: PageState, t: PageState, page: nat)
    requires Shows(m, dir, s) && KernelTables(m, dir) && HeapFits(s) && page < |s.vbits| == |t.vbits|
    requires t.ptes == s.ptes - {page} && Removed(m, n, dir, Vaddr(page))
    ensures Shows(n, dir, t) && KernelTables(n, dir)
  {
    HeapPage(page);
    forall other: nat | other < |t.vbits| ensures ShowsPage(n, dir, t.ptes, other) {
      HeapPage(other);
      assert ShowsPage(m, dir, s.ptes, other);
      if other != page {
        OwnEntry(m, dir, page, other);
      }
    }
    assert forall b: nat :: n(dir, b) == m(dir, b);
  }

  /** page_table_pte_remove, through the self map. */
  method PteRemove(k: Machine, v: nat)
    requires v < 0xffc0_0000 && SelfMapped(k.mem, k.cr3) && Walk(k.mem, k.cr3, v).At?
    modifies k`mem
    ensures Removed(old(k.mem), k.mem, k.cr3, v)
  {
    PtePtrReaches(k.mem, k.cr3, v);
    PdePtrAligned(v);
    var pte := k.Load(PtePtr(v));
    k.Store(PtePtr(v), pte - pte % 2);
  }

  /** addr_v2p on a mapped heap page gives the frame that Pages has for it. */
  lemma HeapTranslation(m: Mem, dir: nat, s: PageState, page: nat, phys: nat)
    requires Shows(m, dir, s) && page < |s.vbits| && page in s.ptes
    requires Walk(m, dir, Vaddr(page)) == At(phys / 0x1000, phys % 0x1000)
    ensures phys == Phys(s.ptes[page])
  {
    assert ShowsPage(m, dir, s.ptes, page);
  }
}
