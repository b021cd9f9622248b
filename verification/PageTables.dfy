// kernel/memory.c pte_ptr, pde_ptr, page_table_add, addr_v2p and user_process/process.c create_page_dir, on memory that
// is only reached through 32-bit paging (Intel SDM Vol. 3A, section 4.3).

module PageTables {

  // ---------------------------------------------------------------- the hardware

  /** Word e of frame f. */
  type Mem = (nat, nat) -> nat

  function PdeIdx(v: nat): nat {
    v / 0x40_0000
  }

  function PteIdx(v: nat): nat {
    v / 0x1000 % 0x400
  }

  /** Bit 0 of a directory or table entry. */
  predicate Present(w: nat) {
    w % 2 == 1
  }

  function FrameOf(w: nat): nat {
    w / 0x1000
  }

  /** page_phyaddr | PG_US_U | PG_RW_W | PG_P_1 */
  function Entry(frame: nat): nat {
    frame * 0x1000 + 7
  }

  lemma EntryParts(frame: nat)
    ensures Present(Entry(frame)) && FrameOf(Entry(frame)) == frame
  {
  }

  datatype Target = Fault | At(frame: nat, offset: nat)

  /** What the hardware does with a virtual address: directory entry, table entry, offset. */
  function Walk(mem: Mem, dir: nat, v: nat): Target {
    var pde := mem(dir, PdeIdx(v));
    if !Present(pde) then Fault
    else
      var pte := mem(FrameOf(pde), PteIdx(v));
      if !Present(pte) then Fault else At(FrameOf(pte), v % 0x1000)
  }

  function Write(mem: Mem, f: nat, e: nat, w: nat): Mem {
    (a, b) => if a == f && b == e then w else mem(a, b)
  }

  // ---------------------------------------------------------------- the self map

  /** The last entry of a directory leads to the directory itself. */
  ghost predicate SelfMapped(mem: Mem, dir: nat) {
    Present(mem(dir, 1023)) && FrameOf(mem(dir, 1023)) == dir
  }

  function PtePtr(v: nat): nat {
    0xffc0_0000 + PdeIdx(v) * 0x1000 + PteIdx(v) * 4
  }

  function PdePtr(v: nat): nat {
    0xffff_f000 + PdeIdx(v) * 4
  }

  /** The masks and shifts of pte_ptr, pde_ptr, PDE_IDX and PTE_IDX, taken apart into shifts. */
  lemma Masks(v: bv32)
    ensures (v & 0xffc0_0000) >> 22 == v >> 22
    ensures (v & 0x003f_f000) >> 12 == (v >> 12) & 0x3ff
    ensures (v & 0xffc0_0000) >> 10 == (v >> 22) << 12
    ensures 0xffc0_0000 + ((v & 0xffc0_0000) >> 10) + ((v & 0x003f_f000) >> 12) * 4
            == 0xffc0_0000 | ((v >> 22) << 12) | (((v >> 12) & 0x3ff) << 2)
  {
  }

  /** A 32-bit word in three parts; the numbers add up as the words do, because nothing overflows. */
  lemma HighPart(v: bv32, h: bv32, a: bv32)
    requires h < 0x400 && a < 0x40_0000 && v == h * 0x40_0000 + a
    ensures v as nat == (h as nat) * 0x40_0000 + a as nat
  {
  }

  lemma MiddlePart(a: bv32, n: bv32, o: bv32)
    requires n < 0x400 && o < 0x1000 && a == n * 0x1000 + o
    ensures a as nat == (n as nat) * 0x1000 + o as nat && (n as nat) < 0x400 && (o as nat) < 0x1000
  {
  }

  lemma Split(v: bv32)
    ensures v == (v >> 22) * 0x40_0000 + (v & 0x3f_ffff) && v >> 22 < 0x400 && v & 0x3f_ffff < 0x40_0000
    ensures v & 0x3f_ffff == ((v >> 12) & 0x3ff) * 0x1000 + (v & 0xfff) && (v >> 12) & 0x3ff < 0x400
    ensures v & 0xfff < 0x1000
  {
  }

  lemma Digits(x: nat, h: nat, n: nat, o: nat)
    requires x == h * 0x40_0000 + n * 0x1000 + o && n < 0x400 && o < 0x1000
    ensures x / 0x40_0000 == h && x / 0x1000 % 0x400 == n && x % 0x1000 == o
  {
    assert x / 0x1000 == h * 0x400 + n;
  }

  lemma Parts(v: bv32, h: bv32, a: bv32, n: bv32, o: bv32)
    requires v == h * 0x40_0000 + a && h < 0x400 && a < 0x40_0000 && a == n * 0x1000 + o && n < 0x400 && o < 0x1000
    ensures h as nat == (v as nat) / 0x40_0000 && n as nat == (v as nat) / 0x1000 % 0x400
    ensures o as nat == (v as nat) % 0x1000
  {
    HighPart(v, h, a);
    MiddlePart(a, n, o);
    Digits(v as nat, h as nat, n as nat, o as nat);
  }

  /** The shifted and masked words are the indices and the offset of the address as a number. */
  lemma ShiftsAreIndices(v: bv32, h: bv32, n: bv32, o: bv32)
    requires h == v >> 22 && n == (v >> 12) & 0x3ff && o == v & 0xfff
    ensures h as nat == PdeIdx(v as nat) && n as nat == PteIdx(v as nat) && o as nat == (v as nat) % 0x1000
  {
    Split(v);
    Parts(v, h, v & 0x3f_ffff, n, o);
  }

  lemma PtePtrParts(v: nat)
    requires v < 0x1_0000_0000
    ensures PtePtr(v) < 0x1_0000_0000 && PdeIdx(PtePtr(v)) == 1023 && PteIdx(PtePtr(v)) == PdeIdx(v)
    ensures PtePtr(v) % 0x1000 == 4 * PteIdx(v)
  {
    var d, t := PdeIdx(v), PteIdx(v);
    assert d < 0x400 && t < 0x400;
    assert PtePtr(v) == 0x1000 * (0xffc00 + d) + 4 * t;
    assert PtePtr(v) / 0x1000 == 0xffc00 + d;
    assert PtePtr(v) == 0x40_0000 * 1023 + (0x1000 * d + 4 * t);
  }

  lemma PdePtrParts(v: nat)
    requires v < 0x1_0000_0000
    ensures PdePtr(v) < 0x1_0000_0000 && PdeIdx(PdePtr(v)) == 1023 && PteIdx(PdePtr(v)) == 1023
    ensures PdePtr(v) % 0x1000 == 4 * PdeIdx(v)
  {
    var d := PdeIdx(v);
    assert d < 0x400;
    assert PdePtr(v) / 0x1000 == 0xfffff;
    assert PdePtr(v) == 0x40_0000 * 1023 + (0x3f_f000 + 4 * d);
  }

  /** Through a self-mapped directory, pde_ptr(v) is the directory's own entry for v. */
  lemma PdePtrReaches(mem: Mem, dir: nat, v: nat)
    requires SelfMapped(mem, dir) && v < 0x1_0000_0000
    ensures Walk(mem, dir, PdePtr(v)) == At(dir, 4 * PdeIdx(v))
  {
    PdePtrParts(v);
  }

  /** ... and pte_ptr(v) is the entry for v in v's own table, or faults when v has no table. */
  lemma PtePtrReaches(mem: Mem, dir: nat, v: nat)
    requires SelfMapped(mem, dir) && v < 0x1_0000_0000
    ensures Walk(mem, dir, PtePtr(v)) ==
            if Present(mem(dir, PdeIdx(v))) then At(FrameOf(mem(dir, PdeIdx(v))), 4 * PteIdx(v)) else Fault
  {
    PtePtrParts(v);
  }

  // ---------------------------------------------------------------- one entry changes

  /** The translation of w goes through entry i of table t. */
  ghost predicate Uses(mem: Mem, dir: nat, w: nat, t: nat, i: nat) {
    Present(mem(dir, PdeIdx(w))) && FrameOf(mem(dir, PdeIdx(w))) == t && PteIdx(w) == i
  }

  /** A table of its own: no other directory entry leads to it. */
  ghost predicate Unshared(mem: Mem, dir: nat, k: nat) {
    forall j: nat :: j < 1024 && j != k && Present(mem(dir, j)) ==> FrameOf(mem(dir, j)) != FrameOf(mem(dir, k))
  }

  lemma SamePage(v: nat, w: nat)
    ensures PdeIdx(v) == PdeIdx(w) && PteIdx(v) == PteIdx(w) <==> v / 0x1000 == w / 0x1000
  {
    assert v / 0x40_0000 == v / 0x1000 / 0x400 && w / 0x40_0000 == w / 0x1000 / 0x400;
    assert v / 0x1000 == 0x400 * (v / 0x1000 / 0x400) + v / 0x1000 % 0x400;
    assert w / 0x1000 == 0x400 * (w / 0x1000 / 0x400) + w / 0x1000 % 0x400;
  }

  /** With a table of its own, the translations that change are those of v's page and no other. */
  lemma UsesOwnPage(mem: Mem, dir: nat, v: nat, w: nat)
    requires v < 0x1_0000_0000 && w < 0x1_0000_0000
    requires Present(mem(dir, PdeIdx(v))) && Unshared(mem, dir, PdeIdx(v))
    ensures Uses(mem, dir, w, FrameOf(mem(dir, PdeIdx(v))), PteIdx(v)) <==> v / 0x1000 == w / 0x1000
  {
    SamePage(v, w);
    assert PdeIdx(w) < 1024 && PdeIdx(v) < 1024;
  }

  /**
   * The boot directory shares one table between entries 0 and 768, so mapping a heap page there also maps the address
   * 3 GiB below it: the two always translate alike.
   */
  lemma BootAlias(mem: Mem, dir: nat, v: nat)
    requires 0xc000_0000 <= v < 0xc040_0000 && mem(dir, 0) == mem(dir, 768)
    ensures Walk(mem, dir, v) == Walk(mem, dir, v - 0xc000_0000)
  {
    assert PdeIdx(v) == 768 && PdeIdx(v - 0xc000_0000) == 0;
    assert PteIdx(v) == PteIdx(v - 0xc000_0000);
  }

  // ---------------------------------------------------------------- page_table_add and addr_v2p

  /** The machine: physical memory, reached through the current directory. */
  class Machine {
    var mem: Mem
    var cr3: nat

    constructor (mem: Mem, cr3: nat)
      ensures this.mem == mem && this.cr3 == cr3
    {
      this.mem, this.cr3 := mem, cr3;
    }

    /** A 32-bit load; without a translation the processor faults. */
    method Load(v: nat) returns (w: nat)
      requires Walk(mem, cr3, v).At? && v % 4 == 0
      ensures w == mem(Walk(mem, cr3, v).frame, Walk(mem, cr3, v).offset / 4)
    {
      var t := Walk(mem, cr3, v);
      w := mem(t.frame, t.offset / 4);
    }

    method Store(v: nat, w: nat)
      requires Walk(mem, cr3, v).At? && v % 4 == 0
      modifies this`mem
      ensures forall a: nat, b: nat ::
                mem(a, b) == Write(old(mem), Walk(old(mem), cr3, v).frame, Walk(old(mem), cr3, v).offset / 4, w)(a, b)
    {
      var t := Walk(mem, cr3, v);
      mem := Write(mem, t.frame, t.offset / 4, w);
    }

    /** memset of the new page table, through the self map: `table` is the frame behind it. */
    method ClearTable(v: nat, ghost table: nat)
      requires v < 0x1_0000_0000 && SelfMapped(mem, cr3) && mem(cr3, PdeIdx(v)) == Entry(table) && table != cr3
      modifies this`mem
      ensures forall a: nat, b: nat :: mem(a, b) == if a == table && b < 0x400 then 0 else old(mem)(a, b)
    {
      var page := 0xffc0_0000 + PdeIdx(v) * 0x1000;
      var i := 0;
      while i < 0x400
        invariant i <= 0x400
        invariant forall a: nat, b: nat :: mem(a, b) == if a == table && b < i then 0 else old(mem)(a, b)
      {
        TablePage(mem, cr3, v, table, i);
        Store(page + 4 * i, 0);
        i := i + 1;
      }
    }

    /** page_table_add; `spare` is the frame palloc returns when a table is missing. */
    method PageTableAdd(v: nat, p: nat, spare: nat)
      requires v < 0x1_0000_0000 && SelfMapped(mem, cr3) && PdeIdx(v) != 1023 && spare != cr3
      requires Present(mem(cr3, PdeIdx(v))) ==>
                 FrameOf(mem(cr3, PdeIdx(v))) != cr3 && !Present(mem(FrameOf(mem(cr3, PdeIdx(v))), PteIdx(v)))
      modifies this`mem
      ensures Added(old(mem), mem, cr3, v, p, spare)
    {
      PdePtrReaches(mem, cr3, v);
      PtePtrReaches(mem, cr3, v);
      PdePtrAligned(v);
      EntryParts(spare);
      var pde := Load(PdePtr(v));
      if Present(pde) {
        var pte := Load(PtePtr(v));
        assert !Present(pte);
        Store(PtePtr(v), Entry(p));
      } else {
        Store(PdePtr(v), Entry(spare));
        assert mem(cr3, PdeIdx(v)) == Entry(spare);
        ClearTable(v, spare);
        PtePtrReaches(mem, cr3, v);
        var pte := Load(PtePtr(v));
        assert !Present(pte);
        Store(PtePtr(v), Entry(p));
      }
    }

    /** addr_v2p */
    method AddrV2p(v: nat) returns (phys: nat)
      requires v < 0x1_0000_0000 && SelfMapped(mem, cr3) && Walk(mem, cr3, v).At?
      ensures Walk(mem, cr3, v) == At(phys / 0x1000, phys % 0x1000)
    {
      PtePtrReaches(mem, cr3, v);
      PdePtrAligned(v);
      var pte := Load(PtePtr(v));
      phys := pte / 0x1000 * 0x1000 + v % 0x1000;
      PhysParts(pte / 0x1000, v % 0x1000);
    }

    /**
     * create_page_dir: the page at v, backed by frame f, came zeroed from get_kernel_pages; the upper quarter of the
     * current directory is copied into it and its last entry set to its own frame.
     */
    method CreatePageDir(v: nat, ghost f: nat)
      requires v < 0x1_0000_0000 && v % 0x1000 == 0 && Walk(mem, cr3, v) == At(f, 0) && SelfMapped(mem, cr3)
      requires f != cr3 && NotATable(mem, cr3, f) && forall b: nat :: b < 0x400 ==> mem(f, b) == 0
      modifies this`mem
      ensures forall a: nat, b: nat :: mem(a, b) ==
                if a == f && b < 0x400 then
                  if b == 1023 then Entry(f) else if b >= 768 then old(mem)(cr3, b) else 0
                else old(mem)(a, b)
    {
      hide Walk, PdePtr;
      var i := 0;
      while i < 256
        invariant i <= 256 && Walk(mem, cr3, v) == At(f, 0)
        invariant forall a: nat, b: nat ::
                  mem(a, b) == if a == f && 768 <= b < 768 + i then old(mem)(cr3, b) else old(mem)(a, b)
      {
        DirWord(mem, cr3, 768 + i);
        var w := Load(0xffff_f000 + 0xc00 + 4 * i);
        InPage(mem, cr3, v, f, 768 + i);
        ghost var before := mem;
        Store(v + 0xc00 + 4 * i, w);
        StillThere(before, mem, cr3, v, f);
        i := i + 1;
      }
      var phys := AddrV2p(v);
      InPage(mem, cr3, v, f, 1023);
      assert phys / 0x1000 == f;
      Store(v + 4 * 1023, Entry(phys / 0x1000));
    }
  }

  lemma DirWord(m: Mem, dir: nat, e: nat)
    requires SelfMapped(m, dir) && e < 0x400
    ensures Walk(m, dir, 0xffff_f000 + 4 * e) == At(dir, 4 * e) && 4 * e / 4 == e && (0xffff_f000 + 4 * e) % 4 == 0
  {
    PdePtrReaches(m, dir, 0x40_0000 * e);
    assert PdeIdx(0x40_0000 * e) == e;
  }

  lemma InPage(m: Mem, dir: nat, v: nat, f: nat, e: nat)
    requires v % 0x1000 == 0 && Walk(m, dir, v) == At(f, 0) && e < 0x400
    ensures Walk(m, dir, v + 4 * e) == At(f, 4 * e) && (v + 4 * e) % 4 == 0 && 4 * e / 4 == e
  {
    assert (v + 4 * e) / 0x1000 == v / 0x1000;
    SamePage(v, v + 4 * e);
  }

  /** Words of a frame that is neither the directory nor a table do not matter to a translation. */
  lemma StillThere(m: Mem, n: Mem, dir: nat, v: nat, f: nat)
    requires v < 0x1_0000_0000 && Walk(m, dir, v) == At(f, 0) && f != dir && NotATable(m, dir, f)
    requires forall a: nat, b: nat :: a != f ==> n(a, b) == m(a, b)
    ensures Walk(n, dir, v) == At(f, 0)
  {
    assert PdeIdx(v) < 1024;
  }

  lemma PhysParts(f: nat, o: nat)
    requires o < 0x1000
    ensures (f * 0x1000 + o) / 0x1000 == f && (f * 0x1000 + o) % 0x1000 == o
  {
  }

  lemma PdePtrAligned(v: nat)
    requires v < 0x1_0000_0000
    ensures PdePtr(v) % 4 == 0 && PtePtr(v) % 4 == 0
    ensures 4 * PdeIdx(v) / 4 == PdeIdx(v) && 4 * PteIdx(v) / 4 == PteIdx(v)
  {
  }

  lemma TablePage(mem: Mem, dir: nat, v: nat, table: nat, i: nat)
    requires v < 0x1_0000_0000 && SelfMapped(mem, dir) && mem(dir, PdeIdx(v)) == Entry(table) && i < 0x400
    ensures var a := 0xffc0_0000 + PdeIdx(v) * 0x1000 + 4 * i;
            a % 4 == 0 && Walk(mem, dir, a) == At(table, 4 * i) && 4 * i / 4 == i
  {
    var w := 0x40_0000 * PdeIdx(v) + 0x1000 * i;
    assert PdeIdx(v) < 0x400;
    assert PdeIdx(w) == PdeIdx(v);
    assert w / 0x1000 == 0x400 * PdeIdx(v) + i;
    assert PteIdx(w) == i;
    EntryParts(table);
    PtePtrReaches(mem, dir, w);
    PdePtrAligned(w);
  }

  /** Memory after page_table_add. */
  ghost predicate Added(m: Mem, n: Mem, dir: nat, v: nat, p: nat, spare: nat) {
    var k, i := PdeIdx(v), PteIdx(v);
    if Present(m(dir, k)) then
      forall a: nat, b: nat :: n(a, b) == Write(m, FrameOf(m(dir, k)), i, Entry(p))(a, b)
    else
      forall a: nat, b: nat ::
        n(a, b) == if a == dir && b == k then Entry(spare) else if a == spare && b == i then Entry(p)
                   else if a == spare && b < 0x400 then 0 else m(a, b)
  }

  /** No directory entry leads to the frame. */
  ghost predicate NotATable(m: Mem, dir: nat, f: nat) {
    forall j: nat :: j < 1024 && Present(m(dir, j)) ==> FrameOf(m(dir, j)) != f
  }

  /**
   * After page_table_add(v, p) every address of v's page translates to p with its own offset; every other address
   * outside the self map that does not share v's table entry translates as before.
   */
  lemma AddTranslates(m: Mem, n: Mem, dir: nat, v: nat, p: nat, spare: nat, w: nat)
    requires v < 0x1_0000_0000 && w < 0x1_0000_0000 && PdeIdx(v) != 1023 && PdeIdx(w) != 1023
    requires Added(m, n, dir, v, p, spare) && spare != dir && NotATable(m, dir, spare)
    requires forall j: nat :: j < 1023 && Present(m(dir, j)) ==> FrameOf(m(dir, j)) != dir
    ensures v / 0x1000 == w / 0x1000 ==> Walk(n, dir, w) == At(p, w % 0x1000)
    ensures v / 0x1000 != w / 0x1000 && Present(m(dir, PdeIdx(v))) ==>
              Walk(n, dir, w) == if Uses(m, dir, w, FrameOf(m(dir, PdeIdx(v))), PteIdx(v)) then At(p, w % 0x1000)
                  else Walk(m, dir, w)
    ensures v / 0x1000 != w / 0x1000 && !Present(m(dir, PdeIdx(v))) ==> Walk(n, dir, w) == Walk(m, dir, w)
  {
    SamePage(v, w);
    EntryParts(p);
    EntryParts(spare);
    assert PdeIdx(w) < 1024 && PteIdx(w) < 1024;
  }

  /**
   * When v's table is not shared, page_table_add changes the translation of v's page and of nothing else outside the
   * self map.
   */
  lemma AddMapsOnePage(m: Mem, n: Mem, dir: nat, v: nat, p: nat, spare: nat, w: nat)
    requires v < 0x1_0000_0000 && w < 0x1_0000_0000 && PdeIdx(v) != 1023 && PdeIdx(w) != 1023
    requires Added(m, n, dir, v, p, spare) && spare != dir && NotATable(m, dir, spare)
    requires forall j: nat :: j < 1023 && Present(m(dir, j)) ==> FrameOf(m(dir, j)) != dir
    requires Present(m(dir, PdeIdx(v))) ==> Unshared(m, dir, PdeIdx(v))
    ensures Walk(n, dir, w) == if v / 0x1000 == w / 0x1000 then At(p, w % 0x1000) else Walk(m, dir, w)
  {
    hide Added, NotATable, Walk, Unshared;
    AddTranslates(m, n, dir, v, p, spare, w);
    if Present(m(dir, PdeIdx(v))) {
      UsesOwnPage(m, dir, v, w);
    }
  }

  // ---------------------------------------------------------------- all process directories

  datatype Paging = Paging(mem: Mem, dirs: set<nat>)

  /** Entries 768 to 1022 exist and are the same in two directories. */
  ghost predicate KernelAgrees(m: Mem, c: nat, d: nat) {
    forall e: nat :: 768 <= e < 1023 ==> Present(m(c, e)) && m(c, e) == m(d, e)
  }

  /** Every directory maps itself, shares the kernel quarter with all others, and is nobody's table. */
  ghost predicate PagingInv(s: Paging) {
    && (forall d :: d in s.dirs ==> SelfMapped(s.mem, d))
    && (forall c, d :: c in s.dirs && d in s.dirs ==> KernelAgrees(s.mem, c, d))
    && (forall d, e: nat :: d in s.dirs && e < 1023 && Present(s.mem(d, e)) ==> FrameOf(s.mem(d, e)) !in s.dirs)
  }

  /** A frame no directory uses. */
  ghost predicate Unused(s: Paging, f: nat) {
    f !in s.dirs && forall d :: d in s.dirs ==> NotATable(s.mem, d, f)
  }

  /** page_table_add run under directory d. */
  ghost predicate AddStep(s: Paging, t: Paging, d: nat, v: nat, p: nat, spare: nat) {
    && d in s.dirs && t.dirs == s.dirs && v < 0x1_0000_0000 && PdeIdx(v) != 1023 && Unused(s, spare)
    && Added(s.mem, t.mem, d, v, p, spare)
  }

  /** create_page_dir run under directory d: frame f was zeroed, then the upper quarter copied, then entry 1023 set. */
  ghost predicate CreateStep(s: Paging, t: Paging, d: nat, f: nat) {
    && d in s.dirs && t.dirs == s.dirs + {f} && Unused(s, f)
    && forall a: nat, b: nat :: t.mem(a, b) ==
         if a == f && b < 0x400 then
           if b == 1023 then Entry(f) else if b >= 768 then s.mem(d, b) else 0
         else s.mem(a, b)
  }

  /** A directory's words change only where a missing table was added below entry 768, in that directory. */
  lemma AddDirWords(s: Paging, t: Paging, d: nat, v: nat, p: nat, spare: nat, c: nat, e: nat)
    requires PagingInv(s) && AddStep(s, t, d, v, p, spare) && c in s.dirs && e < 1024
    ensures t.mem(c, e) == if c == d && e == PdeIdx(v) && !Present(s.mem(d, e)) then Entry(spare) else s.mem(c, e)
    ensures c == d && e == PdeIdx(v) && !Present(s.mem(d, e)) ==> e < 768
  {
    var k := PdeIdx(v);
    assert k < 1024;
    if 768 <= k {
      assert KernelAgrees(s.mem, d, d);
    }
  }

  lemma AddStepInv(s: Paging, t: Paging, d: nat, v: nat, p: nat, spare: nat)
    requires PagingInv(s) && AddStep(s, t, d, v, p, spare)
    ensures PagingInv(t)
  {
    hide AddStep, KernelAgrees;
    AddDirs(s, t, d, v, p, spare);
    EntryParts(spare);
    forall c | c in t.dirs ensures SelfMapped(t.mem, c) {
      AddDirWords(s, t, d, v, p, spare, c, 1023);
    }
    forall b, c | b in t.dirs && c in t.dirs ensures KernelAgrees(t.mem, b, c) {
      AddAgrees(s, t, d, v, p, spare, b, c);
    }
    forall c, e: nat | c in t.dirs && e < 1023 && Present(t.mem(c, e)) ensures FrameOf(t.mem(c, e)) !in t.dirs {
      AddDirWords(s, t, d, v, p, spare, c, e);
    }
  }

  lemma AddDirs(s: Paging, t: Paging, d: nat, v: nat, p: nat, spare: nat)
    requires AddStep(s, t, d, v, p, spare)
    ensures t.dirs == s.dirs && spare !in s.dirs
  {
  }

  lemma AddAgrees(s: Paging, t: Paging, d: nat, v: nat, p: nat, spare: nat, b: nat, c: nat)
    requires PagingInv(s) && AddStep(s, t, d, v, p, spare) && b in s.dirs && c in s.dirs
    ensures KernelAgrees(t.mem, b, c)
  {
    hide AddStep;
    assert KernelAgrees(s.mem, b, c);
    forall e: nat | 768 <= e < 1023 ensures Present(t.mem(b, e)) && t.mem(b, e) == t.mem(c, e) {
      AddDirWords(s, t, d, v, p, spare, b, e);
      AddDirWords(s, t, d, v, p, spare, c, e);
    }
  }

  lemma CreateStepInv(s: Paging, t: Paging, d: nat, f: nat)
    requires PagingInv(s) && CreateStep(s, t, d, f)
    ensures PagingInv(t)
  {
    EntryParts(f);
    assert KernelAgrees(s.mem, d, d);
    forall b, c | b in t.dirs && c in t.dirs ensures KernelAgrees(t.mem, b, c) {
      var x, y := if b == f then d else b, if c == f then d else c;
      assert KernelAgrees(s.mem, x, y);
    }
    forall c, e: nat | c in t.dirs && e < 1023 && Present(t.mem(c, e)) ensures FrameOf(t.mem(c, e)) !in t.dirs {
      assert c == f ==> e >= 768 && Present(s.mem(d, e));
    }
  }

  ghost predicate PagingStep(s: Paging, t: Paging) {
    (exists d: nat, v: nat, p: nat, spare: nat :: AddStep(s, t, d, v, p, spare)) ||
        (exists d: nat, f: nat :: CreateStep(s, t, d, f))
  }

  ghost predicate PagingRun(run: seq<Paging>) {
    |run| > 0 && forall i: nat :: i < |run| - 1 ==> StepFrom(run, i)
  }

  ghost predicate StepFrom(run: seq<Paging>, i: nat)
    requires i < |run| - 1
  {
    PagingStep(run[i], run[i + 1])
  }

  /** In every run: entries 768 to 1022 of all directories agree forever, and so do all kernel translations. */
  lemma {:induction false} KernelSharedForever(run: seq<Paging>, i: nat)
    requires PagingRun(run) && PagingInv(run[0]) && i < |run|
    ensures PagingInv(run[i])
    ensures forall c, d, v: nat :: c in run[i].dirs && d in run[i].dirs && 768 <= PdeIdx(v) < 1023 ==>
              Walk(run[i].mem, c, v) == Walk(run[i].mem, d, v)
  {
    if i > 0 {
      KernelSharedForever(run, i - 1);
      assert StepFrom(run, i - 1);
      OneStepInv(run[i - 1], run[i]);
    }
    forall c, d, v: nat | c in run[i].dirs && d in run[i].dirs && 768 <= PdeIdx(v) < 1023
      ensures Walk(run[i].mem, c, v) == Walk(run[i].mem, d, v)
    {
      assert KernelAgrees(run[i].mem, c, d);
    }
  }

  lemma OneStepInv(s: Paging, t: Paging)
    requires PagingInv(s) && PagingStep(s, t)
    ensures PagingInv(t)
  {
    hide PagingInv, AddStep, CreateStep;
    if d: nat, v: nat, p: nat, spare: nat :| AddStep(s, t, d, v, p, spare) {
      AddStepInv(s, t, d, v, p, spare);
    } else {
      var d: nat, f: nat :| CreateStep(s, t, d, f);
      CreateStepInv(s, t, d, f);
    }
  }

  // ---------------------------------------------------------------- boot

  const BOOT_DIR: nat := 0x100

  /**
   * The directory the loader builds: table 0x101 at entries 0 and 768, tables from 0x102 on at 769 to 1022, itself
   * last.
   */
  ghost predicate Booted(m: Mem) {
    && m(BOOT_DIR, 0) == Entry(0x101) && m(BOOT_DIR, 768) == Entry(0x101) && m(BOOT_DIR, 1023) == Entry(BOOT_DIR)
    && (forall e: nat :: 769 <= e < 1023 ==> m(BOOT_DIR, e) == Entry(0x102 + (e - 769)))
    && (forall e: nat :: 0 < e < 768 ==> m(BOOT_DIR, e) == 0)
  }

  lemma BootInv(m: Mem)
    requires Booted(m)
    ensures PagingInv(Paging(m, {BOOT_DIR}))
  {
    forall e: nat | e < 1023 && Present(m(BOOT_DIR, e)) ensures FrameOf(m(BOOT_DIR, e)) != BOOT_DIR {
      if e >= 769 {
        EntryParts(0x102 + (e - 769));
      }
    }
    forall e: nat | 768 <= e < 1023 ensures Present(m(BOOT_DIR, e)) {
      if e >= 769 {
        EntryParts(0x102 + (e - 769));
      }
    }
    EntryParts(BOOT_DIR);
  }
}
