// kernel/memory.c: the kernel's virtual-page bitmap, the two frame pools and the page-table entries of the kernel heap.

module Pages {
  import opened Bitmaps
  import O = Ownership

  const PAGE_SIZE: nat := 4096
  const K_HEAP_START: nat := 0xc010_0000
  const KERNEL_POOL_START: nat := 0x20_0000

  /**
   * `ptes` are the present page-table entries of the kernel heap: page number (from K_HEAP_START) to frame number
   * (in the kernel pool).
   */
  datatype PageState = PageState(vbits: seq<bool>, kbits: seq<bool>, ptes: map<nat, nat>)

  function Vaddr(page: nat): nat {
    K_HEAP_START + PAGE_SIZE * page
  }

  function Phys(frame: nat): nat {
    KERNEL_POOL_START + PAGE_SIZE * frame
  }

  ghost predicate Backs(s: PageState, f: nat) {
    exists i :: i in s.ptes && s.ptes[i] == f
  }

  /**
   * The three structures agree: a virtual page is marked exactly when it is mapped, no frame is mapped twice, and a
   * frame of the pool is taken exactly when it backs a page or holds a page table.
   */
  ghost predicate PageInv(s: PageState, tables: set<nat>) {
    && (forall i :: i in s.ptes ==> i < |s.vbits| && s.ptes[i] < |s.kbits| && s.ptes[i] !in tables)
    && (forall i: nat :: i < |s.vbits| ==> (s.vbits[i] <==> i in s.ptes))
    && (forall i, j :: i in s.ptes && j in s.ptes && i != j ==> s.ptes[i] != s.ptes[j])
    && (forall f: nat :: f < |s.kbits| ==> (s.kbits[f] <==> f in tables || Backs(s, f)))
  }

  /** The bitmaps are a function of the mappings. */
  lemma PagesDetermined(s: PageState, t: PageState, tables: set<nat>)
    requires PageInv(s, tables) && PageInv(t, tables) && s.ptes == t.ptes && |s.vbits| == |t.vbits|
    requires |s.kbits| == |t.kbits|
    ensures s == t
  {
    assert forall f: nat :: Backs(s, f) <==> Backs(t, f);
  }

  // ---------------------------------------------------------------- mapping and unmapping a run of pages

  function SetRun(bits: seq<bool>, start: nat, n: nat, value: bool): (r: seq<bool>)
    requires start + n <= |bits|
    ensures |r| == |bits| && forall k: nat :: k < |bits| ==> r[k] == if start <= k < start + n then value else bits[k]
  {
    bits[..start] + seq(n, _ => value) + bits[start + n..]
  }

  function WithPages(ptes: map<nat, nat>, start: nat, frames: seq<nat>): (m: map<nat, nat>)
    ensures forall i: nat :: i in m <==> i in ptes || start <= i < start + |frames|
    ensures forall i: nat :: i in m ==> m[i] == if start <= i < start + |frames| then frames[i - start] else ptes[i]
  {
    if frames == [] then ptes
    else
      var n := |frames| - 1;
      WithPages(ptes, start, frames[..n])[start + n := frames[n]]
  }

  function WithoutPages(ptes: map<nat, nat>, start: nat, n: nat): (m: map<nat, nat>)
    ensures forall i: nat :: i in m <==> i in ptes && !(start <= i < start + n)
    ensures forall i: nat :: i in m ==> m[i] == ptes[i]
  {
    map i: nat | i in ptes && !(start <= i < start + n) :: ptes[i]
  }

  /** malloc_page mapped n fresh frames at `start`. */
  ghost predicate Mapped(s: PageState, t: PageState, start: nat, frames: seq<nat>) {
    && start + |frames| <= |s.vbits| && ClearRun(s.vbits, start, |frames|)
    && t.vbits == SetRun(s.vbits, start, |frames|, true)
    && t.ptes == WithPages(s.ptes, start, frames)
    && O.Granted(0, s.kbits, t.kbits, frames)
  }

  /** How many of n pages from `start` on have a bit in the map. */
  function InMap(vbits: seq<bool>, start: nat, n: nat): nat {
    if start + n <= |vbits| then n else if start <= |vbits| then |vbits| - start else 0
  }

  /** malloc_page took the bit behind the map for its last page: a page is mapped that no bit of the map stands for. */
  ghost predicate MappedBeyond(s: PageState, t: PageState, start: nat, frames: seq<nat>) {
    && start + |frames| == |s.vbits| + 1 && frames != [] && t.vbits == SetRun(s.vbits, start, |frames| - 1, true)
    && t.ptes == WithPages(s.ptes, start, frames) && O.Granted(0, s.kbits, t.kbits, frames)
  }

  /** A heap of eight pages with only the last one free and a clear byte behind its bitmap: two pages are handed out. */
  lemma BeyondOnOneByte(s: PageState)
    requires s.vbits == LastBitClear() && O.CountClear(s.kbits) >= 2
    ensures !MallocHalts(s, false, 2) && Overruns(s.vbits, false, 2) && NoRun(s.vbits, 2)
  {
    hide FirstClear, FirstRun, O.CountClear;
    OverrunOnOneByte();
  }

  /** After that the bitmap and the page table disagree, whatever is called next on other pages. */
  lemma BeyondBreaks(s: PageState, t: PageState, start: nat, frames: seq<nat>, tables: set<nat>)
    requires MappedBeyond(s, t, start, frames)
    ensures |t.vbits| == |s.vbits| && |t.vbits| in t.ptes && !PageInv(t, tables)
  {
    hide SetRun, WithPages, O.Granted;
    assert start <= |s.vbits| < start + |frames|;
  }

  ghost predicate Freed(s: PageState, start: nat, n: nat, f: nat) {
    exists i: nat :: start <= i < start + n && i in s.ptes && s.ptes[i] == f
  }

  /** mfree_page took n pages at `start` away. */
  ghost predicate Unmapped(s: PageState, t: PageState, start: nat, n: nat) {
    && start + n <= |s.vbits| && (forall i: nat :: start <= i < start + n ==> i in s.ptes)
    && t.vbits == SetRun(s.vbits, start, n, false)
    && t.ptes == WithoutPages(s.ptes, start, n)
    && |t.kbits| == |s.kbits|
    && (forall f: nat :: f < |s.kbits| ==> (t.kbits[f] <==> s.kbits[f] && !Freed(s, start, n, f)))
  }

  lemma MappedPtes(s: PageState, t: PageState, start: nat, frames: seq<nat>, tables: set<nat>)
    requires PageInv(s, tables) && Mapped(s, t, start, frames)
    ensures forall i :: i in t.ptes ==> i < |t.vbits| && t.ptes[i] < |t.kbits| && t.ptes[i] !in tables
    ensures forall i, j :: i in t.ptes && j in t.ptes && i != j ==> t.ptes[i] != t.ptes[j]
  {
    hide SetRun, WithPages;
    forall i | i in t.ptes ensures i < |t.vbits| && t.ptes[i] < |t.kbits| && t.ptes[i] !in tables {
      if start <= i < start + |frames| {
        assert frames[i - start] in frames;
      }
    }
    forall i, j | i in t.ptes && j in t.ptes && i < j ensures t.ptes[i] != t.ptes[j] {
      MappedApart(s, t, start, frames, tables, i, j);
    }
  }

  lemma MappedApart(s: PageState, t: PageState, start: nat, frames: seq<nat>, tables: set<nat>, i: nat, j: nat)
    requires PageInv(s, tables) && Mapped(s, t, start, frames) && i in t.ptes && j in t.ptes && i < j
    ensures t.ptes[i] != t.ptes[j]
  {
    hide SetRun, WithPages;
    if start <= i < start + |frames| {
      assert frames[i - start] in frames;
      assert j in s.ptes ==> Backs(s, s.ptes[j]);
    } else {
      assert Backs(s, s.ptes[i]);
      assert start <= j < start + |frames| ==> frames[j - start] in frames;
    }
  }

  lemma MappedBacks(s: PageState, t: PageState, start: nat, frames: seq<nat>, f: nat)
    requires (forall i: nat :: start <= i < start + |frames| ==> i !in s.ptes)
    requires t.ptes == WithPages(s.ptes, start, frames)
    ensures Backs(t, f) <==> Backs(s, f) || f in frames
  {
    hide WithPages;
    if Backs(s, f) {
      var i :| i in s.ptes && s.ptes[i] == f;
      assert t.ptes[i] == f;
    }
    if f in frames {
      var k: nat :| k < |frames| && frames[k] == f;
      assert t.ptes[start + k] == f;
    }
    if Backs(t, f) {
      var i :| i in t.ptes && t.ptes[i] == f;
      assert start <= i < start + |frames| ==> frames[i - start] == f;
    }
  }

  lemma MappedInv(s: PageState, t: PageState, start: nat, frames: seq<nat>, tables: set<nat>)
    requires PageInv(s, tables) && Mapped(s, t, start, frames)
    ensures PageInv(t, tables)
  {
    hide SetRun, WithPages, Backs;
    MappedPtes(s, t, start, frames, tables);
    forall f: nat | f < |t.kbits| ensures t.kbits[f] <==> f in tables || Backs(t, f) {
      MappedBacks(s, t, start, frames, f);
      assert 0 + f == f;
    }
  }

  lemma UnmappedBacks(s: PageState, t: PageState, start: nat, n: nat, tables: set<nat>, f: nat)
    requires PageInv(s, tables) && Unmapped(s, t, start, n)
    ensures Backs(t, f) <==> Backs(s, f) && !Freed(s, start, n, f)
  {
    hide SetRun, WithoutPages;
    if Backs(t, f) {
      var i :| i in t.ptes && t.ptes[i] == f;
      assert i in s.ptes && s.ptes[i] == f;
    }
    if Backs(s, f) && !Freed(s, start, n, f) {
      var i :| i in s.ptes && s.ptes[i] == f;
      assert i in t.ptes && t.ptes[i] == f;
    }
  }

  lemma UnmappedInv(s: PageState, t: PageState, start: nat, n: nat, tables: set<nat>)
    requires PageInv(s, tables) && Unmapped(s, t, start, n)
    ensures PageInv(t, tables)
  {
    hide SetRun, WithoutPages, Backs, Freed;
    forall f: nat | f < |t.kbits| ensures t.kbits[f] <==> f in tables || Backs(t, f) {
      UnmappedBacks(s, t, start, n, tables, f);
      NotTable(s, start, n, tables, f);
    }
  }

  lemma NotTable(s: PageState, start: nat, n: nat, tables: set<nat>, f: nat)
    requires PageInv(s, tables)
    ensures f in tables ==> !Freed(s, start, n, f)
  {
  }

  /** Freeing what was just allocated gives the whole state back. */
  lemma FreeRestores(s: PageState, t: PageState, u: PageState, start: nat, frames: seq<nat>, tables: set<nat>)
    requires PageInv(s, tables) && Mapped(s, t, start, frames) && Unmapped(t, u, start, |frames|)
    ensures u == s
  {
    hide SetRun, WithPages, WithoutPages, PageInv;
    MappedInv(s, t, start, frames, tables);
    UnmappedInv(t, u, start, |frames|, tables);
    assert u.ptes == s.ptes by { NothingAt(s, true, start, |frames|, tables); }
    PagesDetermined(s, u, tables);
  }

  // ---------------------------------------------------------------- the code

  /**
   * A halt is an ASSERT: the page count, a full bitmap, or a full pool in the middle of the loop. Beyond: the scan
   * took the bit behind the bitmap for a page, and the last page handed out is none of the heap's.
   */
  datatype PageResult = PageHalted | NoPages | PagesAt(page: nat) | Beyond(page: nat)

  class KernelPages {
    var vbits: seq<bool>
    var guard: bool                   // the bit behind vbits in memory
    var kbits: seq<bool>
    var ubits: seq<bool>
    var ptes: map<nat, nat>
    const userStart: nat

    constructor (kbits: seq<bool>, ubits: seq<bool>, vbits: seq<bool>, guard: bool, userStart: nat)
      ensures this.kbits == kbits && this.ubits == ubits && this.vbits == vbits && this.guard == guard
      ensures this.userStart == userStart && ptes == map[]
    {
      this.kbits, this.ubits, this.vbits, this.guard, this.userStart, this.ptes := kbits, ubits, vbits, guard,
          userStart, map[];
    }

    ghost function State(): PageState
      reads this
    {
      PageState(vbits, kbits, ptes)
    }

    /** The kernel pool lies below the user pool. */
    ghost predicate Layout()
      reads this
    {
      Phys(|kbits|) <= userStart
    }

    /** vaddr_get for the kernel */
    method VaddrGet(n: nat) returns (r: ScanResult)
      requires n >= 1
      modifies this`vbits, this`guard
      ensures r == ScanOf(old(vbits), old(guard), n)
      ensures r.Found? && r.index + n <= |old(vbits)| ==> ClearRun(old(vbits), r.index, n)
      ensures r.Found? ==> InMap(old(vbits), r.index, n) <= n && r.index + InMap(old(vbits), r.index, n) <= |old(vbits)|
      ensures r.Found? ==> vbits == SetRun(old(vbits), r.index, InMap(old(vbits), r.index, n), true)
      ensures r.Found? ==> guard == (old(guard) || r.index + n > |old(vbits)|)
      ensures !r.Found? ==> vbits == old(vbits) && guard == old(guard)
    {
      hide FirstClear, FirstRun, Overruns;
      ScanMeans(vbits, guard, n);
      r := ScanOf(vbits, guard, n);
      if r.Found? {
        var cnt := 0;
        while cnt < n
          invariant cnt <= n && |vbits| == |old(vbits)| && guard == (old(guard) || r.index + cnt > |old(vbits)|)
          invariant forall k: nat :: k < |vbits| ==>
                    vbits[k] == if r.index <= k < r.index + cnt then true else old(vbits)[k]
        {
          if r.index + cnt < |vbits| {
            vbits := vbits[r.index + cnt := true];
          } else {
            guard := true;
          }
          cnt := cnt + 1;
        }
      }
    }

    /** palloc on the kernel pool */
    method Palloc() returns (ok: bool, phys: nat)
      modifies this`kbits
      ensures ok <==> FirstClear(old(kbits)) < |old(kbits)|
      ensures ok ==> phys == Phys(FirstClear(old(kbits))) && kbits == old(kbits)[FirstClear(old(kbits)) := true]
      ensures !ok ==> kbits == old(kbits)
    {
      hide FirstClear;
      var k := FirstClear(kbits);
      phys := Phys(k);
      if k == |kbits| {
        return false, phys;
      }
      kbits := kbits[k := true];
      return true, phys;
    }

    /** page_table_add for a heap page: the page tables of the kernel quarter exist from boot on. */
    method PageTableAdd(page: nat, phys: nat)
      requires page !in ptes && exists f: nat :: phys == Phys(f)
      modifies this`ptes
      ensures forall f: nat :: phys == Phys(f) ==> ptes == old(ptes)[page := f]
    {
      ptes := ptes[page := (phys - KERNEL_POOL_START) / PAGE_SIZE];
    }

    /** malloc_page(PF_KERNEL, n) */
    method MallocPage(n: nat, ghost tables: set<nat>) returns (r: PageResult, ghost frames: seq<nat>)
      requires PageInv(State(), tables)
      modifies this`vbits, this`guard, this`kbits, this`ptes
      ensures r.PageHalted? <==> MallocHalts(old(State()), old(guard), n)
      ensures r.NoPages? ==> State() == old(State()) && guard == old(guard) && NoRun(vbits, n)
      ensures r.PagesAt? ==> |frames| == n && Mapped(old(State()), State(), r.page, frames) && PageInv(State(), tables)
      ensures r.PagesAt? ==> Leftmost(old(vbits), r.page, n) && guard == old(guard)
      ensures r.Beyond? <==> !MallocHalts(old(State()), old(guard), n) && Overruns(old(vbits), old(guard), n)
      ensures r.Beyond? ==>
              r.page + n == |old(vbits)| + 1 && |frames| == n && MappedBeyond(old(State()), State(), r.page, frames)
    {
      hide FirstClear, FirstRun, SetRun, WithPages, PageInv, Mapped, MappedBeyond, O.Granted, O.CountClear,
           MallocHalts, Leftmost, NoRun, Overruns;
      frames := [];
      ghost var s := State();
      HaltsMeans(s, guard, n);
      if !(0 < n < 3840) {
        return PageHalted, [];
      }
      ScanMeans(s.vbits, guard, n);
      var got := VaddrGet(n);
      if got.Halted? {
        return PageHalted, [];
      }
      if got.Missing? {
        return NoPages, [];
      }
      NothingAt(s, old(guard), got.index, n, tables);
      O.GrantNone(0, s.kbits);
      var cnt := 0;
      while cnt < n
        invariant cnt == |frames| <= n && vbits == SetRun(s.vbits, got.index, InMap(s.vbits, got.index, n), true)
        invariant ptes == WithPages(s.ptes, got.index, frames) && guard == (old(guard) || got.index + n > |s.vbits|)
        invariant O.Granted(0, s.kbits, kbits, frames) && O.CountClear(kbits) == O.CountClear(s.kbits) - cnt
      {
        O.CountZero(kbits);
        ghost var was := kbits;
        var ok, phys := Palloc();
        if !ok {
          return PageHalted, frames;
        }
        ghost var f := FirstClear(was);
        O.GrantMore(0, s.kbits, was, frames, f);
        PageTableAdd(got.index + cnt, phys);
        OnePage(s.ptes, got.index, frames, f);
        frames := frames + [f];
        cnt := cnt + 1;
      }
      if got.index + n > |vbits| {
        BeyondHere(s, State(), got.index, frames);
        return Beyond(got.index), frames;
      }
      MappedHere(s, State(), got.index, frames);
      MappedInv(s, State(), got.index, frames, tables);
      return PagesAt(got.index), frames;
    }

    /** pfree: the address alone tells which pool the frame came from. */
    method Pfree(phys: nat)
      requires Layout()
      requires (exists f: nat :: f < |kbits| && phys == Phys(f)) ||
               (exists g: nat :: g < |ubits| && phys == UserPhys(g))
      modifies this`kbits, this`ubits
      ensures forall f: nat :: f < |old(kbits)| && phys == Phys(f) ==>
              kbits == old(kbits)[f := false] && ubits == old(ubits)
      ensures forall g: nat :: g < |old(ubits)| && phys == UserPhys(g) ==>
              ubits == old(ubits)[g := false] && kbits == old(kbits)
    {
      if phys >= userStart {
        ubits := ubits[(phys - userStart) / PAGE_SIZE := false];
      } else {
        kbits := kbits[(phys - KERNEL_POOL_START) / PAGE_SIZE := false];
      }
    }

    function UserPhys(g: nat): nat {
      userStart + PAGE_SIZE * g
    }

    /**
     * mfree_page(PF_KERNEL, Vaddr(page), n): translate, return the frame, drop the entry; then clear the virtual bits.
     */
    method MfreePage(page: nat, n: nat, ghost tables: set<nat>)
      requires PageInv(State(), tables) && Layout() && n >= 1 && forall i: nat :: page <= i < page + n ==> i in ptes
      modifies this`vbits, this`kbits, this`ubits, this`ptes
      ensures Unmapped(old(State()), State(), page, n) && PageInv(State(), tables) && ubits == old(ubits)
    {
      hide PageInv, Unmapped, SetRun, WithoutPages, FreedUpTo;
      ghost var s := State();
      RunInside(s, page, n, tables);
      FreedStart(s, page);
      var cnt := 0;
      while cnt < n
        invariant cnt <= n && vbits == s.vbits && ubits == old(ubits) && |kbits| == |s.kbits|
        invariant ptes == WithoutPages(s.ptes, page, cnt) && FreedUpTo(s, page, cnt, kbits)
      {
        var phys := Phys(ptes[page + cnt]);
        FrameInside(s, page + cnt, tables);
        assert phys % PAGE_SIZE == 0 && phys >= 0x102000;
        assert KERNEL_POOL_START <= phys < userStart;
        FreedStep(s, page, cnt, kbits, s.ptes[page + cnt]);
        Pfree(phys);
        OneLess(s.ptes, page, cnt);
        ptes := ptes - {page + cnt};
        cnt := cnt + 1;
      }
      cnt := 0;
      while cnt < n
        invariant cnt <= n && |vbits| == |s.vbits| && ubits == old(ubits)
        invariant ptes == WithoutPages(s.ptes, page, n) && FreedUpTo(s, page, n, kbits)
        invariant forall k: nat :: k < |vbits| ==> vbits[k] == if page <= k < page + cnt then false else s.vbits[k]
      {
        vbits := vbits[page + cnt := false];
        cnt := cnt + 1;
      }
      UnmappedHere(s, State(), page, n);
      UnmappedInv(s, State(), page, n, tables);
    }
  }

  lemma RunInside(s: PageState, page: nat, n: nat, tables: set<nat>)
    requires PageInv(s, tables) && n >= 1 && forall i: nat :: page <= i < page + n ==> i in s.ptes
    ensures page + n <= |s.vbits|
  {
    assert page + n - 1 in s.ptes;
  }

  lemma FrameInside(s: PageState, i: nat, tables: set<nat>)
    requires PageInv(s, tables) && i in s.ptes
    ensures s.ptes[i] < |s.kbits| && Phys(s.ptes[i]) < Phys(|s.kbits|) && Phys(s.ptes[i]) % PAGE_SIZE == 0
  {
  }

  /** The pool after the frames of the first c pages were returned. */
  ghost predicate FreedUpTo(s: PageState, page: nat, c: nat, bits: seq<bool>) {
    |bits| == |s.kbits| && forall f: nat :: f < |bits| ==> (bits[f] <==> s.kbits[f] && !Freed(s, page, c, f))
  }

  lemma FreedStart(s: PageState, page: nat)
    ensures FreedUpTo(s, page, 0, s.kbits) && WithoutPages(s.ptes, page, 0) == s.ptes
  {
  }

  lemma FreedStep(s: PageState, page: nat, c: nat, bits: seq<bool>, g: nat)
    requires FreedUpTo(s, page, c, bits) && page + c in s.ptes && s.ptes[page + c] == g && g < |bits|
    ensures FreedUpTo(s, page, c + 1, bits[g := false])
  {
    hide Freed;
    forall f: nat ensures Freed(s, page, c + 1, f) <==> Freed(s, page, c, f) || f == g {
      FreedMore(s, page, c, f);
    }
  }

  lemma FreedMore(s: PageState, page: nat, c: nat, f: nat)
    requires page + c in s.ptes
    ensures Freed(s, page, c + 1, f) <==> Freed(s, page, c, f) || f == s.ptes[page + c]
  {
    if Freed(s, page, c, f) {
      var i: nat :| page <= i < page + c && i in s.ptes && s.ptes[i] == f;
      assert i < page + (c + 1);
    }
  }

  lemma OneLess(ptes: map<nat, nat>, start: nat, c: nat)
    ensures WithoutPages(ptes, start, c + 1) == WithoutPages(ptes, start, c) - {start + c}
  {
  }

  lemma UnmappedHere(s: PageState, t: PageState, page: nat, n: nat)
    requires page + n <= |s.vbits| == |t.vbits| && forall i: nat :: page <= i < page + n ==> i in s.ptes
    requires forall k: nat :: k < |t.vbits| ==> t.vbits[k] == if page <= k < page + n then false else s.vbits[k]
    requires t.ptes == WithoutPages(s.ptes, page, n) && FreedUpTo(s, page, n, t.kbits)
    ensures Unmapped(s, t, page, n)
  {
    hide Freed, WithoutPages;
    assert t.vbits == SetRun(s.vbits, page, n, false);
  }

  /** What stops the kernel inside malloc_page. */
  ghost predicate MallocHalts(s: PageState, guard: bool, n: nat) {
    || !(0 < n < 3840)
    || FirstClear(s.vbits) == |s.vbits|
    || ((FirstRun(s.vbits, n, 0) < |s.vbits| || Overruns(s.vbits, guard, n)) && O.CountClear(s.kbits) < n)
  }

  lemma HaltsMeans(s: PageState, guard: bool, n: nat)
    ensures MallocHalts(s, guard, n) <==>
              !(0 < n < 3840) || ScanOf(s.vbits, guard, n).Halted? ||
                  (ScanOf(s.vbits, guard, n).Found? && O.CountClear(s.kbits) < n)
  {
    hide FirstClear, FirstRun, O.CountClear, Overruns;
    if n > 0 {
      ScanMeans(s.vbits, guard, n);
    }
  }

  lemma OnePage(ptes: map<nat, nat>, start: nat, frames: seq<nat>, f: nat)
    ensures WithPages(ptes, start, frames + [f]) == WithPages(ptes, start, frames)[start + |frames| := f]
  {
    assert (frames + [f])[..|frames|] == frames;
  }

  lemma MappedHere(s: PageState, t: PageState, start: nat, frames: seq<nat>)
    requires ClearRun(s.vbits, start, |frames|) && t.vbits == SetRun(s.vbits, start, |frames|, true)
    requires t.ptes == WithPages(s.ptes, start, frames) && O.Granted(0, s.kbits, t.kbits, frames)
    ensures Mapped(s, t, start, frames)
  {
  }

  lemma BeyondHere(s: PageState, t: PageState, start: nat, frames: seq<nat>)
    requires start + |frames| == |s.vbits| + 1 && frames != []
    requires t.vbits == SetRun(s.vbits, start, |s.vbits| - start, true)
    requires t.ptes == WithPages(s.ptes, start, frames) && O.Granted(0, s.kbits, t.kbits, frames)
    ensures MappedBeyond(s, t, start, frames)
  {
  }

  /** Nothing is mapped where the scan points, not even behind the map. */
  lemma NothingAt(s: PageState, guard: bool, start: nat, n: nat, tables: set<nat>)
    requires PageInv(s, tables)
    requires (ClearRun(s.vbits, start, n) || (start + n == |s.vbits| + 1 && Overruns(s.vbits, guard, n)))
    ensures forall i: nat :: start <= i < start + n ==> i !in s.ptes
  {
    hide FirstClear, FirstRun;
  }

  // ---------------------------------------------------------------- mem_pool_init

  /** What mem_pool_init computes: frames and bitmap bytes of the two pools, and where they start. */
  datatype PoolPlan = PoolPlan(kernelPages: nat, userPages: nat, kernelBytes: nat, userBytes: nat, userStart: nat)

  const MEM_BITMAP_BASE: nat := 0xc009_a000
  const MAIN_PCB: nat := 0xc009_e000

  /** mem_pool_init's arithmetic: 32-bit subtraction, a page count narrowed to 16 bits. */
  function Plan(allMem: nat): PoolPlan {
    var free := (allMem - 0x20_0000) % 0x1_0000_0000;
    var pages := free / PAGE_SIZE % 0x1_0000;
    var kernelPages := pages / 2;
    var userPages := pages - kernelPages;
    PoolPlan(kernelPages, userPages, kernelPages / 8, userPages / 8, KERNEL_POOL_START + kernelPages * PAGE_SIZE)
  }

  /**
   * For every memory size: the three bitmaps, one behind the other, end below the main thread's PCB; the kernel pool
   * ends where the user pool starts or before; and both pools lie inside the memory exactly when there are at least
   * 2 MiB of it (below that the subtraction wraps around).
   */
  lemma PlanFits(allMem: nat)
    requires allMem < 0x1_0000_0000
    ensures var p := Plan(allMem);
            && MEM_BITMAP_BASE + p.kernelBytes + p.userBytes + p.kernelBytes <= MAIN_PCB
            && Phys(8 * p.kernelBytes) <= p.userStart
            && (p.userStart + p.userPages * PAGE_SIZE <= allMem <==> allMem >= 0x20_0000)
  {
    var p := Plan(allMem);
    assert p.kernelPages <= 0x7fff && p.userPages <= 0x8000;
    if allMem >= 0x20_0000 {
      var free := allMem - 0x20_0000;
      assert free / PAGE_SIZE % 0x1_0000 <= free / PAGE_SIZE;
      assert free / PAGE_SIZE * PAGE_SIZE <= free;
    } else {
      var free := 0x1_0000_0000 - (0x20_0000 - allMem);
      assert free / PAGE_SIZE >= 0xf_fe00 && free / PAGE_SIZE < 0x10_0000;
      assert free / PAGE_SIZE % 0x1_0000 >= 0xfe00;
    }
  }

  /** Right after mem_pool_init nothing is mapped and all three bitmaps are clear: the invariant holds. */
  lemma InitInv(bytes: nat)
    ensures PageInv(PageState(seq(8 * bytes, _ => false), seq(8 * bytes, _ => false), map[]), {})
  {
  }
}
