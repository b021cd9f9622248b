// kernel/memory.c: sys_malloc and sys_free.  Arenas of one page cut into equal blocks, large arenas of whole pages,
// and seven free lists, on top of the kernel's pages.

module Heaps {
  import opened Bitmaps
  import opened Pages
  import opened IntrusiveLists
  import O = Ownership

  const ARENA_HEADER: nat := 12

  /** block_desc_init: 16, 32, .. 1024 */
  function BlockSize(d: nat): (n: nat)
    requires d < 7
    ensures 16 <= n <= 1024
  {
    if d == 0 then 16 else if d == 1 then 32 else if d == 2 then 64 else if d == 3 then 128
    else if d == 4 then 256 else if d == 5 then 512 else 1024
  }

  /** blocks_per_arena */
  function PerArena(d: nat): (n: nat)
    requires d < 7
    ensures 3 <= n && ARENA_HEADER + n * BlockSize(d) <= PAGE_SIZE
  {
    (PAGE_SIZE - ARENA_HEADER) / BlockSize(d)
  }

  /** block_desc_init computes the same numbers: sizes double, and as many blocks as fit behind the header. */
  lemma DescInit(d: nat)
    requires d < 7
    ensures d + 1 < 7 ==> BlockSize(d + 1) == 2 * BlockSize(d)
    ensures ARENA_HEADER + (PerArena(d) + 1) * BlockSize(d) > PAGE_SIZE
  {
  }

  /** Block k of the arena in a page. */
  datatype Blk = Blk(page: nat, k: nat)

  /** struct arena: desc and the number of free blocks, or the number of pages. */
  datatype Arena = Small(desc: nat, cnt: nat) | Large(pages: nat)

  datatype Heap = Heap(pages: PageState, arenas: map<nat, Arena>, free: seq<seq<Blk>>)

  /** A stretch of memory that sys_malloc can hand out: a block of a small arena, or all of a large one. */
  datatype Slot = SmallSlot(page: nat, k: nat, desc: nat) | LargeSlot(page: nat, count: nat)

  function Start(x: Slot): nat
    requires x.SmallSlot? ==> x.desc < 7
  {
    Vaddr(x.page) + ARENA_HEADER + match x case SmallSlot(_, k, d) => k * BlockSize(d) case LargeSlot(_, _) => 0
  }

  function Len(x: Slot): int
    requires x.SmallSlot? ==> x.desc < 7
  {
    match x case SmallSlot(_, _, d) => BlockSize(d) case LargeSlot(_, n) => PAGE_SIZE * n - ARENA_HEADER
  }

  // ---------------------------------------------------------------- free lists

  /** How many of the first n blocks of a page's arena are on a list. */
  function CountOn(s: seq<Blk>, page: nat, n: nat): (c: nat)
    ensures c <= n
  {
    if n == 0 then 0 else CountOn(s, page, n - 1) + if Blk(page, n - 1) in s then 1 else 0
  }

  lemma {:induction false} CountSame(s: seq<Blk>, t: seq<Blk>, page: nat, n: nat)
    requires forall k: nat :: k < n ==> (Blk(page, k) in s <==> Blk(page, k) in t)
    ensures CountOn(s, page, n) == CountOn(t, page, n)
  {
    if n > 0 {
      CountSame(s, t, page, n - 1);
    }
  }

  lemma {:induction false} CountMore(s: seq<Blk>, t: seq<Blk>, page: nat, n: nat, k: nat)
    requires k < n && Blk(page, k) !in s
    requires forall j: nat :: j < n ==> (Blk(page, j) in t <==> Blk(page, j) in s || j == k)
    ensures CountOn(t, page, n) == CountOn(s, page, n) + 1
  {
    if k < n - 1 {
      CountMore(s, t, page, n - 1, k);
    } else {
      CountSame(s, t, page, n - 1);
    }
  }

  lemma {:induction false} CountFull(s: seq<Blk>, page: nat, n: nat)
    ensures CountOn(s, page, n) == n <==> forall k: nat :: k < n ==> Blk(page, k) in s
  {
    if n > 0 {
      CountFull(s, page, n - 1);
    }
  }

  /** The blocks of a fresh arena in the order the splitting loop appends them. */
  function AllBlocks(page: nat, n: nat): (s: seq<Blk>)
    ensures |s| == n && forall k: nat :: k < n ==> s[k] == Blk(page, k)
  {
    seq(n, k requires 0 <= k < n => Blk(page, k))
  }

  /** A list without the blocks of one page. */
  function Without(s: seq<Blk>, page: nat): (t: seq<Blk>)
    ensures forall b: Blk :: b in t <==> b in s && b.page != page
  {
    if s == [] then [] else (if s[0].page == page then [] else [s[0]]) + Without(s[1..], page)
  }

  lemma {:induction false} WithoutNoDup(s: seq<Blk>, page: nat)
    requires NoDup(s)
    ensures NoDup(Without(s, page))
  {
    if s != [] {
      assert NoDup(s[1..]);
      WithoutNoDup(s[1..], page);
      assert s[0] !in s[1..];
    }
  }

  // ---------------------------------------------------------------- the invariant

  ghost predicate Inside(h: Heap, i: nat, p: nat) {
    i in h.arenas && i <= p < i + PagesOf(h.arenas[i])
  }

  function PagesOf(a: Arena): nat {
    match a case Small(_, _) => 1 case Large(n) => n
  }

  /** A block of the free list of size class d belongs to an arena of that class. */
  ghost predicate InDesc(h: Heap, b: Blk, d: nat) {
    b.page in h.arenas && h.arenas[b.page].Small? && h.arenas[b.page].desc == d < 7 && b.k < PerArena(d)
  }

  ghost predicate ListOk(h: Heap, d: nat) {
    d < |h.free| && NoDup(h.free[d]) && forall b: Blk :: b in h.free[d] ==> InDesc(h, b, d)
  }

  /** cnt is the number of blocks of the arena on the free list. */
  ghost predicate ArenaOk(h: Heap, i: nat) {
    && i in h.arenas
    && match h.arenas[i] {
         case Small(d, c) => d < 7 && d < |h.free| && c == CountOn(h.free[d], i, PerArena(d))
         case Large(n) => n >= 1
       }
  }

  /** Every mapped page is one of `base`, which the heap never touches, or belongs to exactly one arena. */
  ghost predicate PagesOk(h: Heap, base: map<nat, nat>) {
    && (forall i, p: nat :: Inside(h, i, p) ==> p in h.pages.ptes && p !in base)
    && (forall i, j, p: nat :: Inside(h, i, p) && Inside(h, j, p) ==> i == j)
    && (forall p :: p in base ==> p in h.pages.ptes && h.pages.ptes[p] == base[p])
    && (forall p :: p in h.pages.ptes ==> p in base || Covered(h, p))
  }

  ghost predicate Covered(h: Heap, p: nat) {
    exists i :: Inside(h, i, p)
  }

  ghost predicate Core(h: Heap, base: map<nat, nat>, tables: set<nat>) {
    && |h.free| == 7 && PageInv(h.pages, tables) && PagesOk(h, base)
    && (forall d: nat :: d < 7 ==> ListOk(h, d))
    && (forall i :: i in h.arenas ==> ArenaOk(h, i))
  }

  /** No arena is fully free between calls. */
  ghost predicate NoIdle(h: Heap) {
    forall i :: i in h.arenas && h.arenas[i].Small? ==>
        h.arenas[i].desc < 7 && h.arenas[i].cnt < PerArena(h.arenas[i].desc)
  }

  ghost predicate HeapInv(h: Heap, base: map<nat, nat>, tables: set<nat>) {
    Core(h, base, tables) && NoIdle(h)
  }

  /** A place for data that exists in the heap, free or not. */
  ghost predicate Exists(h: Heap, x: Slot) {
    match x
    case SmallSlot(p, k, d) => InDesc(h, Blk(p, k), d)
    case LargeSlot(p, n) => p in h.arenas && h.arenas[p] == Large(n)
  }

  /** A place that was handed out and not returned. */
  ghost predicate LiveSlot(h: Heap, x: Slot) {
    Exists(h, x) && (x.SmallSlot? ==> x.desc < |h.free| && Blk(x.page, x.k) !in h.free[x.desc])
  }

  // ---------------------------------------------------------------- addresses

  /** A small block lies inside its page, behind the header. */
  lemma SmallPlace(x: Slot)
    requires x.SmallSlot? && x.desc < 7 && x.k < PerArena(x.desc)
    ensures Vaddr(x.page) + ARENA_HEADER <= Start(x) && Start(x) + Len(x) <= Vaddr(x.page + 1)
  {
    assert (x.k + 1) * BlockSize(x.desc) <= PerArena(x.desc) * BlockSize(x.desc);
  }

  lemma SlotPlace(h: Heap, x: Slot)
    requires Exists(h, x)
    ensures Vaddr(x.page) + ARENA_HEADER <= Start(x) && Start(x) + Len(x) <= Vaddr(x.page + PagesOf(h.arenas[x.page]))
  {
    if x.SmallSlot? {
      SmallPlace(x);
    }
  }

  ghost predicate Apart(a: nat, m: int, b: nat, n: int) {
    a + m <= b || b + n <= a
  }

  lemma ArenasApart(h: Heap, base: map<nat, nat>, i: nat, j: nat)
    requires PagesOk(h, base) && i in h.arenas && j in h.arenas && i < j && PagesOf(h.arenas[j]) >= 1
    ensures i + PagesOf(h.arenas[i]) <= j
  {
    assert Inside(h, j, j);
    assert Inside(h, i, j) ==> i == j;
  }

  lemma SameArena(x: Slot, y: Slot)
    requires x.SmallSlot? && y.SmallSlot? && x.page == y.page && x.desc == y.desc < 7 && x.k < y.k
    ensures Start(x) + Len(x) <= Start(y)
  {
    assert (x.k + 1) * BlockSize(x.desc) <= y.k * BlockSize(x.desc);
  }

  /** Different places never overlap, and none reaches into an arena header. */
  lemma PlacesApart(h: Heap, base: map<nat, nat>, tables: set<nat>, x: Slot, y: Slot)
    requires Core(h, base, tables) && Exists(h, x) && Exists(h, y) && x != y
    ensures Apart(Start(x), Len(x), Start(y), Len(y))
  {
    hide PageInv, ListOk, CountOn;
    SlotPlace(h, x);
    SlotPlace(h, y);
    if x.page == y.page {
      assert x.SmallSlot? && y.SmallSlot?;
      if x.k < y.k {
        SameArena(x, y);
      } else {
        SameArena(y, x);
      }
    } else {
      OnePageEach(h, base, tables, x.page);
      OnePageEach(h, base, tables, y.page);
      if x.page < y.page {
        ArenasApart(h, base, x.page, y.page);
      } else {
        ArenasApart(h, base, y.page, x.page);
      }
    }
  }

  lemma OnePageEach(h: Heap, base: map<nat, nat>, tables: set<nat>, i: nat)
    requires Core(h, base, tables) && i in h.arenas
    ensures PagesOf(h.arenas[i]) >= 1
  {
    hide PageInv, ListOk, CountOn, PagesOk;
    assert ArenaOk(h, i);
  }

  lemma HeadersApart(h: Heap, base: map<nat, nat>, tables: set<nat>, i: nat, x: Slot)
    requires Core(h, base, tables) && i in h.arenas && Exists(h, x)
    ensures Apart(Vaddr(i), ARENA_HEADER, Start(x), Len(x))
  {
    hide PageInv, ListOk, CountOn;
    SlotPlace(h, x);
    if i != x.page {
      OnePageEach(h, base, tables, i);
      OnePageEach(h, base, tables, x.page);
      if i < x.page {
        ArenasApart(h, base, i, x.page);
      } else {
        ArenasApart(h, base, x.page, i);
      }
    }
  }

  /** block2arena: clearing the low twelve bits of a block's address gives its arena. */
  lemma BlockToArena(h: Heap, x: Slot)
    requires Exists(h, x) && Start(x) < Vaddr(x.page + 1)
    ensures (Start(x) - K_HEAP_START) / PAGE_SIZE == x.page && Start(x) / PAGE_SIZE * PAGE_SIZE == Vaddr(x.page)
  {
    SlotPlace(h, x);
  }

  // ---------------------------------------------------------------- the end of every run

  /** An arena between calls has a block that is still in use. */
  lemma ArenaHasLive(h: Heap, base: map<nat, nat>, tables: set<nat>, i: nat) returns (x: Slot)
    requires HeapInv(h, base, tables) && i in h.arenas
    ensures LiveSlot(h, x)
  {
    hide PageInv, ListOk, CountOn, PagesOk;
    assert ArenaOk(h, i);
    match h.arenas[i]
    case Large(n) => x := LargeSlot(i, n);
    case Small(d, c) =>
      CountFull(h.free[d], i, PerArena(d));
      var k: nat :| k < PerArena(d) && Blk(i, k) !in h.free[d];
      x := SmallSlot(i, k, d);
  }

  /** Whatever was allocated and freed in between: when nothing is live, both bitmaps are as when nothing was. */
  lemma AllFreedRestores(h0: Heap, h: Heap, base: map<nat, nat>, tables: set<nat>)
    requires HeapInv(h0, base, tables) && HeapInv(h, base, tables)
    requires (forall x: Slot :: !LiveSlot(h0, x)) && (forall x: Slot :: !LiveSlot(h, x))
    requires |h0.pages.vbits| == |h.pages.vbits| && |h0.pages.kbits| == |h.pages.kbits|
    ensures h.pages == h0.pages && h.arenas == map[]
  {
    hide PageInv, LiveSlot, ListOk, ArenaOk;
    NoArenas(h0, base, tables);
    NoArenas(h, base, tables);
    PagesDetermined(h0.pages, h.pages, tables);
  }

  lemma NoArenas(h: Heap, base: map<nat, nat>, tables: set<nat>)
    requires HeapInv(h, base, tables) && forall x: Slot :: !LiveSlot(h, x)
    ensures h.arenas == map[] && h.pages.ptes == base
  {
    hide PageInv, LiveSlot, ListOk, ArenaOk;
    if i :| i in h.arenas {
      var x := ArenaHasLive(h, base, tables, i);
      assert false;
    }
    assert forall p: nat :: !Covered(h, p);
  }

  // ---------------------------------------------------------------- the changes

  /** A fresh page became an arena of class d, whose list was empty. */
  ghost predicate NewSmall(h: Heap, g: Heap, t: PageState, i: nat, d: nat, frames: seq<nat>) {
    && |h.free| == 7 && d < 7 && h.free[d] == [] && |frames| == 1 && Mapped(h.pages, t, i, frames)
    && g == Heap(t, h.arenas[i := Small(d, PerArena(d))], h.free[d := AllBlocks(i, PerArena(d))])
  }

  /** Fresh pages became a large arena. */
  ghost predicate NewLarge(h: Heap, g: Heap, t: PageState, i: nat, frames: seq<nat>) {
    && |frames| >= 1 && Mapped(h.pages, t, i, frames) && g == Heap(t, h.arenas[i := Large(|frames|)], h.free)
  }

  /** The new pages were unmapped, so no arena and no base page is there. */
  lemma FreshPages(h: Heap, base: map<nat, nat>, tables: set<nat>, t: PageState, i: nat, frames: seq<nat>)
    requires Core(h, base, tables) && |frames| >= 1 && Mapped(h.pages, t, i, frames)
    ensures forall p: nat :: i <= p < i + |frames| ==> p !in h.pages.ptes && p !in base && !Covered(h, p)
    ensures i !in h.arenas && PageInv(t, tables)
  {
    hide PageInv, ListOk, ArenaOk;
    MappedInv(h.pages, t, i, frames, tables);
    NothingAt(h.pages, true, i, |frames|, tables);
    forall p: nat | i <= p < i + |frames| ensures !Covered(h, p) {
      forall j ensures !Inside(h, j, p) {
      }
    }
    ArenaCovered(h, base, tables, i);
    assert !Covered(h, i);
  }

  lemma ArenaCovered(h: Heap, base: map<nat, nat>, tables: set<nat>, i: nat)
    requires Core(h, base, tables)
    ensures i in h.arenas ==> Covered(h, i)
  {
    hide PageInv, ListOk, ArenaOk, PagesOk;
    if i in h.arenas {
      OnePageEach(h, base, tables, i);
      assert Inside(h, i, i);
    }
  }

  lemma FreshPagesOk(h: Heap, g: Heap, base: map<nat, nat>, i: nat, frames: seq<nat>)
    requires PagesOk(h, base) && i !in h.arenas
    requires forall p: nat :: i <= p < i + |frames| ==> p !in h.pages.ptes && p !in base && !Covered(h, p)
    requires g.pages.ptes == WithPages(h.pages.ptes, i, frames) && i in g.arenas
    requires g.arenas == h.arenas[i := g.arenas[i]]
    requires PagesOf(g.arenas[i]) == |frames|
    ensures PagesOk(g, base)
  {
    hide WithPages, PagesOf;
    forall j, p: nat ensures Inside(g, j, p) <==> Inside(h, j, p) || (j == i && i <= p < i + |frames|) {
    }
    forall j, k, p: nat | Inside(g, j, p) && Inside(g, k, p) ensures j == k {
      assert Inside(h, j, p) ==> Covered(h, p);
      assert Inside(h, k, p) ==> Covered(h, p);
    }
    forall p | p in g.pages.ptes ensures p in base || Covered(g, p) {
      if i <= p < i + |frames| {
        assert Inside(g, i, p);
      } else if p !in base {
        var j :| Inside(h, j, p);
        assert Inside(g, j, p);
      }
    }
  }

  lemma NewLargeCore(h: Heap, g: Heap, base: map<nat, nat>, tables: set<nat>, t: PageState, i: nat, frames: seq<nat>)
    requires Core(h, base, tables) && NewLarge(h, g, t, i, frames)
    ensures Core(g, base, tables) && i !in h.arenas
  {
    hide PageInv, PagesOk, CountOn, Mapped;
    FreshPages(h, base, tables, t, i, frames);
    MappedPages(h.pages, t, i, frames);
    FreshPagesOk(h, g, base, i, frames);
    forall d: nat | d < 7 ensures ListOk(g, d) {
      assert ListOk(h, d);
      forall b: Blk | b in g.free[d] ensures InDesc(g, b, d) {
        assert InDesc(h, b, d);
      }
    }
    forall j | j in g.arenas ensures ArenaOk(g, j) {
      assert j != i ==> ArenaOk(h, j);
    }
  }

  lemma MappedPages(s: PageState, t: PageState, i: nat, frames: seq<nat>)
    requires Mapped(s, t, i, frames)
    ensures t.ptes == WithPages(s.ptes, i, frames) && |t.vbits| == |s.vbits| && |t.kbits| == |s.kbits|
  {
    hide SetRun, WithPages;
  }

  lemma NewSmallCore(h: Heap, g: Heap, base: map<nat, nat>, tables: set<nat>, t: PageState, i: nat, d: nat,
                     frames: seq<nat>)
    requires Core(h, base, tables) && NewSmall(h, g, t, i, d, frames)
    ensures Core(g, base, tables) && i !in h.arenas && |g.free[d]| > 0
  {
    hide PageInv, PagesOk, CountOn, Mapped, PerArena;
    FreshPages(h, base, tables, t, i, frames);
    MappedPages(h.pages, t, i, frames);
    FreshPagesOk(h, g, base, i, frames);
    forall e: nat | e < 7 ensures ListOk(g, e) {
      assert ListOk(h, e);
      forall b: Blk | b in g.free[e] ensures InDesc(g, b, e) {
        assert e != d ==> InDesc(h, b, e);
      }
    }
    forall j | j in g.arenas ensures ArenaOk(g, j) {
      if j == i {
        CountFull(g.free[d], i, PerArena(d));
      } else {
        assert ArenaOk(h, j);
        if h.arenas[j].Small? && h.arenas[j].desc == d {
          CountSame(h.free[d], g.free[d], j, PerArena(d));
        }
      }
    }
  }

  /** A fresh small arena is all free: nothing became live. */
  lemma NewSmallLive(h: Heap, g: Heap, t: PageState, i: nat, d: nat, frames: seq<nat>, x: Slot)
    requires NewSmall(h, g, t, i, d, frames) && i !in h.arenas
    requires forall e: nat, b: Blk :: e < 7 && b in h.free[e] ==> InDesc(h, b, e)
    ensures LiveSlot(g, x) <==> LiveSlot(h, x)
  {
    hide Mapped, PerArena;
  }

  lemma NewLargeLive(h: Heap, g: Heap, t: PageState, i: nat, frames: seq<nat>, x: Slot)
    requires NewLarge(h, g, t, i, frames) && i !in h.arenas
    ensures LiveSlot(g, x) <==> LiveSlot(h, x) || x == LargeSlot(i, |frames|)
  {
    hide Mapped;
  }

  /** list_pop and cnt-- */
  ghost predicate Took(h: Heap, g: Heap, d: nat) {
    && |h.free| == 7 && d < 7 && |h.free[d]| > 0
    && var b := h.free[d][0];
    && b.page in h.arenas && h.arenas[b.page].Small? && h.arenas[b.page].cnt >= 1
    && g == h.(arenas := h.arenas[b.page := Small(d, h.arenas[b.page].cnt - 1)], free := h.free[d := h.free[d][1..]])
  }

  lemma PopMember(s: seq<Blk>, b: Blk)
    requires |s| > 0 && NoDup(s)
    ensures b in s[1..] <==> b in s && b != s[0]
    ensures NoDup(s[1..])
  {
    assert s == [s[0]] + s[1..];
  }

  /** The first block of a list: its arena, and that its count is not zero. */
  lemma FirstBlock(h: Heap, base: map<nat, nat>, tables: set<nat>, d: nat)
    requires Core(h, base, tables) && d < 7 && |h.free[d]| > 0
    ensures var b := h.free[d][0];
            && InDesc(h, b, d) && h.arenas[b.page].cnt == CountOn(h.free[d], b.page, PerArena(d)) >= 1
            && NoDup(h.free[d])
  {
    hide PageInv, PagesOk, PerArena;
    var b := h.free[d][0];
    assert ListOk(h, d) && b in h.free[d];
    assert ArenaOk(h, b.page);
    CountOne(h.free[d], b.page, PerArena(d), b.k);
  }

  lemma {:induction false} CountOne(s: seq<Blk>, page: nat, n: nat, k: nat)
    requires k < n && Blk(page, k) in s
    ensures CountOn(s, page, n) >= 1
  {
    if k < n - 1 {
      CountOne(s, page, n - 1, k);
    }
  }

  lemma TookCore(h: Heap, g: Heap, base: map<nat, nat>, tables: set<nat>, d: nat)
    requires Core(h, base, tables) && Took(h, g, d)
    ensures Core(g, base, tables)
  {
    hide PageInv, CountOn, PerArena, Covered, NoDup;
    FirstBlock(h, base, tables, d);
    var b := h.free[d][0];
    SamePagesOk(h, g, base, b.page);
    hide PagesOk;
    forall c: Blk ensures c in g.free[d] <==> c in h.free[d] && c != b {
      PopMember(h.free[d], c);
    }
    forall e: nat | e < 7 ensures ListOk(g, e) {
      assert ListOk(h, e);
      PopMember(h.free[d], b);
      forall c: Blk | c in g.free[e] ensures InDesc(g, c, e) {
        assert InDesc(h, c, e);
      }
    }
    forall j | j in g.arenas ensures ArenaOk(g, j) {
      TookCount(h, g, base, tables, d, j);
    }
  }

  lemma TookCount(h: Heap, g: Heap, base: map<nat, nat>, tables: set<nat>, d: nat, j: nat)
    requires Core(h, base, tables) && Took(h, g, d) && j in g.arenas && InDesc(h, h.free[d][0], d)
    requires forall c: Blk :: c in g.free[d] <==> c in h.free[d] && c != h.free[d][0]
    ensures ArenaOk(g, j)
  {
    hide PageInv, PagesOk, CountOn, PerArena, ListOk;
    var b := h.free[d][0];
    assert ArenaOk(h, j);
    if j == b.page {
      CountMore(g.free[d], h.free[d], j, PerArena(d), b.k);
    } else if h.arenas[j].Small? && h.arenas[j].desc == d {
      CountSame(g.free[d], h.free[d], j, PerArena(d));
    }
  }

  /** Changing the count of an arena moves no page. */
  lemma SamePagesOk(h: Heap, g: Heap, base: map<nat, nat>, i: nat)
    requires PagesOk(h, base) && g.pages == h.pages && i in h.arenas && i in g.arenas
    requires g.arenas == h.arenas[i := g.arenas[i]] && PagesOf(g.arenas[i]) == PagesOf(h.arenas[i])
    ensures PagesOk(g, base)
  {
    forall j, p: nat ensures Inside(g, j, p) <==> Inside(h, j, p) {
    }
    forall p: nat | Covered(h, p) ensures Covered(g, p) {
      var j :| Inside(h, j, p);
      assert Inside(g, j, p);
    }
  }

  /** Exactly the popped block became live. */
  lemma TookLive(h: Heap, g: Heap, d: nat, x: Slot)
    requires Took(h, g, d) && NoDup(h.free[d]) && InDesc(h, h.free[d][0], d)
    ensures LiveSlot(g, x) <==> LiveSlot(h, x) || x == SmallSlot(h.free[d][0].page, h.free[d][0].k, d)
    ensures !LiveSlot(h, SmallSlot(h.free[d][0].page, h.free[d][0].k, d))
  {
    hide PerArena, NoDup;
    if x.SmallSlot? {
      PopMember(h.free[d], Blk(x.page, x.k));
    }
  }

  lemma TookNoIdle(h: Heap, g: Heap, d: nat)
    requires Took(h, g, d) && InDesc(h, h.free[d][0], d)
    requires forall i :: i in h.arenas && h.arenas[i].Small? ==>
             h.arenas[i].desc < 7 && h.arenas[i].cnt <= PerArena(h.arenas[i].desc)
    requires forall i :: i in h.arenas && i != h.free[d][0].page && h.arenas[i].Small? ==>
             h.arenas[i].cnt < PerArena(h.arenas[i].desc)
    ensures NoIdle(g)
  {
    hide PerArena;
  }

  /** list_append and ++cnt */
  ghost predicate Gave(h: Heap, g: Heap, p: nat, k: nat, d: nat) {
    && |h.free| == 7 && d < 7 && p in h.arenas && h.arenas[p].Small? && h.arenas[p].desc == d
    && g == h.(arenas := h.arenas[p := Small(d, h.arenas[p].cnt + 1)], free := h.free[d := h.free[d] + [Blk(p, k)]])
  }

  lemma PushMember(s: seq<Blk>, b: Blk, c: Blk)
    ensures c in s + [b] <==> c in s || c == b
    ensures NoDup(s) && b !in s ==> NoDup(s + [b])
  {
  }

  lemma GaveCore(h: Heap, g: Heap, base: map<nat, nat>, tables: set<nat>, p: nat, k: nat, d: nat)
    requires Core(h, base, tables) && LiveSlot(h, SmallSlot(p, k, d)) && Gave(h, g, p, k, d)
    ensures Core(g, base, tables) && g.arenas[p].cnt <= PerArena(d)
  {
    hide PageInv, CountOn, PerArena, Covered, NoDup;
    SamePagesOk(h, g, base, p);
    hide PagesOk;
    var b := Blk(p, k);
    forall c: Blk ensures c in g.free[d] <==> c in h.free[d] || c == b {
      PushMember(h.free[d], b, c);
    }
    forall e: nat | e < 7 ensures ListOk(g, e) {
      assert ListOk(h, e);
      PushMember(h.free[d], b, b);
      forall c: Blk | c in g.free[e] ensures InDesc(g, c, e) {
        assert c in h.free[e] ==> InDesc(h, c, e);
      }
    }
    forall j | j in g.arenas ensures ArenaOk(g, j) {
      GaveCount(h, g, base, tables, p, k, d, j);
    }
    assert ArenaOk(g, p);
  }

  lemma GaveCount(h: Heap, g: Heap, base: map<nat, nat>, tables: set<nat>, p: nat, k: nat, d: nat, j: nat)
    requires Core(h, base, tables) && LiveSlot(h, SmallSlot(p, k, d)) && Gave(h, g, p, k, d) && j in g.arenas
    requires forall c: Blk :: c in g.free[d] <==> c in h.free[d] || c == Blk(p, k)
    ensures ArenaOk(g, j)
  {
    hide PageInv, PagesOk, CountOn, PerArena, ListOk;
    assert ArenaOk(h, j);
    if j == p {
      CountMore(h.free[d], g.free[d], j, PerArena(d), k);
    } else if h.arenas[j].Small? && h.arenas[j].desc == d {
      CountSame(h.free[d], g.free[d], j, PerArena(d));
    }
  }

  /** Exactly the returned block stopped being live. */
  lemma GaveLive(h: Heap, g: Heap, p: nat, k: nat, d: nat, x: Slot)
    requires Gave(h, g, p, k, d) && LiveSlot(h, SmallSlot(p, k, d))
    ensures LiveSlot(g, x) <==> LiveSlot(h, x) && x != SmallSlot(p, k, d)
  {
    hide PerArena;
    if x.SmallSlot? {
      PushMember(h.free[d], Blk(p, k), Blk(x.page, x.k));
    }
  }

  /** An arena and its pages are gone; of the lists, only blocks of that arena. */
  ghost predicate Dropped(h: Heap, g: Heap, t: PageState, i: nat) {
    && i in h.arenas && |h.free| == 7 && |g.free| == 7
    && Unmapped(h.pages, t, i, PagesOf(h.arenas[i])) && g.pages == t && g.arenas == h.arenas - {i}
    && match h.arenas[i] {
         case Small(d, c) => d < 7 && c == PerArena(d) && g.free == h.free[d := Without(h.free[d], i)]
         case Large(n) => g.free == h.free
       }
  }

  lemma DroppedPages(h: Heap, g: Heap, base: map<nat, nat>, t: PageState, i: nat)
    requires PagesOk(h, base) && i in h.arenas && Unmapped(h.pages, t, i, PagesOf(h.arenas[i])) && g.pages == t
    requires g.arenas == h.arenas - {i}
    ensures PagesOk(g, base)
  {
    hide SetRun, WithoutPages, PagesOf;
    forall j, p: nat ensures Inside(g, j, p) <==> Inside(h, j, p) && j != i {
    }
    forall j, p: nat | Inside(g, j, p) ensures p in g.pages.ptes && p !in base {
      assert !Inside(h, i, p);
    }
    forall p | p in base ensures p in g.pages.ptes {
      assert !Inside(h, i, p);
    }
    forall p | p in g.pages.ptes && p !in base ensures Covered(g, p) {
      var j :| Inside(h, j, p);
      assert j != i;
      assert Inside(g, j, p);
    }
  }

  lemma DroppedCore(h: Heap, g: Heap, base: map<nat, nat>, tables: set<nat>, t: PageState, i: nat)
    requires Core(h, base, tables) && Dropped(h, g, t, i)
    ensures Core(g, base, tables)
  {
    hide PageInv, CountOn, PerArena, PagesOk, Unmapped, NoDup, Without;
    UnmappedInv(h.pages, t, i, PagesOf(h.arenas[i]), tables);
    DroppedPages(h, g, base, t, i);
    forall e: nat | e < 7 ensures ListOk(g, e) {
      assert ListOk(h, e);
      WithoutNoDup(h.free[e], i);
      forall b: Blk | b in g.free[e] ensures InDesc(g, b, e) {
        assert InDesc(h, b, e);
      }
    }
    forall j | j in g.arenas ensures ArenaOk(g, j) {
      assert ArenaOk(h, j);
      if h.arenas[j].Small? {
        CountSame(h.free[h.arenas[j].desc], g.free[h.arenas[j].desc], j, PerArena(h.arenas[j].desc));
      }
    }
  }

  /** Dropping a fully free small arena changes nothing live; dropping a large one ends its life. */
  lemma DroppedLive(h: Heap, g: Heap, base: map<nat, nat>, tables: set<nat>, t: PageState, i: nat, x: Slot)
    requires Core(h, base, tables) && Dropped(h, g, t, i)
    ensures LiveSlot(g, x) <==> LiveSlot(h, x) && x.page != i
    ensures h.arenas[i].Small? && LiveSlot(h, x) ==> x.page != i
    ensures h.arenas[i].Large? && LiveSlot(h, x) && x.page == i ==> x == LargeSlot(i, h.arenas[i].pages)
  {
    hide PageInv, CountOn, PerArena, PagesOk, Unmapped, NoDup, Without;
    if h.arenas[i].Small? {
      assert ArenaOk(h, i);
      CountFull(h.free[h.arenas[i].desc], i, PerArena(h.arenas[i].desc));
    }
  }

  // ---------------------------------------------------------------- bytes

  predicate InSlot(x: Slot, a: nat)
    requires x.SmallSlot? ==> x.desc < 7
  {
    Start(x) <= a < Start(x) + Len(x)
  }

  /** A byte of a block in use. */
  ghost predicate LiveByte(h: Heap, a: nat) {
    exists x: Slot :: LiveSlot(h, x) && InSlot(x, a)
  }

  /** A byte of an arena header, or of a block on a free list: where the allocator keeps its own data. */
  ghost predicate OwnByte(h: Heap, a: nat) {
    || (exists i :: i in h.arenas && Vaddr(i) <= a < Vaddr(i) + ARENA_HEADER)
    || (exists x: Slot :: Exists(h, x) && !LiveSlot(h, x) && InSlot(x, a))
  }

  lemma OwnNotLive(h: Heap, base: map<nat, nat>, tables: set<nat>, a: nat)
    requires Core(h, base, tables)
    ensures !(OwnByte(h, a) && LiveByte(h, a))
  {
    hide Core, PerArena, CountOn;
    forall x: Slot | LiveSlot(h, x) && InSlot(x, a) ensures !OwnByte(h, a) {
      forall i | i in h.arenas ensures !(Vaddr(i) <= a < Vaddr(i) + ARENA_HEADER) {
        HeadersApart(h, base, tables, i, x);
      }
      forall y: Slot | Exists(h, y) && !LiveSlot(h, y) ensures !InSlot(y, a) {
        PlacesApart(h, base, tables, x, y);
      }
    }
  }

  /** The bytes in use keep their value. */
  ghost predicate Kept(h: Heap, before: nat -> int, after: nat -> int) {
    forall a: nat :: LiveByte(h, a) ==> after(a) == before(a)
  }

  /** OffHeap: malloc_page handed out pages of which the last is none of the heap's. */
  datatype MallocResult = MallocHalted | Null | Ptr(addr: nat) | OffHeap

  /** What a successful sys_malloc does: one more place is live, the invariant holds, and no live byte changed. */
  ghost predicate Allocated(h: Heap, g: Heap, x: Slot) {
    && SameSize(h, g) && Exists(g, x) && !LiveSlot(h, x)
    && forall y: Slot :: LiveSlot(g, y) <==> LiveSlot(h, y) || y == x
  }

  ghost predicate Released(h: Heap, g: Heap, x: Slot) {
    SameSize(h, g) && LiveSlot(h, x) && forall y: Slot :: LiveSlot(g, y) <==> LiveSlot(h, y) && y != x
  }

  ghost predicate SameSize(h: Heap, g: Heap) {
    |g.pages.vbits| == |h.pages.vbits| && |g.pages.kbits| == |h.pages.kbits|
  }

  /** memset(block, 0, size) */
  ghost predicate Zeroed(x: Slot, mem: nat -> int) {
    (x.SmallSlot? ==> x.desc < 7) && forall a: nat :: InSlot(x, a) ==> mem(a) == 0
  }

  /** DIV_ROUND_UP(size + sizeof(struct arena), PAGE_SIZE) */
  function LargeCount(size: nat): nat {
    (size + ARENA_HEADER + PAGE_SIZE - 1) / PAGE_SIZE
  }

  lemma LargeFits(size: nat)
    requires size > 1024
    ensures LargeCount(size) >= 1 && size <= PAGE_SIZE * LargeCount(size) - ARENA_HEADER < size + PAGE_SIZE
  {
  }

  /** The size class of a small request: the first that is large enough. */
  function DescOf(size: nat): (d: nat)
    requires 0 < size <= 1024
    ensures d < 7 && size <= BlockSize(d) && (d > 0 ==> size > BlockSize(d - 1))
  {
    if size <= 16 then 0 else if size <= 32 then 1 else if size <= 64 then 2 else if size <= 128 then 3
    else if size <= 256 then 4 else if size <= 512 then 5 else 6
  }

  /** The place at the head of a free list. */
  function FirstSlot(h: Heap, d: nat): Slot
    requires d < |h.free| && h.free[d] != []
  {
    SmallSlot(h.free[d][0].page, h.free[d][0].k, d)
  }

  /** A fresh arena stands alone on the list of class d, in the lowest page that was free. */
  ghost predicate NewList(h: Heap, g: Heap, d: nat) {
    && d < 7 && |h.free| == |g.free| == 7 && h.free[d] == [] && g.free[d] != []
    && Leftmost(h.pages.vbits, g.free[d][0].page, 1)
    && g.free == h.free[d := AllBlocks(g.free[d][0].page, PerArena(d))]
  }

  /** A small request takes the head of its list; a page is added only to an empty list, in the lowest place. */
  ghost predicate TakesSmall(h: Heap, g: Heap, x: Slot, d: nat) {
    && d < 7 && |h.free| == |g.free| == 7 && x.SmallSlot? && x.desc == d
    && if h.free[d] != [] then
         x == FirstSlot(h, d) && g.free == h.free[d := h.free[d][1..]] && g.pages == h.pages
       else
         && Leftmost(h.pages.vbits, x.page, 1) && x.k == 0
         && g.free == h.free[d := AllBlocks(x.page, PerArena(d))[1..]]
  }

  /** A freed block goes to the end of its list, unless its arena is dropped with all its blocks. */
  ghost predicate GoesBack(h: Heap, g: Heap, x: Slot) {
    && |h.free| == |g.free| == 7
    && match x {
         case SmallSlot(p, k, d) =>
           && d < 7
           && var list := h.free[d] + [Blk(p, k)];
              g.free == h.free[d := if p in g.arenas then list else Without(list, p)]
         case LargeSlot(_, _) => g.free == h.free
       }
  }

  /** A large request takes the leftmost run of as many pages as it and the header need, no more. */
  ghost predicate TakesLarge(h: Heap, g: Heap, x: Slot, size: nat) {
    && x.LargeSlot? && size <= Len(x) < size + PAGE_SIZE
    && Leftmost(h.pages.vbits, x.page, x.count) && g.free == h.free
  }

  lemma TakesThrough(h: Heap, g: Heap, f: Heap, d: nat)
    requires NewList(h, g, d) && f.free == g.free[d := g.free[d][1..]]
    ensures TakesSmall(h, f, FirstSlot(g, d), d)
  {
    hide Leftmost, PerArena;
    assert f.free == h.free[d := g.free[d][1..]];
  }

  lemma LeftmostRun(bits: seq<bool>, i: nat, n: nat)
    requires Leftmost(bits, i, n)
    ensures !NoRun(bits, n)
  {
  }

  /** What stops the kernel inside sys_malloc. */
  ghost predicate MallocStops(h: Heap, guard: bool, size: nat)
    requires |h.free| == 7
  {
    if size > 1024 then MallocHalts(h.pages, guard, LargeCount(size))
    else 0 < size && h.free[DescOf(size)] == [] && MallocHalts(h.pages, guard, 1)
  }

  function RemoveBlk(s: seq<Blk>, b: Blk): seq<Blk> {
    if s == [] then [] else if s[0] == b then s[1..] else [s[0]] + RemoveBlk(s[1..], b)
  }

  /** The list after the first n blocks of a page were removed from it. */
  function WithoutTo(s: seq<Blk>, page: nat, n: nat): (t: seq<Blk>)
    ensures forall b: Blk :: b in t <==> b in s && !(b.page == page && b.k < n)
  {
    if s == [] then [] else (if s[0].page == page && s[0].k < n then [] else [s[0]]) + WithoutTo(s[1..], page, n)
  }

  lemma {:induction false} WithoutNone(s: seq<Blk>, page: nat)
    ensures WithoutTo(s, page, 0) == s
  {
    if s != [] {
      WithoutNone(s[1..], page);
    }
  }

  lemma {:induction false} WithoutNext(s: seq<Blk>, page: nat, n: nat)
    requires NoDup(s)
    ensures WithoutTo(s, page, n + 1) == RemoveBlk(WithoutTo(s, page, n), Blk(page, n))
  {
    if s != [] {
      assert NoDup(s[1..]) && s[0] !in s[1..];
      WithoutNext(s[1..], page, n);
      var w := WithoutTo(s[1..], page, n);
      if s[0].page == page && s[0].k < n {
        assert WithoutTo(s, page, n) == w;
      } else {
        assert WithoutTo(s, page, n) == [s[0]] + w && ([s[0]] + w)[1..] == w;
        if s[0] == Blk(page, n) {
          RemoveAbsent(w, s[0]);
        } else {
          assert !(s[0].page == page && s[0].k < n + 1);
        }
      }
    }
  }

  lemma {:induction false} RemoveAbsent(s: seq<Blk>, b: Blk)
    requires b !in s
    ensures RemoveBlk(s, b) == s
  {
    if s != [] {
      RemoveAbsent(s[1..], b);
    }
  }

  lemma {:induction false} WithoutAll(s: seq<Blk>, page: nat, n: nat)
    requires forall b: Blk :: b in s && b.page == page ==> b.k < n
    ensures WithoutTo(s, page, n) == Without(s, page)
  {
    if s != [] {
      WithoutAll(s[1..], page, n);
    }
  }

  class KernelHeap {
    const pm: KernelPages
    var arenas: map<nat, Arena>
    var free: seq<seq<Blk>>
    ghost var mem: nat -> int
    const poolSize: nat
    ghost const base: map<nat, nat>
    ghost const tables: set<nat>

    /** mem_init: no arena, seven empty lists */
    constructor (pm: KernelPages, poolSize: nat, ghost tables: set<nat>)
      requires PageInv(pm.State(), tables) && pm.Layout()
      ensures this.pm == pm && this.poolSize == poolSize && base == pm.ptes && Valid()
      ensures forall x: Slot :: !LiveSlot(View(), x)
    {
      this.pm, this.poolSize, this.base, this.tables := pm, poolSize, pm.ptes, tables;
      arenas, free := map[], seq(7, _ => []);
    }

    ghost function View(): Heap
      reads this, pm
    {
      Heap(pm.State(), arenas, free)
    }

    ghost predicate Valid()
      reads this, pm
    {
      HeapInv(View(), base, tables) && pm.Layout()
    }

    /** The loop over descs in sys_malloc. */
    method PickDesc(size: nat) returns (d: nat)
      requires 0 < size <= 1024
      ensures d == DescOf(size)
    {
      d := 0;
      while d < 7 && size > BlockSize(d)
        invariant d <= 7 && forall e: nat :: e < d ==> size > BlockSize(e)
      {
        d := d + 1;
      }
      assert size <= BlockSize(6);
      SameDesc(size, d);
    }

    /** sys_malloc of more than 1024 bytes */
    method MallocLarge(size: nat) returns (r: MallocResult, ghost x: Slot)
      requires Valid() && size > 1024
      modifies this`arenas, this`mem, pm
      ensures r.MallocHalted? <==> MallocHalts(old(View()).pages, old(pm.guard), LargeCount(size))
      ensures r.OffHeap? <==> !r.MallocHalted? && Overruns(old(View()).pages.vbits, old(pm.guard), LargeCount(size))
      ensures r.Null? <==> !r.MallocHalted? && !r.OffHeap? && NoRun(old(View()).pages.vbits, LargeCount(size))
      ensures r.Null? ==> Valid() && View() == old(View()) && mem == old(mem)
      ensures r.Ptr? ==>
              Valid() && Allocated(old(View()), View(), x) && Kept(old(View()), old(mem), mem) && Zeroed(x, mem)
      ensures r.Ptr? ==> TakesLarge(old(View()), View(), x, size) && r.addr == Start(x)
      ensures free == old(free)
    {
      hide HeapInv, MallocHalts, Allocated, Kept, Zeroed, Mapped, PageInv, Leftmost, NoRun, Overruns, MappedBeyond;
      ghost var h := View();
      var count := LargeCount(size);
      LargeFits(size);
      InvPages(h, base, tables);
      x := LargeSlot(0, 0);
      var got;
      ghost var frames;
      got, frames := pm.MallocPage(count, tables);
      if got.PageHalted? {
        return MallocHalted, x;
      }
      if got.NoPages? {
        return Null, x;
      }
      if got.Beyond? {
        return OffHeap, x;
      }
      arenas := arenas[got.page := Large(count)];
      x := LargeSlot(got.page, count);
      ghost var before := mem;
      mem := (a: nat) => if Vaddr(got.page) <= a < Vaddr(got.page + count) then 0 else before(a);
      MappedPages(h.pages, pm.State(), got.page, frames);
      LeftmostRun(h.pages.vbits, got.page, count);
      LargeDone(h, View(), base, tables, got.page, frames, before, mem);
      return Ptr(Vaddr(got.page) + ARENA_HEADER), x;
    }

    /** The list of class d is empty: a new page is cut into blocks. */
    method AddArena(d: nat) returns (ok: bool)
      requires Valid() && d < 7 && free[d] == []
      modifies this`arenas, this`free, this`mem, pm
      ensures ok <==> !MallocHalts(old(View()).pages, old(pm.guard), 1)
      ensures ok ==> Grown(old(View()), View(), base, tables, d) && pm.Layout() && Kept(old(View()), old(mem), mem)
      ensures ok ==> NewList(old(View()), View(), d)
    {
      hide HeapInv, MallocHalts, Kept, Mapped, PageInv, Leftmost, NoRun, Grown, PerArena;
      ghost var h := View();
      InvPages(h, base, tables);
      var got;
      ghost var frames;
      got, frames := pm.MallocPage(1, tables);
      if !got.PagesAt? {
        OnePageFound(h.pages, old(pm.guard));
        return false;
      }
      MappedPages(h.pages, pm.State(), got.page, frames);
      arenas := arenas[got.page := Small(d, PerArena(d))];
      ghost var junk: nat -> int := *;
      ghost var before := mem;
      mem := (a: nat) => if Vaddr(got.page) <= a < Vaddr(got.page + 1) then junk(a) else before(a);
      var k := 0;
      while k < PerArena(d)
        modifies this`free
        invariant k <= PerArena(d) && free == h.free[d := AllBlocks(got.page, k)]
      {
        assert Blk(got.page, k) !in free[d];
        assert AllBlocks(got.page, k) + [Blk(got.page, k)] == AllBlocks(got.page, k + 1);
        free := free[d := free[d] + [Blk(got.page, k)]];
        k := k + 1;
      }
      SmallDone(h, View(), base, tables, got.page, d, frames, before, mem);
      return true;
    }

    /** list_pop, memset, cnt-- */
    method TakeFirst(d: nat) returns (addr: nat, ghost x: Slot)
      requires Core(View(), base, tables) && d < 7 && free[d] != [] && pm.Layout() && OnlyIdle(View(), d)
      modifies this`arenas, this`free, this`mem
      ensures Valid() && Allocated(old(View()), View(), x) && Kept(old(View()), old(mem), mem) && Zeroed(x, mem)
      ensures x == FirstSlot(old(View()), d) && addr == Start(x)
      ensures free == old(free)[d := old(free)[d][1..]]
    {
      hide HeapInv, Core, Kept, Zeroed, Allocated, Took, PerArena, OnlyIdle;
      ghost var h := View();
      CoreLists(h, base, tables);
      TakeFacts(h, base, tables, d);
      var b := free[d][0];
      x := SmallSlot(b.page, b.k, d);
      arenas := arenas[b.page := Small(d, arenas[b.page].cnt - 1)];
      free := free[d := free[d][1..]];
      ghost var junk: nat -> int := *;
      ghost var before := mem;
      mem := (a: nat) => if InSlot(x, a) then 0 else if OwnByte(h, a) then junk(a) else before(a);
      TookHere(h, View(), d);
      TakeDone(h, View(), base, tables, d, before, mem);
      return Vaddr(b.page) + ARENA_HEADER + b.k * BlockSize(d), x;
    }

    /** sys_malloc of at most 1024 bytes */
    method MallocSmall(size: nat) returns (r: MallocResult, ghost x: Slot)
      requires Valid() && 0 < size <= 1024
      modifies this`arenas, this`free, this`mem, pm
      ensures r.MallocHalted? <==>
              old(View()).free[DescOf(size)] == [] && MallocHalts(old(View()).pages, old(pm.guard), 1)
      ensures !r.Null? && !r.OffHeap?
      ensures r.Ptr? ==>
              Valid() && Allocated(old(View()), View(), x) && Kept(old(View()), old(mem), mem) && Zeroed(x, mem)
      ensures r.Ptr? ==> TakesSmall(old(View()), View(), x, DescOf(size))
      ensures r.Ptr? ==> x.SmallSlot? && x.desc == DescOf(size) && r.addr == Start(x)
    {
      hide HeapInv, MallocHalts, Kept, Zeroed, Allocated, Grown, Core, OnlyIdle, NewList, Leftmost, PerArena;
      ghost var h, m := View(), mem;
      InvPages(h, base, tables);
      var d := PickDesc(size);
      x := LargeSlot(0, 0);
      if free[d] == [] {
        var ok := AddArena(d);
        if !ok {
          return MallocHalted, x;
        }
        GrownFacts(h, View(), base, tables, d);
      } else {
        IdleNone(h, d);
        KeptSelf(h, mem);
      }
      ghost var g, n := View(), mem;
      var addr;
      addr, x := TakeFirst(d);
      ThroughGrown(h, g, View(), x, m, n, mem);
      if h.free[d] == [] {
        TakesThrough(h, g, View(), d);
      }
      return Ptr(addr), x;
    }

    /** sys_malloc by a kernel thread */
    method SysMalloc(size: nat) returns (r: MallocResult, ghost x: Slot)
      requires Valid()
      modifies this`arenas, this`free, this`mem, pm
      ensures r.MallocHalted? <==> 0 < size < poolSize && MallocStops(old(View()), old(pm.guard), size)
      ensures r.OffHeap? <==>
              && !r.MallocHalted? && 1024 < size < poolSize
              && Overruns(old(View()).pages.vbits, old(pm.guard), LargeCount(size))
      ensures r.Null? <==>
              || size == 0 || size >= poolSize
              || (1024 < size && !r.MallocHalted? && !r.OffHeap? && NoRun(old(View()).pages.vbits, LargeCount(size)))
      ensures r.Null? ==> Valid() && View() == old(View()) && mem == old(mem)
      ensures r.Ptr? ==> Valid() && Allocated(old(View()), View(), x) && Kept(old(View()), old(mem), mem)
      ensures r.Ptr? ==> Zeroed(x, mem) && r.addr == Start(x) && Len(x) >= size
      ensures r.Ptr? ==>
              if size > 1024 then TakesLarge(old(View()), View(), x, size)
              else TakesSmall(old(View()), View(), x, DescOf(size))
      ensures r.Ptr? ==> MallocDone(State(old(View()), old(mem)), State(View(), mem), x, base, tables)
    {
      hide HeapInv, MallocHalts, Kept, Zeroed, Allocated, DescOf, Overruns, NoRun, TakesSmall;
      InvPages(View(), base, tables);
      x := LargeSlot(0, 0);
      if !(size > 0 && size < poolSize) {
        return Null, x;
      }
      if size > 1024 {
        r, x := MallocLarge(size);
      } else {
        r, x := MallocSmall(size);
      }
    }

    /** The loop that takes every block of a fully free arena off the list, then the page goes. */
    method DropSmall(i: nat, d: nat)
      requires Core(View(), base, tables) && pm.Layout() && i in arenas && d < 7 && arenas[i] == Small(d, PerArena(d))
      modifies pm, this`arenas, this`free
      ensures pm.Layout() && Dropped(old(View()), View(), View().pages, i)
    {
      hide Core, Unmapped, PerArena, NoDup, Without, WithoutTo;
      ghost var h := View();
      CoreLists(h, base, tables);
      AllFree(h, base, tables, i, d);
      WithoutNone(h.free[d], i);
      var k := 0;
      while k < PerArena(d)
        modifies this`free
        invariant k <= PerArena(d) && free == h.free[d := WithoutTo(h.free[d], i, k)]
      {
        assert Blk(i, k) in free[d];
        WithoutNext(h.free[d], i, k);
        free := free[d := RemoveBlk(free[d], Blk(i, k))];
        k := k + 1;
      }
      WithoutAll(h.free[d], i, PerArena(d));
      DropPages(i, h);
    }

    /** mfree_page of an arena */
    method DropPages(i: nat, ghost h: Heap)
      requires Core(h, base, tables) && pm.Layout() && i in arenas && arenas == h.arenas && pm.State() == h.pages
      modifies pm, this`arenas
      ensures pm.Layout() && arenas == old(arenas) - {i} && Unmapped(h.pages, View().pages, i, PagesOf(h.arenas[i]))
    {
      hide Core, Unmapped, PageInv;
      ArenaMapped(h, base, tables, i);
      pm.MfreePage(i, PagesOf(arenas[i]), tables);
      UnmappedLayout(h.pages, pm.State(), i, PagesOf(arenas[i]));
      arenas := arenas - {i};
    }

    /** The first half of sys_free for a small block: list_append and ++cnt. */
    method GiveBack(p: nat, k: nat, d: nat)
      requires Valid() && LiveSlot(View(), SmallSlot(p, k, d))
      modifies this`arenas, this`free, this`mem
      ensures Core(View(), base, tables) && Released(old(View()), View(), SmallSlot(p, k, d))
      ensures Kept(View(), old(mem), mem)
      ensures Gave(old(View()), View(), p, k, d)
    {
      hide HeapInv, Core, Kept, Released, PerArena, LiveSlot;
      ghost var h := View();
      InvPages(h, base, tables);
      SlotFacts(h, SmallSlot(p, k, d));
      arenas := arenas[p := Small(d, arenas[p].cnt + 1)];
      free := free[d := free[d] + [Blk(p, k)]];
      ghost var junk: nat -> int := *;
      ghost var g, before := View(), mem;
      mem := (a: nat) => if OwnByte(g, a) then junk(a) else before(a);
      GiveDone(h, g, base, tables, p, k, d, before, mem);
    }

    /** sys_free by a kernel thread, of any pointer that sys_malloc returned and that was not freed since */
    method SysFree(ptr: nat, ghost x: Slot)
      requires Valid() && LiveSlot(View(), x) && ptr == Start(x)
      modifies this`arenas, this`free, this`mem, pm
      ensures Valid() && Released(old(View()), View(), x) && Kept(View(), old(mem), mem)
      ensures FreeDone(State(old(View()), old(mem)), State(View(), mem), x, base, tables)
      ensures GoesBack(old(View()), View(), x)
    {
      hide HeapInv, Core, Kept, Released, PerArena, LiveSlot, Dropped, NoIdle, Gave, Without;
      ghost var h := View();
      InvPages(h, base, tables);
      SlotFacts(h, x);
      PtrArena(h, x);
      assert ptr >= K_HEAP_START;
      var page := (ptr - K_HEAP_START) / PAGE_SIZE;
      match arenas[page]
      case Large(n) =>
        KeptSelf(h, mem);
        DropPages(page, h);
        DroppedLarge(h, View(), base, tables, page, n, mem);
      case Small(d, c) =>
        var k := (ptr - Vaddr(page) - ARENA_HEADER) / BlockSize(d);
        PtrBlock(x);
        GiveBack(page, k, d);
        ghost var g := View();
        GaveFacts(h, g, base, tables, page, k, d);
        if arenas[page].cnt == PerArena(d) {
          DropSmall(page, d);
          DroppedSmall(h, g, View(), base, tables, page, k, d, old(mem), mem);
          DroppedList(h, g, View(), page, k, d);
        } else {
          GaveNoIdle(h, g, base, tables, page, k, d);
          GaveList(h, g, page, k, d);
        }
    }
  }

  lemma SameDesc(size: nat, d: nat)
    requires 0 < size <= 1024 && d < 7 && size <= BlockSize(d) && forall e: nat :: e < d ==> size > BlockSize(e)
    ensures d == DescOf(size)
  {
  }

  lemma InvPages(h: Heap, base: map<nat, nat>, tables: set<nat>)
    requires HeapInv(h, base, tables)
    ensures PageInv(h.pages, tables) && Core(h, base, tables) && NoIdle(h) && |h.free| == 7
  {
  }

  /** The bytes of fresh pages were nobody's. */
  lemma FreshBytes(h: Heap, base: map<nat, nat>, tables: set<nat>, t: PageState, i: nat, frames: seq<nat>, a: nat)
    requires Core(h, base, tables) && |frames| >= 1 && Mapped(h.pages, t, i, frames)
    requires Vaddr(i) <= a < Vaddr(i + |frames|)
    ensures !LiveByte(h, a)
  {
    hide PageInv, ListOk, CountOn, Mapped, PerArena;
    FreshPages(h, base, tables, t, i, frames);
    forall x: Slot | LiveSlot(h, x) ensures !InSlot(x, a) {
      SlotPlace(h, x);
      OnePageEach(h, base, tables, x.page);
      AwayFrom(h, x.page, i, |frames|);
    }
  }

  /** Pages that no arena covers are before or behind every arena. */
  lemma AwayFrom(h: Heap, j: nat, i: nat, n: nat)
    requires j in h.arenas && PagesOf(h.arenas[j]) >= 1 && n >= 1 && forall p: nat :: i <= p < i + n ==> !Covered(h, p)
    ensures j + PagesOf(h.arenas[j]) <= i || i + n <= j
  {
    if i <= j {
      assert Inside(h, j, j) && Covered(h, j);
    } else {
      NotInside(h, j, i);
    }
  }

  lemma NotInside(h: Heap, j: nat, p: nat)
    requires !Covered(h, p)
    ensures !Inside(h, j, p)
  {
  }

  lemma LargeDone(h: Heap, g: Heap, base: map<nat, nat>, tables: set<nat>, i: nat, frames: seq<nat>, before: nat -> int,
                  after: nat -> int)
    requires HeapInv(h, base, tables) && NewLarge(h, g, g.pages, i, frames)
    requires forall a: nat :: after(a) == if Vaddr(i) <= a < Vaddr(i + |frames|) then 0 else before(a)
    ensures HeapInv(g, base, tables) && Allocated(h, g, LargeSlot(i, |frames|)) && Kept(h, before, after)
    ensures Zeroed(LargeSlot(i, |frames|), after)
  {
    hide Core, LiveSlot, LiveByte, Mapped;
    NewLargeCore(h, g, base, tables, g.pages, i, frames);
    MappedPages(h.pages, g.pages, i, frames);
    forall y: Slot ensures LiveSlot(g, y) <==> LiveSlot(h, y) || y == LargeSlot(i, |frames|) {
      NewLargeLive(h, g, g.pages, i, frames, y);
    }
    NotLiveYet(h, LargeSlot(i, |frames|));
    forall a: nat | LiveByte(h, a) ensures after(a) == before(a) {
      if Vaddr(i) <= a < Vaddr(i + |frames|) {
        FreshBytes(h, base, tables, g.pages, i, frames, a);
      }
    }
  }

  lemma NotLiveYet(h: Heap, x: Slot)
    requires x.page !in h.arenas
    ensures !LiveSlot(h, x)
  {
  }

  /** Only an arena of class d, the one just made, may be fully free. */
  ghost predicate OnlyIdle(h: Heap, d: nat) {
    && d < |h.free|
    && (forall i :: i in h.arenas && h.arenas[i].Small? ==>
        h.arenas[i].desc < 7 && h.arenas[i].cnt <= PerArena(h.arenas[i].desc))
    && (forall i :: i in h.arenas && h.arenas[i].Small? && (h.free[d] == [] || i != h.free[d][0].page) ==>
        h.arenas[i].cnt < PerArena(h.arenas[i].desc))
  }

  /** A fresh arena stands behind the list of class d; nothing became live. */
  ghost predicate Grown(h: Heap, g: Heap, base: map<nat, nat>, tables: set<nat>, d: nat) {
    SameSize(h, g) && Core(g, base, tables) && OnlyIdle(g, d) && g.free[d] != [] && forall y: Slot ::
        LiveSlot(g, y) <==> LiveSlot(h, y)
  }

  lemma GrownFacts(h: Heap, g: Heap, base: map<nat, nat>, tables: set<nat>, d: nat)
    requires Grown(h, g, base, tables, d)
    ensures SameSize(h, g) && Core(g, base, tables) && OnlyIdle(g, d) && d < |g.free| && g.free[d] != []
    ensures forall y: Slot :: LiveSlot(g, y) <==> LiveSlot(h, y)
  {
    hide Core, LiveSlot;
  }

  lemma IdleNone(h: Heap, d: nat)
    requires NoIdle(h) && d < |h.free|
    ensures OnlyIdle(h, d)
  {
    hide PerArena;
  }

  lemma KeptSelf(h: Heap, mem: nat -> int)
    ensures Kept(h, mem, mem)
  {
  }

  /** A scan for one page either halts or finds it. */
  lemma OnePageFound(s: PageState, guard: bool)
    ensures NoRun(s.vbits, 1) ==> MallocHalts(s, guard, 1)
  {
    hide O.CountClear;
    var k := FirstClear(s.vbits);
    assert k < |s.vbits| ==> ClearRun(s.vbits, k, 1);
  }

  lemma SmallDone(h: Heap, g: Heap, base: map<nat, nat>, tables: set<nat>, i: nat, d: nat, frames: seq<nat>,
                  before: nat -> int, after: nat -> int)
    requires HeapInv(h, base, tables) && NewSmall(h, g, g.pages, i, d, frames)
    requires forall a: nat :: !(Vaddr(i) <= a < Vaddr(i + 1)) ==> after(a) == before(a)
    ensures Grown(h, g, base, tables, d) && Kept(h, before, after)
  {
    hide LiveSlot, LiveByte, Mapped, PageInv, PagesOk, CountOn, PerArena;
    NewSmallCore(h, g, base, tables, g.pages, i, d, frames);
    MappedPages(h.pages, g.pages, i, frames);
    forall e: nat, b: Blk | e < 7 && b in h.free[e] ensures InDesc(h, b, e) {
      assert ListOk(h, e);
    }
    forall y: Slot ensures LiveSlot(g, y) <==> LiveSlot(h, y) {
      NewSmallLive(h, g, g.pages, i, d, frames, y);
    }
    forall a: nat | LiveByte(h, a) ensures after(a) == before(a) {
      if Vaddr(i) <= a < Vaddr(i + 1) {
        FreshBytes(h, base, tables, g.pages, i, frames, a);
      }
    }
    assert g.free[d][0] == Blk(i, 0);
  }

  lemma TakeFacts(h: Heap, base: map<nat, nat>, tables: set<nat>, d: nat)
    requires Core(h, base, tables) && d < 7 && |h.free| == 7 && h.free[d] != []
    ensures var b := h.free[d][0]; InDesc(h, b, d) && h.arenas[b.page].cnt >= 1 && NoDup(h.free[d])
  {
    hide Core, CountOn;
    FirstBlock(h, base, tables, d);
  }

  lemma CoreLists(h: Heap, base: map<nat, nat>, tables: set<nat>)
    requires Core(h, base, tables)
    ensures |h.free| == 7
  {
  }

  lemma TookHere(h: Heap, g: Heap, d: nat)
    requires |h.free| == 7 && d < 7 && |h.free[d]| > 0 && InDesc(h, h.free[d][0], d)
    requires h.arenas[h.free[d][0].page].cnt >= 1
    requires g.arenas == h.arenas[h.free[d][0].page := Small(d, h.arenas[h.free[d][0].page].cnt - 1)]
    requires g.free == h.free[d := h.free[d][1..]] && g.pages == h.pages
    ensures Took(h, g, d)
  {
    hide PerArena;
  }

  lemma TakeDone(h: Heap, g: Heap, base: map<nat, nat>, tables: set<nat>, d: nat, before: nat -> int, after: nat -> int)
    requires Core(h, base, tables) && OnlyIdle(h, d) && Took(h, g, d) && InDesc(h, h.free[d][0], d) && NoDup(h.free[d])
    requires var x := SmallSlot(h.free[d][0].page, h.free[d][0].k, d);
             forall a: nat :: (InSlot(x, a) ==> after(a) == 0)
                 && (!InSlot(x, a) && !OwnByte(h, a) ==> after(a) == before(a))
    ensures var x := SmallSlot(h.free[d][0].page, h.free[d][0].k, d);
            HeapInv(g, base, tables) && Allocated(h, g, x) && Kept(h, before, after) && Zeroed(x, after)
  {
    hide Core, LiveByte, OwnByte, NoDup, PerArena, LiveSlot;
    var x := SmallSlot(h.free[d][0].page, h.free[d][0].k, d);
    TookCore(h, g, base, tables, d);
    TookNoIdle(h, g, d);
    forall y: Slot ensures LiveSlot(g, y) <==> LiveSlot(h, y) || y == x {
      TookLive(h, g, d, y);
    }
    TookLive(h, g, d, x);
    forall a: nat | LiveByte(h, a) ensures after(a) == before(a) {
      OwnNotLive(h, base, tables, a);
      FreeIsOwn(h, x, a);
    }
  }

  lemma FreeIsOwn(h: Heap, x: Slot, a: nat)
    requires Exists(h, x) && !LiveSlot(h, x)
    ensures InSlot(x, a) ==> OwnByte(h, a)
  {
  }

  /** Growing first changes nothing that matters to the caller. */
  lemma ThroughGrown(h: Heap, g: Heap, f: Heap, x: Slot, m: nat -> int, n: nat -> int, o: nat -> int)
    requires SameSize(h, g) && (forall y: Slot :: LiveSlot(g, y) <==> LiveSlot(h, y)) && Kept(h, m, n)
    requires Allocated(g, f, x) && Kept(g, n, o)
    ensures Allocated(h, f, x) && Kept(h, m, o)
  {
    hide PerArena;
    forall a: nat | LiveByte(h, a) ensures LiveByte(g, a) {
      var y: Slot :| LiveSlot(h, y) && InSlot(y, a);
      assert LiveSlot(g, y);
    }
  }

  // ---------------------------------------------------------------- sys_free

  lemma ArenaMapped(h: Heap, base: map<nat, nat>, tables: set<nat>, i: nat)
    requires Core(h, base, tables) && i in h.arenas
    ensures PageInv(h.pages, tables) && PagesOf(h.arenas[i]) >= 1
    ensures forall p: nat :: i <= p < i + PagesOf(h.arenas[i]) ==> p in h.pages.ptes
  {
    hide PageInv, ListOk, CountOn, PagesOf;
    OnePageEach(h, base, tables, i);
    forall p: nat | i <= p < i + PagesOf(h.arenas[i]) ensures p in h.pages.ptes {
      assert Inside(h, i, p);
    }
  }

  lemma UnmappedLayout(s: PageState, t: PageState, i: nat, n: nat)
    requires Unmapped(s, t, i, n)
    ensures |t.kbits| == |s.kbits| && |t.vbits| == |s.vbits|
  {
    hide SetRun, WithoutPages;
  }

  /** What the ASSERT in the removal loop of sys_free says: with a full count every block is on the list. */
  lemma AllFree(h: Heap, base: map<nat, nat>, tables: set<nat>, i: nat, d: nat)
    requires Core(h, base, tables) && i in h.arenas && d < 7 && h.arenas[i] == Small(d, PerArena(d))
    ensures forall k: nat :: k < PerArena(d) ==> Blk(i, k) in h.free[d]
    ensures NoDup(h.free[d]) && forall b: Blk :: b in h.free[d] && b.page == i ==> b.k < PerArena(d)
  {
    hide PageInv, PagesOk, PerArena, CountOn;
    assert ArenaOk(h, i) && ListOk(h, d);
    CountFull(h.free[d], i, PerArena(d));
    forall b: Blk | b in h.free[d] && b.page == i ensures b.k < PerArena(d) {
      assert InDesc(h, b, d);
    }
  }

  lemma SlotFacts(h: Heap, x: Slot)
    requires LiveSlot(h, x)
    ensures Exists(h, x) && x.page in h.arenas
    ensures (x.SmallSlot? ==> x.desc < 7 && x.desc < |h.free| && x.k < PerArena(x.desc))
    ensures x.SmallSlot? ==> h.arenas[x.page].Small? && h.arenas[x.page].desc == x.desc
    ensures x.LargeSlot? ==> h.arenas[x.page] == Large(x.count)
  {
    hide PerArena;
  }

  lemma PtrArena(h: Heap, x: Slot)
    requires Exists(h, x)
    ensures Start(x) >= K_HEAP_START && (Start(x) - K_HEAP_START) / PAGE_SIZE == x.page
  {
    if x.SmallSlot? {
      SmallPlace(x);
    }
    BlockToArena(h, x);
  }

  lemma PtrBlock(x: Slot)
    requires x.SmallSlot? && x.desc < 7
    ensures (Start(x) - Vaddr(x.page) - ARENA_HEADER) / BlockSize(x.desc) == x.k
  {
    var k := x.k;
    assert k * 16 / 16 == k && k * 32 / 32 == k && k * 64 / 64 == k && k * 128 / 128 == k;
    assert k * 256 / 256 == k && k * 512 / 512 == k && k * 1024 / 1024 == k;
  }

  lemma GiveDone(h: Heap, g: Heap, base: map<nat, nat>, tables: set<nat>, p: nat, k: nat, d: nat, before: nat -> int,
                 after: nat -> int)
    requires Core(h, base, tables) && LiveSlot(h, SmallSlot(p, k, d)) && Gave(h, g, p, k, d)
    requires forall a: nat :: !OwnByte(g, a) ==> after(a) == before(a)
    ensures Core(g, base, tables) && Released(h, g, SmallSlot(p, k, d)) && Kept(g, before, after)
  {
    hide Core, LiveSlot, OwnByte, LiveByte, PerArena;
    GaveCore(h, g, base, tables, p, k, d);
    forall y: Slot ensures LiveSlot(g, y) <==> LiveSlot(h, y) && y != SmallSlot(p, k, d) {
      GaveLive(h, g, p, k, d, y);
    }
    forall a: nat | LiveByte(g, a) ensures after(a) == before(a) {
      OwnNotLive(g, base, tables, a);
    }
  }

  lemma GaveFacts(h: Heap, g: Heap, base: map<nat, nat>, tables: set<nat>, p: nat, k: nat, d: nat)
    requires Core(h, base, tables) && LiveSlot(h, SmallSlot(p, k, d)) && Gave(h, g, p, k, d)
    ensures d < 7 && p in g.arenas && g.arenas[p].Small? && g.arenas[p].desc == d && g.arenas[p].cnt <= PerArena(d)
  {
    hide Core, LiveSlot, PerArena;
    GaveCore(h, g, base, tables, p, k, d);
  }

  lemma GaveList(h: Heap, g: Heap, p: nat, k: nat, d: nat)
    requires Gave(h, g, p, k, d)
    ensures GoesBack(h, g, SmallSlot(p, k, d))
  {
  }

  lemma DroppedList(h: Heap, g: Heap, f: Heap, p: nat, k: nat, d: nat)
    requires Gave(h, g, p, k, d) && Dropped(g, f, f.pages, p)
    ensures GoesBack(h, f, SmallSlot(p, k, d))
  {
    hide Unmapped, Without, PerArena;
    assert f.free == h.free[d := Without(h.free[d] + [Blk(p, k)], p)];
  }

  lemma GaveNoIdle(h: Heap, g: Heap, base: map<nat, nat>, tables: set<nat>, p: nat, k: nat, d: nat)
    requires NoIdle(h) && Gave(h, g, p, k, d) && g.arenas[p].cnt < PerArena(d) && Core(g, base, tables)
    ensures HeapInv(g, base, tables)
  {
    hide PerArena, Core;
  }

  lemma DroppedLarge(h: Heap, g: Heap, base: map<nat, nat>, tables: set<nat>, i: nat, n: nat, mem: nat -> int)
    requires HeapInv(h, base, tables) && i in h.arenas && h.arenas[i] == Large(n)
    requires g.arenas == h.arenas - {i} && g.free == h.free && Unmapped(h.pages, g.pages, i, PagesOf(h.arenas[i]))
    ensures HeapInv(g, base, tables) && Released(h, g, LargeSlot(i, n)) && Kept(g, mem, mem)
  {
    hide LiveSlot, Unmapped, PerArena, PageInv, PagesOk, ListOk, ArenaOk;
    assert Dropped(h, g, g.pages, i);
    DroppedCore(h, g, base, tables, g.pages, i);
    forall y: Slot ensures LiveSlot(g, y) <==> LiveSlot(h, y) && y != LargeSlot(i, n) {
      DroppedLive(h, g, base, tables, g.pages, i, y);
    }
    LargeLive(h, i, n);
    UnmappedLayout(h.pages, g.pages, i, PagesOf(h.arenas[i]));
    KeptSelf(g, mem);
  }

  lemma LargeLive(h: Heap, i: nat, n: nat)
    requires i in h.arenas && h.arenas[i] == Large(n)
    ensures LiveSlot(h, LargeSlot(i, n))
  {
  }

  lemma DroppedSmall(h: Heap, g: Heap, f: Heap, base: map<nat, nat>, tables: set<nat>, p: nat, k: nat, d: nat,
                     before: nat -> int, after: nat -> int)
    requires NoIdle(h) && Gave(h, g, p, k, d) && Core(g, base, tables) && Released(h, g, SmallSlot(p, k, d))
    requires Kept(g, before, after)
    requires p in g.arenas && g.arenas[p].Small? && Dropped(g, f, f.pages, p)
    ensures HeapInv(f, base, tables) && Released(h, f, SmallSlot(p, k, d)) && Kept(f, before, after)
  {
    DroppedIdle(h, g, f, p, k, d);
    UnmappedLayout(g.pages, f.pages, p, 1);
    hide LiveSlot, Core, PerArena, Dropped, Gave, NoIdle;
    DroppedCore(g, f, base, tables, f.pages, p);
    forall y: Slot ensures LiveSlot(f, y) <==> LiveSlot(g, y) {
      DroppedLive(g, f, base, tables, f.pages, p, y);
    }
    SameLiveBytes(g, f, before, after);
  }

  lemma SameLiveBytes(g: Heap, f: Heap, before: nat -> int, after: nat -> int)
    requires (forall y: Slot :: LiveSlot(f, y) <==> LiveSlot(g, y)) && Kept(g, before, after)
    ensures Kept(f, before, after)
  {
    hide PerArena;
    forall a: nat | LiveByte(f, a) ensures LiveByte(g, a) {
      var y: Slot :| LiveSlot(f, y) && InSlot(y, a);
      assert LiveSlot(g, y);
    }
  }

  lemma DroppedIdle(h: Heap, g: Heap, f: Heap, p: nat, k: nat, d: nat)
    requires NoIdle(h) && Gave(h, g, p, k, d) && Dropped(g, f, f.pages, p)
    ensures NoIdle(f)
  {
    hide PerArena, Unmapped, Without;
  }

  // ---------------------------------------------------------------- runs

  /** What the kernel's heap and memory look like between two calls. */
  datatype State = State(heap: Heap, mem: nat -> int)

  /** Store: the owner of a block in use writes to it. */
  datatype Op = Malloc(x: Slot) | Free(x: Slot) | Store(x: Slot)

  /** What a successful SysMalloc promises. */
  ghost predicate MallocDone(s: State, t: State, x: Slot, base: map<nat, nat>, tables: set<nat>) {
    HeapInv(s.heap, base, tables) ==>
      HeapInv(t.heap, base, tables) && Allocated(s.heap, t.heap, x) && Kept(s.heap, s.mem, t.mem) && Zeroed(x, t.mem)
  }

  /** What SysFree promises for the pointer of a block in use. */
  ghost predicate FreeDone(s: State, t: State, x: Slot, base: map<nat, nat>, tables: set<nat>) {
    && LiveSlot(s.heap, x)
    && (HeapInv(s.heap, base, tables) ==>
          HeapInv(t.heap, base, tables) && Released(s.heap, t.heap, x) && Kept(t.heap, s.mem, t.mem))
  }

  ghost predicate StoreDone(s: State, t: State, x: Slot) {
    LiveSlot(s.heap, x) && t.heap == s.heap && forall a: nat :: !InSlot(x, a) ==> t.mem(a) == s.mem(a)
  }

  /** The blocks handed out and not returned in a run that starts with nothing in use. */
  function LiveAfter(ops: seq<Op>): set<Slot> {
    if ops == [] then {}
    else
      var before := LiveAfter(ops[..|ops| - 1]);
      match ops[|ops| - 1] case Malloc(x) => before + {x} case Free(x) => before - {x} case Store(_) => before
  }

  ghost predicate OpAt(states: seq<State>, ops: seq<Op>, base: map<nat, nat>, tables: set<nat>, i: nat)
    requires |states| == |ops| + 1 && i < |ops|
  {
    match ops[i]
    case Malloc(x) => MallocDone(states[i], states[i + 1], x, base, tables)
    case Free(x) => FreeDone(states[i], states[i + 1], x, base, tables)
    case Store(x) => StoreDone(states[i], states[i + 1], x)
  }

  /** A sequence of successful sys_malloc and sys_free calls and of writes to blocks in use. */
  ghost predicate Run(states: seq<State>, ops: seq<Op>, base: map<nat, nat>, tables: set<nat>) {
    && |states| == |ops| + 1 && HeapInv(states[0].heap, base, tables)
    && forall i: nat :: i < |ops| ==> OpAt(states, ops, base, tables, i)
  }

  /** The invariant holds in every state: cnt is the number of free blocks, and no arena is fully free. */
  lemma {:induction false} RunInv(states: seq<State>, ops: seq<Op>, base: map<nat, nat>, tables: set<nat>, i: nat)
    requires Run(states, ops, base, tables) && i < |states|
    ensures HeapInv(states[i].heap, base, tables)
  {
    if i > 0 {
      hide HeapInv, Allocated, Released, Kept, Zeroed, LiveSlot;
      RunInv(states, ops, base, tables, i - 1);
      assert OpAt(states, ops, base, tables, i - 1);
    }
  }

  /** In every state of every run blocks in use are pairwise apart, clear of every arena header and inside the heap. */
  lemma RunApart(states: seq<State>, ops: seq<Op>, base: map<nat, nat>, tables: set<nat>, i: nat, x: Slot, y: Slot,
                 p: nat)
    requires Run(states, ops, base, tables) && i < |states|
    requires LiveSlot(states[i].heap, x) && LiveSlot(states[i].heap, y) && x != y && p in states[i].heap.arenas
    ensures Apart(Start(x), Len(x), Start(y), Len(y)) && Apart(Vaddr(p), ARENA_HEADER, Start(x), Len(x))
  {
    hide Run, HeapInv, LiveSlot, Core, Apart;
    var h := states[i].heap;
    RunInv(states, ops, base, tables, i);
    InvPages(h, base, tables);
    SlotFacts(h, x);
    SlotFacts(h, y);
    PlacesApart(h, base, tables, x, y);
    HeadersApart(h, base, tables, p, x);
  }

  /** One operation leaves a block in use alone, its bytes with it, unless it frees that block or writes to it. */
  lemma OpKeeps(s: State, t: State, op: Op, base: map<nat, nat>, tables: set<nat>, x: Slot, a: nat)
    requires HeapInv(s.heap, base, tables) && LiveSlot(s.heap, x) && InSlot(x, a) && op != Free(x) && op != Store(x)
    requires match op
             case Malloc(y) => MallocDone(s, t, y, base, tables)
             case Free(y) => FreeDone(s, t, y, base, tables)
             case Store(y) => StoreDone(s, t, y)
    ensures LiveSlot(t.heap, x) && t.mem(a) == s.mem(a)
  {
    hide HeapInv, LiveSlot, Zeroed, SameSize, Core;
    match op
    case Malloc(y) => assert LiveByte(s.heap, a);
    case Free(y) => assert LiveSlot(t.heap, x) && LiveByte(t.heap, a);
    case Store(y) =>
      InvPages(s.heap, base, tables);
      SlotFacts(s.heap, x);
      SlotFacts(s.heap, y);
      PlacesApart(s.heap, base, tables, x, y);
  }

  /** From its sys_malloc to its sys_free a block is in use and its bytes change only when its owner writes to it. */
  lemma {:induction false} RunContents(states: seq<State>, ops: seq<Op>, base: map<nat, nat>, tables: set<nat>, i: nat,
                                       j: nat, x: Slot, a: nat)
    requires Run(states, ops, base, tables) && i <= j < |states| && LiveSlot(states[i].heap, x) && InSlot(x, a)
    requires forall k: nat :: i <= k < j ==> ops[k] != Free(x) && ops[k] != Store(x)
    ensures LiveSlot(states[j].heap, x) && states[j].mem(a) == states[i].mem(a)
    decreases j - i
  {
    if i < j {
      hide HeapInv, LiveSlot, MallocDone, FreeDone, StoreDone;
      RunContents(states, ops, base, tables, i, j - 1, x, a);
      RunInv(states, ops, base, tables, j - 1);
      assert OpAt(states, ops, base, tables, j - 1);
      OpKeeps(states[j - 1], states[j], ops[j - 1], base, tables, x, a);
    }
  }

  /** A fresh block is in use and reads as zeros until its owner writes to it. */
  lemma RunZeroed(states: seq<State>, ops: seq<Op>, base: map<nat, nat>, tables: set<nat>, i: nat, j: nat, x: Slot,
                  a: nat)
    requires Run(states, ops, base, tables) && i < j < |states| && ops[i] == Malloc(x)
    requires (x.SmallSlot? ==> x.desc < 7) && InSlot(x, a)
    requires forall k: nat :: i < k < j ==> ops[k] != Free(x) && ops[k] != Store(x)
    ensures LiveSlot(states[j].heap, x) && states[j].mem(a) == 0
  {
    hide HeapInv, LiveSlot, Kept, SameSize;
    RunInv(states, ops, base, tables, i);
    assert OpAt(states, ops, base, tables, i);
    RunContents(states, ops, base, tables, i + 1, j, x, a);
  }

  lemma RunPrefix(states: seq<State>, ops: seq<Op>, base: map<nat, nat>, tables: set<nat>, n: nat)
    requires Run(states, ops, base, tables) && n < |ops|
    ensures Run(states[..n + 1], ops[..n], base, tables) && OpAt(states, ops, base, tables, n)
  {
    hide MallocDone, FreeDone, StoreDone, HeapInv;
    var earlier, before := states[..n + 1], ops[..n];
    forall i: nat | i < n ensures OpAt(earlier, before, base, tables, i) {
      assert OpAt(states, ops, base, tables, i);
    }
  }

  /** The live places at the end of a run are exactly those the run's own history says. */
  lemma {:induction false} RunLive(states: seq<State>, ops: seq<Op>, base: map<nat, nat>, tables: set<nat>, x: Slot)
    requires Run(states, ops, base, tables) && forall y: Slot :: !LiveSlot(states[0].heap, y)
    ensures LiveSlot(states[|ops|].heap, x) <==> x in LiveAfter(ops)
  {
    hide LiveSlot, HeapInv, Kept, Zeroed;
    if ops != [] {
      var n := |ops| - 1;
      RunPrefix(states, ops, base, tables, n);
      RunInv(states, ops, base, tables, n);
      RunLive(states[..n + 1], ops[..n], base, tables, x);
    }
  }

  /** After any run in which everything was freed again, both kernel bitmaps are what they were. */
  lemma RunRestores(states: seq<State>, ops: seq<Op>, base: map<nat, nat>, tables: set<nat>)
    requires Run(states, ops, base, tables) && (forall y: Slot :: !LiveSlot(states[0].heap, y)) && LiveAfter(ops) == {}
    ensures states[|ops|].heap.pages == states[0].heap.pages
  {
    hide LiveSlot, HeapInv, LiveAfter, MallocDone, FreeDone, StoreDone;
    RunInv(states, ops, base, tables, |ops|);
    RunSize(states, ops, base, tables);
    forall x: Slot ensures !LiveSlot(states[|ops|].heap, x) {
      RunLive(states, ops, base, tables, x);
    }
    AllFreedRestores(states[0].heap, states[|ops|].heap, base, tables);
  }

  lemma {:induction false} RunSize(states: seq<State>, ops: seq<Op>, base: map<nat, nat>, tables: set<nat>)
    requires Run(states, ops, base, tables)
    ensures SameSize(states[0].heap, states[|ops|].heap)
  {
    hide LiveSlot, Exists, HeapInv, Kept, Zeroed;
    if ops != [] {
      var n := |ops| - 1;
      RunPrefix(states, ops, base, tables, n);
      RunInv(states, ops, base, tables, n);
      RunSize(states[..n + 1], ops[..n], base, tables);
    }
  }
}
