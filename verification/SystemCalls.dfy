// The calls on a mounted partition, one by one: in a whole partition the code's preconditions hold, and what it
// leaves is the step that Histories has for the call.

module SystemCalls {
  import opened Disk
  import opened Bitmaps
  import opened Ownership
  import opened Records
  import opened FileSystem
  import opened Entries
  import opened Files
  import opened FsRuns
  import opened Trees
  import opened TreeRuns
  import opened Histories
  import D = Directories
  import M = MakeDir
  import P = Paths
  import U = Unlink

  /** The kernel's variables are those of the mount. */
  ghost predicate Is(p: Partition, m: Mount)
    reads p
  {
    && p.State() == View(m).fs && p.synced == m.slots && p.open == m.open.Keys
    && U.InodeBits(p.ibits, p.inodes) && |p.ibits| == 4096
  }

  /** What every call relies on. */
  lemma Ready(p: Partition, m: Mount)
    requires MountInv(m) && Is(p, m)
    ensures OwnInv(p.State()) && U.RootOwns(p.State()) && RootBit(p.bits) && p.inodes.Keys == m.used
    ensures forall i :: i in m.used ==> U.OwnSlot(p.synced, p.inodes, i) && p.inodes[i] == RecordOf(m, i).inode
    ensures forall i :: i in m.used ==> i < 256 && i < |p.ibits| && RecordOf(m, i).no == i
    ensures 0 in m.dirs && m.dirs <= m.used
  {
    hide WorldInv, Rooted, OwnInv, U.RootOwns, HighZero, RootBit;
    InvParts(m);
    WorldRoot(View(m));
    RootBitSet(View(m).fs);
    forall i | i in m.used ensures i < 256 && RecordOf(m, i).no == i {
      NumbersSmall(m, i);
    }
  }

  lemma WorldRoot(w: World)
    requires WorldInv(w)
    ensures OwnInv(w.fs) && U.RootOwns(w.fs) && 0 in w.dirs
  {
    hide OwnInv, U.RootOwns, InodeOk, NoCommonChild;
  }

  /** The root's first block is block 0. */
  lemma RootBitSet(fs: Fs)
    requires OwnInv(fs) && U.RootOwns(fs)
    ensures RootBit(fs.bits)
  {
    hide OwnInv, Distinct, BitsExact, Owns, Placed;
    StartPositive(fs);
    D.HoleBlock(fs.disk, fs.inodes[0], 0);
    D.OwnsBlock(fs.disk, fs.inodes[0], 0);
    InodeParts(fs, 0);
    PlacedBlock(fs, fs.inodes[0], fs.dataStart);
  }

  lemma StartPositive(fs: Fs)
    requires OwnInv(fs)
    ensures fs.dataStart > 0
  {
    hide Distinct, BitsExact, Placed, Apart;
  }

  lemma FileReady(m: Mount, i: nat)
    requires MountInv(m) && i in m.used && i !in m.dirs
    ensures i in View(m).fs.inodes && FileOk(m.disk, View(m).fs.inodes[i])
  {
    hide WorldInv, Rooted, HighZero, SlotsAgree, FileOk;
    InvParts(m);
    WorldParts(View(m));
    assert InodeOk(View(m), i);
  }

  /** What stops the kernel in a write that is not too big: a size of exactly 140 blocks, or too few free ones. */
  ghost predicate NoRoomFor(m: Mount, i: nat, count: nat) {
    RecordOf(m, i).inode.size + count == 71680 || CountClear(m.bits) < Needed(RecordOf(m, i).inode, count)
  }

  /** Every inode number is in use. */
  ghost predicate NoNumber(m: Mount) {
    forall i: nat :: i < 4096 ==> i in m.used
  }

  lemma ViewBits(m: Mount)
    ensures View(m).fs.bits == m.bits && View(m).fs.disk == m.disk
  {
  }

  /** sys_write */
  method Write(p: Partition, f: OpenFile, buf: seq<Byte>, ghost m: Mount) returns (r: WriteResult, ghost n: Mount)
    requires MountInv(m) && Is(p, m) && f.ino in m.open && f.ino !in m.dirs && |buf| <= 0xc000_0000
    modifies p`bits, p`disk, p`inodes, p`synced, f`pos
    ensures r.Written? ==> r.count == |buf| && StepBy(m, Call.Write(f.ino, buf), n) && MountInv(n) && Is(p, n)
    ensures r.TooBig? <==> RecordOf(m, f.ino).inode.size + |buf| > 71680
    ensures r.TooBig? ==> n == m && Is(p, m) && f.pos == old(f.pos)
    ensures r.WriteHalted? <==> !r.TooBig? && NoRoomFor(m, f.ino, |buf|)
    ensures r.Written? ==> f.pos == Wrap(RecordOf(m, f.ino).inode.size + |buf| - 1)
  {
    hide MountInv, OwnInv, RootBit, View, FileOk, Wrote, U.InodeBits, U.OwnSlot, Synced, StepBy, After, Refreshed,
         CountClear, Needed, Wrap;
    Ready(p, m);
    ViewBits(m);
    InvParts(m);
    FileReady(m, f.ino);
    n := m;
    ghost var before := p.inodes;
    r := p.FileWrite(f, buf);
    if r.Written? {
      ghost var g := p.State();
      WroteKeys(View(m).fs, g, f.ino, buf);
      n := After(m, g, m.dirs, p.synced, Refreshed(m.open, g));
      WriteStep(m, n, f.ino, buf, g);
      SameKeys(p.ibits, before, p.inodes);
    }
  }

  lemma WriteStep(m: Mount, n: Mount, i: nat, buf: seq<Byte>, g: Fs)
    requires MountInv(m) && i in m.open && i !in m.dirs && Wrote(View(m).fs, g, i, buf) && i in g.inodes
    requires n == After(m, g, m.dirs, Synced(m.slots, i, g.inodes[i]), Refreshed(m.open, g))
    ensures StepBy(m, Call.Write(i, buf), n) && MountInv(n) && View(n).fs == g
    ensures n.slots == Synced(m.slots, i, g.inodes[i]) && n.open.Keys == m.open.Keys
  {
    hide MountInv, Wrote, View, Synced;
    assert WriteBy(m, n, i, buf, g);
    WriteKeeps(m, n, i, buf, g);
  }

  lemma WroteKeys(fs: Fs, gs: Fs, i: nat, buf: seq<Byte>)
    requires Wrote(fs, gs, i, buf)
    ensures gs.inodes.Keys == fs.inodes.Keys && i in gs.inodes
  {
    hide OwnInv, FileOk, Contents, OthersKept;
  }

  lemma SameKeys(ibits: seq<bool>, a: map<nat, Inode>, b: map<nat, Inode>)
    requires U.InodeBits(ibits, a) && a.Keys == b.Keys
    ensures U.InodeBits(ibits, b)
  {
  }

  /** The lowest clear bit of the inode bitmap. */
  lemma LowestBit(m: Mount, ibits: seq<bool>, inodes: map<nat, Inode>)
    requires U.InodeBits(ibits, inodes) && |ibits| == 4096 && inodes.Keys == m.used && FirstClear(ibits) < 4096
    ensures Lowest(m, FirstClear(ibits))
  {
    hide FirstClear;
  }

  /** A path that may be created meets what file_create and sys_mkdir need. */
  lemma CreateReady(m: Mount, path: seq<Byte>, dir: nat)
    requires MountInv(m) && PathOk(path) && SearchIn(m, path) == Search.Missing(dir, |P.Components(path)|)
    requires exists ino: nat :: Lowest(m, ino)
    ensures dir in m.dirs && dir in m.used && dir in View(m).fs.inodes && RecordOf(m, dir).no == dir
    ensures D.DirOk(m.disk, View(m).fs.inodes[dir]) && U.LeadsInside(View(m).fs, dir)
    ensures U.Nameless(View(m).fs, dir, LastName(path))
    ensures 1 <= |LastName(path)| <= 15 && 0 !in LastName(path)
  {
    hide MountInv, WorldInv, Rooted, SearchIn, LastName, View, D.DirOk, U.LeadsInside, U.Nameless;
    var ino: nat :| Lowest(m, ino);
    InvParts(m);
    CreateParent(m, path, dir);
    NumbersSmall(m, dir);
    CreatePath(m, path, dir, ino);
    GoodDirectory(View(m), dir);
    ViewDisk(m);
  }

  lemma ViewDisk(m: Mount)
    ensures View(m).fs.disk == m.disk && View(m).dirs == m.dirs
  {
  }

  /** The parent that search_file reports is a directory. */
  lemma CreateParent(m: Mount, path: seq<Byte>, dir: nat)
    requires MountInv(m) && PathOk(path) && SearchIn(m, path) == Search.Missing(dir, |P.Components(path)|)
    ensures dir in m.used
  {
    hide WorldInv, TreeOk, EntriesFit, HighZero, SlotsAgree, P.Components, NamesFit, Walk, D.EntriesOf, Live, Name;
    InvParts(m);
    var t, cs := TreeIn(m), P.Components(path);
    var depth: nat -> nat :| TreeOk(t, depth);
    RootThere(t, depth);
    WalkFacts(t, depth, 0, 0, cs, 0);
  }

  /** sys_open of a new file */
  method Create(p: Partition, path: seq<Byte>, dir: nat, ghost m: Mount) returns (r: U.CreateResult, ghost n: Mount)
    requires MountInv(m) && Is(p, m) && PathOk(path) && path[|path| - 1] != P.Slash()
    requires SearchIn(m, path) == Search.Missing(dir, |P.Components(path)|)
    modifies p`bits, p`ibits, p`disk, p`inodes, p`synced, p`open
    ensures !r.CreateHalted? ==>
            StepBy(m, Call.Create(path), n) && (Careful(m, Call.Create(path)) ==> MountInv(n) && Is(p, n))
    ensures r.CreateHalted? <==>
              NoNumber(m) || CountClear(m.bits) < D.SyncNeeds(m.disk, RecordOf(m, dir).inode)
    ensures !r.CreateHalted? ==> (r.Overflown? <==> !ParentHasRoom(m, path))
  {
    hide MountInv, OwnInv, View, U.InodeBits, U.OwnSlot, Synced, SearchIn, LastName, D.DirOk, U.LeadsInside,
         U.Nameless, U.Created, U.CreatedOver, FirstClear, D.SyncNeeds, Careful, U.RootOwns, RootBit, CountClear,
         NoNumber, ParentHasRoom;
    n := m;
    Ready(p, m);
    ViewBits(m);
    NumberOrHalt(m, p);
    if FirstClear(p.ibits) == 4096 {
      return U.CreateHalted, n;
    }
    CreateReady(m, path, dir);
    ViewDisk(m);
    ghost var ns;
    r, ns := U.FileCreate(p, dir, LastName(path));
    if !r.CreateHalted? {
      ghost var g := p.State();
      ghost var ino := r.ino;
      CreatedKeys(m, ns, g, dir, ino, LastName(path), FT_REGULAR);
      n := After(m, g, m.dirs, p.synced, Refreshed(m.open, g)[ino := Object(g.inodes[ino], 1)]);
      assert CreateBy(m, n, path, dir, ino, ns, g);
      CreateDone(m, n, path, dir, ino, ns, g, r.Overflown?);
    }
  }

  lemma NumberOrHalt(m: Mount, p: Partition)
    requires U.InodeBits(p.ibits, p.inodes) && |p.ibits| == 4096 && p.inodes.Keys == m.used
    ensures FirstClear(p.ibits) < 4096 ==> Lowest(m, FirstClear(p.ibits))
    ensures FirstClear(p.ibits) == 4096 <==> NoNumber(m)
  {
    hide U.InodeBits, FirstClear, Lowest, NoNumber;
    if FirstClear(p.ibits) < 4096 {
      LowestBit(m, p.ibits, p.inodes);
    }
    NumbersTaken(m, p.ibits, p.inodes);
  }

  lemma NumbersTaken(m: Mount, ibits: seq<bool>, inodes: map<nat, Inode>)
    requires U.InodeBits(ibits, inodes) && |ibits| == 4096 && inodes.Keys == m.used
    ensures FirstClear(ibits) == 4096 <==> NoNumber(m)
  {
    hide FirstClear;
  }

  lemma CreatedKeys(m: Mount, ns: Fs, g: Fs, dir: nat, ino: nat, name: seq<Byte>, kind: nat)
    requires dir in m.used && CreatedIn(View(m).fs, ns, g, dir, ino, name, kind)
    ensures g.inodes.Keys == m.used + {ino} && ino !in m.used
  {
    hide U.Created, U.CreatedOver;
    if U.Created(View(m).fs, ns, g, dir, ino, name, kind) {
      CreatedShape(View(m).fs, ns, g, dir, ino, name, kind);
      U.CreatedNumber(View(m).fs, ns, g, dir, ino, name, kind);
    } else {
      OverFull(View(m).fs, ns, g, dir, ino, name, kind);
      OverKeys(View(m).fs, ns, g, dir, ino, name, kind);
    }
  }

  lemma OverKeys(fs: Fs, ns: Fs, g: Fs, dir: nat, ino: nat, name: seq<Byte>, kind: nat)
    requires U.CreatedOver(fs, ns, g, dir, ino, name, kind)
    ensures g.inodes.Keys == fs.inodes.Keys + {ino}
  {
    hide OwnInv, D.EntriesOf, D.FirstFree, Granted, U.MakeEntry, OthersKept;
  }

  /** A careful creation leaves a whole partition, and the one behind a table is never careful. */
  lemma CreateDone(m: Mount, n: Mount, path: seq<Byte>, dir: nat, ino: nat, ns: Fs, g: Fs, over: bool)
    requires MountInv(m) && CreateBy(m, n, path, dir, ino, ns, g)
    requires over ==> U.CreatedOver(View(m).fs, ns, g, dir, ino, LastName(path), FT_REGULAR)
    requires !over ==> U.Created(View(m).fs, ns, g, dir, ino, LastName(path), FT_REGULAR)
    ensures StepBy(m, Call.Create(path), n) && (over <==> !ParentHasRoom(m, path))
    ensures Careful(m, Call.Create(path)) ==> MountInv(n) && View(n).fs == g
  {
    hide MountInv, View, SearchIn, LastName, U.Created, U.CreatedOver;
    CreatePath(m, path, dir, ino);
    LowestSmall(m, ino);
    InRoom(m, ns, g, dir, ino, LastName(path), FT_REGULAR);
    OverIsFull(m, ns, g, dir, ino, LastName(path), FT_REGULAR);
    if Careful(m, Call.Create(path)) {
      CreateKeeps(m, n, path, dir, ino, ns, g);
    }
  }

  lemma OverIsFull(m: Mount, ns: Fs, g: Fs, dir: nat, ino: nat, name: seq<Byte>, kind: nat)
    requires MountInv(m) && dir in m.dirs && dir in m.used && CreatedIn(View(m).fs, ns, g, dir, ino, name, kind)
    ensures U.CreatedOver(View(m).fs, ns, g, dir, ino, name, kind) <==> RecordOf(m, dir).inode.size >= 24 * 252
    ensures U.Created(View(m).fs, ns, g, dir, ino, name, kind) <==> RecordOf(m, dir).inode.size < 24 * 252
  {
    hide MountInv, View, U.Created, U.CreatedOver;
    InRoom(m, ns, g, dir, ino, name, kind);
    if U.Created(View(m).fs, ns, g, dir, ino, name, kind) {
      NotBoth(m, ns, g, dir, ino, name, kind);
    }
  }

  lemma NotBoth(m: Mount, ns: Fs, g: Fs, dir: nat, ino: nat, name: seq<Byte>, kind: nat)
    requires dir in m.used && U.Created(View(m).fs, ns, g, dir, ino, name, kind)
    ensures !U.CreatedOver(View(m).fs, ns, g, dir, ino, name, kind)
  {
    hide U.Created, U.CreatedOver;
    CreatedRoom(View(m).fs, ns, g, dir, ino, name, kind);
    OverOrNot(View(m).fs, ns, g, dir, ino, name, kind);
  }

  lemma OverOrNot(fs: Fs, ns: Fs, g: Fs, dir: nat, ino: nat, name: seq<Byte>, kind: nat)
    requires dir in fs.inodes
    ensures U.CreatedOver(fs, ns, g, dir, ino, name, kind) ==> D.FirstFree(D.EntriesOf(fs.disk, fs.inodes[dir])) == 252
  {
    hide U.CreatedOver;
    if U.CreatedOver(fs, ns, g, dir, ino, name, kind) {
      OverFull(fs, ns, g, dir, ino, name, kind);
    }
  }

  /** sys_mkdir */
  method Mkdir(p: Partition, path: seq<Byte>, dir: nat, ghost m: Mount) returns (r: U.CreateResult, ghost n: Mount)
    requires MountInv(m) && Is(p, m) && PathOk(path) && SearchIn(m, path) == Search.Missing(dir, |P.Components(path)|)
    modifies p`bits, p`ibits, p`disk, p`inodes, p`synced
    ensures !r.CreateHalted? ==>
            StepBy(m, Call.Mkdir(path), n) && (Careful(m, Call.Mkdir(path)) ==> MountInv(n) && Is(p, n))
    ensures r.CreateHalted? <==>
              NoNumber(m) || CountClear(m.bits) < 1 + D.SyncNeeds(m.disk, RecordOf(m, dir).inode)
    ensures !r.CreateHalted? ==> (r.Overflown? <==> !ParentHasRoom(m, path))
  {
    hide MountInv, OwnInv, View, U.InodeBits, U.OwnSlot, Synced, SearchIn, LastName, D.DirOk, U.LeadsInside,
         U.Nameless, U.Created, U.CreatedOver, FirstClear, D.SyncNeeds, Careful, U.RootOwns, RootBit, M.FreshTable,
         CountClear, NoNumber, ParentHasRoom;
    n := m;
    Ready(p, m);
    ViewBits(m);
    NumberOrHalt(m, p);
    if FirstClear(p.ibits) == 4096 {
      return U.CreateHalted, n;
    }
    CreateReady(m, path, dir);
    ViewDisk(m);
    ghost var ns;
    r, ns := M.Mkdir(p, dir, LastName(path));
    if !r.CreateHalted? {
      ghost var g := p.State();
      ghost var ino := r.ino;
      CreatedKeys(m, ns, g, dir, ino, LastName(path), FT_DIRECTORY);
      n := After(m, g, m.dirs + {ino}, p.synced, Refreshed(m.open, g));
      assert MkdirBy(m, n, path, dir, ino, ns, g);
      MkdirDone(m, n, path, dir, ino, ns, g, r.Overflown?);
    }
  }

  lemma MkdirDone(m: Mount, n: Mount, path: seq<Byte>, dir: nat, ino: nat, ns: Fs, g: Fs, over: bool)
    requires MountInv(m) && MkdirBy(m, n, path, dir, ino, ns, g)
    requires over ==> U.CreatedOver(View(m).fs, ns, g, dir, ino, LastName(path), FT_DIRECTORY)
    requires !over ==> U.Created(View(m).fs, ns, g, dir, ino, LastName(path), FT_DIRECTORY)
    ensures StepBy(m, Call.Mkdir(path), n) && (over <==> !ParentHasRoom(m, path))
    ensures Careful(m, Call.Mkdir(path)) ==> MountInv(n) && View(n).fs == g
  {
    hide MountInv, View, SearchIn, LastName, U.Created, U.CreatedOver, D.DirOk, M.FreshTable;
    CreatePath(m, path, dir, ino);
    LowestSmall(m, ino);
    InRoom(m, ns, g, dir, ino, LastName(path), FT_DIRECTORY);
    OverIsFull(m, ns, g, dir, ino, LastName(path), FT_DIRECTORY);
    if Careful(m, Call.Mkdir(path)) {
      MkdirKeeps(m, n, path, dir, ino, ns, g);
    }
  }

  /** sys_unlink of a file that is not open: it goes through, and none of its ASSERTs fails. */
  method Unlink(p: Partition, path: seq<Byte>, ghost m: Mount, dir: nat, ino: nat) returns (ghost n: Mount)
    requires MountInv(m) && Is(p, m) && PathOk(path) && ino !in m.open
    requires SearchIn(m, path).AtFile? && SearchIn(m, path).ino == ino && SearchIn(m, path).parent == dir
    modifies p`bits, p`ibits, p`disk, p`inodes, p`synced
    ensures StepBy(m, Call.Unlink(path), n) && MountInv(n) && Is(p, n)
  {
    hide MountInv, OwnInv, View, U.InodeBits, U.OwnSlot, Synced, Cleared, Fetched, SearchIn, D.DirOk, U.RootOwns,
         RootBit, HasEntry, ReachedBy, TreeIn, D.Erased, U.Released, D.LeadsTo, FsRuns.Table;
    Ready(p, m);
    InvParts(m);
    SearchMeans(m, path);
    EntryUsed(m, dir, ino);
    UnlinkReady(m, dir, ino);
    ViewDisk(m);
    var ok;
    ghost var q, es;
    ok, q, es := U.UnlinkFile(p, dir, ino);
    ghost var g := p.State();
    AssertHolds(m, dir, ino, es.inodes[dir]);
    assert ok;
    UnlinkRecord(m, dir, ino, q, es);
    n := After(m, g, m.dirs, p.synced, Refreshed(m.open, g));
    UnlinkStep(m, n, path, dir, ino, q, es, g);
    UnlinkKeeps(m, n, path, dir, ino, q, es, g);
  }

  lemma UnlinkReady(m: Mount, dir: nat, ino: nat)
    requires MountInv(m) && HasEntry(TreeIn(m), dir, ino) && ino in m.used && dir in m.dirs && dir in m.used
    ensures dir in View(m).fs.inodes && ino in View(m).fs.inodes && D.DirOk(m.disk, View(m).fs.inodes[dir])
    ensures exists r: nat :: D.LeadsTo(D.EntriesOf(m.disk, View(m).fs.inodes[dir]), r, ino)
  {
    hide WorldInv, Rooted, HighZero, SlotsAgree, D.DirOk, D.EntriesOf, D.LeadsTo;
    InvParts(m);
    GoodDirectory(View(m), dir);
  }

  lemma UnlinkStep(m: Mount, n: Mount, path: seq<Byte>, dir: nat, ino: nat, q: nat, es: Fs, g: Fs)
    requires PathOk(path) && SearchIn(m, path).AtFile? && SearchIn(m, path).ino == ino
    requires SearchIn(m, path).parent == dir
    requires ino != 0 && ino !in m.open && RecordOf(m, dir).no == dir && dir in m.used && ino in m.used
    requires D.LeadsTo(D.EntriesOf(m.disk, View(m).fs.inodes[dir]), q, ino) && D.Erased(View(m).fs, es, dir, q)
    requires dir in es.inodes
    requires Fetched(Synced(m.slots, dir, es.inodes[dir]), ino).no == ino && ino in es.inodes
    requires es.(inodes := es.inodes[ino := Fetched(Synced(m.slots, dir, es.inodes[dir]), ino).inode]) == es
    requires U.Released(es, g, ino)
    requires n == After(m, g, m.dirs, Cleared(Synced(m.slots, dir, es.inodes[dir]), ino), Refreshed(m.open, g))
    ensures UnlinkBy(m, n, path, dir, ino, q, es, g) && StepBy(m, Call.Unlink(path), n)
  {
    hide SearchIn, D.LeadsTo, D.Erased, U.Released, Synced, Cleared, Fetched, D.EntriesOf;
    assert UnlinkBy(m, n, path, dir, ino, q, es, g);
  }

  /** sys_rmdir: refused exactly when the directory is not empty; no ASSERT fails and no record is astray. */
  method Rmdir(p: Partition, path: seq<Byte>, ghost m: Mount, dir: nat, ino: nat)
    returns (removed: bool, ghost n: Mount)
    requires MountInv(m) && Is(p, m) && PathOk(path) && SearchIn(m, path) == Reached(ino, dir) && ino != 0
    modifies p`bits, p`ibits, p`disk, p`inodes, p`synced, p`open
    ensures removed <==> NoChildren(TreeIn(m), ino)
    ensures !removed ==> Is(p, m)
    ensures removed ==> StepBy(m, Call.Rmdir(path), n)
    ensures removed && Careful(m, Call.Rmdir(path)) ==> MountInv(n) && Is(p, n)
  {
    hide MountInv, OwnInv, View, U.InodeBits, U.OwnSlot, Synced, Cleared, Fetched, SearchIn, D.DirOk, U.RootOwns,
         RootBit, HasEntry, ReachedBy, TreeIn, D.Erased, U.Released, D.LeadsTo, D.EntriesOf, Live, NoChildren, Careful;
    n := m;
    Ready(p, m);
    InvParts(m);
    RmdirReady(m, path, dir, ino);
    ViewDisk(m);
    SeenRecord(p, m, ino);
    var r, found;
    ghost var q, es;
    ghost var fs := p.State();
    r, found, q, es := M.Rmdir(p, dir, ino);
    ChildlessIs(m, ino);
    removed := r.Removed?;
    if removed {
      ghost var g := p.State();
      n := After(m, g, m.dirs - {ino}, p.synced, Refreshed(m.open, g));
      assert RmdirBy(m, n, path, dir, ino, found, q, es, g) by {
        TableIs(m, dir);
      }
      RmdirDone(m, n, path, dir, ino, found, q, es, g);
    }
  }

  lemma SeenRecord(p: Partition, m: Mount, i: nat)
    requires MountInv(m) && Is(p, m) && i in m.used && i in p.inodes
    ensures Seen(p.synced, p.open, p.inodes, i).no == i && Seen(p.synced, p.open, p.inodes, i).inode == p.inodes[i]
  {
    hide WorldInv, Rooted, HighZero, U.InodeBits;
  }

  lemma TableIs(m: Mount, dir: nat)
    requires dir in m.used
    ensures FsRuns.Table(View(m).fs, dir) == D.EntriesOf(m.disk, View(m).fs.inodes[dir])
  {
    hide D.EntriesOf;
  }

  lemma ChildlessIs(m: Mount, ino: nat)
    requires ino in m.dirs && ino in m.used
    ensures NoChildren(TreeIn(m), ino) <==> forall t: nat :: 2 <= t < 252 ==>
            !Live(D.EntriesOf(m.disk, View(m).fs.inodes[ino])[t])
  {
    hide D.EntriesOf, Live;
    var s := TreeIn(m)[ino];
    assert s == D.EntriesOf(m.disk, View(m).fs.inodes[ino]) && |s| == 252;
  }

  lemma RmdirReady(m: Mount, path: seq<Byte>, dir: nat, ino: nat)
    requires MountInv(m) && PathOk(path) && SearchIn(m, path) == Reached(ino, dir) && ino != 0
    ensures ino in m.dirs && ino in m.used && dir in m.dirs && dir in m.used && ino in View(m).fs.inodes
    ensures dir in View(m).fs.inodes
    ensures D.DirOk(m.disk, View(m).fs.inodes[ino]) && D.DirOk(m.disk, View(m).fs.inodes[dir])
  {
    hide WorldInv, Rooted, HighZero, SlotsAgree, SearchIn, D.DirOk, D.EntriesOf, LastName;
    InvParts(m);
    SearchMeans(m, path);
    ReachedParent(TreeIn(m), dir, ino, LastName(path));
    GoodDirectory(View(m), ino);
    GoodDirectory(View(m), dir);
  }

  lemma ReachedParent(t: Tree, p: nat, ino: nat, name: seq<Byte>)
    requires ReachedBy(t, p, ino, name)
    ensures p in t
  {
    hide Live, Name, Target;
  }

  lemma RmdirDone(m: Mount, n: Mount, path: seq<Byte>, dir: nat, ino: nat, found: bool, q: nat, es: Fs, g: Fs)
    requires MountInv(m) && RmdirBy(m, n, path, dir, ino, found, q, es, g)
    ensures StepBy(m, Call.Rmdir(path), n) && (Careful(m, Call.Rmdir(path)) ==> MountInv(n) && View(n).fs == g)
  {
    hide MountInv, View, SearchIn, LastName, D.LeadsTo, D.Erased, U.Released, NoChildren, TreeIn, FsRuns.Table;
    if Careful(m, Call.Rmdir(path)) {
      RmdirKeeps(m, n, path, dir, ino, found, q, es, g);
    }
  }
}
