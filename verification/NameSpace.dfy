// What the calls on a mounted partition do to the names in it: each directory is a finite map from names to inode
// numbers.

module NameSpace {
  import opened Disk
  import opened CStrings
  import opened Ownership
  import opened Entries
  import opened FileSystem
  import opened Records
  import opened FsRuns
  import opened Trees
  import opened TreeRuns
  import opened Histories
  import D = Directories
  import DM = DirectoryMap
  import M = MakeDir
  import P = Paths
  import U = Unlink

  /** The names of a directory, "." and ".." included. */
  ghost function Names(m: Mount, d: nat): map<seq<Byte>, nat>
    requires d in TreeIn(m)
  {
    DM.MapOf(TreeIn(m)[d])
  }

  /** In `dir` the names are now `names`; a directory that was there and still is has the table it had. */
  ghost predicate NamesBecome(m: Mount, n: Mount, dir: nat, names: map<seq<Byte>, nat>) {
    && dir in TreeIn(m) && dir in TreeIn(n) && Names(n, dir) == names
    && forall d :: d in TreeIn(m) && d in TreeIn(n) && d != dir ==> TreeIn(n)[d] == TreeIn(m)[d]
  }

  lemma SlotNames(t: Tree, u: Tree, dir: nat, q: nat)
    requires OneSlot(t, u, dir, q)
    ensures u[dir] == t[dir][q := u[dir][q]]
    ensures forall d :: d in t && d in u && d != dir ==> u[d] == t[d]
  {
  }

  lemma TreeGood(m: Mount, d: nat)
    requires MountInv(m) && d in m.dirs
    ensures d in TreeIn(m) && GoodTable(TreeIn(m)[d]) && |TreeIn(m)[d]| == 252
  {
    hide WorldInv, Rooted, HighZero, SlotsAgree, GoodTable;
    InvParts(m);
    GoodDirectory(View(m), d);
    GoodSize(TreeIn(m)[d]);
  }

  lemma GoodSize(s: seq<Entry>)
    requires GoodTable(s)
    ensures |s| == 252
  {
  }

  // ---------------------------------------------------------------- names that come

  lemma EntryComes(t: Tree, u: Tree, dir: nat, q: nat)
    requires OneSlot(t, u, dir, q) && GoodTable(t[dir]) && !Live(t[dir][q]) && NewEntry(t[dir], u[dir][q])
    ensures var e := u[dir][q];
            Name(e) !in DM.MapOf(t[dir]) && DM.MapOf(u[dir]) == DM.MapOf(t[dir])[Name(e) := Target(e)]
  {
    hide Live, Name, Target, GoodTable, NewEntry, DM.MapOf, OneSlot;
    SlotFacts(t, u, dir, q);
    SlotNames(t, u, dir, q);
    DM.InsertMap(t[dir], q, u[dir][q]);
  }

  /** A creation, of a file or a directory: the parent gains the one name. */
  lemma CreatesNames(m: Mount, n: Mount, ns: Fs, dir: nat, ino: nat, name: seq<Byte>, kind: nat)
    requires MountInv(m) && MountInv(n) && Creates(View(m), View(n), ns, dir, ino, name, kind)
    ensures ino !in m.used && n.used == m.used + {ino} && dir in m.dirs && dir in TreeIn(m) && name !in Names(m, dir)
    ensures NamesBecome(m, n, dir, Names(m, dir)[name := ino])
  {
    hide MountInv, WorldInv, Rooted, HighZero, SlotsAgree, OneSlot, U.Created, U.Nameless, GoodTable, Live, Names,
         U.MakeEntry, DM.MapOf, NewEntry, Name, Target, View, TreeIn, TreeOf, D.DirOk, U.LeadsInside;
    InvParts(m);
    InvParts(n);
    ViewDirs(m);
    TreeGood(m, dir);
    CreatesFacts(View(m), View(n), ns, dir, ino, name, kind);
    var q := CreateSlot(View(m), View(n), ns, dir, ino, name, kind);
    SlotFacts(TreeIn(m), TreeIn(n), dir, q);
    SlotNames(TreeIn(m), TreeIn(n), dir, q);
    NewName(m, n, ns, dir, ino, name, kind);
    EntryComes(TreeIn(m), TreeIn(n), dir, q);
    U.MadeEntry(name, ino, kind);
    NamesAre(m, dir);
    NamesAre(n, dir);
  }

  lemma NamesAre(m: Mount, d: nat)
    requires d in TreeIn(m)
    ensures Names(m, d) == DM.MapOf(TreeIn(m)[d])
  {
  }

  lemma NewName(m: Mount, n: Mount, ns: Fs, dir: nat, ino: nat, name: seq<Byte>, kind: nat)
    requires MountInv(m) && Creates(View(m), View(n), ns, dir, ino, name, kind)
    ensures dir in TreeIn(m) && NewEntry(TreeIn(m)[dir], U.MakeEntry(name, ino, kind))
    ensures |name| <= 15 && 0 !in name && ino < 4096 && kind < 3
  {
    hide WorldInv, Rooted, HighZero, SlotsAgree, U.Nameless, GoodTable, Live, U.MakeEntry, NewEntry, OwnInv,
         D.EntriesOf, D.DirOk, U.LeadsInside, D.Inserted, U.NewOne;
    InvParts(m);
    GoodDirectory(View(m), dir);
    U.FreshEntry(View(m).fs, ns, dir, ino, name, kind);
  }

  /** sys_open with O_CREAT: the last name of the path leads to the new inode, and no other name changed. */
  lemma CreateNames(m: Mount, n: Mount, path: seq<Byte>, dir: nat, ino: nat, ns: Fs, g: Fs)
    requires MountInv(m) && CreateBy(m, n, path, dir, ino, ns, g) && Careful(m, Call.Create(path))
    ensures ino !in m.used && n.used == m.used + {ino} && n.dirs == m.dirs
    ensures dir in TreeIn(m) && LastName(path) !in Names(m, dir)
    ensures NamesBecome(m, n, dir, Names(m, dir)[LastName(path) := ino])
  {
    hide MountInv, U.Created, U.CreatedOver, View, TreeIn, LastName, SearchIn, NameFree, NumberFree, ParentHasRoom,
         NamesBecome, Names;
    LowestSmall(m, ino);
    CreateKeeps(m, n, path, dir, ino, ns, g);
    ViewDirs(m);
    ViewDirs(n);
    CreatesNames(m, n, ns, dir, ino, LastName(path), FT_REGULAR);
  }

  lemma ViewDirs(m: Mount)
    ensures View(m).dirs == m.dirs
  {
  }

  /** sys_mkdir: the same, and the new directory has the names "." and "..". */
  lemma MkdirNames(m: Mount, n: Mount, path: seq<Byte>, dir: nat, ino: nat, ns: Fs, g: Fs)
    requires MountInv(m) && MkdirBy(m, n, path, dir, ino, ns, g) && Careful(m, Call.Mkdir(path))
    ensures ino !in m.used && n.used == m.used + {ino} && n.dirs == m.dirs + {ino}
    ensures dir in TreeIn(m) && LastName(path) !in Names(m, dir)
    ensures NamesBecome(m, n, dir, Names(m, dir)[LastName(path) := ino])
    ensures ino in TreeIn(n) && Names(n, ino) == map[Dot() := ino, DotDot() := dir]
  {
    hide MountInv, U.Created, U.CreatedOver, View, TreeIn, LastName, SearchIn, NameFree, NumberFree, ParentHasRoom,
         NamesBecome, Names, M.FreshTable, D.DirOk, FsRuns.Table;
    LowestSmall(m, ino);
    MkdirKeeps(m, n, path, dir, ino, ns, g);
    ViewDirs(m);
    ViewDirs(n);
    CreatesNames(m, n, ns, dir, ino, LastName(path), FT_DIRECTORY);
    TreeGood(n, ino);
    NewTable(n, ino);
    NumbersSmall(n, ino);
    NumbersIn(n, dir);
    FreshNames(TreeIn(n)[ino], ino, dir);
    NamesAre(n, ino);
  }

  lemma NumbersIn(m: Mount, d: nat)
    requires MountInv(m) && d in m.dirs
    ensures d < 256
  {
    hide WorldInv, Rooted, HighZero, SlotsAgree;
    InvParts(m);
    NumbersSmall(m, d);
  }

  lemma NewTable(m: Mount, d: nat)
    requires MountInv(m) && d in m.dirs
    ensures d in TreeIn(m) && d in View(m).fs.inodes && TreeIn(m)[d] == FsRuns.Table(View(m).fs, d)
  {
    hide WorldInv, Rooted, HighZero, SlotsAgree, D.EntriesOf;
    InvParts(m);
  }

  lemma FreshNames(s: seq<Entry>, ino: nat, parent: nat)
    requires M.FreshTable(s, ino, parent) && ino < 4096 && parent < 4096
    ensures DM.MapOf(s) == map[Dot() := ino, DotDot() := parent]
  {
    hide Live, Name, Target, Kind, U.MakeEntry, DM.MapOf, Free, TargetsOk, Clean;
    FreshFacts(s, ino, parent);
    DM.MapEntry(s, 0);
    DM.MapEntry(s, 1);
    FreeIsFree();
    forall name: seq<Byte> | name in DM.MapOf(s) ensures name == Dot() || name == DotDot() {
      DM.InMap(s, name);
      var p: nat :| p < |s| && Live(s[p]) && Name(s[p]) == name;
    }
  }

  // ---------------------------------------------------------------- names that go

  lemma EntryGoes(t: Tree, u: Tree, dir: nat, q: nat, ino: nat)
    requires OneSlot(t, u, dir, q) && GoodTable(t[dir]) && D.LeadsTo(t[dir], q, ino) && u[dir][q] == Free()
    ensures Name(t[dir][q]) in DM.MapOf(t[dir]) && DM.MapOf(t[dir])[Name(t[dir][q])] == ino
    ensures DM.MapOf(u[dir]) == DM.MapOf(t[dir]) - {Name(t[dir][q])}
  {
    hide Live, Name, Target, Free, DM.MapOf;
    SlotNames(t, u, dir, q);
    DM.EraseMap(t[dir], q);
    DM.MapEntry(t[dir], q);
  }

  /** The name at which a search stopped is the name of the entry that leads to the inode. */
  lemma OneWay(t: Tree, depth: nat -> nat, dir: nat, q: nat, ino: nat, name: seq<Byte>)
    requires TreeOk(t, depth) && dir in t && D.LeadsTo(t[dir], q, ino) && ReachedBy(t, dir, ino, name)
    requires ino in t ==> ino != 0 && NoChildren(t, ino) && name != Dot()
    ensures Name(t[dir][q]) == name
  {
    hide Live, Name, Target, Kind, NamesOk, Clean, ChildAt, NoChildren;
    assert DirectoryOk(t, depth, dir);
    var r: nat :| FoundAt(t, dir, r, ino, name);
    if ino in t {
      EmptyReached(t, depth, dir, r, ino, name);
    }
    assert 2 <= r;
  }

  lemma RemoveNames(m: Mount, n: Mount, es: Fs, dir: nat, q: nat, ino: nat, name: seq<Byte>)
    requires MountInv(m) && MountInv(n) && RemoveStep(View(m), View(n), es, dir, q, ino)
    requires ReachedBy(TreeIn(m), dir, ino, name) && (ino in m.dirs ==> NoChildren(TreeIn(m), ino) && name != Dot())
    ensures dir in TreeIn(m) && name in Names(m, dir) && Names(m, dir)[name] == ino
    ensures NamesBecome(m, n, dir, Names(m, dir) - {name})
    ensures ino !in n.used
  {
    hide MountInv, WorldInv, HighZero, SlotsAgree, OneSlot, D.Erased, U.Released, GoodTable, Live, Names, D.LeadsTo,
         DM.MapOf, View, TreeIn, TreeOf, TreeOk, EntriesFit, ReachedBy, NoChildren, Free;
    InvParts(m);
    InvParts(n);
    ViewDirs(m);
    TreeGood(m, dir);
    var depth: nat -> nat :| TreeOk(TreeIn(m), depth);
    RemoveSlot(View(m), View(n), es, dir, q, ino);
    SlotFacts(TreeIn(m), TreeIn(n), dir, q);
    SlotNames(TreeIn(m), TreeIn(n), dir, q);
    LeadsIn(m, dir, q, ino);
    ViewDirs(m);
    OneWay(TreeIn(m), depth, dir, q, ino, name);
    EntryGoes(TreeIn(m), TreeIn(n), dir, q, ino);
    NamesAre(m, dir);
    NamesAre(n, dir);
  }

  lemma LeadsIn(m: Mount, dir: nat, q: nat, ino: nat)
    requires MountInv(m) && dir in m.dirs && dir in View(m).fs.inodes
    requires D.LeadsTo(FsRuns.Table(View(m).fs, dir), q, ino)
    ensures dir in TreeIn(m) && D.LeadsTo(TreeIn(m)[dir], q, ino)
  {
    hide WorldInv, Rooted, HighZero, SlotsAgree, D.EntriesOf, D.LeadsTo;
    InvParts(m);
  }

  /** sys_unlink: the name at which the search stopped goes, and no other name changed. */
  lemma UnlinkNames(m: Mount, n: Mount, path: seq<Byte>, dir: nat, ino: nat, q: nat, es: Fs, g: Fs)
    requires MountInv(m) && UnlinkBy(m, n, path, dir, ino, q, es, g)
    ensures n.dirs == m.dirs && n.used == m.used - {ino}
    ensures 1 <= SearchIn(m, path).depth <= |P.Components(path)|
    ensures var name := P.Components(path)[SearchIn(m, path).depth - 1];
            && dir in TreeIn(m) && name in Names(m, dir) && Names(m, dir)[name] == ino
            && NamesBecome(m, n, dir, Names(m, dir) - {name})
  {
    hide MountInv, D.Erased, U.Released, D.LeadsTo, SearchIn, HasEntry, ReachedBy, View, FsRuns.Table, TreeIn,
         Fetched, Synced, Cleared, NamesBecome, Names, P.Components, RemoveStep;
    SearchMeans(m, path);
    UnlinkKeeps(m, n, path, dir, ino, q, es, g);
    UnlinkUsed(m, n, path, dir, ino, q, es, g);
    RemoveNames(m, n, es, dir, q, ino, P.Components(path)[SearchIn(m, path).depth - 1]);
  }

  lemma UnlinkUsed(m: Mount, n: Mount, path: seq<Byte>, dir: nat, ino: nat, q: nat, es: Fs, g: Fs)
    requires MountInv(m) && UnlinkBy(m, n, path, dir, ino, q, es, g)
    ensures n.used == m.used - {ino} && n.dirs == m.dirs
  {
    hide MountInv, D.Erased, U.Released, D.LeadsTo, SearchIn, FsRuns.Table, TreeIn, Fetched, Synced, Cleared;
    ErasedShape(View(m).fs, es, dir, q);
    var slots := Synced(m.slots, dir, es.inodes[dir]);
    ReleasedShape(es.(inodes := es.inodes[ino := Fetched(slots, ino).inode]), g, ino);
  }

  /** sys_rmdir: the last name of the path goes with the directory, and no other name changed. */
  lemma RmdirNames(m: Mount, n: Mount, path: seq<Byte>, dir: nat, ino: nat, found: bool, q: nat, es: Fs, g: Fs)
    requires MountInv(m) && RmdirBy(m, n, path, dir, ino, found, q, es, g) && Careful(m, Call.Rmdir(path))
    ensures n.dirs == m.dirs - {ino} && n.used == m.used - {ino}
    ensures dir in TreeIn(m) && LastName(path) in Names(m, dir) && Names(m, dir)[LastName(path)] == ino
    ensures NamesBecome(m, n, dir, Names(m, dir) - {LastName(path)})
  {
    hide MountInv, D.Erased, U.Released, D.LeadsTo, SearchIn, HasEntry, ReachedBy, View, FsRuns.Table, TreeIn,
         Fetched, Synced, Cleared, NamesBecome, Names, P.Components, RemoveStep, LastName, NoChildren;
    SearchMeans(m, path);
    RmdirKeeps(m, n, path, dir, ino, found, q, es, g);
    RmdirUsed(m, n, path, dir, ino, found, q, es, g);
    RemoveNames(m, n, es, dir, q, ino, LastName(path));
  }

  lemma RmdirUsed(m: Mount, n: Mount, path: seq<Byte>, dir: nat, ino: nat, found: bool, q: nat, es: Fs, g: Fs)
    requires RmdirBy(m, n, path, dir, ino, found, q, es, g) && found
    ensures n.used == m.used - {ino} && n.dirs == m.dirs - {ino}
  {
    hide D.Erased, U.Released, D.LeadsTo, SearchIn, FsRuns.Table, TreeIn, Synced, Cleared, NoChildren;
    ErasedShape(View(m).fs, es, dir, q);
    ReleasedShape(es, g, ino);
  }

  // ---------------------------------------------------------------- names that stay

  /** Opening, closing and writing change no directory. */
  lemma StillNames(m: Mount, c: Call, n: Mount)
    requires MountInv(m) && StepBy(m, c, n) && (c.Open? || c.Close? || c.Write?)
    ensures n.dirs == m.dirs && n.used == m.used && TreeIn(n) == TreeIn(m)
  {
    hide MountInv, TreeIn, OpenBy, WriteBy, CloseBy;
    match c
    case Open(path) =>
      var i: nat :| OpenBy(m, n, path, i);
      OpenStill(m, n, path, i);
    case Close(i) => CloseStill(m, n, i);
    case Write(i, data) =>
      var g: Fs :| WriteBy(m, n, i, data, g);
      WriteStill(m, n, i, data, g);
    case _ =>
  }

  lemma OpenStill(m: Mount, n: Mount, path: seq<Byte>, i: nat)
    requires MountInv(m) && OpenBy(m, n, path, i)
    ensures n.dirs == m.dirs && n.used == m.used && TreeIn(n) == TreeIn(m)
  {
    hide MountInv, SearchIn, D.EntriesOf;
    OpenKeeps(m, n, path, i);
    SameTrees(m, n);
  }

  lemma CloseStill(m: Mount, n: Mount, i: nat)
    requires MountInv(m) && CloseBy(m, n, i)
    ensures n.dirs == m.dirs && n.used == m.used && TreeIn(n) == TreeIn(m)
  {
    hide MountInv, D.EntriesOf;
    CloseKeeps(m, n, i);
    SameTrees(m, n);
  }

  lemma SameTrees(m: Mount, n: Mount)
    requires MountInv(m) && MountInv(n) && n == m.(open := n.open)
    ensures TreeIn(n) == TreeIn(m)
  {
    hide WorldInv, Rooted, HighZero, D.EntriesOf;
    forall d | d in m.dirs && d in m.used ensures RecordOf(n, d).inode == RecordOf(m, d).inode {
      assert Fetched(m.slots, d) == Record(d, RecordOf(m, d).inode);
      assert Fetched(n.slots, d) == Record(d, RecordOf(n, d).inode);
    }
  }

  lemma WriteStill(m: Mount, n: Mount, i: nat, data: seq<Byte>, g: Fs)
    requires MountInv(m) && WriteBy(m, n, i, data, g)
    ensures n.dirs == m.dirs && n.used == m.used && TreeIn(n) == TreeIn(m)
  {
    hide MountInv, WorldInv, Rooted, HighZero, SlotsAgree, Wrote, View, FsRuns.Table, TreeIn;
    InvParts(m);
    WriteKeeps(m, n, i, data, g);
    InvParts(n);
    WroteTrees(View(m), View(n), i, data);
  }

  lemma WroteTrees(v: World, w: World, i: nat, data: seq<Byte>)
    requires WorldInv(v) && Rooted(v) && Rooted(w) && WriteStep(v, w, i, data)
    ensures TreeOf(w) == TreeOf(v) && w.dirs == v.dirs && w.fs.inodes.Keys == v.fs.inodes.Keys
  {
    hide TreeOk, KeptFile, OwnInv, EntriesFit, WorldInv, FsRuns.Table;
    WriteFacts(v.fs, w.fs, i, data);
    forall d | d in w.dirs ensures FsRuns.Table(w.fs, d) == FsRuns.Table(v.fs, d) {
      KeptTable(v.fs, w.fs, d);
    }
  }
}
