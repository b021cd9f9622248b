// Every history of a mounted partition: the system calls by path, with inodes that are opened, closed and read back
// from the inode table in between.

module Histories {
  import opened Disk
  import opened CStrings
  import opened Ownership
  import opened Records
  import opened FileSystem
  import opened Entries
  import opened FsRuns
  import opened Trees
  import opened TreeRuns
  import opened FullDirectory
  import D = Directories
  import F = Format
  import Files
  import M = MakeDir
  import P = Paths
  import U = Unlink

  /** An inode in memory, with i_open_cnts. */
  datatype Object = Object(inode: Inode, count: nat)

  /**
   * A mounted partition as it really is: sectors and block bitmap, the inode numbers whose bit is set, which of them
   * are directories, the slots of the inode table, and the inodes in memory. Of an inode that is closed there is only
   * its slot.
   */
  datatype Mount = Mount(disk: seq<Sector>, bits: seq<bool>, used: set<nat>, dataStart: nat, reserved: set<nat>,
                         dirs: set<nat>, slots: InodeSlots, open: map<nat, Object>)

  /** What inode_open returns. */
  function RecordOf(m: Mount, i: nat): Record {
    if i in m.open then Record(i, m.open[i].inode) else Fetched(m.slots, i)
  }

  /** The partition as the kernel sees it through inode_open. */
  ghost function View(m: Mount): World {
    World(Fs(m.disk, m.bits, map i | i in m.used :: RecordOf(m, i).inode, m.dataStart, m.reserved), m.dirs)
  }

  ghost function TreeIn(m: Mount): Tree {
    map d | d in m.dirs && d in m.used :: D.EntriesOf(m.disk, RecordOf(m, d).inode)
  }

  // ---------------------------------------------------------------- the calls

  datatype Call =
    | Open(path: seq<Byte>) | Close(ino: nat) | Write(ino: nat, data: seq<Byte>)
    | Create(path: seq<Byte>) | Mkdir(path: seq<Byte>) | Unlink(path: seq<Byte>) | Rmdir(path: seq<Byte>)

  predicate PathOk(path: seq<Byte>) {
    path != [] && path[0] == P.Slash() && P.Plain(path)
  }

  ghost function SearchIn(m: Mount, path: seq<Byte>): Search {
    SearchOf(TreeIn(m), path)
  }

  function LastName(path: seq<Byte>): seq<Byte> {
    var cs := P.Components(path);
    if cs == [] then [] else cs[|cs| - 1]
  }

  /** inode_bitmap_alloc: the lowest number whose bit is clear. */
  ghost predicate Lowest(m: Mount, ino: nat) {
    ino < 4096 && ino !in m.used && forall j: nat :: j < ino ==> j in m.used
  }

  /** The objects in memory after a call that left the inodes of g. */
  function Refreshed(open: map<nat, Object>, g: Fs): (r: map<nat, Object>)
    ensures r.Keys == open.Keys
  {
    map i | i in open :: if i in g.inodes then Object(g.inodes[i], open[i].count) else open[i]
  }

  ghost function After(m: Mount, g: Fs, dirs: set<nat>, slots: InodeSlots, open: map<nat, Object>): Mount {
    Mount(g.disk, g.bits, g.inodes.Keys, m.dataStart, m.reserved, dirs, slots, open)
  }

  /** inode_open: one more opening of an object in memory, or a new object with the slot's record. */
  function OneMore(m: Mount, open: map<nat, Object>, i: nat): (r: map<nat, Object>)
    ensures r.Keys == open.Keys + {i}
  {
    open[i := Object(RecordOf(m, i).inode, 1 + if i in open then open[i].count else 0)]
  }

  /**
   * sys_opendir, and sys_open of a file that is there, which compares the depth of the path with that of the search.
   * The latter never closes the directory that search_file opened for it (the root's own object aside).
   */
  ghost predicate OpenBy(m: Mount, n: Mount, path: seq<Byte>, i: nat) {
    && PathOk(path) && RecordOf(m, i).no == i
    && match SearchIn(m, path)
       case Reached(d, _) => d == i && n == if path == [P.Slash()] then m else m.(open := OneMore(m, m.open, i))
       case AtFile(f, p, depth) =>
         && f == i && depth == |P.Components(path)| && RecordOf(m, p).no == p
         && n == m.(open := OneMore(m, if p == 0 then m.open else OneMore(m, m.open, p), i))
       case _ => false
  }

  /** inode_close; the root stays open */
  ghost predicate CloseBy(m: Mount, n: Mount, i: nat) {
    && i in m.open
    && if m.open[i].count > 1 then n == m.(open := m.open[i := Object(m.open[i].inode, m.open[i].count - 1)])
       else i != 0 && n == m.(open := m.open - {i})
  }

  /** sys_write */
  ghost predicate WriteBy(m: Mount, n: Mount, i: nat, data: seq<Byte>, g: Fs) {
    && i in m.open && i !in m.dirs && Wrote(View(m).fs, g, i, data) && i in g.inodes
    && n == After(m, g, m.dirs, Synced(m.slots, i, g.inodes[i]), Refreshed(m.open, g))
  }

  /** What a creating call was told by search_file: only the last name of the path is missing. */
  ghost predicate Creatable(m: Mount, path: seq<Byte>, dir: nat, ino: nat) {
    && PathOk(path) && SearchIn(m, path) == Missing(dir, |P.Components(path)|) && RecordOf(m, dir).no == dir
    && Lowest(m, ino)
  }

  /** The entry found room in the parent, or went behind a new table because the parent's direct blocks are full. */
  ghost predicate CreatedIn(fs: Fs, ns: Fs, g: Fs, dir: nat, ino: nat, name: seq<Byte>, kind: nat) {
    U.Created(fs, ns, g, dir, ino, name, kind) || U.CreatedOver(fs, ns, g, dir, ino, name, kind)
  }

  /** sys_open with O_CREAT */
  ghost predicate CreateBy(m: Mount, n: Mount, path: seq<Byte>, dir: nat, ino: nat, ns: Fs, g: Fs) {
    && Creatable(m, path, dir, ino) && path[|path| - 1] != P.Slash()
    && CreatedIn(View(m).fs, ns, g, dir, ino, LastName(path), FT_REGULAR) && dir in g.inodes && ino in g.inodes
    && g.inodes[ino] == EmptyInode()
    && n == After(m, g, m.dirs, Synced(Synced(m.slots, dir, g.inodes[dir]), ino, g.inodes[ino]),
                  Refreshed(m.open, g)[ino := Object(g.inodes[ino], 1)])
  }

  /** sys_mkdir: the new inode is never in the list of open inodes */
  ghost predicate MkdirBy(m: Mount, n: Mount, path: seq<Byte>, dir: nat, ino: nat, ns: Fs, g: Fs) {
    && Creatable(m, path, dir, ino)
    && CreatedIn(View(m).fs, ns, g, dir, ino, LastName(path), FT_DIRECTORY) && dir in g.inodes && ino in g.inodes
    && D.DirOk(g.disk, g.inodes[ino]) && M.FreshTable(FsRuns.Table(g, ino), ino, dir)
    && n == After(m, g, m.dirs + {ino}, Synced(Synced(m.slots, dir, g.inodes[dir]), ino, g.inodes[ino]),
        Refreshed(m.open, g))
  }

  /**
   * sys_unlink of a file that nobody has open, whatever the path has behind the file's name: inode_release fetches
   * the record and passes its ASSERT on i_no
   */
  ghost predicate UnlinkBy(m: Mount, n: Mount, path: seq<Byte>, dir: nat, ino: nat, q: nat, es: Fs, g: Fs) {
    && PathOk(path) && SearchIn(m, path).AtFile? && SearchIn(m, path).ino == ino && SearchIn(m, path).parent == dir
    && ino != 0 && ino !in m.open && RecordOf(m, dir).no == dir
    && dir in m.used && ino in m.used && D.LeadsTo(FsRuns.Table(View(m).fs, dir), q, ino)
    && D.Erased(View(m).fs, es, dir, q) && dir in es.inodes
    && var slots := Synced(m.slots, dir, es.inodes[dir]);
    && Fetched(slots, ino).no == ino && U.Released(es.(inodes := es.inodes[ino := Fetched(slots, ino).inode]), g, ino)
    && n == After(m, g, m.dirs, Cleared(slots, ino), Refreshed(m.open, g))
  }

  /** sys_rmdir of an empty directory; whether delete_dir_entry found an entry is ignored */
  ghost predicate RmdirBy(m: Mount, n: Mount, path: seq<Byte>, dir: nat, ino: nat, found: bool, q: nat, es: Fs, g: Fs) {
    && PathOk(path) && SearchIn(m, path) == Reached(ino, dir) && ino != 0 && RecordOf(m, ino).no == ino
    && RecordOf(m, dir).no == dir
    && dir in m.used && ino in m.used && NoChildren(TreeIn(m), ino)
    && (if found then D.LeadsTo(FsRuns.Table(View(m).fs, dir), q, ino) && D.Erased(View(m).fs, es, dir, q)
        else es == View(m).fs && forall r: nat :: !D.LeadsTo(FsRuns.Table(View(m).fs, dir), r, ino))
    && dir in es.inodes && U.Released(es, g, ino)
    && var slots := if found then Synced(m.slots, dir, es.inodes[dir]) else m.slots;
       n == After(m, g, m.dirs - {ino}, Cleared(slots, ino), Refreshed(m.open, g))
  }

  ghost predicate StepBy(m: Mount, c: Call, n: Mount) {
    match c
    case Open(path) => exists i: nat :: OpenBy(m, n, path, i)
    case Close(i) => CloseBy(m, n, i)
    case Write(i, data) => exists g: Fs :: WriteBy(m, n, i, data, g)
    case Create(path) => exists dir: nat, ino: nat, ns: Fs, g: Fs :: CreateBy(m, n, path, dir, ino, ns, g)
    case Mkdir(path) => exists dir: nat, ino: nat, ns: Fs, g: Fs :: MkdirBy(m, n, path, dir, ino, ns, g)
    case Unlink(path) => exists dir: nat, ino: nat, q: nat, es: Fs, g: Fs :: UnlinkBy(m, n, path, dir, ino, q, es, g)
    case Rmdir(path) => exists dir: nat, ino: nat, found: bool, q: nat, es: Fs, g: Fs ::
      RmdirBy(m, n, path, dir, ino, found, q, es, g)
  }

  // ---------------------------------------------------------------- the invariant

  /** The slot of every inode in use has its number and its record, whether it is open or not. */
  ghost predicate SlotsAgree(m: Mount) {
    forall i :: i in m.used ==> Fetched(m.slots, i) == Record(i, RecordOf(m, i).inode)
  }

  ghost predicate MountInv(m: Mount) {
    && WorldInv(View(m)) && Rooted(View(m))
    && HighZero(m.slots) && SlotsAgree(m) && m.open.Keys <= m.used
  }

  /**
   * What a careful caller checks first: for a new inode that a number below 256 is free and that the parent has fewer
   * than 252 entries; for sys_rmdir that nobody has the directory open and that the path does not end in ".".
   */
  ghost predicate Careful(m: Mount, c: Call) {
    match c
    case Create(path) => NumberFree(m) && ParentHasRoom(m, path)
    case Mkdir(path) => NumberFree(m) && ParentHasRoom(m, path)
    case Rmdir(path) => SearchIn(m, path).Reached? ==> SearchIn(m, path).ino !in m.open && LastName(path) != Dot()
    case _ => true
  }

  ghost predicate NumberFree(m: Mount) {
    exists i: nat :: i < 256 && i !in m.used
  }

  /** By the size of the directory in which search_file missed the name. */
  ghost predicate ParentHasRoom(m: Mount, path: seq<Byte>) {
    SearchIn(m, path).Missing? ==> RecordOf(m, SearchIn(m, path).parent).inode.size < 24 * 252
  }

  lemma InvParts(m: Mount)
    requires MountInv(m)
    ensures WorldInv(View(m)) && Rooted(View(m)) && HighZero(m.slots) && SlotsAgree(m) && m.open.Keys <= m.used
    ensures m.dirs <= m.used && TreeIn(m) == TreeOf(View(m)) && View(m).fs.inodes.Keys == m.used
  {
    hide WorldInv, TreeOk, EntriesFit, HighZero, SlotsAgree, D.EntriesOf;
  }

  /** Inodes in use have numbers below 256: their slots carry them. */
  lemma NumbersSmall(m: Mount, i: nat)
    requires MountInv(m) && i in m.used
    ensures i < 256 && RecordOf(m, i).no == i
  {
    hide WorldInv, Rooted;
  }

  /** A call left the inodes of g, and slots and objects say the same. */
  lemma Together(m: Mount, n: Mount, g: Fs, dirs: set<nat>, slots: InodeSlots, open: map<nat, Object>)
    requires n == After(m, g, dirs, slots, open) && g.dataStart == m.dataStart && g.reserved == m.reserved
    requires forall i :: i in g.inodes ==> Fetched(slots, i) == Record(i, g.inodes[i])
    requires forall i :: i in open ==> i in g.inodes && open[i].inode == g.inodes[i]
    ensures View(n) == World(g, dirs) && SlotsAgree(n) && n.open.Keys <= n.used
  {
    var v := View(n);
    forall i | i in g.inodes ensures RecordOf(n, i) == Record(i, g.inodes[i]) {
    }
    assert v.fs.inodes == g.inodes;
  }

  // ---------------------------------------------------------------- slots follow the inodes

  /** Every inode of g but a and b is as it was. */
  ghost predicate KeptBut(m: Mount, g: Fs, a: nat, b: nat) {
    forall j :: j in g.inodes && j != a && j != b ==> j in m.used && g.inodes[j] == RecordOf(m, j).inode
  }

  lemma SlotsOne(m: Mount, g: Fs, a: nat)
    requires SlotsAgree(m) && HighZero(m.slots) && KeptBut(m, g, a, a) && a < 256 && a in g.inodes
    ensures var slots := Synced(m.slots, a, g.inodes[a]);
            HighZero(slots) && forall i :: i in g.inodes ==> Fetched(slots, i) == Record(i, g.inodes[i])
  {
    SyncedExactly(m.slots, a, g.inodes[a]);
    hide HighZero;
  }

  lemma SlotsTwo(m: Mount, g: Fs, a: nat, b: nat)
    requires SlotsAgree(m) && HighZero(m.slots) && KeptBut(m, g, a, b) && a < 256 && b < 256 && a != b
    requires a in g.inodes && b in g.inodes
    ensures var slots := Synced(Synced(m.slots, a, g.inodes[a]), b, g.inodes[b]);
            HighZero(slots) && forall i :: i in g.inodes ==> Fetched(slots, i) == Record(i, g.inodes[i])
  {
    SyncedExactly(m.slots, a, g.inodes[a]);
    SyncedExactly(Synced(m.slots, a, g.inodes[a]), b, g.inodes[b]);
    hide HighZero;
  }

  // ---------------------------------------------------------------- sys_open of a new file, sys_mkdir

  /** A path that a call may create: the parent is a directory, and the name is a new one. */
  lemma CreatePath(m: Mount, path: seq<Byte>, dir: nat, ino: nat)
    requires MountInv(m) && Creatable(m, path, dir, ino)
    ensures dir in m.dirs && dir in m.used && ino !in m.used && NameFree(View(m), dir, LastName(path), ino)
  {
    hide WorldInv, TreeOk, EntriesFit, HighZero, SlotsAgree, P.Components, NamesFit, Walk, D.EntriesOf, Live, Name;
    InvParts(m);
    var t, cs := TreeIn(m), P.Components(path);
    var depth: nat -> nat :| TreeOk(t, depth);
    RootThere(t, depth);
    WalkFacts(t, depth, 0, 0, cs, 0);
    P.ComponentsAreNames(path);
    assert P.IsName(cs[|cs| - 1]);
  }

  lemma CreatedShape(fs: Fs, ns: Fs, g: Fs, dir: nat, ino: nat, name: seq<Byte>, kind: nat)
    requires U.Created(fs, ns, g, dir, ino, name, kind)
    ensures g.dataStart == fs.dataStart && g.reserved == fs.reserved && g.inodes.Keys == fs.inodes.Keys + {ino}
    ensures dir in g.inodes
  {
    hide OwnInv, D.EntriesOf, D.DirOk, BitsGrew, OthersKept, U.MakeEntry, D.FirstFree;
  }

  lemma CreatedKept(m: Mount, ns: Fs, g: Fs, dir: nat, ino: nat, name: seq<Byte>, kind: nat)
    requires U.Created(View(m).fs, ns, g, dir, ino, name, kind)
    ensures KeptBut(m, g, dir, ino)
  {
    hide U.Created;
    CreatedShape(View(m).fs, ns, g, dir, ino, name, kind);
    forall j | j in g.inodes && j != dir && j != ino ensures j in m.used && g.inodes[j] == RecordOf(m, j).inode {
      U.CreatedKeeps(View(m).fs, ns, g, dir, ino, name, kind, j);
    }
  }

  /** Whether the entry found room is a matter of the parent's size. */
  lemma InRoom(m: Mount, ns: Fs, g: Fs, dir: nat, ino: nat, name: seq<Byte>, kind: nat)
    requires MountInv(m) && dir in m.dirs && CreatedIn(View(m).fs, ns, g, dir, ino, name, kind) && dir in m.used
    ensures RecordOf(m, dir).inode.size < 24 * 252 ==> U.Created(View(m).fs, ns, g, dir, ino, name, kind)
    ensures RecordOf(m, dir).inode.size >= 24 * 252 ==> U.CreatedOver(View(m).fs, ns, g, dir, ino, name, kind)
  {
    hide MountInv, View, U.Created, U.CreatedOver, D.EntriesOf, D.FirstFree;
    SizeMeansRoom(m, dir);
    if U.Created(View(m).fs, ns, g, dir, ino, name, kind) {
      CreatedRoom(View(m).fs, ns, g, dir, ino, name, kind);
    } else {
      OverFull(View(m).fs, ns, g, dir, ino, name, kind);
    }
  }

  lemma SizeMeansRoom(m: Mount, dir: nat)
    requires MountInv(m) && dir in m.dirs && dir in m.used
    ensures dir in View(m).fs.inodes
    ensures var fs := View(m).fs;
            RecordOf(m, dir).inode.size < 24 * 252 <==> D.FirstFree(D.EntriesOf(fs.disk, fs.inodes[dir])) < 252
  {
    hide WorldInv, Rooted, HighZero, SlotsAgree, D.DirOk, D.EntriesOf, D.FirstFree, GoodTable;
    GoodDirectory(View(m), dir);
    D.HasRoom(m.disk, View(m).fs.inodes[dir]);
  }

  lemma CreatedRoom(fs: Fs, ns: Fs, g: Fs, dir: nat, ino: nat, name: seq<Byte>, kind: nat)
    requires U.Created(fs, ns, g, dir, ino, name, kind) && dir in fs.inodes
    ensures D.FirstFree(D.EntriesOf(fs.disk, fs.inodes[dir])) < 252
  {
    hide OwnInv, D.EntriesOf, D.DirOk, BitsGrew, U.MakeEntry, D.FirstFree, SameInode;
    assert KeptFile(fs, ns, dir);
    D.SameDir(fs.disk, ns.disk, fs.inodes[dir]);
  }

  lemma OverFull(fs: Fs, ns: Fs, g: Fs, dir: nat, ino: nat, name: seq<Byte>, kind: nat)
    requires U.CreatedOver(fs, ns, g, dir, ino, name, kind) && dir in fs.inodes
    ensures D.FirstFree(D.EntriesOf(fs.disk, fs.inodes[dir])) == 252 && OwnInv(ns) && dir != ino
    ensures dir in ns.inodes && ns.inodes[dir] == fs.inodes[dir] && ino !in fs.inodes && ino in ns.inodes
    ensures ns.dataStart == fs.dataStart && ns.reserved == fs.reserved
  {
    hide OwnInv, D.EntriesOf, D.DirOk, BitsGrew, U.MakeEntry, D.FirstFree, SameInode, Granted;
    assert KeptFile(fs, ns, dir);
    D.SameDir(fs.disk, ns.disk, fs.inodes[dir]);
  }

  /** file_create keeps everything as long as the new number fits in eight bits. */
  lemma CreateKeeps(m: Mount, n: Mount, path: seq<Byte>, dir: nat, ino: nat, ns: Fs, g: Fs)
    requires MountInv(m) && CreateBy(m, n, path, dir, ino, ns, g) && ino < 256 && ParentHasRoom(m, path)
    ensures MountInv(n) && View(n).fs == g
    ensures CreateStep(View(m), View(n), ns, dir, ino, LastName(path))
  {
    hide WorldInv, Rooted, HighZero, SlotsAgree, U.Created, U.CreatedOver, TreeIn, KeptBut, LastName;
    var name := LastName(path);
    InvParts(m);
    CreatePath(m, path, dir, ino);
    NumbersSmall(m, dir);
    InRoom(m, ns, g, dir, ino, name, FT_REGULAR);
    CreatedShape(View(m).fs, ns, g, dir, ino, name, FT_REGULAR);
    CreatedKept(m, ns, g, dir, ino, name, FT_REGULAR);
    SlotsTwo(m, g, dir, ino);
    Together(m, n, g, n.dirs, n.slots, n.open);
    CreateStepInv(View(m), View(n), ns, dir, ino, name);
    CreateRooted(View(m), View(n), ns, dir, ino, name);
  }

  lemma MkdirKeeps(m: Mount, n: Mount, path: seq<Byte>, dir: nat, ino: nat, ns: Fs, g: Fs)
    requires MountInv(m) && MkdirBy(m, n, path, dir, ino, ns, g) && ino < 256 && ParentHasRoom(m, path)
    ensures MountInv(n) && View(n).fs == g
    ensures MkdirStep(View(m), View(n), ns, dir, ino, LastName(path))
  {
    hide WorldInv, Rooted, HighZero, SlotsAgree, U.Created, U.CreatedOver, TreeIn, KeptBut, M.FreshTable, D.DirOk,
         LastName;
    var name := LastName(path);
    InvParts(m);
    CreatePath(m, path, dir, ino);
    NumbersSmall(m, dir);
    InRoom(m, ns, g, dir, ino, name, FT_DIRECTORY);
    CreatedShape(View(m).fs, ns, g, dir, ino, name, FT_DIRECTORY);
    CreatedKept(m, ns, g, dir, ino, name, FT_DIRECTORY);
    SlotsTwo(m, g, dir, ino);
    Together(m, n, g, n.dirs, n.slots, n.open);
    MkdirStepInv(View(m), View(n), ns, dir, ino, name);
    MkdirRooted(View(m), View(n), ns, dir, ino, name);
  }

  // ---------------------------------------------------------------- open, close, write

  /** Where a successful search leads. */
  lemma SearchMeans(m: Mount, path: seq<Byte>)
    requires MountInv(m) && PathOk(path)
    ensures var r := SearchIn(m, path);
            && (r.Reached? ==> r.ino in m.dirs && r.ino in m.used)
            && (r.Reached? && r.ino != 0 ==> ReachedBy(TreeIn(m), r.parent, r.ino, LastName(path)))
            && (r.AtFile? ==> r.ino !in m.dirs && HasEntry(TreeIn(m), r.parent, r.ino))
            && (r.AtFile? ==> 1 <= r.depth <= |P.Components(path)|)
            && (r.AtFile? ==> ReachedBy(TreeIn(m), r.parent, r.ino, P.Components(path)[r.depth - 1]))
  {
    hide WorldInv, TreeOk, EntriesFit, HighZero, SlotsAgree, P.Components, NamesFit, Walk, D.EntriesOf, Live, Name,
         ReachedBy, HasEntry;
    InvParts(m);
    var t, cs := TreeIn(m), P.Components(path);
    var depth: nat -> nat :| TreeOk(t, depth);
    RootThere(t, depth);
    if !RootPath(path) && cs != [] && NamesFit(t, 0, cs) {
      WalkFacts(t, depth, 0, 0, cs, 0);
    }
  }

  lemma EntryUsed(m: Mount, p: nat, ino: nat)
    requires MountInv(m) && HasEntry(TreeIn(m), p, ino)
    ensures p in m.dirs && ino in m.used
  {
    hide WorldInv, TreeOk, EntriesFit, HighZero, SlotsAgree, D.EntriesOf, Live, Target;
    InvParts(m);
    AllUsed(View(m));
  }

  lemma SameView(m: Mount, n: Mount)
    requires MountInv(m) && n == m.(open := n.open) && n.open.Keys <= m.used
    requires forall i :: i in m.used ==> RecordOf(n, i) == RecordOf(m, i)
    ensures MountInv(n)
  {
    hide WorldInv, Rooted, HighZero;
    assert View(n).fs.inodes == View(m).fs.inodes;
    assert View(n) == View(m);
  }

  /** inode_open and inode_close change nothing that anybody can see: slots and objects agree. */
  lemma OpenKeeps(m: Mount, n: Mount, path: seq<Byte>, i: nat)
    requires MountInv(m) && OpenBy(m, n, path, i)
    ensures MountInv(n)
  {
    hide MountInv, SearchIn, HasEntry, ReachedBy, WorldInv, Rooted, View, TreeIn, SlotsAgree, HighZero, Fetched;
    SearchMeans(m, path);
    if SearchIn(m, path).AtFile? {
      EntryUsed(m, SearchIn(m, path).parent, i);
    }
    InvParts(m);
    SameView(m, n);
  }

  /** How often an inode is open: i_open_cnts, or 0 for one that is not in memory. */
  function Opens(m: Mount, i: nat): nat {
    if i in m.open then m.open[i].count else 0
  }

  /** How many openings a call adds to an inode, or takes away. */
  ghost function OpensBy(m: Mount, c: Call, i: nat): int {
    match c
    case Open(path) =>
      var r := SearchIn(m, path);
      if r.Reached? && path != [P.Slash()] && i == r.ino then 1
      else if r.AtFile? then (if i == r.ino then 1 else 0) + if i == r.parent != 0 then 1 else 0
      else 0
    case Close(j) => if i == j then -1 else 0
    case _ => 0
  }

  /**
   * Only opening and closing change how often an inode that was in use is open, by exactly that much; a new file is
   * open once, a new directory is not open.
   */
  lemma OpensChange(m: Mount, c: Call, n: Mount, i: nat)
    requires MountInv(m) && StepBy(m, c, n) && (forall j :: j in m.open ==> m.open[j].count >= 1)
    ensures i in m.used ==> Opens(n, i) == Opens(m, i) + OpensBy(m, c, i)
    ensures i !in m.used && i in n.open ==> c.Create? && Opens(n, i) == 1
    ensures forall j :: j in n.open ==> n.open[j].count >= 1
  {
    hide WorldInv, Rooted, HighZero, SlotsAgree, SearchIn, OpenBy, CloseBy, WriteBy, CreateBy, MkdirBy, UnlinkBy,
         RmdirBy;
    match c {
      case Open(path) =>
        var f: nat :| OpenBy(m, n, path, f);
        OpenKeeps(m, n, path, f);
        OpenCounts(m, n, path, f);
      case Close(j) => CloseCounts(m, n, j);
      case Write(j, data) =>
        var g: Fs :| WriteBy(m, n, j, data, g);
        WriteCounts(m, n, j, data, g);
      case Create(path) =>
        var dir: nat, ino: nat, ns: Fs, g: Fs :| CreateBy(m, n, path, dir, ino, ns, g);
        CreateCounts(m, n, path, dir, ino, ns, g);
      case Mkdir(path) =>
        var dir: nat, ino: nat, ns: Fs, g: Fs :| MkdirBy(m, n, path, dir, ino, ns, g);
        MkdirCounts(m, n, path, dir, ino, ns, g);
      case Unlink(path) =>
        var dir: nat, ino: nat, q: nat, es: Fs, g: Fs :| UnlinkBy(m, n, path, dir, ino, q, es, g);
        UnlinkCounts(m, n, path, dir, ino, q, es, g);
      case Rmdir(path) =>
        var dir: nat, ino: nat, found: bool, q: nat, es: Fs, g: Fs :| RmdirBy(m, n, path, dir, ino, found, q, es, g);
        RmdirCounts(m, n, path, dir, ino, found, q, es, g);
    }
    forall j | j in n.open ensures n.open[j].count >= 1 {
      assert Opens(n, j) == n.open[j].count && (j in m.open ==> Opens(m, j) == m.open[j].count);
    }
  }

  /** Objects in memory keep their counts when the partition changes under them. */
  lemma RefreshedCounts(open: map<nat, Object>, g: Fs)
    ensures forall i :: i in open ==> Refreshed(open, g)[i].count == open[i].count
  {
  }

  lemma OpenCounts(m: Mount, n: Mount, path: seq<Byte>, f: nat)
    requires OpenBy(m, n, path, f) && forall j :: j in m.open ==> m.open[j].count >= 1
    ensures n.used == m.used && forall i: nat :: Opens(n, i) == Opens(m, i) + OpensBy(m, Call.Open(path), i)
    ensures forall j :: j in n.open ==> n.open[j].count >= 1
  {
    hide SearchIn;
  }

  lemma CloseCounts(m: Mount, n: Mount, j: nat)
    requires CloseBy(m, n, j) && forall j :: j in m.open ==> m.open[j].count >= 1
    ensures n.used == m.used && n.open.Keys <= m.open.Keys
    ensures forall i: nat :: Opens(n, i) == Opens(m, i) + OpensBy(m, Call.Close(j), i)
    ensures forall j :: j in n.open ==> n.open[j].count >= 1
  {
  }

  lemma WriteCounts(m: Mount, n: Mount, i: nat, data: seq<Byte>, g: Fs)
    requires WriteBy(m, n, i, data, g)
    ensures n.used == m.used && n.open.Keys == m.open.Keys && forall i: nat :: Opens(n, i) == Opens(m, i)
  {
    hide Wrote, KeptFile;
    WriteFacts(View(m).fs, g, i, data);
    RefreshedCounts(m.open, g);
  }

  lemma CreateCounts(m: Mount, n: Mount, path: seq<Byte>, dir: nat, ino: nat, ns: Fs, g: Fs)
    requires MountInv(m) && CreateBy(m, n, path, dir, ino, ns, g)
    ensures ino !in m.used && ino !in m.open && n.open.Keys == m.open.Keys + {ino} && Opens(n, ino) == 1
    ensures forall i: nat :: i != ino ==> Opens(n, i) == Opens(m, i)
  {
    hide WorldInv, Rooted, HighZero, SlotsAgree, SearchIn, LastName, CreatedIn;
    RefreshedCounts(m.open, g);
  }

  lemma MkdirCounts(m: Mount, n: Mount, path: seq<Byte>, dir: nat, ino: nat, ns: Fs, g: Fs)
    requires MountInv(m) && MkdirBy(m, n, path, dir, ino, ns, g)
    ensures n.open.Keys == m.open.Keys <= m.used && forall i: nat :: Opens(n, i) == Opens(m, i)
  {
    hide WorldInv, Rooted, HighZero, SlotsAgree, SearchIn, LastName, CreatedIn, D.DirOk, M.FreshTable;
    RefreshedCounts(m.open, g);
  }

  lemma UnlinkCounts(m: Mount, n: Mount, path: seq<Byte>, dir: nat, ino: nat, q: nat, es: Fs, g: Fs)
    requires MountInv(m) && UnlinkBy(m, n, path, dir, ino, q, es, g)
    ensures n.used <= m.used && n.open.Keys == m.open.Keys && forall i: nat :: Opens(n, i) == Opens(m, i)
  {
    hide WorldInv, Rooted, HighZero, SlotsAgree, SearchIn, D.LeadsTo, D.Erased, U.Released, Fetched, Synced;
    RefreshedCounts(m.open, g);
    ErasedShape(View(m).fs, es, dir, q);
    ReleasedShape(es.(inodes := es.inodes[ino := Fetched(Synced(m.slots, dir, es.inodes[dir]), ino).inode]), g, ino);
  }

  lemma RmdirCounts(m: Mount, n: Mount, path: seq<Byte>, dir: nat, ino: nat, found: bool, q: nat, es: Fs, g: Fs)
    requires MountInv(m) && RmdirBy(m, n, path, dir, ino, found, q, es, g)
    ensures n.used <= m.used && n.open.Keys == m.open.Keys && forall i: nat :: Opens(n, i) == Opens(m, i)
  {
    hide WorldInv, Rooted, HighZero, SlotsAgree, SearchIn, D.LeadsTo, D.Erased, U.Released, Synced, NoChildren;
    RefreshedCounts(m.open, g);
    if found {
      ErasedShape(View(m).fs, es, dir, q);
    }
    ReleasedShape(es, g, ino);
  }

  /** Opening a file leaves its directory open for good: closing the file does not close it. */
  lemma OpenLeaks(m: Mount, n: Mount, k: Mount, path: seq<Byte>, i: nat)
    requires MountInv(m) && OpenBy(m, n, path, i) && SearchIn(m, path).AtFile? && SearchIn(m, path).parent != 0
    requires CloseBy(n, k, i)
    ensures SearchIn(m, path).parent in k.open
  {
    hide MountInv, SearchIn, HasEntry, ReachedBy, TreeIn;
    SearchMeans(m, path);
    EntryUsed(m, SearchIn(m, path).parent, i);
  }

  lemma CloseKeeps(m: Mount, n: Mount, i: nat)
    requires MountInv(m) && CloseBy(m, n, i)
    ensures MountInv(n)
  {
    hide MountInv, WorldInv, Rooted;
    InvParts(m);
    assert i in m.used && RecordOf(m, i) == Fetched(m.slots, i);
    SameView(m, n);
  }

  lemma WriteKeeps(m: Mount, n: Mount, i: nat, data: seq<Byte>, g: Fs)
    requires MountInv(m) && WriteBy(m, n, i, data, g)
    ensures MountInv(n) && View(n).fs == g
    ensures WriteStep(View(m), View(n), i, data)
  {
    hide WorldInv, Rooted, HighZero, SlotsAgree, Wrote, TreeIn, KeptBut;
    InvParts(m);
    WriteShape(m, g, i, data);
    NumbersSmall(m, i);
    SlotsOne(m, g, i);
    Together(m, n, g, n.dirs, n.slots, n.open);
    WriteStepInv(View(m), View(n), i, data);
    WriteRooted(View(m), View(n), i, data);
  }

  lemma WriteShape(m: Mount, g: Fs, i: nat, data: seq<Byte>)
    requires Wrote(View(m).fs, g, i, data)
    ensures g.dataStart == m.dataStart && g.reserved == m.reserved && g.inodes.Keys == m.used && KeptBut(m, g, i, i)
  {
    hide Wrote, KeptFile;
    WriteFacts(View(m).fs, g, i, data);
    forall j | j in g.inodes && j != i ensures j in m.used && g.inodes[j] == RecordOf(m, j).inode {
      KeptIn(View(m).fs, g, j);
    }
  }

  // ---------------------------------------------------------------- sys_unlink, sys_rmdir

  /** The ASSERT of inode_release on the record it opens: it holds for every inode in use. */
  lemma AssertHolds(m: Mount, dir: nat, ino: nat, after: Inode)
    requires MountInv(m) && dir in m.used && ino in m.used && dir != ino
    ensures Fetched(Synced(m.slots, dir, after), ino) == Record(ino, View(m).fs.inodes[ino])
  {
    hide WorldInv, Rooted, HighZero;
    NumbersSmall(m, dir);
    NumbersSmall(m, ino);
    SyncedExactly(m.slots, dir, after);
  }

  lemma ErasedShape(fs: Fs, es: Fs, dir: nat, q: nat)
    requires D.Erased(fs, es, dir, q)
    ensures es.dataStart == fs.dataStart && es.reserved == fs.reserved && es.inodes.Keys == fs.inodes.Keys
    ensures dir in es.inodes
    ensures forall j :: j in fs.inodes && j != dir ==> es.inodes[j] == fs.inodes[j]
  {
    hide OwnInv, D.EntriesOf, D.DirOk, D.Sole, SameInode;
    forall j | j in fs.inodes && j != dir ensures es.inodes[j] == fs.inodes[j] {
      assert KeptFile(fs, es, j);
    }
  }

  lemma ReleasedShape(es: Fs, g: Fs, ino: nat)
    requires U.Released(es, g, ino)
    ensures g.dataStart == es.dataStart && g.reserved == es.reserved && g.inodes == es.inodes - {ino}
    ensures ino in es.inodes
  {
    hide OwnInv, Owns;
  }

  /** An entry was deleted and its inode released, with the slots to match. */
  lemma RemovalKeeps(m: Mount, n: Mount, dir: nat, ino: nat, q: nat, es: Fs, g: Fs)
    requires MountInv(m) && dir in m.dirs && dir in m.used && ino in m.used && ino != 0 && ino != dir && ino !in m.open
    requires D.LeadsTo(FsRuns.Table(View(m).fs, dir), q, ino) && D.Erased(View(m).fs, es, dir, q) && dir in es.inodes
    requires U.Released(es, g, ino)
    requires ino in m.dirs ==> NoChildren(TreeIn(m), ino)
    requires n == After(m, g, m.dirs - {ino}, Cleared(Synced(m.slots, dir, es.inodes[dir]), ino), Refreshed(m.open, g))
    ensures MountInv(n) && View(n).fs == g
    ensures RemoveStep(View(m), View(n), es, dir, q, ino)
  {
    hide WorldInv, Rooted, HighZero, SlotsAgree, D.Erased, U.Released, D.LeadsTo, D.EntriesOf, Live, Cleared, Synced;
    InvParts(m);
    RemoveView(m, n, dir, ino, q, es, g);
    assert ino in m.dirs ==> forall r: nat :: 2 <= r < 252 ==> !Live(FsRuns.Table(View(m).fs, ino)[r]);
    assert RemoveStep(View(m), View(n), es, dir, q, ino);
    RemoveStepInv(View(m), View(n), es, dir, q, ino);
    RemoveRooted(View(m), View(n), es, dir, q, ino);
  }

  lemma RemoveView(m: Mount, n: Mount, dir: nat, ino: nat, q: nat, es: Fs, g: Fs)
    requires MountInv(m) && dir in m.used && ino in m.used && ino != 0 && ino != dir && ino !in m.open
    requires D.Erased(View(m).fs, es, dir, q) && dir in es.inodes && U.Released(es, g, ino)
    requires n == After(m, g, m.dirs - {ino}, Cleared(Synced(m.slots, dir, es.inodes[dir]), ino), Refreshed(m.open, g))
    ensures View(n) == World(g, m.dirs - {ino}) && SlotsAgree(n) && HighZero(n.slots) && n.open.Keys <= n.used
  {
    hide WorldInv, Rooted, HighZero, SlotsAgree, D.Erased, U.Released, TreeIn, KeptBut;
    InvParts(m);
    ErasedShape(View(m).fs, es, dir, q);
    ReleasedShape(es, g, ino);
    NumbersSmall(m, dir);
    NumbersSmall(m, ino);
    ErasedKept(m, es, dir, q);
    SlotsOne(m, es, dir);
    ClearedHigh(Synced(m.slots, dir, es.inodes[dir]), ino);
    Together(m, n, g, n.dirs, n.slots, n.open);
  }

  lemma ErasedKept(m: Mount, es: Fs, dir: nat, q: nat)
    requires D.Erased(View(m).fs, es, dir, q)
    ensures KeptBut(m, es, dir, dir)
  {
    hide D.Erased;
    ErasedShape(View(m).fs, es, dir, q);
  }

  lemma UnlinkKeeps(m: Mount, n: Mount, path: seq<Byte>, dir: nat, ino: nat, q: nat, es: Fs, g: Fs)
    requires MountInv(m) && UnlinkBy(m, n, path, dir, ino, q, es, g)
    ensures MountInv(n) && View(n).fs == g
    ensures RemoveStep(View(m), View(n), es, dir, q, ino)
  {
    hide MountInv, D.Erased, U.Released, D.LeadsTo, SearchIn, HasEntry, ReachedBy, View, FsRuns.Table, TreeIn, After,
         Fetched, Synced, Cleared;
    SearchMeans(m, path);
    EntryUsed(m, dir, ino);
    UnlinkRecord(m, dir, ino, q, es);
    assert m.dirs - {ino} == m.dirs;
    RemovalKeeps(m, n, dir, ino, q, es, g);
  }

  /** The record that inode_release fetches is the one the file has. */
  lemma UnlinkRecord(m: Mount, dir: nat, ino: nat, q: nat, es: Fs)
    requires MountInv(m) && dir in m.used && ino in m.used && dir != ino && D.Erased(View(m).fs, es, dir, q)
    requires dir in es.inodes
    ensures ino in es.inodes
    ensures es.(inodes := es.inodes[ino := Fetched(Synced(m.slots, dir, es.inodes[dir]), ino).inode]) == es
  {
    hide MountInv, D.Erased;
    AssertHolds(m, dir, ino, es.inodes[dir]);
    ErasedShape(View(m).fs, es, dir, q);
    assert es.inodes[ino := es.inodes[ino]] == es.inodes;
  }

  /** What sys_rmdir deletes: the entry in the directory searched last, unless the path ended in ".". */
  lemma RmdirFinds(m: Mount, n: Mount, path: seq<Byte>, dir: nat, ino: nat, found: bool, q: nat, es: Fs, g: Fs)
    requires MountInv(m) && RmdirBy(m, n, path, dir, ino, found, q, es, g)
    ensures dir in m.dirs && ino in m.dirs && (LastName(path) == Dot() <==> dir == ino)
    ensures (found <==> LastName(path) != Dot())
  {
    hide WorldInv, EntriesFit, HighZero, SlotsAgree, SearchIn, D.Erased, U.Released, D.EntriesOf, D.LeadsTo, TreeOk,
         ReachedBy, HasEntry, LastName, Live;
    InvParts(m);
    SearchMeans(m, path);
    var t := TreeIn(m);
    var depth: nat -> nat :| TreeOk(t, depth);
    RmdirEntry(t, depth, dir, ino, LastName(path));
  }

  lemma RmdirEntry(t: Tree, depth: nat -> nat, p: nat, ino: nat, name: seq<Byte>)
    requires TreeOk(t, depth) && ino in t && ino != 0 && NoChildren(t, ino) && ReachedBy(t, p, ino, name)
    ensures p in t && (name == Dot() <==> p == ino)
    ensures name != Dot() ==> exists r: nat :: D.LeadsTo(t[p], r, ino)
    ensures name == Dot() ==> forall r: nat :: !D.LeadsTo(t[p], r, ino)
  {
    hide TreeOk, Live, Name, Target;
    var q: nat :| FoundAt(t, p, q, ino, name);
    EmptyReached(t, depth, p, q, ino, name);
    assert name != Dot() ==> D.LeadsTo(t[p], q, ino);
  }

  lemma RmdirKeeps(m: Mount, n: Mount, path: seq<Byte>, dir: nat, ino: nat, found: bool, q: nat, es: Fs, g: Fs)
    requires MountInv(m) && RmdirBy(m, n, path, dir, ino, found, q, es, g) && ino !in m.open && LastName(path) != Dot()
    ensures MountInv(n) && View(n).fs == g
    ensures found && RemoveStep(View(m), View(n), es, dir, q, ino)
  {
    hide MountInv, D.Erased, U.Released, D.LeadsTo, SearchIn, LastName;
    RmdirFinds(m, n, path, dir, ino, found, q, es, g);
    RemovalKeeps(m, n, dir, ino, q, es, g);
  }

  // ---------------------------------------------------------------- exactly the careful calls keep the invariant

  /** A new number from 256 on: its slot stays zero, so it is lost as soon as it is read back. */
  lemma HighNumberLost(m: Mount, n: Mount, dir: nat, ino: nat, a: Inode, b: Inode)
    requires HighZero(m.slots) && ino >= 256 && n.slots == Synced(Synced(m.slots, dir, a), ino, b) && ino in n.used
    ensures !SlotsAgree(n) && Fetched(n.slots, ino).no != ino
  {
    SyncedExactly(m.slots, dir, a);
    SyncedExactly(Synced(m.slots, dir, a), ino, b);
  }

  lemma LowestSmall(m: Mount, ino: nat)
    requires Lowest(m, ino)
    ensures ino < 256 <==> NumberFree(m)
  {
  }

  /**
   * sys_rmdir of a path that ends in ".": the directory goes, its entry in the real parent stays, and leads to a number
   * that the next creation will hand out again.
   */
  lemma DotDangles(m: Mount, n: Mount, path: seq<Byte>, dir: nat, ino: nat, found: bool, q: nat, es: Fs, g: Fs)
    returns (p: nat, r: nat)
    requires MountInv(m) && RmdirBy(m, n, path, dir, ino, found, q, es, g) && ino !in m.open && LastName(path) == Dot()
    ensures p in n.dirs && p in n.used && ino !in n.used && D.LeadsTo(FsRuns.Table(View(n).fs, p), r, ino)
    ensures !MountInv(n)
  {
    hide WorldInv, EntriesFit, HighZero, SlotsAgree, SearchIn, U.Released, D.EntriesOf, D.LeadsTo, TreeOk, LastName,
         Live, NoChildren;
    InvParts(m);
    RmdirFinds(m, n, path, dir, ino, found, q, es, g);
    ReleasedShape(es, g, ino);
    ReleasedDisk(es, g, ino);
    var t := TreeIn(m);
    var depth: nat -> nat :| TreeOk(t, depth);
    p, r := OwnParent(t, depth, ino);
    assert RecordOf(n, p) == RecordOf(m, p);
    assert FsRuns.Table(View(n).fs, p) == t[p];
    Dangling(View(n), p, r, ino);
  }

  lemma ReleasedDisk(es: Fs, g: Fs, ino: nat)
    requires U.Released(es, g, ino)
    ensures g.disk == es.disk
  {
    hide OwnInv, Owns;
  }

  lemma OwnParent(t: Tree, depth: nat -> nat, ino: nat) returns (p: nat, r: nat)
    requires TreeOk(t, depth) && ino in t && ino != 0
    ensures p in t && p != ino && |t[p]| == 252 && D.LeadsTo(t[p], r, ino)
  {
    hide Live, Name, Target, Kind, NamesOk, TargetsOk, Clean;
    assert DirectoryOk(t, depth, ino);
    p := Parent(t, ino);
    assert DirectoryOk(t, depth, p);
    r :| ChildAt(t, p, r, ino);
  }

  lemma Dangling(w: World, p: nat, r: nat, ino: nat)
    requires p in w.dirs && p in w.fs.inodes && D.LeadsTo(FsRuns.Table(w.fs, p), r, ino) && ino !in w.fs.inodes
    ensures !WorldInv(w)
  {
    hide InodeOk, OwnInv, NoCommonChild, U.RootOwns;
    LeadsNowhere(w, p, r, ino);
  }

  lemma LeadsNowhere(w: World, p: nat, r: nat, ino: nat)
    requires p in w.dirs && p in w.fs.inodes && D.LeadsTo(FsRuns.Table(w.fs, p), r, ino) && ino !in w.fs.inodes
    ensures !InodeOk(w, p)
  {
    hide D.EntriesOf, Live, Target, D.DirOk;
  }

  /** sys_rmdir of a directory somebody has open leaves its object in the list of open inodes. */
  lemma OpenStays(m: Mount, n: Mount, path: seq<Byte>, dir: nat, ino: nat, found: bool, q: nat, es: Fs, g: Fs)
    requires RmdirBy(m, n, path, dir, ino, found, q, es, g) && ino in m.open
    ensures ino in n.open && ino !in n.used && !MountInv(n)
  {
    hide WorldInv, Rooted, HighZero, SlotsAgree, SearchIn, D.EntriesOf, D.LeadsTo, D.Erased, NoChildren, U.Released;
    ReleasedShape(es, g, ino);
  }

  /** From a whole partition every call that succeeds leaves a whole partition exactly if the caller was careful. */
  lemma StepExactly(m: Mount, c: Call, n: Mount)
    requires MountInv(m) && StepBy(m, c, n)
    ensures MountInv(n) <==> Careful(m, c)
  {
    hide MountInv, SearchIn, LastName, OpenBy, CloseBy, WriteBy, CreateBy, MkdirBy, UnlinkBy, RmdirBy;
    match c
    case Open(path) =>
      var i: nat :| OpenBy(m, n, path, i);
      OpenKeeps(m, n, path, i);
    case Close(i) => CloseKeeps(m, n, i);
    case Write(i, data) =>
      var g: Fs :| WriteBy(m, n, i, data, g);
      WriteKeeps(m, n, i, data, g);
    case Create(path) => CreateExactly(m, path, n);
    case Mkdir(path) => MkdirExactly(m, path, n);
    case Unlink(path) =>
      var dir: nat, ino: nat, q: nat, es: Fs, g: Fs :| UnlinkBy(m, n, path, dir, ino, q, es, g);
      UnlinkKeeps(m, n, path, dir, ino, q, es, g);
    case Rmdir(path) => RmdirExactly(m, path, n);
  }

  /** The parent after an insertion behind a table is no directory that the other calls can use. */
  lemma OverBreaks(m: Mount, n: Mount, ns: Fs, g: Fs, dir: nat, ino: nat, name: seq<Byte>, kind: nat)
    requires MountInv(m) && dir in m.dirs && dir in m.used && U.CreatedOver(View(m).fs, ns, g, dir, ino, name, kind)
    requires dir in g.inodes && ino in g.inodes && ino < 256 && m.dirs <= n.dirs && n.disk == g.disk
    requires n.used == g.inodes.Keys
    requires n.slots == Synced(Synced(m.slots, dir, g.inodes[dir]), ino, g.inodes[ino])
    requires dir in n.open ==> n.open[dir].inode == g.inodes[dir]
    ensures !MountInv(n)
  {
    hide HighZero, SlotsAgree, Rooted, U.CreatedOver, WorldInv;
    OverFull(View(m).fs, ns, g, dir, ino, name, kind);
    OverTable(View(m).fs, ns, g, dir, ino, name, kind);
    NumbersSmall(m, dir);
    assert RecordOf(n, dir).inode == g.inodes[dir];
    NoDirectory(View(n), dir);
  }

  lemma OverTable(fs: Fs, ns: Fs, g: Fs, dir: nat, ino: nat, name: seq<Byte>, kind: nat)
    requires U.CreatedOver(fs, ns, g, dir, ino, name, kind)
    ensures dir in ns.inodes && dir in g.inodes && g.inodes[dir].sectors[12] != 0
  {
    hide OwnInv, D.EntriesOf, D.FirstFree, Granted, U.MakeEntry, OthersKept;
  }

  lemma NoDirectory(w: World, d: nat)
    requires d in w.dirs && d in w.fs.inodes && w.fs.inodes[d].sectors[12] != 0
    ensures !WorldInv(w)
  {
    hide OwnInv, NoCommonChild, U.RootOwns, U.LeadsInside;
    assert !InodeOk(w, d);
  }

  lemma CreateExactly(m: Mount, path: seq<Byte>, n: Mount)
    requires MountInv(m) && StepBy(m, Create(path), n)
    ensures MountInv(n) <==> Careful(m, Create(path))
  {
    hide MountInv, SearchIn, LastName, U.Created, U.CreatedOver, View, SlotsAgree;
    var dir: nat, ino: nat, ns: Fs, g: Fs :| CreateBy(m, n, path, dir, ino, ns, g);
    LowestSmall(m, ino);
    CreatePath(m, path, dir, ino);
    if ino >= 256 {
      LostNumber(m, n, dir, ino, g.inodes[dir], g.inodes[ino]);
    } else if RecordOf(m, dir).inode.size < 24 * 252 {
      CreateKeeps(m, n, path, dir, ino, ns, g);
    } else {
      InRoom(m, ns, g, dir, ino, LastName(path), FT_REGULAR);
      OverNumber(m, ns, g, dir, ino, LastName(path), FT_REGULAR);
      OverBreaks(m, n, ns, g, dir, ino, LastName(path), FT_REGULAR);
    }
  }

  lemma OverNumber(m: Mount, ns: Fs, g: Fs, dir: nat, ino: nat, name: seq<Byte>, kind: nat)
    requires U.CreatedOver(View(m).fs, ns, g, dir, ino, name, kind) && dir in m.used
    ensures dir != ino
  {
    OverFull(View(m).fs, ns, g, dir, ino, name, kind);
  }

  lemma LostNumber(m: Mount, n: Mount, dir: nat, ino: nat, a: Inode, b: Inode)
    requires MountInv(m) && ino >= 256 && n.slots == Synced(Synced(m.slots, dir, a), ino, b) && ino in n.used
    ensures !MountInv(n)
  {
    hide WorldInv, Rooted, SlotsAgree, HighZero;
    HighNumberLost(m, n, dir, ino, a, b);
  }

  lemma MkdirExactly(m: Mount, path: seq<Byte>, n: Mount)
    requires MountInv(m) && StepBy(m, Mkdir(path), n)
    ensures MountInv(n) <==> Careful(m, Mkdir(path))
  {
    hide MountInv, SearchIn, LastName, U.Created, U.CreatedOver, View, SlotsAgree, M.FreshTable, D.DirOk;
    var dir: nat, ino: nat, ns: Fs, g: Fs :| MkdirBy(m, n, path, dir, ino, ns, g);
    LowestSmall(m, ino);
    CreatePath(m, path, dir, ino);
    if ino >= 256 {
      LostNumber(m, n, dir, ino, g.inodes[dir], g.inodes[ino]);
    } else if RecordOf(m, dir).inode.size < 24 * 252 {
      MkdirKeeps(m, n, path, dir, ino, ns, g);
    } else {
      InRoom(m, ns, g, dir, ino, LastName(path), FT_DIRECTORY);
      OverNumber(m, ns, g, dir, ino, LastName(path), FT_DIRECTORY);
      OverBreaks(m, n, ns, g, dir, ino, LastName(path), FT_DIRECTORY);
    }
  }

  lemma RmdirExactly(m: Mount, path: seq<Byte>, n: Mount)
    requires MountInv(m) && StepBy(m, Rmdir(path), n)
    ensures MountInv(n) <==> Careful(m, Rmdir(path))
  {
    hide MountInv, SearchIn, LastName, D.LeadsTo, D.Erased, U.Released, NoChildren, TreeIn, After, View;
    var dir: nat, ino: nat, found: bool, q: nat, es: Fs, g: Fs :| RmdirBy(m, n, path, dir, ino, found, q, es, g);
    assert SearchIn(m, path) == Reached(ino, dir);
    if ino in m.open {
      OpenStays(m, n, path, dir, ino, found, q, es, g);
    } else if LastName(path) == Dot() {
      var p, r := DotDangles(m, n, path, dir, ino, found, q, es, g);
    } else {
      RmdirKeeps(m, n, path, dir, ino, found, q, es, g);
    }
  }

  // ---------------------------------------------------------------- where it fails

  /** A file with number 256: its own slot stays zero and the root's slot carries its record. */
  lemma CreateAt256(m: Mount, n: Mount, path: seq<Byte>, dir: nat, ns: Fs, g: Fs)
    requires MountInv(m) && CreateBy(m, n, path, dir, 256, ns, g)
    ensures Fetched(n.slots, 256).no != 256 && Fetched(n.slots, 0) == Record(256, EmptyInode())
    ensures 256 in n.open && n.open[256].count == 1
  {
    hide WorldInv, Rooted, SlotsAgree, SearchIn, LastName, U.Created;
    HighNumberLost(m, n, dir, 256, g.inodes[dir], g.inodes[256]);
  }

  /** Once it is closed, inode_release opens a record with another number: sys_unlink stops the kernel. */
  lemma UnlinkAt256(m: Mount, n: Mount, k: Mount, path: seq<Byte>, dir: nat, ns: Fs, g: Fs, p: nat, after: Inode)
    requires MountInv(m) && CreateBy(m, n, path, dir, 256, ns, g) && CloseBy(n, k, 256) && p < 256
    ensures k.open == n.open - {256} && RecordOf(k, 256).no != 256
    ensures Fetched(Synced(k.slots, p, after), 256).no != 256
  {
    hide MountInv, CreateBy;
    CreateAt256(m, n, path, dir, ns, g);
  }

  /** A directory with number 256 is lost at once: the only copy of its inode went to the root's slot. */
  lemma MkdirAt256(m: Mount, n: Mount, path: seq<Byte>, dir: nat, ns: Fs, g: Fs)
    requires MountInv(m) && MkdirBy(m, n, path, dir, 256, ns, g)
    ensures 256 in n.used && RecordOf(n, 256).no != 256 && Fetched(n.slots, 0) == Record(256, g.inodes[256])
  {
    hide WorldInv, Rooted, SearchIn, LastName, U.Created, M.FreshTable, D.DirOk;
    assert Lowest(m, 256);
    HighNumberLost(m, n, dir, 256, g.inodes[dir], g.inodes[256]);
  }

  /**
   * The first creation in a directory of 252 entries: it succeeds, the blocks are still owned exactly, but the
   * directory has a table now.
   */
  lemma FullParentFirst(m: Mount, ns: Fs, g: Fs, dir: nat, ino: nat, name: seq<Byte>, kind: nat)
    requires MountInv(m) && dir in m.dirs && dir in m.used && U.CreatedOver(View(m).fs, ns, g, dir, ino, name, kind)
    ensures OwnInv(g) && dir in g.inodes && g.inodes[dir].sectors[12] != 0 && !D.DirOk(g.disk, g.inodes[dir])
  {
    hide WorldInv, Rooted, HighZero, SlotsAgree, OwnInv, D.DirOk, D.Overflowed, D.EntriesOf, U.MakeEntry, OthersKept;
    var fs := View(m).fs;
    InvParts(m);
    GoodDirectory(View(m), dir);
    D.DirTop(fs.disk, fs.inodes[dir]);
    OverFull(fs, ns, g, dir, ino, name, kind);
    OverTable(fs, ns, g, dir, ino, name, kind);
    var e := U.MakeEntry(name, ino, kind);
    var table: nat, block: nat :| D.Overflowed(ns, g, dir, e, table, block);
    FirstOverflow(ns, g, dir, e, table, block);
  }

  /**
   * The second one: the old table stays marked and belongs to nobody, and so does the block it led to, with the entry
   * that the first creation wrote there.
   */
  lemma FullParentSecond(fs: Fs, ns: Fs, g: Fs, dir: nat, ino: nat, name: seq<Byte>, kind: nat, b: nat)
    requires dir in fs.inodes && fs.inodes[dir].sectors[12] != 0 && U.CreatedOver(fs, ns, g, dir, ino, name, kind)
    requires b != 0 && (b == fs.inodes[dir].sectors[12] || b == Block(fs.disk, fs.inodes[dir], 12))
    ensures g.dataStart <= b < g.dataStart + |g.bits| && g.bits[b - g.dataStart] && b !in g.reserved
    ensures !SomeoneOwns(g, b) && !OwnInv(g)
  {
    hide OwnInv, D.Overflowed, D.EntriesOf, U.MakeEntry, SameInode, Block, SomeoneOwns;
    OverFull(fs, ns, g, dir, ino, name, kind);
    var e := U.MakeEntry(name, ino, kind);
    var table: nat, block: nat :| D.Overflowed(ns, g, dir, e, table, block);
    assert KeptFile(fs, ns, dir);
    SameBlock12(fs.disk, ns.disk, fs.inodes[dir]);
    SecondOverflow(ns, g, dir, e, table, block, b);
  }

  lemma SameBlock12(d: seq<Sector>, e: seq<Sector>, n: Inode)
    requires SameInode(d, e, n)
    ensures Block(d, n, 12) == Block(e, n, 12)
  {
    hide Block, Data;
  }

  /** sys_unlink has no test of the depth: where "/f" is a file, "/f/x" leads search_file to the same entry. */
  lemma SearchThroughFile(m: Mount, ino: nat, dir: nat)
    requires SearchIn(m, [47, 102]) == AtFile(ino, dir, 1)
    ensures SearchIn(m, [47, 102, 47, 120]) == AtFile(ino, dir, 1) && PathOk([47, 102, 47, 120])
    ensures |P.Components([47, 102, 47, 120])| == 2
  {
    hide P.Components, Find, Walk, Target, Kind, NamesFit;
    FileNames();
    var t := TreeIn(m);
    WalkPastFile(t, 0, 0, [[102]], 0, [[120]]);
    FileFits(t);
  }

  lemma FileNames()
    ensures P.Components([47, 102]) == [[102]] && P.Components([47, 102, 47, 120]) == [[102]] + [[120]]
  {
    hide P.Components;
    P.ComponentsNil();
    P.OneComponent([102], []);
    assert [P.Slash()] + [102] + [] == [47, 102] && [[102]] + P.Components([]) == [[102]];
    P.OneComponent([120], []);
    assert [P.Slash()] + [120] + [] == [47, 120] && [[120]] + P.Components([]) == [[120]];
    P.OneComponent([102], [47, 120]);
    assert [P.Slash()] + [102] + [47, 120] == [47, 102, 47, 120];
  }

  lemma FileFits(t: Tree)
    requires Walk(t, 0, 0, [[102]], 0).AtFile?
    ensures NamesFit(t, 0, [[102]] + [[120]])
  {
    hide Find, Target, Kind;
    var cs: seq<seq<Byte>> := [[102]] + [[120]];
    assert cs[0] == [102] && cs[1] == [120] && [[102]][0] == [102];
    assert [[102]][1..] == [];
  }

  /** "/a/." */
  function SlashADot(): seq<Byte> { [47, 97, 47, 46] }

  lemma SlashADotNames()
    ensures P.Components([47, 97]) == [[97]] && P.Components(SlashADot()) == [[97]] + [Dot()]
    ensures PathOk(SlashADot()) && LastName(SlashADot()) == Dot()
  {
    hide P.Components;
    P.ComponentsNil();
    P.OneComponent([97], []);
    assert [P.Slash()] + [97] + [] == [47, 97] && [[97]] + P.Components([]) == [[97]];
    P.OneComponent([46], []);
    assert [P.Slash()] + [46] + [] == [47, 46] && [[46]] + P.Components([]) == [[46]];
    P.OneComponent([97], [47, 46]);
    assert [P.Slash()] + [97] + [47, 46] == SlashADot();
  }

  /** Where "/a" is a directory, search_file returns it for "/a/." too, with itself as the parent. */
  lemma SearchSlashADot(m: Mount, p: nat, ino: nat)
    requires MountInv(m) && SearchIn(m, [47, 97]) == Reached(ino, p)
    ensures SearchIn(m, SlashADot()) == Reached(ino, ino)
  {
    hide WorldInv, TreeOk, EntriesFit, HighZero, SlotsAgree, P.Components, NamesFit, Walk, D.EntriesOf;
    InvParts(m);
    SlashADotNames();
    var t := TreeIn(m);
    var depth: nat -> nat :| TreeOk(t, depth);
    RootThere(t, depth);
    WalkDot(t, depth, 0, 0, [[97]], 0);
  }

  /** sys_rmdir("/a/.") on an empty "/a" leaves an entry of a directory in use that leads to a free inode. */
  lemma RmdirSlashADot(m: Mount, n: Mount, dir: nat, ino: nat, found: bool, q: nat, es: Fs, g: Fs)
    returns (p: nat, r: nat)
    requires MountInv(m) && RmdirBy(m, n, SlashADot(), dir, ino, found, q, es, g) && ino !in m.open
    ensures dir == ino && !found
    ensures p in n.dirs && p in n.used && ino !in n.used && D.LeadsTo(FsRuns.Table(View(n).fs, p), r, ino)
  {
    hide MountInv, RmdirBy, View, D.LeadsTo, LastName;
    SlashADotNames();
    RmdirFinds(m, n, SlashADot(), dir, ino, found, q, es, g);
    p, r := DotDangles(m, n, SlashADot(), dir, ino, found, q, es, g);
  }

  // ---------------------------------------------------------------- runs

  /** The mounted state right after formatting: the root's slot is written and the root is open. */
  ghost predicate FormattedMount(m: Mount) {
    && m.used == {0} && m.dirs == {0} && m.open == map[0 := Object(F.RootInode(m.dataStart), 1)]
    && m.slots == map[0 := Record(0, F.RootInode(m.dataStart))] && F.Formatted(View(m).fs)
  }

  lemma FormattedKeeps(m: Mount)
    requires FormattedMount(m)
    ensures MountInv(m)
  {
    hide F.Formatted, WorldInv, Rooted;
    FormattedInv(View(m));
    FormattedRooted(View(m));
  }

  ghost predicate CarefulStep(ms: seq<Mount>, cs: seq<Call>, i: nat)
    requires |ms| == |cs| + 1 && i < |cs|
  {
    StepBy(ms[i], cs[i], ms[i + 1]) && Careful(ms[i], cs[i])
  }

  /** A history from formatting on, in which every call was a careful one. */
  ghost predicate History(ms: seq<Mount>, cs: seq<Call>) {
    |ms| == |cs| + 1 && FormattedMount(ms[0]) && forall i: nat :: i < |cs| ==> CarefulStep(ms, cs, i)
  }

  lemma {:induction false} HistoryInv(ms: seq<Mount>, cs: seq<Call>, n: nat)
    requires History(ms, cs) && n < |ms|
    ensures MountInv(ms[n])
  {
    hide FormattedMount, MountInv, StepBy, Careful;
    if n == 0 {
      FormattedKeeps(ms[0]);
    } else {
      HistoryInv(ms, cs, n - 1);
      assert CarefulStep(ms, cs, n - 1);
      StepExactly(ms[n - 1], cs[n - 1], ms[n]);
    }
  }

  lemma HistoryLength(ms: seq<Mount>, cs: seq<Call>)
    requires History(ms, cs)
    ensures |ms| == |cs| + 1
  {
  }

  lemma HistoryStep(ms: seq<Mount>, cs: seq<Call>, n: nat)
    requires History(ms, cs) && n < |cs|
    ensures |ms| == |cs| + 1 && StepBy(ms[n], cs[n], ms[n + 1]) && MountInv(ms[n]) && MountInv(ms[n + 1])
  {
    hide FormattedMount, MountInv, StepBy, Careful;
    HistoryInv(ms, cs, n);
    HistoryInv(ms, cs, n + 1);
    assert CarefulStep(ms, cs, n);
  }

  /**
   * In every reachable state, for the records that inode_open returns there: no block has two owners, a bit is set
   * exactly when its block is owned or reserved, and files and directories are well formed.
   */
  lemma Reachable(ms: seq<Mount>, cs: seq<Call>, n: nat, i: nat, j: nat, b: nat)
    requires History(ms, cs) && n < |ms| && i in ms[n].used && j in ms[n].used
    ensures var fs := View(ms[n]).fs;
            && (Owns(fs.disk, RecordOf(ms[n], i).inode, b) && Owns(fs.disk, RecordOf(ms[n], j).inode, b) ==> i == j)
            && (fs.dataStart <= b < fs.dataStart + |fs.bits| ==>
                (fs.bits[b - fs.dataStart] <==> b in fs.reserved || SomeoneOwns(fs, b)))
            && (i in ms[n].dirs ==> D.DirOk(fs.disk, RecordOf(ms[n], i).inode))
            && (i !in ms[n].dirs ==> Files.FileOk(fs.disk, RecordOf(ms[n], i).inode))
  {
    hide History, WorldInv, Rooted, HighZero, SlotsAgree, D.DirOk, Files.FileOk, Owns, SomeoneOwns;
    HistoryInv(ms, cs, n);
    Wholeness(View(ms[n]), i, j, b);
  }

  /** In every reachable state inode_release's ASSERT on the number holds, for a file in any directory. */
  lemma ReachableAssert(ms: seq<Mount>, cs: seq<Call>, n: nat, dir: nat, ino: nat, after: Inode)
    requires History(ms, cs) && n < |ms| && dir in ms[n].used && ino in ms[n].used && dir != ino
    ensures RecordOf(ms[n], ino).no == ino && Fetched(Synced(ms[n].slots, dir, after), ino).no == ino
  {
    hide History, MountInv;
    HistoryInv(ms, cs, n);
    NumbersSmall(ms[n], ino);
    AssertHolds(ms[n], dir, ino, after);
  }

  /** Entry names are short and without slashes, so a directory's path can be taken apart again. */
  lemma NoSlashesIn(t: Tree, depth: nat -> nat)
    requires TreeOk(t, depth) && EntriesFit(t)
    ensures NoSlashes(t)
  {
    hide Live, Name, Target, Kind, EntriesFit, TreeOk;
    forall d, q: nat | d in t && q < |t[d]| && Live(t[d][q]) ensures P.Slash() !in Name(t[d][q]) {
      OneEntry(t, depth, d, q);
    }
  }

  lemma OneEntry(t: Tree, depth: nat -> nat, d: nat, q: nat)
    requires TreeOk(t, depth) && EntriesFit(t) && d in t && q < |t[d]| && Live(t[d][q])
    ensures P.Slash() !in Name(t[d][q])
  {
    hide Live, Name, Target, Kind, NamesOk, TargetsOk, Clean, ChildAt;
    assert DirectoryOk(t, depth, d);
    if q >= 2 {
      FitsAt(t, d, q);
    }
  }

  /**
   * In every reachable state the directories form a tree, and sys_getcwd and search_file are inverse on it: the path
   * sys_getcwd writes for a directory resolves to that directory, and search_file finds it if the path is below 512
   * bytes.
   */
  lemma ReachableByName(ms: seq<Mount>, cs: seq<Call>, n: nat, d: nat) returns (depth: nat -> nat)
    requires History(ms, cs) && n < |ms| && d in ms[n].dirs
    ensures var t := TreeIn(ms[n]);
            && TreeOk(t, depth) && NoSlashes(t) && d in t
            && var path := P.Render(Chain(t, depth, d));
            && Resolve(t, 0, P.Components(path)) == Directory(d)
            && (|path| < 512 ==> SearchIn(ms[n], path).Reached? && SearchIn(ms[n], path).ino == d)
  {
    hide History, WorldInv, HighZero, SlotsAgree, TreeOk, EntriesFit, NoSlashes, D.EntriesOf, Resolve, Chain,
         P.Components, P.Render, SearchOf;
    HistoryInv(ms, cs, n);
    InvParts(ms[n]);
    var t := TreeIn(ms[n]);
    depth :| TreeOk(t, depth);
    NoSlashesIn(t, depth);
    GetcwdSearch(t, depth, d);
    if |P.Render(Chain(t, depth, d))| < 512 {
      GetcwdFound(t, depth, d);
    }
  }

  // ---------------------------------------------------------------- what a file holds

  /** The call appends these bytes to the file. */
  function Adds(c: Call, i: nat): seq<Byte> {
    if c.Write? && c.ino == i then c.data else []
  }

  function Appended(cs: seq<Call>, i: nat): seq<Byte> {
    if cs == [] then [] else Appended(cs[..|cs| - 1], i) + Adds(cs[|cs| - 1], i)
  }

  /** An inode whose slot nobody wrote to has the record it had, open or closed. */
  lemma RecordFollows(m: Mount, n: Mount, i: nat)
    requires MountInv(m) && MountInv(n) && i in m.used && i in n.used && Fetched(n.slots, i) == Fetched(m.slots, i)
    ensures RecordOf(n, i) == RecordOf(m, i)
  {
    hide WorldInv, Rooted, HighZero;
    assert Fetched(n.slots, i) == Record(i, RecordOf(n, i).inode)
        && Fetched(m.slots, i) == Record(i, RecordOf(m, i).inode);
  }

  lemma FileKept(m: Mount, n: Mount, i: nat, bytes: seq<Byte>)
    requires MountInv(m) && MountInv(n) && i in m.used && i in n.used && Fetched(n.slots, i) == Fetched(m.slots, i)
    requires Holds(View(m).fs, i, bytes) && SameInode(m.disk, n.disk, View(m).fs.inodes[i])
    ensures Holds(View(n).fs, i, bytes)
  {
    hide MountInv, SameInode, WorldInv, Rooted, HighZero, SlotsAgree, OwnInv, Files.FileOk, Files.Contents;
    RecordFollows(m, n, i);
    Files.SameContents(m.disk, n.disk, View(m).fs.inodes[i]);
    ViewOwned(n);
  }

  lemma ViewOwned(m: Mount)
    requires MountInv(m)
    ensures OwnInv(View(m).fs)
  {
    hide OwnInv, Rooted, HighZero, SlotsAgree, InodeOk, NoCommonChild, U.RootOwns, View;
  }

  lemma WriteHolds(m: Mount, n: Mount, i: nat, data: seq<Byte>, g: Fs, bytes: seq<Byte>)
    requires MountInv(m) && MountInv(n) && WriteBy(m, n, i, data, g) && i in m.used && Holds(View(m).fs, i, bytes)
    ensures i in n.used && Holds(View(n).fs, i, bytes + data)
  {
    hide WorldInv, Rooted, HighZero, OwnInv, Files.FileOk, Files.Contents, OthersKept, BitsGrew, SameShape;
    NumbersSmall(m, i);
    ViewOwned(n);
    assert Fetched(n.slots, i) == Record(i, RecordOf(n, i).inode);
  }

  lemma OtherSlot(m: Mount, a: nat, i: nat, after: Inode)
    requires MountInv(m) && a in m.used && a != i
    ensures Fetched(Synced(m.slots, a, after), i) == Fetched(m.slots, i)
  {
    hide WorldInv, Rooted, HighZero;
    NumbersSmall(m, a);
  }

  /** Another file was written to. */
  lemma OtherWritten(m: Mount, n: Mount, j: nat, data: seq<Byte>, g: Fs, i: nat, bytes: seq<Byte>)
    requires MountInv(m) && MountInv(n) && WriteBy(m, n, j, data, g) && i != j && i in m.used
    requires Holds(View(m).fs, i, bytes)
    ensures i in n.used && Holds(View(n).fs, i, bytes)
  {
    hide MountInv, Holds, Wrote, SameInode, KeptFile;
    InvParts(m);
    WriteFacts(View(m).fs, g, j, data);
    KeptSame(View(m).fs, g, i);
    OtherSlot(m, j, i, g.inodes[j]);
    FileKept(m, n, i, bytes);
  }

  lemma KeptSame(fs: Fs, gs: Fs, i: nat)
    requires KeptFile(fs, gs, i)
    ensures i in fs.inodes && i in gs.inodes && SameInode(fs.disk, gs.disk, fs.inodes[i])
  {
    hide SameInode;
  }

  /** Something was created in a directory. */
  lemma CreatedElse(m: Mount, n: Mount, ns: Fs, g: Fs, dir: nat, ino: nat, name: seq<Byte>, kind: nat, i: nat,
                    bytes: seq<Byte>)
    requires MountInv(m) && MountInv(n) && U.Created(View(m).fs, ns, g, dir, ino, name, kind) && n.disk == g.disk
    requires n.used == g.inodes.Keys
    requires dir in g.inodes && ino in g.inodes
    requires n.slots == Synced(Synced(m.slots, dir, g.inodes[dir]), ino, g.inodes[ino])
    requires dir in m.used && i in m.used && i != dir && ino !in m.used && Holds(View(m).fs, i, bytes)
    ensures i in n.used && Holds(View(n).fs, i, bytes)
  {
    hide MountInv, Holds, U.Created, SameInode, View, Fetched, Synced;
    CreatedSame(m, ns, g, dir, ino, name, kind, i);
    NumbersSmall(n, ino);
    TwoOtherSlots(m, dir, ino, i, g.inodes[dir], g.inodes[ino]);
    FileKept(m, n, i, bytes);
  }

  lemma CreatedSame(m: Mount, ns: Fs, g: Fs, dir: nat, ino: nat, name: seq<Byte>, kind: nat, i: nat)
    requires U.Created(View(m).fs, ns, g, dir, ino, name, kind) && i in m.used && i != dir
    ensures g.inodes.Keys == m.used + {ino} && SameInode(m.disk, g.disk, View(m).fs.inodes[i])
  {
    hide U.Created, SameInode, KeptFile;
    U.CreatedKeeps(View(m).fs, ns, g, dir, ino, name, kind, i);
    CreatedShape(View(m).fs, ns, g, dir, ino, name, kind);
    KeptSame(View(m).fs, g, i);
  }

  lemma TwoOtherSlots(m: Mount, a: nat, b: nat, i: nat, after: Inode, added: Inode)
    requires MountInv(m) && a in m.used && a != i && b < 256 && b != i
    ensures Fetched(Synced(Synced(m.slots, a, after), b, added), i) == Fetched(m.slots, i)
  {
    hide MountInv;
    OtherSlot(m, a, i, after);
  }

  /** Something else was removed. */
  lemma RemovedElse(m: Mount, n: Mount, dir: nat, ino: nat, found: bool, q: nat, es: Fs, i: nat, bytes: seq<Byte>)
    requires MountInv(m) && MountInv(n) && n.disk == es.disk && dir in es.inodes
    requires if found then D.Erased(View(m).fs, es, dir, q) else es == View(m).fs
    requires n.slots == Cleared(if found then Synced(m.slots, dir, es.inodes[dir]) else m.slots, ino)
    requires dir in m.used && i in m.used && i in n.used && i != dir && i != ino && Holds(View(m).fs, i, bytes)
    ensures Holds(View(n).fs, i, bytes)
  {
    hide MountInv, Holds, D.Erased, SameInode, View, Synced;
    RemovedSame(m, dir, found, q, es, i);
    if found {
      OtherSlot(m, dir, i, es.inodes[dir]);
    }
    FileKept(m, n, i, bytes);
  }

  lemma RemovedSame(m: Mount, dir: nat, found: bool, q: nat, es: Fs, i: nat)
    requires if found then D.Erased(View(m).fs, es, dir, q) else es == View(m).fs
    requires i in m.used && i != dir
    ensures SameInode(m.disk, es.disk, View(m).fs.inodes[i])
  {
    hide D.Erased, SameInode, KeptFile;
    if found {
      U.ErasedKeeps(View(m).fs, es, dir, q, i);
      KeptSame(View(m).fs, es, i);
    } else {
      D.SameSelf(m.disk, View(m).fs.inodes[i]);
    }
  }

  /** One call: the file holds what it held, and what the call wrote to it. */
  lemma StepContents(m: Mount, c: Call, n: Mount, i: nat, bytes: seq<Byte>)
    requires MountInv(m) && MountInv(n) && StepBy(m, c, n)
    requires i in m.used && i in n.used && i !in m.dirs && Holds(View(m).fs, i, bytes)
    ensures i !in n.dirs && Holds(View(n).fs, i, bytes + Adds(c, i))
  {
    hide MountInv, Holds, SearchIn, LastName, View, U.Created, U.CreatedOver, D.Erased, U.Released, D.LeadsTo, TreeIn,
         D.DirOk, M.FreshTable, Wrote;
    assert bytes + [] == bytes;
    match c
    case Open(path) =>
      var k: nat :| OpenBy(m, n, path, k);
      SameRecords(m, n, i, bytes);
    case Close(k) => SameRecords(m, n, i, bytes);
    case Write(j, data) =>
      var g: Fs :| WriteBy(m, n, j, data, g);
      if j == i {
        WriteHolds(m, n, i, data, g, bytes);
      } else {
        OtherWritten(m, n, j, data, g, i, bytes);
      }
    case Create(path) =>
      var dir: nat, ino: nat, ns: Fs, g: Fs :| CreateBy(m, n, path, dir, ino, ns, g);
      CreatePath(m, path, dir, ino);
      StepExactly(m, c, n);
      InRoom(m, ns, g, dir, ino, LastName(path), FT_REGULAR);
      CreatedElse(m, n, ns, g, dir, ino, LastName(path), FT_REGULAR, i, bytes);
    case Mkdir(path) =>
      var dir: nat, ino: nat, ns: Fs, g: Fs :| MkdirBy(m, n, path, dir, ino, ns, g);
      CreatePath(m, path, dir, ino);
      StepExactly(m, c, n);
      InRoom(m, ns, g, dir, ino, LastName(path), FT_DIRECTORY);
      CreatedElse(m, n, ns, g, dir, ino, LastName(path), FT_DIRECTORY, i, bytes);
    case Unlink(path) =>
      var dir: nat, ino: nat, q: nat, es: Fs, g: Fs :| UnlinkBy(m, n, path, dir, ino, q, es, g);
      UnlinkElse(m, n, path, dir, ino, q, es, g, i, bytes);
    case Rmdir(path) =>
      var dir: nat, ino: nat, found: bool, q: nat, es: Fs, g: Fs :| RmdirBy(m, n, path, dir, ino, found, q, es, g);
      RmdirElse(m, n, path, dir, ino, found, q, es, g, i, bytes);
  }

  lemma SameRecords(m: Mount, n: Mount, i: nat, bytes: seq<Byte>)
    requires MountInv(m) && MountInv(n) && n == m.(open := n.open) && i in m.used && Holds(View(m).fs, i, bytes)
    ensures Holds(View(n).fs, i, bytes)
  {
    hide MountInv, Holds, SameInode;
    D.SameSelf(m.disk, View(m).fs.inodes[i]);
    FileKept(m, n, i, bytes);
  }

  lemma UnlinkElse(m: Mount, n: Mount, path: seq<Byte>, dir: nat, ino: nat, q: nat, es: Fs, g: Fs, i: nat,
                   bytes: seq<Byte>)
    requires MountInv(m) && MountInv(n) && UnlinkBy(m, n, path, dir, ino, q, es, g)
    requires i in m.used && i in n.used && i !in m.dirs && Holds(View(m).fs, i, bytes)
    ensures Holds(View(n).fs, i, bytes)
  {
    hide MountInv, Holds, SearchIn, U.Released, D.Erased, D.LeadsTo, TreeIn, View, HasEntry, ReachedBy;
    SearchMeans(m, path);
    EntryUsed(m, dir, ino);
    UnlinkRecord(m, dir, ino, q, es);
    ReleasedShape(es, g, ino);
    ReleasedDisk(es, g, ino);
    RemovedElse(m, n, dir, ino, true, q, es, i, bytes);
  }

  lemma RmdirElse(m: Mount, n: Mount, path: seq<Byte>, dir: nat, ino: nat, found: bool, q: nat, es: Fs, g: Fs, i: nat,
                  bytes: seq<Byte>)
    requires MountInv(m) && MountInv(n) && RmdirBy(m, n, path, dir, ino, found, q, es, g)
    requires i in m.used && i in n.used && i !in m.dirs && Holds(View(m).fs, i, bytes)
    ensures Holds(View(n).fs, i, bytes)
  {
    hide MountInv, Holds, SearchIn, U.Released, D.Erased, D.LeadsTo, TreeIn, View, LastName;
    RmdirFinds(m, n, path, dir, ino, found, q, es, g);
    ReleasedShape(es, g, ino);
    ReleasedDisk(es, g, ino);
    RemovedElse(m, n, dir, ino, found, q, es, i, bytes);
  }

  /**
   * Over any stretch of a history in which the file is not removed, whatever else is created, written, removed,
   * opened or closed: the file holds what it held, followed by everything written to it, in order.
   */
  lemma {:induction false} ReachableContents(ms: seq<Mount>, cs: seq<Call>, a: nat, b: nat, i: nat, bytes: seq<Byte>)
    requires History(ms, cs) && a <= b < |ms| && (forall k: nat :: a <= k <= b ==> i in ms[k].used)
    requires i !in ms[a].dirs && Holds(View(ms[a]).fs, i, bytes)
    ensures i !in ms[b].dirs && Holds(View(ms[b]).fs, i, bytes + Appended(cs[a..b], i))
    decreases b - a
  {
    hide History, StepBy, MountInv, Holds, View, Adds;
    HistoryLength(ms, cs);
    if a == b {
      assert bytes + [] == bytes && cs[a..b] == [];
    } else {
      ReachableContents(ms, cs, a, b - 1, i, bytes);
      HistoryStep(ms, cs, b - 1);
      var sofar := Appended(cs[a..b - 1], i);
      StepContents(ms[b - 1], cs[b - 1], ms[b], i, bytes + sofar);
      assert cs[a..b][..b - a - 1] == cs[a..b - 1] && cs[a..b][b - a - 1] == cs[b - 1];
      assert (bytes + sofar) + Adds(cs[b - 1], i) == bytes + (sofar + Adds(cs[b - 1], i));
    }
  }
}
