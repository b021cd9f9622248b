// What file_write, file_create, sys_mkdir, sys_unlink and sys_rmdir do to a partition, and that each keeps it whole.

module FsRuns {
  import opened Disk
  import opened Bitmaps
  import opened Ownership
  import opened Records
  import opened Files
  import opened FileSystem
  import opened Entries
  import opened Directories
  import opened DirectoryMap
  import opened Unlink
  import opened MakeDir
  import opened Format
  import P = Paths

  /** A partition, and which of its inodes are directories. */
  datatype World = World(fs: Fs, dirs: set<nat>)

  ghost function Table(fs: Fs, d: nat): (s: seq<Entry>)
    requires d in fs.inodes
    ensures |s| == 252
  {
    EntriesOf(fs.disk, fs.inodes[d])
  }

  /** A directory is well formed and leads to inodes in use; any other inode is a well-formed file. */
  ghost predicate InodeOk(w: World, i: nat) {
    && i in w.fs.inodes
    && if i in w.dirs then DirOk(w.fs.disk, w.fs.inodes[i]) && LeadsInside(w.fs, i)
        else FileOk(w.fs.disk, w.fs.inodes[i])
  }

  /** The two directories have no entry for the same inode, "." and ".." aside. */
  ghost predicate NoCommonChild(fs: Fs, c: nat, d: nat) {
    && c in fs.inodes && d in fs.inodes
    && forall p: nat, q: nat, ino: nat :: !(LeadsTo(Table(fs, c), p, ino) && LeadsTo(Table(fs, d), q, ino))
  }

  ghost predicate WorldInv(w: World) {
    && OwnInv(w.fs) && RootOwns(w.fs) && 0 in w.dirs
    && (forall d :: d in w.dirs ==> d in w.fs.inodes)
    && (forall i :: i in w.fs.inodes ==> InodeOk(w, i))
    && (forall c, d :: c in w.dirs && d in w.dirs && c != d ==> NoCommonChild(w.fs, c, d))
  }

  // ---------------------------------------------------------------- steps

  /** file_write */
  ghost predicate WriteStep(v: World, w: World, ino: nat, buf: seq<Byte>) {
    ino !in v.dirs && w.dirs == v.dirs && Wrote(v.fs, w.fs, ino, buf)
  }

  ghost predicate NameFree(v: World, dir: nat, name: seq<Byte>, ino: nat) {
    dir in v.dirs && 1 <= |name| <= 15 && 0 !in name && P.Slash() !in name && ino < 4096 && Nameless(v.fs, dir, name)
  }

  /** file_create */
  ghost predicate CreateStep(v: World, w: World, ns: Fs, dir: nat, ino: nat, name: seq<Byte>) {
    && NameFree(v, dir, name, ino) && Created(v.fs, ns, w.fs, dir, ino, name, FT_REGULAR)
    && ino in w.fs.inodes && w.fs.inodes[ino] == EmptyInode() && w.dirs == v.dirs
  }

  /** sys_mkdir */
  ghost predicate MkdirStep(v: World, w: World, ns: Fs, dir: nat, ino: nat, name: seq<Byte>) {
    && NameFree(v, dir, name, ino) && Created(v.fs, ns, w.fs, dir, ino, name, FT_DIRECTORY)
    && ino in w.fs.inodes && DirOk(w.fs.disk, w.fs.inodes[ino]) && FreshTable(Table(w.fs, ino), ino, dir)
    && w.dirs == v.dirs + {ino}
  }

  /** sys_unlink of a file, or sys_rmdir of an empty directory */
  ghost predicate RemoveStep(v: World, w: World, es: Fs, dir: nat, q: nat, ino: nat) {
    && dir in v.dirs && dir in v.fs.inodes && ino in v.fs.inodes && ino != 0 && ino != dir && w.dirs == v.dirs - {ino}
    && LeadsTo(Table(v.fs, dir), q, ino) && Erased(v.fs, es, dir, q) && Unlink.Released(es, w.fs, ino)
    && (ino in v.dirs ==> forall r: nat :: 2 <= r < 252 ==> !Live(Table(v.fs, ino)[r]))
  }

  // ---------------------------------------------------------------- what an untouched inode keeps

  lemma KeptTable(fs: Fs, gs: Fs, j: nat)
    requires KeptFile(fs, gs, j)
    ensures Table(fs, j) == Table(gs, j)
  {
    hide EntriesOf, SameInode;
    SameDir(fs.disk, gs.disk, fs.inodes[j]);
  }

  /** An inode nobody touched is still what it was, if the inodes it leads to are still there. */
  lemma KeptOk(v: World, w: World, j: nat)
    requires InodeOk(v, j) && KeptFile(v.fs, w.fs, j) && (j in w.dirs <==> j in v.dirs)
    requires forall q: nat, ino: nat :: j in v.dirs && LeadsTo(Table(v.fs, j), q, ino) && ino in v.fs.inodes ==>
             ino in w.fs.inodes
    ensures InodeOk(w, j)
  {
    hide EntriesOf, SameInode, DirOk, FileOk, Live, Target;
    SameDir(v.fs.disk, w.fs.disk, v.fs.inodes[j]);
    SameContents(v.fs.disk, w.fs.disk, v.fs.inodes[j]);
    if j in v.dirs {
      var s := Table(v.fs, j);
      forall q: nat | 2 <= q < 252 && Live(s[q]) ensures Target(s[q]) in w.fs.inodes {
        assert LeadsTo(s, q, Target(s[q]));
      }
    }
  }

  lemma KeptApart(fs: Fs, gs: Fs, c: nat, d: nat)
    requires NoCommonChild(fs, c, d) && KeptFile(fs, gs, c) && KeptFile(fs, gs, d)
    ensures NoCommonChild(gs, c, d)
  {
    hide EntriesOf, KeptFile, LeadsTo, Table;
    KeptIn(fs, gs, c);
    KeptIn(fs, gs, d);
    KeptTable(fs, gs, c);
    KeptTable(fs, gs, d);
  }

  lemma KeptIn(fs: Fs, gs: Fs, j: nat)
    requires KeptFile(fs, gs, j)
    ensures j in fs.inodes && j in gs.inodes && gs.inodes[j] == fs.inodes[j]
  {
  }

  lemma LeadsSomewhere(w: World, j: nat, q: nat, ino: nat)
    requires InodeOk(w, j) && j in w.dirs && LeadsTo(Table(w.fs, j), q, ino)
    ensures ino in w.fs.inodes
  {
    hide EntriesOf, DirOk, Live, Target;
  }

  // ---------------------------------------------------------------- file_write

  lemma WriteFacts(fs: Fs, gs: Fs, ino: nat, buf: seq<Byte>)
    requires Wrote(fs, gs, ino, buf)
    ensures OwnInv(gs) && gs.inodes.Keys == fs.inodes.Keys && ino in gs.inodes && FileOk(gs.disk, gs.inodes[ino])
    ensures SameShape(fs, gs)
    ensures forall j :: j in fs.inodes && j != ino ==> KeptFile(fs, gs, j)
  {
    hide OwnInv, FileOk, SameInode;
  }

  lemma WriteStepInv(v: World, w: World, ino: nat, buf: seq<Byte>)
    requires WorldInv(v) && WriteStep(v, w, ino, buf)
    ensures WorldInv(w)
  {
    hide OwnInv, InodeOk, NoCommonChild, Wrote, KeptFile;
    WriteFacts(v.fs, w.fs, ino, buf);
    forall i | i in w.fs.inodes ensures InodeOk(w, i) {
      if i == ino {
        FileIsOk(w, i);
      } else {
        KeptOk(v, w, i);
      }
    }
    forall c, d | c in w.dirs && d in w.dirs && c != d ensures NoCommonChild(w.fs, c, d) {
      KeptApart(v.fs, w.fs, c, d);
    }
    KeptIn(v.fs, w.fs, 0);
  }

  lemma FileIsOk(w: World, i: nat)
    requires i in w.fs.inodes && i !in w.dirs && FileOk(w.fs.disk, w.fs.inodes[i])
    ensures InodeOk(w, i)
  {
    hide FileOk;
  }

  // ---------------------------------------------------------------- file_create and sys_mkdir

  /** What both creations have in common. */
  ghost predicate Creates(v: World, w: World, ns: Fs, dir: nat, ino: nat, name: seq<Byte>, kind: nat) {
    && NameFree(v, dir, name, ino) && Created(v.fs, ns, w.fs, dir, ino, name, kind) && 1 <= kind <= 2
    && v.dirs <= w.dirs <= v.dirs + {ino}
  }

  lemma CreatesFacts(v: World, w: World, ns: Fs, dir: nat, ino: nat, name: seq<Byte>, kind: nat)
    requires Creates(v, w, ns, dir, ino, name, kind)
    ensures w.fs.inodes.Keys == v.fs.inodes.Keys + {ino} && ino !in v.fs.inodes && dir in v.fs.inodes && OwnInv(w.fs)
    ensures DirOk(w.fs.disk, w.fs.inodes[dir]) && w.fs.dataStart == v.fs.dataStart
  {
    hide OwnInv, DirOk, EntriesOf, Inserted, MakeEntry, OthersKept, Unnamed;
    InsertedParts(ns, w.fs, dir, MakeEntry(name, ino, kind));
  }

  lemma InsertedParts(fs: Fs, gs: Fs, dir: nat, e: Entry)
    requires Inserted(fs, gs, dir, e)
    ensures dir in gs.inodes && gs.inodes.Keys == fs.inodes.Keys && OwnInv(gs) && DirOk(gs.disk, gs.inodes[dir])
    ensures SameShape(fs, gs)
  {
    hide OwnInv, DirOk, EntriesOf, OthersKept, BitsGrew, FirstFree;
  }

  lemma CreateApart(v: World, w: World, ns: Fs, dir: nat, ino: nat, name: seq<Byte>, kind: nat, d: nat)
    requires Creates(v, w, ns, dir, ino, name, kind) && d != dir && d in v.dirs && InodeOk(v, dir) && InodeOk(v, d)
    requires dir in v.dirs
    requires NoCommonChild(v.fs, dir, d)
    ensures NoCommonChild(w.fs, dir, d) && NoCommonChild(w.fs, d, dir)
  {
    hide EntriesOf, InodeOk, LeadsTo, KeptFile, NoCommonChild, Nameless, LeadsInside;
    CreatesFacts(v, w, ns, dir, ino, name, kind);
    InodeIn(v, d);
    InodeLeads(v, dir);
    CreatedKeeps(v.fs, ns, w.fs, dir, ino, name, kind, d);
    KeptIn(v.fs, w.fs, d);
    KeptTable(v.fs, w.fs, d);
    forall p: nat, q: nat, x: nat ensures !(LeadsTo(Table(w.fs, dir), p, x) && LeadsTo(Table(w.fs, d), q, x)) {
      NewTarget(v, w, ns, dir, ino, name, kind, p, x);
      if x == ino && LeadsTo(Table(v.fs, d), q, x) {
        LeadsSomewhere(v, d, q, x);
      }
      NoBoth(v.fs, dir, d, p, q, x);
    }
    Apart2(w.fs, dir, d);
  }

  lemma NoBoth(fs: Fs, c: nat, d: nat, p: nat, q: nat, x: nat)
    requires NoCommonChild(fs, c, d)
    ensures !(LeadsTo(Table(fs, c), p, x) && LeadsTo(Table(fs, d), q, x))
  {
    hide LeadsTo, Table;
  }

  lemma Apart2(fs: Fs, c: nat, d: nat)
    requires c in fs.inodes && d in fs.inodes
    requires forall p: nat, q: nat, x: nat :: !(LeadsTo(Table(fs, c), p, x) && LeadsTo(Table(fs, d), q, x))
    ensures NoCommonChild(fs, c, d) && NoCommonChild(fs, d, c)
  {
    hide LeadsTo, Table;
  }

  lemma InodeIn(w: World, i: nat)
    requires InodeOk(w, i)
    ensures i in w.fs.inodes
  {
  }

  lemma InodeLeads(w: World, i: nat)
    requires InodeOk(w, i) && i in w.dirs
    ensures LeadsInside(w.fs, i) && DirOk(w.fs.disk, w.fs.inodes[i])
  {
    hide DirOk, LeadsInside;
  }

  /** The parent leads where it led before, and to the new inode. */
  lemma NewTarget(v: World, w: World, ns: Fs, dir: nat, ino: nat, name: seq<Byte>, kind: nat, p: nat, x: nat)
    requires Creates(v, w, ns, dir, ino, name, kind) && dir in w.fs.inodes && LeadsInside(v.fs, dir)
    ensures LeadsTo(Table(w.fs, dir), p, x) ==> x == ino || LeadsTo(Table(v.fs, dir), p, x)
  {
    hide OwnInv, DirOk, EntriesOf, Nameless, MakeEntry, NewEntry, Live, Target, FirstFree, OthersKept, BitsGrew;
    FreshEntry(v.fs, ns, dir, ino, name, kind);
    MadeEntry(name, ino, kind);
  }

  lemma CreateInv(v: World, w: World, ns: Fs, dir: nat, ino: nat, name: seq<Byte>, kind: nat)
    requires WorldInv(v) && Creates(v, w, ns, dir, ino, name, kind)
    requires InodeOk(w, ino)
    requires (ino in w.dirs ==> forall d :: d in v.dirs ==> NoCommonChild(w.fs, ino, d) && NoCommonChild(w.fs, d, ino))
    ensures WorldInv(w)
  {
    hide OwnInv, InodeOk, NoCommonChild, Created, KeptFile, DirOk, LeadsInside, Nameless;
    CreatesFacts(v, w, ns, dir, ino, name, kind);
    InodeLeads(v, dir);
    CreatedLeads(v.fs, ns, w.fs, dir, ino, name, kind);
    forall i | i in w.fs.inodes ensures InodeOk(w, i) {
      if i == dir {
        DirIsOk(w, dir);
      } else if i != ino {
        CreatedKeeps(v.fs, ns, w.fs, dir, ino, name, kind, i);
        KeptOk(v, w, i);
      }
    }
    forall c, d | c in w.dirs && d in w.dirs && c != d ensures NoCommonChild(w.fs, c, d) {
      if c == dir && d != ino {
        CreateApart(v, w, ns, dir, ino, name, kind, d);
      } else if d == dir && c != ino {
        CreateApart(v, w, ns, dir, ino, name, kind, c);
      } else if c != ino && d != ino {
        CreatedKeeps(v.fs, ns, w.fs, dir, ino, name, kind, c);
        CreatedKeeps(v.fs, ns, w.fs, dir, ino, name, kind, d);
        KeptApart(v.fs, w.fs, c, d);
      }
    }
    CreateRoot(v, w, ns, dir, ino, name, kind);
  }

  lemma DirIsOk(w: World, d: nat)
    requires d in w.fs.inodes && d in w.dirs && DirOk(w.fs.disk, w.fs.inodes[d]) && LeadsInside(w.fs, d)
    ensures InodeOk(w, d)
  {
    hide DirOk, LeadsInside;
  }

  /** The root keeps its first block when it gains an entry. */
  lemma CreateRoot(v: World, w: World, ns: Fs, dir: nat, ino: nat, name: seq<Byte>, kind: nat)
    requires Creates(v, w, ns, dir, ino, name, kind) && RootOwns(v.fs) && DirOk(v.fs.disk, v.fs.inodes[dir])
    ensures RootOwns(w.fs)
  {
    hide OwnInv, EntriesOf, Nameless, MakeEntry, FirstFree, BitsGrew, SameInode, GoodTable, LiveOf, NoEmptyBlock;
    if dir != 0 {
      assert KeptFile(v.fs, ns, 0) && KeptFile(ns, w.fs, 0);
    } else {
      assert KeptFile(v.fs, ns, 0);
    }
  }

  lemma CreateStepInv(v: World, w: World, ns: Fs, dir: nat, ino: nat, name: seq<Byte>)
    requires WorldInv(v) && CreateStep(v, w, ns, dir, ino, name)
    ensures WorldInv(w)
  {
    hide Created, Nameless, OwnInv, InodeOk, NoCommonChild, FileOk;
    CreatesFacts(v, w, ns, dir, ino, name, FT_REGULAR);
    EmptyFile(w.fs.disk);
    FileIsOk(w, ino);
    CreateInv(v, w, ns, dir, ino, name, FT_REGULAR);
  }

  lemma EmptyFile(d: seq<Sector>)
    ensures FileOk(d, EmptyInode())
  {
    forall k: nat | k < 140 ensures Block(d, EmptyInode(), k) == 0 {
    }
  }

  lemma MkdirStepInv(v: World, w: World, ns: Fs, dir: nat, ino: nat, name: seq<Byte>)
    requires WorldInv(v) && MkdirStep(v, w, ns, dir, ino, name)
    ensures WorldInv(w)
  {
    hide Created, Nameless, OwnInv, InodeOk, NoCommonChild, DirOk, LeadsInside, FreshTable, LeadsTo, Table;
    CreatesFacts(v, w, ns, dir, ino, name, FT_DIRECTORY);
    forall q: nat, x: nat ensures !LeadsTo(Table(w.fs, ino), q, x) {
      FreshLeadsNowhere(Table(w.fs, ino), ino, dir, q, x);
    }
    NowhereInside(w.fs, ino);
    DirIsOk(w, ino);
    forall d | d in v.dirs ensures NoCommonChild(w.fs, ino, d) && NoCommonChild(w.fs, d, ino) {
      Apart2(w.fs, ino, d);
    }
    CreateInv(v, w, ns, dir, ino, name, FT_DIRECTORY);
  }

  lemma FreshLeadsNowhere(s: seq<Entry>, ino: nat, parent: nat, q: nat, x: nat)
    requires FreshTable(s, ino, parent)
    ensures !LeadsTo(s, q, x)
  {
    hide Live, Target, MakeEntry, Free;
    FreeIsFree();
  }

  lemma NowhereInside(fs: Fs, d: nat)
    requires d in fs.inodes && forall q: nat, x: nat :: !LeadsTo(Table(fs, d), q, x)
    ensures LeadsInside(fs, d)
  {
    hide EntriesOf, Live, Target;
    var s := Table(fs, d);
    forall q: nat | 2 <= q < 252 ensures !Live(s[q]) {
      assert !LeadsTo(s, q, Target(s[q]));
    }
  }

  // ---------------------------------------------------------------- sys_unlink and sys_rmdir

  lemma RemoveFacts(v: World, w: World, es: Fs, dir: nat, q: nat, ino: nat)
    requires RemoveStep(v, w, es, dir, q, ino)
    ensures w.fs.inodes.Keys == v.fs.inodes.Keys - {ino} && OwnInv(w.fs) && dir in w.fs.inodes
    ensures DirOk(w.fs.disk, w.fs.inodes[dir]) && w.fs.disk == es.disk && w.fs.dataStart == v.fs.dataStart
    ensures Table(w.fs, dir) == Table(v.fs, dir)[q := Free()] && 2 <= q < 252
  {
    hide OwnInv, DirOk, EntriesOf, Sole, OthersKept, Owns, Free, Live, Target;
  }

  lemma RemoveKeeps(v: World, w: World, es: Fs, dir: nat, q: nat, ino: nat, j: nat)
    requires RemoveStep(v, w, es, dir, q, ino) && j in v.fs.inodes && j != dir && j != ino
    ensures KeptFile(v.fs, w.fs, j)
  {
    hide OwnInv, DirOk, EntriesOf, Sole, Owns, Free, Live, Target, SameInode;
    assert KeptFile(v.fs, es, j);
  }

  lemma RemoveApart(v: World, w: World, es: Fs, dir: nat, q: nat, ino: nat, d: nat)
    requires RemoveStep(v, w, es, dir, q, ino) && d != dir && d != ino && NoCommonChild(v.fs, dir, d)
    ensures NoCommonChild(w.fs, dir, d) && NoCommonChild(w.fs, d, dir)
  {
    hide RemoveStep, EntriesOf, LeadsTo, KeptFile, Table;
    RemoveFacts(v, w, es, dir, q, ino);
    RemoveKeeps(v, w, es, dir, q, ino, d);
    KeptIn(v.fs, w.fs, d);
    KeptTable(v.fs, w.fs, d);
    forall p: nat, r: nat, x: nat ensures !(LeadsTo(Table(w.fs, dir), p, x) && LeadsTo(Table(w.fs, d), r, x)) {
      LessLeads(Table(v.fs, dir), q, p, x);
    }
    Apart2(w.fs, dir, d);
  }

  lemma LessLeads(s: seq<Entry>, q: nat, p: nat, x: nat)
    requires q < |s|
    ensures LeadsTo(s[q := Free()], p, x) ==> LeadsTo(s, p, x)
  {
    hide Live, Target, Free;
    FreeIsFree();
  }

  lemma RemoveStepInv(v: World, w: World, es: Fs, dir: nat, q: nat, ino: nat)
    requires WorldInv(v) && RemoveStep(v, w, es, dir, q, ino)
    ensures WorldInv(w)
  {
    hide RemoveStep, OwnInv, InodeOk, NoCommonChild, KeptFile, DirOk, LeadsInside, LeadsTo;
    RemoveFacts(v, w, es, dir, q, ino);
    RemoveParts(v, w, es, dir, q, ino);
    InodeLeads(v, dir);
    UnlinkedLeads(v.fs, es, w.fs, dir, q, ino);
    forall i | i in w.fs.inodes ensures InodeOk(w, i) {
      if i == dir {
        DirIsOk(w, dir);
      } else {
        RemoveKeeps(v, w, es, dir, q, ino, i);
        forall r: nat, x: nat | i in v.dirs && LeadsTo(Table(v.fs, i), r, x) && x in v.fs.inodes
          ensures x in w.fs.inodes
        {
          NoBoth(v.fs, dir, i, q, r, x);
        }
        KeptOk(v, w, i);
      }
    }
    forall c, d | c in w.dirs && d in w.dirs && c != d ensures NoCommonChild(w.fs, c, d) {
      if c == dir {
        RemoveApart(v, w, es, dir, q, ino, d);
      } else if d == dir {
        RemoveApart(v, w, es, dir, q, ino, c);
      } else {
        RemoveKeeps(v, w, es, dir, q, ino, c);
        RemoveKeeps(v, w, es, dir, q, ino, d);
        KeptApart(v.fs, w.fs, c, d);
      }
    }
  }

  lemma RemoveParts(v: World, w: World, es: Fs, dir: nat, q: nat, ino: nat)
    requires RemoveStep(v, w, es, dir, q, ino) && RootOwns(v.fs)
    ensures dir in v.dirs && dir in v.fs.inodes && ino in v.fs.inodes && ino != 0 && ino != dir
    ensures w.dirs == v.dirs - {ino}
    ensures LeadsTo(Table(v.fs, dir), q, ino) && Erased(v.fs, es, dir, q) && Unlink.Released(es, w.fs, ino)
    ensures RootOwns(w.fs)
  {
    hide Erased, OwnInv, LeadsTo, Owns;
    ErasedRest(v.fs, es, dir, q, ino);
  }

  // ---------------------------------------------------------------- the first state, and what the invariant says

  lemma FormattedInv(w: World)
    requires Formatted(w.fs) && w.dirs == {0}
    ensures WorldInv(w)
  {
    FormattedKeys(w.fs);
    hide Formatted, OwnInv, DirOk, LeadsInside;
    FormatEstablishes(w.fs);
    DirIsOk(w, 0);
  }

  lemma FormattedKeys(fs: Fs)
    requires Formatted(fs)
    ensures fs.inodes.Keys == {0}
  {
  }

  lemma OneOwner(fs: Fs, i: nat, j: nat, b: nat)
    requires OwnInv(fs) && i in fs.inodes && j in fs.inodes
    ensures Owns(fs.disk, fs.inodes[i], b) && Owns(fs.disk, fs.inodes[j], b) ==> i == j
  {
    hide Owns, Distinct, Placed, BitsExact;
    assert i != j ==> Apart(fs, fs.inodes[i], fs.inodes[j]);
  }

  /**
   * What the invariant says about any two inodes and any block: no block has two owners, its bit is set exactly when an
   * inode owns it (as data or as an indirect table) or it is reserved, and files and directories are well formed.
   */
  lemma Wholeness(w: World, i: nat, j: nat, b: nat)
    requires WorldInv(w) && i in w.fs.inodes && j in w.fs.inodes
    ensures var fs := w.fs;
            && (Owns(fs.disk, fs.inodes[i], b) && Owns(fs.disk, fs.inodes[j], b) ==> i == j)
            && (fs.dataStart <= b < fs.dataStart + |fs.bits| ==>
                (fs.bits[b - fs.dataStart] <==> b in fs.reserved || SomeoneOwns(fs, b)))
            && (i in w.dirs ==> DirOk(fs.disk, fs.inodes[i])) && (i !in w.dirs ==> FileOk(fs.disk, fs.inodes[i]))
  {
    hide DirOk, FileOk, Owns, LeadsInside, NoCommonChild, SomeoneOwns;
    var fs := w.fs;
    assert InodeOk(w, i);
    if fs.dataStart <= b < fs.dataStart + |fs.bits| {
      BitMeans(fs, b - fs.dataStart);
    }
    OneOwner(fs, i, j, b);
  }
}
