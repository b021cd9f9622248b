// The directories of a partition: every operation keeps them a tree, and every entry names what it leads to.

module TreeRuns {
  import opened Disk
  import opened CStrings
  import opened Ownership
  import opened Entries
  import opened Trees
  import opened FileSystem
  import D = Directories
  import DM = DirectoryMap
  import U = Unlink
  import M = MakeDir
  import P = Paths
  import F = Format
  import opened FsRuns

  // ---------------------------------------------------------------- one directory of a changed tree

  lemma DirectoryParts(t: Tree, depth: nat -> nat, d: nat)
    requires DirectoryOk(t, depth, d)
    ensures d in t && |t[d]| == 252 && Parent(t, d) in t && (d == 0 ==> Parent(t, d) == 0)
    ensures d != 0 ==> depth(d) == depth(Parent(t, d)) + 1 && exists r: nat :: ChildAt(t, Parent(t, d), r, d)
  {
    hide Live, Name, Target, Kind, NamesOk, TargetsOk, Clean, ChildAt;
  }

  /** A directory whose first two slots, level and parent's entry are still there is still in order. */
  lemma StaysDirectory(t: Tree, u: Tree, depth: nat -> nat, deeper: nat -> nat, d: nat)
    requires DirectoryOk(t, depth, d) && d in u && GoodTable(u[d]) && |t[d]| == 252
    requires u[d][0] == t[d][0] && u[d][1] == t[d][1] && Parent(t, d) in u
    requires d != 0 ==> deeper(d) == deeper(Parent(t, d)) + 1 && exists r: nat :: ChildAt(u, Parent(t, d), r, d)
    ensures DirectoryOk(u, deeper, d)
  {
    hide Live, Name, Target, Kind, NamesOk, TargetsOk, Clean, ChildAt;
  }

  lemma StaysChild(t: Tree, u: Tree, p: nat, r: nat, d: nat)
    requires ChildAt(t, p, r, d) && p in u && |u[p]| == |t[p]| && u[p][r] == t[p][r]
    ensures ChildAt(u, p, r, d)
  {
    hide Live, Target, Kind;
  }

  lemma ChildParts(t: Tree, p: nat, r: nat, d: nat)
    requires ChildAt(t, p, r, d)
    ensures p in t && 2 <= r < |t[p]| && Live(t[p][r]) && Target(t[p][r]) == d
  {
    hide Live, Target, Kind;
  }

  // ---------------------------------------------------------------- one changed slot

  /** The tables of t are those of u, except for one slot behind the dot entries of one directory. */
  ghost predicate OneSlot(t: Tree, u: Tree, dir: nat, q: nat) {
    && dir in t && dir in u && |t[dir]| == 252 && |u[dir]| == 252 && 2 <= q < 252
    && (forall d :: d in t && d in u && d != dir ==> u[d] == t[d])
    && (forall r: nat :: r < 252 && r != q ==> u[dir][r] == t[dir][r])
  }

  lemma SlotFacts(t: Tree, u: Tree, dir: nat, q: nat)
    requires OneSlot(t, u, dir, q)
    ensures dir in t && dir in u && |t[dir]| == 252 && |u[dir]| == 252 && 2 <= q < 252
  {
  }

  lemma SlotKept(t: Tree, u: Tree, dir: nat, q: nat, d: nat, r: nat)
    requires OneSlot(t, u, dir, q) && d in t && d in u && r < |t[d]| && (d != dir || r != q)
    ensures |u[d]| == |t[d]| && u[d][r] == t[d][r]
  {
  }

  /**
   * A directory keeps its place if its parent stays, its level stays, and the changed slot was free or led to something
   * that is no directory of the new tree.
   */
  lemma KeepsPlace(t: Tree, u: Tree, depth: nat -> nat, deeper: nat -> nat, dir: nat, q: nat, d: nat)
    requires DirectoryOk(t, depth, d) && d in u && GoodTable(u[d]) && OneSlot(t, u, dir, q)
    requires Live(t[dir][q]) ==> Target(t[dir][q]) != d
    requires |t[d]| == 252 && Parent(t, d) in u && deeper(d) == depth(d) && deeper(Parent(t, d)) == depth(Parent(t, d))
    ensures DirectoryOk(u, deeper, d)
  {
    hide GoodTable, Live, Target, Parent, OneSlot, ChildAt, DirectoryOk;
    DirectoryParts(t, depth, d);
    SlotFacts(t, u, dir, q);
    SlotKept(t, u, dir, q, d, 0);
    SlotKept(t, u, dir, q, d, 1);
    if d != 0 {
      var p := Parent(t, d);
      var r: nat :| ChildAt(t, p, r, d);
      ChildParts(t, p, r, d);
      SlotKept(t, u, dir, q, p, r);
      StaysChild(t, u, p, r, d);
    }
    StaysDirectory(t, u, depth, deeper, d);
  }

  // ---------------------------------------------------------------- the three changes

  /** A file's entry comes or goes: the tree keeps its shape and its levels. */
  lemma EditedTree(t: Tree, u: Tree, depth: nat -> nat, dir: nat, q: nat)
    requires OneSlot(t, u, dir, q) && u.Keys == t.Keys && (Live(t[dir][q]) ==> Target(t[dir][q]) !in t)
    requires GoodTable(u[dir]) && TreeOk(t, depth)
    ensures TreeOk(u, depth)
  {
    hide Live, Target, Parent, GoodTable, DirectoryOk;
    forall d | d in u ensures DirectoryOk(u, depth, d) {
      DirectoryParts(t, depth, d);
      GoodStays(t, u, depth, dir, q, d);
      KeepsPlace(t, u, depth, depth, dir, q, d);
    }
  }

  lemma GoodStays(t: Tree, u: Tree, depth: nat -> nat, dir: nat, q: nat, d: nat)
    requires DirectoryOk(t, depth, d) && OneSlot(t, u, dir, q) && d in u && GoodTable(u[dir])
    ensures GoodTable(u[d])
  {
    hide Live, Target, Name, Kind, Parent, NamesOk, TargetsOk, Clean, ChildAt;
  }

  function Deeper(depth: nat -> nat, dir: nat, ino: nat): nat -> nat {
    (d: nat) => if d == ino then depth(dir) + 1 else depth(d)
  }

  /** sys_mkdir: a fresh directory one level below `dir`, with an entry for it in a free slot of `dir`. */
  lemma PlantedTree(t: Tree, u: Tree, depth: nat -> nat, dir: nat, q: nat, ino: nat)
    requires OneSlot(t, u, dir, q) && u.Keys == t.Keys + {ino} && ino !in t && dir < 4096 && ino < 4096
    requires !Live(t[dir][q]) && ChildAt(u, dir, q, ino) && M.FreshTable(u[ino], ino, dir)
    requires GoodTable(u[dir]) && TreeOk(t, depth)
    ensures TreeOk(u, Deeper(depth, dir, ino))
  {
    hide Live, Target, Parent, GoodTable, DirectoryOk, OneSlot, ChildAt, M.FreshTable;
    var deeper := Deeper(depth, dir, ino);
    SlotFacts(t, u, dir, q);
    FreshDirectory(u, deeper, dir, q, ino);
    forall d | d in u && d != ino ensures DirectoryOk(u, deeper, d) {
      DirectoryParts(t, depth, d);
      GoodStays(t, u, depth, dir, q, d);
      KeepsPlace(t, u, depth, deeper, dir, q, d);
    }
  }

  lemma FreshDirectory(u: Tree, deeper: nat -> nat, dir: nat, q: nat, ino: nat)
    requires ino in u && dir in u && ino != 0 && dir < 4096 && ino < 4096 && deeper(ino) == deeper(dir) + 1
    requires ChildAt(u, dir, q, ino) && M.FreshTable(u[ino], ino, dir)
    ensures DirectoryOk(u, deeper, ino)
  {
    hide Live, Name, Target, Kind, GoodTable, ChildAt, M.FreshTable;
    FreshFacts(u[ino], ino, dir);
  }

  lemma FreshFacts(s: seq<Entry>, ino: nat, parent: nat)
    requires ino < 4096 && parent < 4096 && M.FreshTable(s, ino, parent)
    ensures GoodTable(s) && |s| == 252 && Target(s[0]) == ino && Target(s[1]) == parent
    ensures Kind(s[0]) == FT_DIRECTORY && Kind(s[1]) == FT_DIRECTORY
  {
    hide Live, Name, Target, Kind, Free, U.MakeEntry, GoodTable;
    M.FreshGood(s, ino, parent);
    M.DotEntries(ino, parent);
    M.DotKinds(ino, parent);
  }

  /** sys_rmdir: an empty directory goes, and its entry with it. */
  lemma FelledTree(t: Tree, u: Tree, depth: nat -> nat, dir: nat, q: nat, ino: nat)
    requires OneSlot(t, u, dir, q) && u.Keys == t.Keys - {ino} && ino in t && ino != 0 && Target(t[dir][q]) == ino
    requires forall r: nat :: 2 <= r < |t[ino]| ==> !Live(t[ino][r])
    requires GoodTable(u[dir]) && TreeOk(t, depth)
    ensures TreeOk(u, depth)
  {
    hide Live, Target, Parent, GoodTable, DirectoryOk, OneSlot, ChildAt;
    SlotFacts(t, u, dir, q);
    forall d | d in u ensures DirectoryOk(u, depth, d) {
      DirectoryParts(t, depth, d);
      GoodStays(t, u, depth, dir, q, d);
      NotFelled(t, depth, d, ino);
      KeepsPlace(t, u, depth, depth, dir, q, d);
    }
  }

  /** An empty directory is nobody's parent. */
  lemma NotFelled(t: Tree, depth: nat -> nat, d: nat, ino: nat)
    requires DirectoryOk(t, depth, d) && |t[d]| == 252 && ino in t && ino != 0
    requires forall r: nat :: 2 <= r < |t[ino]| ==> !Live(t[ino][r])
    ensures Parent(t, d) != ino
  {
    hide Live, Target, Parent, DirectoryOk, ChildAt;
    DirectoryParts(t, depth, d);
    if d != 0 {
      var r: nat :| ChildAt(t, Parent(t, d), r, d);
      ChildParts(t, Parent(t, d), r, d);
    }
  }

  // ---------------------------------------------------------------- entries name what they lead to

  /** A live entry is a directory's exactly when it leads to a directory, and its name has no slash. */
  ghost predicate EntryFits(t: Tree, e: Entry) {
    Live(e) ==> P.Slash() !in Name(e) && (Kind(e) == FT_DIRECTORY <==> Target(e) in t)
  }

  ghost predicate EntriesFit(t: Tree) {
    forall d, q: nat :: d in t && 2 <= q < |t[d]| ==> EntryFits(t, t[d][q])
  }

  lemma FitsAt(t: Tree, d: nat, q: nat)
    requires EntriesFit(t) && d in t && 2 <= q < |t[d]|
    ensures EntryFits(t, t[d][q])
  {
    hide EntryFits;
  }

  lemma FitsElsewhere(t: Tree, u: Tree, e: Entry)
    requires EntryFits(t, e) && (Live(e) ==> (Target(e) in t <==> Target(e) in u))
    ensures EntryFits(u, e)
  {
    hide Live, Target, Kind, Name;
  }

  /** One slot changed, and no other entry leads to an inode that became or ceased to be a directory. */
  lemma StillFit(t: Tree, u: Tree, dir: nat, q: nat)
    requires EntriesFit(t) && OneSlot(t, u, dir, q) && EntryFits(u, u[dir][q])
    requires forall d, r: nat :: d in t && d in u && 2 <= r < |t[d]| && (d != dir || r != q) && Live(t[d][r]) ==>
               (Target(t[d][r]) in t <==> Target(t[d][r]) in u)
    requires forall d, r: nat :: d in u && d !in t && 2 <= r < |u[d]| ==> EntryFits(u, u[d][r])
    ensures EntriesFit(u)
  {
    hide EntryFits, Live, Target, OneSlot, EntriesFit;
    SlotFacts(t, u, dir, q);
    forall d, r: nat | d in u && 2 <= r < |u[d]| ensures EntryFits(u, u[d][r]) {
      if d in t && (d != dir || r != q) {
        SameLength(t, u, dir, q, d);
        SlotKept(t, u, dir, q, d, r);
        FitsAt(t, d, r);
        FitsElsewhere(t, u, t[d][r]);
      }
    }
    FitAll(u);
  }

  lemma SameLength(t: Tree, u: Tree, dir: nat, q: nat, d: nat)
    requires OneSlot(t, u, dir, q) && d in t && d in u
    ensures |t[d]| == |u[d]|
  {
  }

  lemma FitAll(t: Tree)
    requires forall d, q: nat :: d in t && 2 <= q < |t[d]| ==> EntryFits(t, t[d][q])
    ensures EntriesFit(t)
  {
    hide EntryFits;
  }

  lemma DeadFits(t: Tree, e: Entry)
    requires !Live(e)
    ensures EntryFits(t, e)
  {
  }

  // ---------------------------------------------------------------- what a search finds in a tree

  /** The entry through which a search went last. */
  ghost predicate FoundAt(t: Tree, p: nat, q: nat, ino: nat, name: seq<Byte>) {
    p in t && q < |t[p]| && Live(t[p][q]) && Target(t[p][q]) == ino && Name(t[p][q]) == name
  }

  ghost predicate ReachedBy(t: Tree, p: nat, ino: nat, name: seq<Byte>) {
    exists q: nat :: FoundAt(t, p, q, ino, name)
  }

  ghost predicate HasEntry(t: Tree, p: nat, ino: nat) {
    p in t && exists q: nat :: D.LeadsTo(t[p], q, ino)
  }

  /** The name is in no live slot of the directory. */
  ghost predicate NotThere(t: Tree, p: nat, name: seq<Byte>) {
    p in t && forall q: nat :: q < |t[p]| && Live(t[p][q]) ==> Name(t[p][q]) != name
  }

  /** One name: it is missing, or its entry leads to a directory of the tree, or to a file behind the dot entries. */
  lemma OneName(t: Tree, depth: nat -> nat, d: nat, name: seq<Byte>)
    requires TreeOk(t, depth) && EntriesFit(t) && d in t
    ensures |t[d]| == 252
    ensures var q := Find(t[d], name);
            && (q == |t[d]| ==> NotThere(t, d, name))
            && (q < |t[d]| ==> FoundAt(t, d, q, Target(t[d][q]), name))
            && (q < |t[d]| && Kind(t[d][q]) == FT_DIRECTORY ==> Target(t[d][q]) in t)
            && (q < |t[d]| && Kind(t[d][q]) != FT_DIRECTORY ==> 2 <= q && Target(t[d][q]) !in t)
  {
    hide Live, Name, Target, Kind, Find, NamesOk, TargetsOk, Clean, EntryFits, ChildAt;
    assert DirectoryOk(t, depth, d);
    var q := Find(t[d], name);
    if 2 <= q < |t[d]| {
      FitsAt(t, d, q);
      FitsKind(t, t[d][q]);
    }
  }

  lemma FitsKind(t: Tree, e: Entry)
    requires EntryFits(t, e) && Live(e)
    ensures Kind(e) == FT_DIRECTORY <==> Target(e) in t
  {
    hide Live, Name, Target, Kind;
  }

  /** What the outcome of a search says about the tree. */
  ghost predicate WalkMeans(t: Tree, cs: seq<seq<Byte>>, n: nat, r: Search) {
    match r
    case Missing(p, m) => n < m <= n + |cs| && |cs[m - n - 1]| <= 15 && NotThere(t, p, cs[m - n - 1])
    case Reached(i, p) => i in t && (cs != [] ==> ReachedBy(t, p, i, cs[|cs| - 1]))
    case AtFile(i, p, m) =>
      i !in t && HasEntry(t, p, i) && n < m <= n + |cs| && ReachedBy(t, p, i, cs[m - n - 1])
    case _ => false
  }

  lemma {:induction false} WalkFacts(t: Tree, depth: nat -> nat, d: nat, before: nat, cs: seq<seq<Byte>>, n: nat)
    requires TreeOk(t, depth) && EntriesFit(t) && d in t && NamesFit(t, d, cs)
    ensures WalkMeans(t, cs, n, Walk(t, d, before, cs, n))
    decreases |cs|
  {
    hide Live, Name, Target, Kind, Find, TreeOk, EntriesFit, FoundAt, NotThere, D.LeadsTo;
    if cs != [] {
      OneName(t, depth, d, cs[0]);
      var q := Find(t[d], cs[0]);
      if q < |t[d]| && Kind(t[d][q]) == FT_DIRECTORY {
        var e, rest := Target(t[d][q]), cs[1..];
        WalkFacts(t, depth, e, d, rest, n + 1);
        var r := Walk(t, e, d, rest, n + 1);
        LaterMeans(t, cs, n, r);
        if rest == [] {
          assert r == Reached(e, d) && FoundAt(t, d, q, e, cs[|cs| - 1]);
        }
      } else if q < |t[d]| {
        FileMeans(t, d, q, Target(t[d][q]), cs[0]);
        assert cs[n + 1 - n - 1] == cs[0];
      }
    }
  }

  lemma FileMeans(t: Tree, p: nat, q: nat, i: nat, name: seq<Byte>)
    requires FoundAt(t, p, q, i, name)
    ensures p in t && |t[p]| == 252 && 2 <= q ==> D.LeadsTo(t[p], q, i)
  {
    hide Live, Target, Name;
  }

  lemma LaterMeans(t: Tree, cs: seq<seq<Byte>>, n: nat, r: Search)
    requires cs != [] && WalkMeans(t, cs[1..], n + 1, r)
    ensures cs[1..] != [] || !r.Reached? ==> WalkMeans(t, cs, n, r)
    ensures cs[1..] == [] && r.Reached? ==> r.ino in t
  {
    hide FoundAt, NotThere, Live, Target, D.LeadsTo;
    var rest := cs[1..];
    match r
    case Missing(p, m) => assert rest[m - (n + 1) - 1] == cs[m - n - 1];
    case Reached(i, p) => assert rest != [] ==> rest[|rest| - 1] == cs[|cs| - 1];
    case AtFile(i, p, m) => assert rest[m - (n + 1) - 1] == cs[m - n - 1];
    case _ =>
  }

  /** A search that ended at a file does not look at the names behind it, except that it parses the next one. */
  lemma {:induction false} WalkPastFile(t: Tree, d: nat, before: nat, cs: seq<seq<Byte>>, n: nat, more: seq<seq<Byte>>)
    requires Walk(t, d, before, cs, n).AtFile?
    ensures Walk(t, d, before, cs + more, n) == Walk(t, d, before, cs, n)
    decreases |cs|
  {
    hide Live, Name, Target, Kind, Find;
    if cs != [] && d in t {
      assert (cs + more)[0] == cs[0] && (cs + more)[1..] == cs[1..] + more;
      var q := Find(t[d], cs[0]);
      if q < |t[d]| && Kind(t[d][q]) == FT_DIRECTORY {
        WalkPastFile(t, Target(t[d][q]), d, cs[1..], n + 1, more);
      }
    }
  }

  /** A path with "." behind it leads to the same directory, and that directory is the one searched last. */
  lemma {:induction false} WalkDot(t: Tree, depth: nat -> nat, d: nat, before: nat, cs: seq<seq<Byte>>, n: nat)
    requires TreeOk(t, depth) && EntriesFit(t) && d in t && NamesFit(t, d, cs) && Walk(t, d, before, cs, n).Reached?
    ensures var i := Walk(t, d, before, cs, n).ino;
            Walk(t, d, before, cs + [Dot()], n) == Reached(i, i) && NamesFit(t, d, cs + [Dot()])
    decreases |cs|
  {
    hide Live, Name, Target, Kind, Find, TreeOk, EntriesFit;
    if cs == [] {
      assert cs + [Dot()] == [Dot()] && [Dot()][1..] == [];
      OneDot(t, depth, d);
    } else {
      OneName(t, depth, d, cs[0]);
      var more := cs + [Dot()];
      assert more[1..] == cs[1..] + [Dot()] && more[0] == cs[0] && more[1] == if |cs| > 1 then cs[1] else Dot();
      WalkDot(t, depth, Target(t[d][Find(t[d], cs[0])]), d, cs[1..], n + 1);
    }
  }

  lemma OneDot(t: Tree, depth: nat -> nat, d: nat)
    requires TreeOk(t, depth) && d in t
    ensures |t[d]| == 252 && Find(t[d], Dot()) == 0 && Kind(t[d][0]) == FT_DIRECTORY && Target(t[d][0]) == d
  {
    hide Live, Name, Target, Kind, Find, ChildAt, GoodTable;
    assert DirectoryOk(t, depth, d);
    DotsFound(t[d]);
  }

  ghost predicate NoChildren(t: Tree, d: nat) {
    d in t && forall r: nat :: 2 <= r < |t[d]| ==> !Live(t[d][r])
  }

  /**
   * An empty directory that a search reached: unless the last name was ".", the directory searched last has its entry;
   * for "." it is the directory itself.
   */
  lemma EmptyReached(t: Tree, depth: nat -> nat, p: nat, q: nat, ino: nat, name: seq<Byte>)
    requires TreeOk(t, depth) && ino in t && ino != 0 && NoChildren(t, ino) && FoundAt(t, p, q, ino, name)
    ensures name == Dot() <==> p == ino
    ensures name != Dot() ==> D.LeadsTo(t[p], q, ino)
  {
    hide Live, Name, Target, Kind, NamesOk, TargetsOk, Clean, ChildAt;
    assert DirectoryOk(t, depth, p) && DirectoryOk(t, depth, ino);
    TwoDots(t[p], q);
    if q == 1 {
      assert p != 0;
      var r: nat :| ChildAt(t, Parent(t, p), r, p);
      ChildParts(t, Parent(t, p), r, p);
    }
  }

  lemma TwoDots(s: seq<Entry>, q: nat)
    requires GoodTable(s) && q < |s| && Live(s[q])
    ensures (Name(s[q]) == Dot() <==> q == 0) && (Name(s[q]) == DotDot() <==> q == 1)
  {
    hide Live, Name, TargetsOk, Clean;
    assert Dot() != DotDot();
  }

  // ---------------------------------------------------------------- the tree of a partition

  ghost function TreeOf(w: World): (t: Tree)
    requires forall d :: d in w.dirs ==> d in w.fs.inodes
    ensures t.Keys == w.dirs
  {
    map d | d in w.dirs :: Table(w.fs, d)
  }

  ghost predicate Rooted(w: World) {
    && (forall d :: d in w.dirs ==> d in w.fs.inodes && d < 4096)
    && EntriesFit(TreeOf(w))
    && exists depth: nat -> nat :: TreeOk(TreeOf(w), depth)
  }

  lemma WorldParts(w: World)
    requires WorldInv(w)
    ensures forall i :: i in w.fs.inodes ==> InodeOk(w, i)
    ensures forall d :: d in w.dirs ==> d in w.fs.inodes
  {
    hide InodeOk, NoCommonChild, OwnInv, U.RootOwns;
  }

  lemma GoodDirectory(w: World, d: nat)
    requires WorldInv(w) && d in w.dirs
    ensures d in w.fs.inodes && GoodTable(Table(w.fs, d)) && U.LeadsInside(w.fs, d)
    ensures D.DirOk(w.fs.disk, w.fs.inodes[d])
  {
    hide WorldInv, InodeOk, D.DirOk, U.LeadsInside, GoodTable;
    WorldParts(w);
    InodeLeads(w, d);
    DM.DirTable(w.fs.disk, w.fs.inodes[d]);
  }

  // ---------------------------------------------------------------- every step

  lemma WriteRooted(v: World, w: World, ino: nat, buf: seq<Byte>)
    requires Rooted(v) && WriteStep(v, w, ino, buf)
    ensures Rooted(w)
  {
    hide TreeOk, KeptFile, OwnInv, EntriesFit;
    WriteFacts(v.fs, w.fs, ino, buf);
    forall d | d in w.dirs ensures Table(w.fs, d) == Table(v.fs, d) {
      KeptTable(v.fs, w.fs, d);
    }
    assert TreeOf(w) == TreeOf(v);
  }

  /** Where a creation puts its entry: one slot of the parent, free before, and the new inode's entry afterwards. */
  lemma NewSlot(v: World, w: World, ns: Fs, dir: nat, ino: nat, name: seq<Byte>, kind: nat) returns (q: nat)
    requires Creates(v, w, ns, dir, ino, name, kind) && dir in v.fs.inodes && dir in w.fs.inodes
    requires GoodTable(Table(v.fs, dir)) && U.LeadsInside(v.fs, dir)
    ensures 2 <= q < 252 && !Live(Table(v.fs, dir)[q])
    ensures Table(w.fs, dir) == Table(v.fs, dir)[q := U.MakeEntry(name, ino, kind)]
  {
    hide OwnInv, D.DirOk, D.EntriesOf, U.Nameless, U.MakeEntry, NewEntry, Live, Target, Name, NamesOk, TargetsOk,
         Clean;
    U.FreshEntry(v.fs, ns, dir, ino, name, kind);
    q := D.FirstFree(Table(v.fs, dir));
  }

  lemma OneSlotOf(v: World, w: World, dir: nat, q: nat, e: Entry)
    requires (forall d :: d in v.dirs ==> d in v.fs.inodes) && (forall d :: d in w.dirs ==> d in w.fs.inodes)
    requires dir in v.dirs && dir in w.dirs && 2 <= q < 252 && Table(w.fs, dir) == Table(v.fs, dir)[q := e]
    requires forall d :: d in v.dirs && d in w.dirs && d != dir ==> Table(w.fs, d) == Table(v.fs, d)
    ensures OneSlot(TreeOf(v), TreeOf(w), dir, q)
    ensures TreeOf(w)[dir][q] == e && TreeOf(v)[dir][q] == Table(v.fs, dir)[q]
  {
    hide Table;
  }

  lemma CreateSlot(v: World, w: World, ns: Fs, dir: nat, ino: nat, name: seq<Byte>, kind: nat) returns (q: nat)
    requires Rooted(v) && WorldInv(v) && WorldInv(w) && Creates(v, w, ns, dir, ino, name, kind)
    ensures (forall d :: d in v.dirs ==> d in v.fs.inodes) && (forall d :: d in w.dirs ==> d in w.fs.inodes)
    ensures OneSlot(TreeOf(v), TreeOf(w), dir, q) && GoodTable(TreeOf(w)[dir]) && ino !in v.dirs && ino !in v.fs.inodes
    ensures !Live(TreeOf(v)[dir][q]) && TreeOf(w)[dir][q] == U.MakeEntry(name, ino, kind)
  {
    hide WorldInv, InodeOk, OwnInv, D.DirOk, TreeOk, KeptFile, Live, GoodTable, U.MakeEntry, Table, U.LeadsInside,
         U.Created, U.Nameless, OneSlot;
    WorldParts(v);
    WorldParts(w);
    GoodDirectory(v, dir);
    GoodDirectory(w, dir);
    CreatesFacts(v, w, ns, dir, ino, name, kind);
    q := NewSlot(v, w, ns, dir, ino, name, kind);
    forall d | d in v.dirs && d in w.dirs && d != dir ensures Table(w.fs, d) == Table(v.fs, d) {
      U.CreatedKeeps(v.fs, ns, w.fs, dir, ino, name, kind, d);
      KeptTable(v.fs, w.fs, d);
    }
    OneSlotOf(v, w, dir, q, U.MakeEntry(name, ino, kind));
  }

  /** Every live entry behind the dot entries leads to an inode in use. */
  lemma AllUsed(w: World)
    requires WorldInv(w)
    ensures forall d :: d in w.dirs ==> d in w.fs.inodes
    ensures forall d, r: nat :: d in w.dirs && 2 <= r < 252 && Live(TreeOf(w)[d][r]) ==>
            Target(TreeOf(w)[d][r]) in w.fs.inodes
  {
    hide WorldInv, Live, Target, D.EntriesOf, D.DirOk, GoodTable;
    WorldParts(w);
    forall d, r: nat | d in w.dirs && 2 <= r < 252 && Live(TreeOf(w)[d][r])
      ensures Target(TreeOf(w)[d][r]) in w.fs.inodes
    {
      GoodDirectory(w, d);
    }
  }

  lemma NewFits(t: Tree, name: seq<Byte>, ino: nat, kind: nat)
    requires 1 <= |name| <= 15 && 0 !in name && P.Slash() !in name && ino < 4096
    requires (kind == FT_REGULAR || kind == FT_DIRECTORY)
    requires ino in t <==> kind == FT_DIRECTORY
    ensures EntryFits(t, U.MakeEntry(name, ino, kind))
  {
    hide U.MakeEntry, Name, Target, Kind;
    U.MadeEntry(name, ino, kind);
  }

  lemma CreateFits(v: World, w: World, ns: Fs, dir: nat, q: nat, ino: nat, name: seq<Byte>)
    requires Rooted(v) && CreateStep(v, w, ns, dir, ino, name) && ino !in v.dirs
    requires (forall d :: d in w.dirs ==> d in w.fs.inodes) && OneSlot(TreeOf(v), TreeOf(w), dir, q)
    requires TreeOf(w)[dir][q] == U.MakeEntry(name, ino, FT_REGULAR)
    ensures EntriesFit(TreeOf(w))
  {
    hide TreeOk, OneSlot, U.MakeEntry, Table, U.Created, U.Nameless, EntryFits, EntriesFit, Live, Target;
    NewFits(TreeOf(w), name, ino, FT_REGULAR);
    StillFit(TreeOf(v), TreeOf(w), dir, q);
  }

  lemma MkdirFits(v: World, w: World, ns: Fs, dir: nat, q: nat, ino: nat, name: seq<Byte>)
    requires Rooted(v) && WorldInv(v) && MkdirStep(v, w, ns, dir, ino, name) && ino !in v.fs.inodes
    requires (forall d :: d in w.dirs ==> d in w.fs.inodes) && OneSlot(TreeOf(v), TreeOf(w), dir, q)
    requires TreeOf(w)[dir][q] == U.MakeEntry(name, ino, FT_DIRECTORY)
    ensures EntriesFit(TreeOf(w))
  {
    hide TreeOk, OneSlot, U.MakeEntry, Table, U.Created, U.Nameless, EntryFits, EntriesFit, Live, Target, WorldInv,
         M.FreshTable, D.DirOk;
    var t, u := TreeOf(v), TreeOf(w);
    AllUsed(v);
    NewFits(u, name, ino, FT_DIRECTORY);
    forall d, r: nat | d in u && d !in t && 2 <= r < |u[d]| ensures EntryFits(u, u[d][r]) {
      FreshDead(u[ino], ino, dir, r);
      DeadFits(u, u[d][r]);
    }
    forall d, r: nat | d in t && d in u && 2 <= r < |t[d]| && (d != dir || r != q) && Live(t[d][r])
      ensures Target(t[d][r]) in t <==> Target(t[d][r]) in u
    {
      TableSize(v, d);
    }
    StillFit(t, u, dir, q);
  }

  lemma TableSize(w: World, d: nat)
    requires (forall c :: c in w.dirs ==> c in w.fs.inodes) && d in w.dirs
    ensures |TreeOf(w)[d]| == 252
  {
  }

  lemma FreshDead(s: seq<Entry>, ino: nat, parent: nat, r: nat)
    requires M.FreshTable(s, ino, parent) && 2 <= r < |s|
    ensures !Live(s[r])
  {
    hide U.MakeEntry, Live, Free;
    FreeIsFree();
  }

  lemma RemoveFits(v: World, w: World, dir: nat, q: nat, ino: nat)
    requires Rooted(v) && WorldInv(w) && w.dirs == v.dirs - {ino} && ino !in w.fs.inodes
    requires (forall d :: d in w.dirs ==> d in w.fs.inodes) && OneSlot(TreeOf(v), TreeOf(w), dir, q)
    requires !Live(TreeOf(w)[dir][q])
    ensures EntriesFit(TreeOf(w))
  {
    hide TreeOk, OneSlot, Table, EntryFits, EntriesFit, Live, Target, WorldInv;
    var t, u := TreeOf(v), TreeOf(w);
    AllUsed(w);
    SlotFacts(t, u, dir, q);
    DeadFits(u, u[dir][q]);
    forall d, r: nat | d in t && d in u && 2 <= r < |t[d]| && (d != dir || r != q) && Live(t[d][r])
      ensures Target(t[d][r]) in t <==> Target(t[d][r]) in u
    {
      TableSize(w, d);
      SameLength(t, u, dir, q, d);
      SlotKept(t, u, dir, q, d, r);
    }
    StillFit(t, u, dir, q);
  }

  lemma CreateRooted(v: World, w: World, ns: Fs, dir: nat, ino: nat, name: seq<Byte>)
    requires Rooted(v) && WorldInv(v) && WorldInv(w) && CreateStep(v, w, ns, dir, ino, name)
    ensures Rooted(w)
  {
    hide WorldInv, TreeOk, Live, GoodTable, U.MakeEntry, Table, U.Created, U.Nameless, OneSlot, EntriesFit;
    var q := CreateSlot(v, w, ns, dir, ino, name, FT_REGULAR);
    CreateFits(v, w, ns, dir, q, ino, name);
    var depth: nat -> nat :| TreeOk(TreeOf(v), depth);
    EditedTree(TreeOf(v), TreeOf(w), depth, dir, q);
  }

  lemma MkdirRooted(v: World, w: World, ns: Fs, dir: nat, ino: nat, name: seq<Byte>)
    requires Rooted(v) && WorldInv(v) && WorldInv(w) && MkdirStep(v, w, ns, dir, ino, name)
    ensures Rooted(w)
  {
    hide WorldInv, TreeOk, Live, GoodTable, U.MakeEntry, Table, U.Created, U.Nameless, OneSlot, M.FreshTable, ChildAt,
         D.DirOk, EntriesFit;
    var q := CreateSlot(v, w, ns, dir, ino, name, FT_DIRECTORY);
    MkdirFits(v, w, ns, dir, q, ino, name);
    var depth: nat -> nat :| TreeOk(TreeOf(v), depth);
    SlotFacts(TreeOf(v), TreeOf(w), dir, q);
    NewChild(TreeOf(w), dir, q, ino, name);
    PlantedTree(TreeOf(v), TreeOf(w), depth, dir, q, ino);
  }

  lemma NewChild(t: Tree, dir: nat, q: nat, ino: nat, name: seq<Byte>)
    requires dir in t && |t[dir]| == 252 && 2 <= q < 252 && 1 <= |name| <= 15 && 0 !in name && ino < 4096
    requires t[dir][q] == U.MakeEntry(name, ino, FT_DIRECTORY)
    ensures ChildAt(t, dir, q, ino)
  {
    hide Name, Target, Kind, U.MakeEntry;
    U.MadeEntry(name, ino, FT_DIRECTORY);
  }

  lemma RemoveSlot(v: World, w: World, es: Fs, dir: nat, q: nat, ino: nat)
    requires Rooted(v) && WorldInv(v) && WorldInv(w) && RemoveStep(v, w, es, dir, q, ino)
    ensures (forall d :: d in v.dirs ==> d in v.fs.inodes) && (forall d :: d in w.dirs ==> d in w.fs.inodes)
    ensures OneSlot(TreeOf(v), TreeOf(w), dir, q) && GoodTable(TreeOf(w)[dir]) && Target(TreeOf(v)[dir][q]) == ino
    ensures w.dirs == v.dirs - {ino} && ino != 0 && ino !in w.fs.inodes && TreeOf(w)[dir][q] == Free()
    ensures ino in v.dirs ==> forall r: nat :: 2 <= r < 252 ==> !Live(TreeOf(v)[ino][r])
  {
    hide WorldInv, TreeOk, KeptFile, OwnInv, Live, Target, GoodTable, Free, Table, U.Released, D.Erased, U.LeadsInside,
         D.DirOk, OneSlot;
    WorldParts(v);
    WorldParts(w);
    GoodDirectory(w, dir);
    RemoveFacts(v, w, es, dir, q, ino);
    forall d | d in v.dirs && d in w.dirs && d != dir ensures Table(w.fs, d) == Table(v.fs, d) {
      RemoveKeeps(v, w, es, dir, q, ino, d);
      KeptTable(v.fs, w.fs, d);
    }
    OneSlotOf(v, w, dir, q, Free());
  }

  lemma RemoveRooted(v: World, w: World, es: Fs, dir: nat, q: nat, ino: nat)
    requires Rooted(v) && WorldInv(v) && WorldInv(w) && RemoveStep(v, w, es, dir, q, ino)
    ensures Rooted(w)
  {
    hide WorldInv, TreeOk, Live, Target, GoodTable, Table, RemoveStep, OneSlot, EntriesFit, Free;
    RemoveSlot(v, w, es, dir, q, ino);
    FreeIsFree();
    RemoveFits(v, w, dir, q, ino);
    var depth: nat -> nat :| TreeOk(TreeOf(v), depth);
    SlotFacts(TreeOf(v), TreeOf(w), dir, q);
    if ino in v.dirs {
      FelledTree(TreeOf(v), TreeOf(w), depth, dir, q, ino);
    } else {
      assert w.dirs == v.dirs;
      EditedTree(TreeOf(v), TreeOf(w), depth, dir, q);
    }
  }

  /** Right after formatting the root is the whole tree. */
  lemma FormattedRooted(w: World)
    requires F.Formatted(w.fs) && w.dirs == {0}
    ensures Rooted(w)
  {
    hide TreeOk, D.EntriesOf, M.DotsSector, DirectoryOk, M.FreshTable, EntriesFit;
    var depth := (d: nat) => 0;
    F.FormattedTable(w.fs);
    RootAlone(TreeOf(w), depth);
  }

  lemma RootAlone(t: Tree, depth: nat -> nat)
    requires t.Keys == {0} && M.FreshTable(t[0], 0, 0) && depth(0) == 0
    ensures TreeOk(t, depth) && EntriesFit(t)
  {
    hide Live, Name, Target, Kind, GoodTable, ChildAt, M.FreshTable, EntryFits;
    forall d, q: nat | d in t && 2 <= q < |t[d]| ensures EntryFits(t, t[d][q]) {
      FreshDead(t[0], 0, 0, q);
      DeadFits(t, t[d][q]);
    }
    FreshFacts(t[0], 0, 0);
    assert DirectoryOk(t, depth, 0);
  }
}
