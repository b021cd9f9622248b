// fs/dir.c: a directory is a finite map from names to inodes, and dir_read lists it.

module DirectoryMap {
  import opened Disk
  import opened Bitmaps
  import opened Ownership
  import opened Files
  import opened FileSystem
  import opened CStrings
  import opened Entries
  import opened Directories

  // ---------------------------------------------------------------- the map

  /** The map a directory stands for: "." and ".." included. */
  function MapOf(s: seq<Entry>): map<seq<Byte>, nat> {
    if s == [] then map[]
    else
      var e := s[|s| - 1];
      var m := MapOf(s[..|s| - 1]);
      if Live(e) then m[Name(e) := Target(e)] else m
  }

  ghost predicate Has(s: seq<Entry>, name: seq<Byte>) {
    exists p: nat :: p < |s| && Live(s[p]) && Name(s[p]) == name
  }

  lemma {:induction false} InMap(s: seq<Entry>, name: seq<Byte>)
    ensures name in MapOf(s) <==> Has(s, name)
  {
    hide Live, Name, Target;
    if s != [] {
      var t := s[..|s| - 1];
      InMap(t, name);
      if Has(t, name) {
        var p: nat :| p < |t| && Live(t[p]) && Name(t[p]) == name;
        assert s[p] == t[p];
      }
      if Has(s, name) {
        var p: nat :| p < |s| && Live(s[p]) && Name(s[p]) == name;
        assert p < |t| ==> s[p] == t[p];
      }
    }
  }

  lemma {:induction false} MapEntry(s: seq<Entry>, p: nat)
    requires NamesOk(s) && p < |s| && Live(s[p])
    ensures Name(s[p]) in MapOf(s) && MapOf(s)[Name(s[p])] == Target(s[p])
  {
    hide Live, Name, Target;
    var n := |s| - 1;
    if p < n {
      assert s[..n][p] == s[p];
      MapEntry(s[..n], p);
    }
  }

  /** The entries of t are those of s, except that slot p changed from free or gone to free or new. */
  lemma {:induction false} SameValue(s: seq<Entry>, t: seq<Entry>, p: nat, name: seq<Byte>)
    requires NamesOk(s) && NamesOk(t) && p < |s| == |t| && t == s[p := t[p]]
    requires name in MapOf(s) && name in MapOf(t)
    requires !(Live(s[p]) && Name(s[p]) == name) && !(Live(t[p]) && Name(t[p]) == name)
    ensures MapOf(t)[name] == MapOf(s)[name]
  {
    hide Live, Name, Target, MapOf, NamesOk;
    InMap(s, name);
    var i: nat :| i < |s| && Live(s[i]) && Name(s[i]) == name;
    MapEntry(s, i);
    assert t[i] == s[i];
    MapEntry(t, i);
  }

  lemma SameKey(s: seq<Entry>, t: seq<Entry>, p: nat, name: seq<Byte>)
    requires p < |s| == |t| && t == s[p := t[p]]
    requires !(Live(s[p]) && Name(s[p]) == name) && !(Live(t[p]) && Name(t[p]) == name)
    ensures name in MapOf(s) <==> name in MapOf(t)
  {
    hide Live, Name, MapOf;
    InMap(s, name);
    InMap(t, name);
    if Has(s, name) {
      var i: nat :| i < |s| && Live(s[i]) && Name(s[i]) == name;
      assert t[i] == s[i];
    }
    if Has(t, name) {
      var i: nat :| i < |t| && Live(t[i]) && Name(t[i]) == name;
      assert t[i] == s[i];
    }
  }

  /** Adding an entry to a free slot adds its name to the map. */
  lemma InsertMap(s: seq<Entry>, p: nat, e: Entry)
    requires GoodTable(s) && p < 252 && !Live(s[p]) && NewEntry(s, e)
    ensures GoodTable(s[p := e]) && Name(e) !in MapOf(s) && MapOf(s[p := e]) == MapOf(s)[Name(e) := Target(e)]
  {
    hide Live, Name, Target, MapOf, NamesOk, TargetsOk, Clean;
    GoodInsert(s, p, e);
    var t := s[p := e];
    InMap(s, Name(e));
    MapEntry(t, p);
    forall name: seq<Byte> | name != Name(e)
      ensures name in MapOf(s) <==> name in MapOf(t)
      ensures name in MapOf(t) ==> MapOf(t)[name] == MapOf(s)[name]
    {
      SameKey(s, t, p, name);
      if name in MapOf(t) {
        SameValue(s, t, p, name);
      }
    }
  }

  /** Freeing a slot takes its name, and no other, out of the map. */
  lemma EraseMap(s: seq<Entry>, p: nat)
    requires GoodTable(s) && 2 <= p < 252 && Live(s[p])
    ensures GoodTable(s[p := Free()]) && MapOf(s[p := Free()]) == MapOf(s) - {Name(s[p])}
  {
    hide Live, Name, Target, MapOf, TargetsOk, Clean, Free;
    GoodErase(s, p);
    FreeIsFree();
    var t := s[p := Free()];
    assert Name(s[p]) !in MapOf(t) by {
      InMap(t, Name(s[p]));
      Gone(s, t, p);
    }
    hide NamesOk;
    forall name: seq<Byte> | name != Name(s[p])
      ensures name in MapOf(s) <==> name in MapOf(t)
      ensures name in MapOf(t) ==> MapOf(t)[name] == MapOf(s)[name]
    {
      SameKey(s, t, p, name);
      if name in MapOf(t) {
        SameValue(s, t, p, name);
      }
    }
  }

  lemma Gone(s: seq<Entry>, t: seq<Entry>, p: nat)
    requires NamesOk(s) && p < |s| == |t| && t == s[p := t[p]] && Live(s[p]) && !Live(t[p])
    ensures !Has(t, Name(s[p]))
  {
    hide Live, Name;
    forall i: nat | i < |t| && Live(t[i]) ensures Name(t[i]) != Name(s[p]) {
      assert i != p && t[i] == s[i];
    }
  }

  /** The map of a directory inode. */
  ghost function DirMap(fs: Fs, dir: nat): map<seq<Byte>, nat>
    requires dir in fs.inodes && DirOk(fs.disk, fs.inodes[dir])
  {
    MapOf(EntriesOf(fs.disk, fs.inodes[dir]))
  }

  /** sync_dir_entry is map update. */
  lemma InsertedMap(fs: Fs, gs: Fs, dir: nat, e: Entry)
    requires dir in fs.inodes && DirOk(fs.disk, fs.inodes[dir]) && NewEntry(EntriesOf(fs.disk, fs.inodes[dir]), e)
    requires Inserted(fs, gs, dir, e)
    ensures dir in gs.inodes && DirOk(gs.disk, gs.inodes[dir])
    ensures DirMap(gs, dir) == DirMap(fs, dir)[Name(e) := Target(e)]
  {
    hide OwnInv, EntriesOf, OthersKept, MapOf, Live, Name, Target, NewEntry, GoodTable;
    var s := EntriesOf(fs.disk, fs.inodes[dir]);
    InsertMap(s, FirstFree(s), e);
  }

  /** delete_dir_entry is map removal, of the one name that leads to the inode. */
  lemma ErasedMap(fs: Fs, gs: Fs, dir: nat, q: nat, ino: nat)
    requires dir in fs.inodes && DirOk(fs.disk, fs.inodes[dir]) && Erased(fs, gs, dir, q)
    requires LeadsTo(EntriesOf(fs.disk, fs.inodes[dir]), q, ino)
    ensures dir in gs.inodes && DirOk(gs.disk, gs.inodes[dir])
    ensures var name := Name(EntriesOf(fs.disk, fs.inodes[dir])[q]);
            name in DirMap(fs, dir) && DirMap(fs, dir)[name] == ino && DirMap(gs, dir) == DirMap(fs, dir) - {name}
  {
    hide OwnInv, EntriesOf, OthersKept, MapOf, Live, Name, Target, Free;
    var s := EntriesOf(fs.disk, fs.inodes[dir]);
    EraseMap(s, q);
    MapEntry(s, q);
  }

  /** search_dir_entry is map lookup. */
  lemma SearchIsLookup(s: seq<Entry>, name: seq<Byte>, r: SearchResult)
    requires GoodTable(s)
    requires r.Hit? ==> r.entry in LiveOf(s) && Name(r.entry) == name
    requires r.NoEntry? ==> forall e: Entry :: e in LiveOf(s) ==> Name(e) != name
    ensures r.NoEntry? <==> name !in MapOf(s)
    ensures r.Hit? ==> Target(r.entry) == MapOf(s)[name]
  {
    hide Live, Name, Target, MapOf, LiveOf;
    InMap(s, name);
    if r.Hit? {
      LiveMember(s, r.entry);
      var p: nat :| p < |s| && s[p] == r.entry;
      MapEntry(s, p);
    } else {
      forall p: nat | p < |s| && Live(s[p]) ensures Name(s[p]) != name {
        LiveMember(s, s[p]);
      }
    }
  }

  // ---------------------------------------------------------------- insert, then delete

  /**
   * Adding an entry and deleting it again gives the directory's inode and all its entries back, whatever happened
   * to other inodes in between: a block the directory gained for the entry is returned.
   */
  lemma InsertDelete(fs: Fs, cs: Fs, ms: Fs, gs: Fs, dir: nat, e: Entry, q: nat)
    requires dir in fs.inodes && DirOk(fs.disk, fs.inodes[dir]) && NewEntry(EntriesOf(fs.disk, fs.inodes[dir]), e)
    requires Inserted(fs, cs, dir, e) && KeptFile(cs, ms, dir) && Erased(ms, gs, dir, q)
    requires LeadsTo(EntriesOf(ms.disk, ms.inodes[dir]), q, Target(e))
    ensures dir in gs.inodes && EntriesOf(gs.disk, gs.inodes[dir]) == EntriesOf(fs.disk, fs.inodes[dir])
    ensures gs.inodes[dir] == fs.inodes[dir]
  {
    hide OwnInv, EntriesOf, OthersKept, Live, Name, Target, Free, LiveOf, NoEmptyBlock, Sole, BitsGrew, SameInode;
    var s, t := EntriesOf(fs.disk, fs.inodes[dir]), EntriesOf(ms.disk, ms.inodes[dir]);
    var p := FirstFree(s);
    SameDir(cs.disk, ms.disk, ms.inodes[dir]);
    GoodInsert(s, p, e);
    assert q == p by { OneTargetOnly(t, p, q); }
    InsertErase(s, p, e);
    Place(p);
    SoleAgain(fs.disk, fs.inodes[dir], ms.disk, ms.inodes[dir], p / 21, p % 21, p, e);
    SectorsBack(fs.inodes[dir].sectors, ms.inodes[dir].sectors, gs.inodes[dir].sectors, p / 21);
  }

  lemma OneTargetOnly(t: seq<Entry>, p: nat, q: nat)
    requires TargetsOk(t) && 2 <= p < |t| && 2 <= q < |t| && Live(t[p]) && Live(t[q]) && Target(t[p]) == Target(t[q])
    ensures p == q
  {
    hide Live, Target;
  }

  /** The entry just added is alone in its block exactly when the block was added with it. */
  lemma SoleAgain(d: seq<Sector>, n: Inode, d2: seq<Sector>, m: Inode, b: nat, i: nat, q: nat, e: Entry)
    requires b < 12 && i < 21 && q == 21 * b + i && q < 252 && EntriesOf(d2, m) == EntriesOf(d, n)[q := e]
    requires !Live(EntriesOf(d, n)[q]) && DirOk(d, n)
    ensures Sole(d2, m, q) <==> n.sectors[b] == 0
  {
    hide DirOk, EntriesOf, Live, Slot, Data, Sole, Block;
    HoleBlock(d, n, b);
    if n.sectors[b] == 0 {
      HoleUnnamed(d, n, b);
      AloneAfter(d, n, d2, m, b, i, q, e);
      DirTop(d, n);
    } else {
      NotAlone(d, n, d2, m, b, i, q, e);
    }
  }

  lemma AloneAfter(d: seq<Sector>, n: Inode, d2: seq<Sector>, m: Inode, b: nat, i: nat, q: nat, e: Entry)
    requires b < 12 && i < 21 && q == 21 * b + i && q < 252 && n.sectors[b] == 0
    requires EntriesOf(d2, m) == EntriesOf(d, n)[q := e]
    requires (forall j: nat :: j < 21 ==> !Live(Slot(Data(d, n, b), j))) && DirOk(d, n)
    ensures b > 0 && Sole(d2, m, q)
  {
    hide DirOk, EntriesOf, Live, Slot, Data, Sole;
    DirTop(d, n);
    forall j: nat | j < 21 && j != i ensures !Live(Slot(Data(d2, m, b), j)) {
      EntryAt(d, n, b, j);
      EntryAt(d2, m, b, j);
    }
    SoleHere(d2, m, b, i);
  }

  lemma NotAlone(d: seq<Sector>, n: Inode, d2: seq<Sector>, m: Inode, b: nat, i: nat, q: nat, e: Entry)
    requires b < 12 && i < 21 && q == 21 * b + i && q < 252 && n.sectors[b] != 0
    requires EntriesOf(d2, m) == EntriesOf(d, n)[q := e]
    requires !Live(EntriesOf(d, n)[q]) && DirOk(d, n)
    ensures !Sole(d2, m, q)
  {
    hide DirOk, EntriesOf, Live, Slot, Data, Sole;
    SoleHere(d2, m, b, i);
    if b > 0 {
      BlockHasLive(d, n, b);
      var j: nat :| j < 21 && Live(Slot(Data(d, n, b), j));
      EntryAt(d, n, b, j);
      EntryAt(d, n, b, i);
      EntryAt(d2, m, b, j);
      assert Live(Slot(Data(d2, m, b), j));
    }
  }

  lemma BlockHasLive(d: seq<Sector>, n: Inode, b: nat)
    requires DirOk(d, n) && 1 <= b < 12 && n.sectors[b] != 0
    ensures HasLive(d, n, b)
  {
    hide EntriesOf, GoodTable, LiveOf, HasLive;
    HoleBlock(d, n, b);
  }

  lemma SectorsBack(a: seq<nat>, m: seq<nat>, c: seq<nat>, b: nat)
    requires |a| == |m| == |c| == 13 && b < 12 && m[12] == a[12]
    requires forall k: nat :: k < 12 && k != b ==> m[k] == a[k]
    requires a[b] != 0 ==> m == a
    requires c == if a[b] == 0 then m[b := 0] else m
    ensures c == a
  {
  }

  // ---------------------------------------------------------------- dir_read

  /** struct dir: an open directory and the position of its reader. */
  class DirHandle {
    const dir: nat
    var pos: nat

    constructor (dir: nat)
      ensures this.dir == dir && pos == 0
    {
      this.dir, pos := dir, 0;
    }
  }

  function CountTo(s: seq<Entry>, q: nat): nat
    requires q <= |s|
  {
    |LiveOf(s[..q])|
  }

  lemma CountStep(s: seq<Entry>, q: nat)
    requires q < |s|
    ensures CountTo(s, q + 1) == CountTo(s, q) + if Live(s[q]) then 1 else 0
    ensures Live(s[q]) ==> CountTo(s, q) < |LiveOf(s)| && LiveOf(s)[CountTo(s, q)] == s[q]
  {
    hide Live, LiveOf;
    LiveSplit(s[..q + 1], q);
    assert s[..q + 1][..q] == s[..q] && s[..q + 1][q + 1..] == [];
    NoneLive([]);
    LiveSplit(s, q);
  }

  lemma CountEnds(s: seq<Entry>)
    ensures CountTo(s, 0) == 0 && CountTo(s, |s|) == |LiveOf(s)|
  {
    hide Live, LiveOf;
    assert s[..0] == [] && s[..|s|] == s;
    NoneLive([]);
  }

  lemma DirSize(d: seq<Sector>, n: Inode)
    requires DirOk(d, n)
    ensures n.size == 24 * |LiveOf(EntriesOf(d, n))| && n.sectors[12] == 0
  {
  }

  lemma CountHole(d: seq<Sector>, n: Inode, b: nat, i: nat)
    requires b < 12 && i < 21 && Block(d, n, b) == 0
    ensures CountTo(EntriesOf(d, n), 21 * b + i + 1) == CountTo(EntriesOf(d, n), 21 * b + i)
  {
    hide EntriesOf, Live, Slot, Data, Block, CountTo;
    HoleUnnamed(d, n, b);
    EntryAt(d, n, b, i);
    CountStep(EntriesOf(d, n), 21 * b + i);
  }

  lemma {:induction false} CountHoles(d: seq<Sector>, n: Inode, b: nat, i: nat)
    requires b < 12 && i <= 21 && Block(d, n, b) == 0
    ensures CountTo(EntriesOf(d, n), 21 * b + i) == CountTo(EntriesOf(d, n), 21 * b)
  {
    hide EntriesOf, Block, CountTo;
    if i > 0 {
      CountHoles(d, n, b, i - 1);
      CountHole(d, n, b, i - 1);
    }
  }

  /** The inner loop of dir_read: skip what was returned before, stop at the entry that was not. */
  method ReadSlots(p: Partition, h: DirHandle, b: nat, s: Sector, cur0: nat, ghost j: nat)
    returns (r: SearchResult, cur: nat)
    requires h.dir in p.inodes && b < 12 && s == Data(p.disk, p.inodes[h.dir], b) && h.pos == 24 * j
    requires cur0 == 24 * CountTo(EntriesOf(p.disk, p.inodes[h.dir]), 21 * b) && cur0 <= h.pos
    modifies h`pos
    ensures r.NoEntry? ==>
            h.pos == old(h.pos) && cur == 24 * CountTo(EntriesOf(p.disk, p.inodes[h.dir]), 21 * b + 21) && cur <= h.pos
    ensures r.Hit? ==> h.pos == old(h.pos) + 24 && j < |LiveOf(EntriesOf(p.disk, p.inodes[h.dir]))|
    ensures r.Hit? ==> r.entry == LiveOf(EntriesOf(p.disk, p.inodes[h.dir]))[j]
  {
    hide EntriesOf, Live, LiveOf, Slot, Data, CountTo, Kind;
    ghost var n, table := p.inodes[h.dir], EntriesOf(p.disk, p.inodes[h.dir]);
    var i := 0;
    cur := cur0;
    while i < 21
      invariant i <= 21 && cur == 24 * CountTo(table, 21 * b + i) && cur <= h.pos == old(h.pos)
    {
      EntryAt(p.disk, n, b, i);
      CountStep(table, 21 * b + i);
      LiveKind(Slot(s, i));
      if Kind(Slot(s, i)) != 0 {
        if cur < h.pos {
          cur := cur + 24;
        } else {
          assert cur == h.pos;
          h.pos := h.pos + 24;
          return Hit(Slot(s, i)), cur;
        }
      }
      i := i + 1;
    }
    return NoEntry, cur;
  }

  /** dir_read: the j-th call after a rewind returns the j-th live entry, and NULL when there are no more. */
  method DirRead(p: Partition, h: DirHandle, ghost j: nat) returns (r: SearchResult)
    requires h.dir in p.inodes && h.pos == 24 * j && DirOk(p.disk, p.inodes[h.dir])
    modifies h`pos
    ensures r.NoEntry? <==> j >= |LiveOf(EntriesOf(p.disk, p.inodes[h.dir]))|
    ensures r.NoEntry? ==> h.pos == 24 * j
    ensures r.Hit? ==> r.entry == LiveOf(EntriesOf(p.disk, p.inodes[h.dir]))[j] && h.pos == 24 * (j + 1)
  {
    hide EntriesOf, Live, LiveOf, Slot, Data, CountTo, DirOk, Block;
    var n := p.inodes[h.dir];
    ghost var table := EntriesOf(p.disk, n);
    DirSize(p.disk, n);
    CountEnds(table);
    var k, cur := 0, 0;
    while k < 12
      invariant k <= 12 && h.pos == 24 * j && cur == 24 * CountTo(table, 21 * k) && cur <= h.pos
    {
      if h.pos >= n.size {
        return NoEntry;
      }
      HoleBlock(p.disk, n, k);
      if n.sectors[k] == 0 {
        CountHoles(p.disk, n, k, 21);
      } else {
        ReadIsData(p.disk, n, k);
        r, cur := ReadSlots(p, h, k, Read(p.disk, n.sectors[k]), cur, j);
        if r.Hit? {
          return;
        }
      }
      k := k + 1;
    }
    return NoEntry;
  }

  /** The loop of the ls command: rewind, then read until NULL.  It lists every live entry once, in order. */
  method ListAll(p: Partition, h: DirHandle) returns (list: seq<Entry>)
    requires h.dir in p.inodes && DirOk(p.disk, p.inodes[h.dir])
    modifies h`pos
    ensures list == LiveOf(EntriesOf(p.disk, p.inodes[h.dir]))
  {
    hide EntriesOf, LiveOf, DirOk;
    ghost var all := LiveOf(EntriesOf(p.disk, p.inodes[h.dir]));
    h.pos := 0;
    list := [];
    var r := DirRead(p, h, 0);
    while r.Hit?
      invariant |list| <= |all| && list == all[..|list|]
      invariant r.NoEntry? <==> |list| == |all|
      invariant r.Hit? ==> r.entry == all[|list|] && h.pos == 24 * (|list| + 1)
      decreases |all| - |list|
    {
      assert all[..|list| + 1] == all[..|list|] + [all[|list|]];
      list := list + [r.entry];
      r := DirRead(p, h, |list|);
    }
    assert all[..|all|] == all;
  }

  /** dir_is_empty */
  method DirIsEmpty(p: Partition, dir: nat) returns (empty: bool)
    requires dir in p.inodes && DirOk(p.disk, p.inodes[dir])
    ensures empty <==> forall q: nat :: 2 <= q < 252 ==> !Live(EntriesOf(p.disk, p.inodes[dir])[q])
  {
    hide EntriesOf, Live, LiveOf, DirOk;
    DirSize(p.disk, p.inodes[dir]);
    ghost var table := EntriesOf(p.disk, p.inodes[dir]);
    DirTable(p.disk, p.inodes[dir]);
    TwoLive(table);
    return p.inodes[dir].size == 24 * 2;
  }

  lemma DirTable(d: seq<Sector>, n: Inode)
    requires DirOk(d, n)
    ensures GoodTable(EntriesOf(d, n))
  {
  }

  /** An empty directory has its first block and no other: what dir_remove asserts. */
  lemma EmptyHasOneBlock(d: seq<Sector>, n: Inode)
    requires DirOk(d, n) && n.size == 48
    ensures n.sectors[0] != 0 && forall k: nat :: 1 <= k < 13 ==> n.sectors[k] == 0
  {
    hide EntriesOf, Live, LiveOf, DirOk, Slot, Data;
    DirTop(d, n);
    DirSize(d, n);
    DirTable(d, n);
    TwoLive(EntriesOf(d, n));
    forall k: nat | 1 <= k < 12 ensures n.sectors[k] == 0 {
      if n.sectors[k] != 0 {
        BlockHasLive(d, n, k);
        var i: nat :| i < 21 && Live(Slot(Data(d, n, k), i));
        EntryAt(d, n, k, i);
        assert false;
      }
    }
  }
}
