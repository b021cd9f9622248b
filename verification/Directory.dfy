// fs/dir.c: directories of up to twelve direct blocks of 21 entries each.

module Directories {
  import opened Disk
  import opened Bitmaps
  import opened Ownership
  import opened Records
  import opened Files
  import opened FileSystem
  import opened CStrings
  import opened Entries

  // ---------------------------------------------------------------- the entry table

  /** Entry i of a directory sector; the last 8 bytes of the sector are unused. */
  function Slot(s: Sector, i: nat): Entry
    requires i < 21
  {
    s[24 * i..24 * i + 24]
  }

  /** The 252 slots of a directory; a missing block reads as free slots. */
  function EntriesOf(disk: seq<Sector>, n: Inode): (s: seq<Entry>)
    ensures |s| == 252
  {
    seq(252, p requires 0 <= p < 252 => Slot(Data(disk, n, p / 21), p % 21))
  }

  lemma EntryAt(disk: seq<Sector>, n: Inode, b: nat, i: nat)
    requires b < 12 && i < 21
    ensures EntriesOf(disk, n)[21 * b + i] == Slot(Data(disk, n, b), i)
  {
    assert (21 * b + i) / 21 == b && (21 * b + i) % 21 == i;
  }

  /** Every slot is slot p % 21 of block p / 21. */
  lemma Place(p: nat)
    requires p < 252
    ensures p / 21 < 12 && p % 21 < 21 && p == 21 * (p / 21) + p % 21
  {
  }

  lemma SlotSplice(s: Sector, i: nat, e: Entry, j: nat)
    requires i < 21 && j < 21
    ensures Slot(Splice(s, 24 * i, e), j) == if j == i then e else Slot(s, j)
  {
    var t := Splice(s, 24 * i, e);
    assert j != i ==> Slot(t, j) == Slot(s, j);
    assert Slot(t, i) == e;
  }

  lemma ZeroSlots(i: nat)
    requires i < 21
    ensures Slot(ZeroSector(), i) == Free()
  {
  }

  /** One sector of the directory changes in one slot: so does the table. */
  lemma PutSlot(d: seq<Sector>, n: Inode, d2: seq<Sector>, m: Inode, b: nat, i: nat, e: Entry)
    requires b < 12 && i < 21
    requires forall k: nat :: k < 12 && k != b ==> Data(d2, m, k) == Data(d, n, k)
    requires forall j: nat :: j < 21 ==> Slot(Data(d2, m, b), j) == if j == i then e else Slot(Data(d, n, b), j)
    ensures EntriesOf(d2, m) == EntriesOf(d, n)[21 * b + i := e]
  {
    hide Data, Slot, EntriesOf;
    var s, t := EntriesOf(d, n), EntriesOf(d2, m);
    forall p: nat | p < 252 ensures t[p] == s[21 * b + i := e][p] {
      Place(p);
      var c, j := p / 21, p % 21;
      EntryAt(d, n, c, j);
      EntryAt(d2, m, c, j);
    }
  }

  ghost predicate HasLive(disk: seq<Sector>, n: Inode, b: nat)
    requires b < 12
  {
    exists i: nat :: i < 21 && Live(Slot(Data(disk, n, b), i))
  }

  /** Every block after the first holds a live entry. */
  ghost predicate NoEmptyBlock(disk: seq<Sector>, n: Inode) {
    forall b: nat :: 1 <= b < 12 && Block(disk, n, b) != 0 ==> HasLive(disk, n, b)
  }

  /** The directory invariant. */
  ghost predicate DirOk(disk: seq<Sector>, n: Inode) {
    && n.sectors[0] != 0 && n.sectors[12] == 0
    && GoodTable(EntriesOf(disk, n)) && n.size == 24 * |LiveOf(EntriesOf(disk, n))|
    && NoEmptyBlock(disk, n)
  }

  /** A directory nobody touched is still a directory with the same entries. */
  lemma SameDir(d: seq<Sector>, e: seq<Sector>, n: Inode)
    requires SameInode(d, e, n)
    ensures EntriesOf(d, n) == EntriesOf(e, n) && (DirOk(d, n) ==> DirOk(e, n))
  {
    hide Slot, Live, GoodTable, Block, Data, LiveOf;
    forall p: nat | p < 252 ensures EntriesOf(d, n)[p] == EntriesOf(e, n)[p] {
      assert Data(d, n, p / 21) == Data(e, n, p / 21);
    }
    if DirOk(d, n) {
      forall b: nat | 1 <= b < 12 && Block(e, n, b) != 0 ensures HasLive(e, n, b) {
        assert Block(d, n, b) != 0 && HasLive(d, n, b) && Data(d, n, b) == Data(e, n, b);
      }
    }
  }

  /** What the scans need to know about one sector: free slots are zero and names end inside the name field. */
  ghost predicate SectorOk(s: Sector) {
    forall i: nat :: i < 21 ==> SlotOk(Slot(s, i))
  }

  ghost predicate SlotOk(e: Entry) {
    if Live(e) then 1 <= |Name(e)| <= 15 else e == Free()
  }

  lemma SectorsOk(disk: seq<Sector>, n: Inode, b: nat)
    requires DirOk(disk, n) && b < 12
    ensures SectorOk(Data(disk, n, b))
  {
    hide Live, Name, Slot, Data, EntriesOf, LiveOf, NoEmptyBlock, TargetsOk, Free;
    var s := EntriesOf(disk, n);
    forall i: nat | i < 21 ensures SlotOk(Slot(Data(disk, n, b), i)) {
      EntryAt(disk, n, b, i);
      assert SlotOk(s[21 * b + i]);
    }
  }

  lemma SlotText(e: Entry)
    requires SlotOk(e)
    ensures 0 in e && Text(e) == Name(e) && (!Live(e) ==> Name(e) == [])
  {
    hide Live, Name, Free;
    FreeIsFree();
    NameText(e);
  }

  // ---------------------------------------------------------------- search_dir_entry

  datatype SearchResult = NoEntry | Hit(entry: Entry)

  /** The inner loop of search_dir_entry. */
  method SearchSector(s: Sector, name: seq<Byte>) returns (i: nat)
    requires SectorOk(s) && 0 < |name| && 0 !in name
    ensures i <= 21
    ensures i < 21 ==> Live(Slot(s, i)) && Name(Slot(s, i)) == name
    ensures forall j: nat :: j < i ==> Name(Slot(s, j)) != name
  {
    hide Live, Name, Slot, SlotOk, Ordered;
    TextOf(name);
    i := 0;
    while i < 21
      invariant i <= 21
      invariant forall j: nat :: j < i ==> Name(Slot(s, j)) != name
    {
      assert SlotOk(Slot(s, i));
      SlotText(Slot(s, i));
      var c := Strncmp(Slot(s, i), name + [0], |name|);
      if c == 0 {
        return;
      }
      i := i + 1;
    }
  }

  /** No live entry among the first `limit` slots has this name. */
  ghost predicate Unnamed(s: seq<Entry>, limit: nat, name: seq<Byte>) {
    forall p: nat :: p < limit && p < |s| && Live(s[p]) ==> Name(s[p]) != name
  }

  lemma UnnamedBlock(disk: seq<Sector>, n: Inode, b: nat, name: seq<Byte>)
    requires b < 12 && Unnamed(EntriesOf(disk, n), 21 * b, name)
    requires forall j: nat :: j < 21 && Live(Slot(Data(disk, n, b), j)) ==> Name(Slot(Data(disk, n, b), j)) != name
    ensures Unnamed(EntriesOf(disk, n), 21 * (b + 1), name)
  {
    hide Live, Name, Slot, Data, EntriesOf;
    var s := EntriesOf(disk, n);
    forall p: nat | p < 21 * (b + 1) && Live(s[p]) ensures Name(s[p]) != name {
      if p >= 21 * b {
        EntryAt(disk, n, b, p - 21 * b);
      }
    }
  }

  lemma HoleUnnamed(disk: seq<Sector>, n: Inode, b: nat)
    requires b < 12 && Block(disk, n, b) == 0
    ensures forall j: nat :: j < 21 ==> !Live(Slot(Data(disk, n, b), j))
  {
    FreeIsFree();
    hide Live, Free, Slot, Block;
    forall j: nat | j < 21 ensures !Live(Slot(Data(disk, n, b), j)) {
      ZeroSlots(j);
    }
  }

  lemma NoIndirect(disk: seq<Sector>, n: Inode, k: nat)
    requires n.sectors[12] == 0 && 12 <= k < 140
    ensures Block(disk, n, k) == 0
  {
  }

  /** search_dir_entry: exact for every name, present or not. */
  method SearchDirEntry(p: Partition, dir: nat, name: seq<Byte>) returns (r: SearchResult)
    requires dir in p.inodes && DirOk(p.disk, p.inodes[dir]) && 0 < |name| && 0 !in name
    ensures r.Hit? ==> r.entry in LiveOf(EntriesOf(p.disk, p.inodes[dir])) && Name(r.entry) == name
    ensures r.NoEntry? ==> forall e: Entry :: e in LiveOf(EntriesOf(p.disk, p.inodes[dir])) ==> Name(e) != name
  {
    var n := p.inodes[dir];
    ghost var table := EntriesOf(p.disk, n);
    hide Live, Name, Slot, EntriesOf, LiveOf, Data, DirOk, Block, Unnamed;
    assert Unnamed(table, 0, name) by { UnnamedStart(table, name); }
    var k := 0;
    while k < 140
      invariant k <= 140 && Unnamed(table, if k < 12 then 21 * k else 252, name)
    {
      DirTop(p.disk, n);
      if k >= 12 {
        NoIndirect(p.disk, n, k);
      }
      var lba := Block(p.disk, n, k);
      if lba != 0 {
        SectorsOk(p.disk, n, k);
        ReadIsData(p.disk, n, k);
        var s := Read(p.disk, lba);
        var i := SearchSector(s, name);
        if i < 21 {
          EntryAt(p.disk, n, k, i);
          LiveMember(table, Slot(s, i));
          return Hit(Slot(s, i));
        }
        UnnamedBlock(p.disk, n, k, name);
      } else if k < 12 {
        HoleUnnamed(p.disk, n, k);
        UnnamedBlock(p.disk, n, k, name);
      }
      k := k + 1;
    }
    UnnamedAll(table, name);
    return NoEntry;
  }

  lemma UnnamedStart(s: seq<Entry>, name: seq<Byte>)
    ensures Unnamed(s, 0, name)
  {
  }

  lemma UnnamedAll(s: seq<Entry>, name: seq<Byte>)
    requires Unnamed(s, |s|, name)
    ensures forall e: Entry :: e in LiveOf(s) ==> Name(e) != name
  {
    hide Live, Name;
    forall e: Entry | e in LiveOf(s) ensures Name(e) != name {
      LiveMember(s, e);
    }
  }

  lemma DirTop(disk: seq<Sector>, n: Inode)
    requires DirOk(disk, n)
    ensures n.sectors[12] == 0 && n.sectors[0] != 0
  {
  }

  lemma ReadIsData(disk: seq<Sector>, n: Inode, k: nat)
    requires k < 140 && Block(disk, n, k) != 0
    ensures Read(disk, Block(disk, n, k)) == Data(disk, n, k)
  {
  }

  // ---------------------------------------------------------------- sync_dir_entry

  /** The first slot that is not live. */
  function FirstFree(s: seq<Entry>): (i: nat)
    ensures i <= |s| && (forall k: nat :: k < i ==> Live(s[k])) && (i < |s| ==> !Live(s[i]))
  {
    if s == [] || !Live(s[0]) then 0 else 1 + FirstFree(s[1..])
  }

  lemma FirstFreeIs(s: seq<Entry>, i: nat)
    requires i < |s| && (forall k: nat :: k < i ==> Live(s[k])) && !Live(s[i])
    ensures FirstFree(s) == i
  {
    hide Live;
  }

  lemma {:induction false} AllLive(s: seq<Entry>)
    requires forall p: nat :: p < |s| ==> Live(s[p])
    ensures |LiveOf(s)| == |s|
  {
    hide Live;
    if s != [] {
      AllLive(s[1..]);
    }
  }

  lemma {:induction false} LiveCount(s: seq<Entry>)
    ensures |LiveOf(s)| <= |s| && (|LiveOf(s)| == |s| ==> forall p: nat :: p < |s| ==> Live(s[p]))
  {
    hide Live;
    if s != [] {
      LiveCount(s[1..]);
    }
  }

  /** A directory has room exactly when it has fewer than 252 entries. */
  lemma HasRoom(disk: seq<Sector>, n: Inode)
    requires DirOk(disk, n)
    ensures n.size < 24 * 252 <==> FirstFree(EntriesOf(disk, n)) < 252
  {
    hide Live, EntriesOf, GoodTable, NoEmptyBlock;
    var s := EntriesOf(disk, n);
    LiveCount(s);
    if FirstFree(s) == 252 {
      AllLive(s);
    }
  }

  /** What adding an entry does to the partition. */
  ghost predicate Inserted(fs: Fs, gs: Fs, dir: nat, e: Entry) {
    && dir in fs.inodes && dir in gs.inodes && gs.inodes.Keys == fs.inodes.Keys
    && OwnInv(gs) && OthersKept(fs, gs, dir) && DirOk(gs.disk, gs.inodes[dir]) && BitsGrew(fs.bits, gs.bits)
    && SameShape(fs, gs)
    && var s := EntriesOf(fs.disk, fs.inodes[dir]);
    && FirstFree(s) < 252
    && EntriesOf(gs.disk, gs.inodes[dir]) == s[FirstFree(s) := e]
    && gs.inodes[dir].sectors[12] == 0
    && (forall k: nat :: k < 12 && k != FirstFree(s) / 21 ==> gs.inodes[dir].sectors[k] == fs.inodes[dir].sectors[k])
    && gs.inodes[dir].sectors[FirstFree(s) / 21] != 0
    && (fs.inodes[dir].sectors[FirstFree(s) / 21] != 0 ==> gs.inodes[dir].sectors == fs.inodes[dir].sectors)
  }

  /** An inode without a table gains one direct block. */
  ghost predicate NewDirect(fs: Fs, gs: Fs, ino: nat, b: nat, lba: nat, sec: Sector, size: nat) {
    && ino in fs.inodes && b < 12 && fs.inodes[ino].sectors[b] == 0 && fs.inodes[ino].sectors[12] == 0
    && lba < |fs.disk|
    && gs == fs.(disk := fs.disk[lba := sec], bits := gs.bits,
                 inodes := fs.inodes[ino := Inode(size, fs.inodes[ino].sectors[b := lba])])
    && Granted(fs.dataStart, fs.bits, gs.bits, [lba])
  }

  lemma NewDirectBlocks(fs: Fs, gs: Fs, ino: nat, b: nat, lba: nat, sec: Sector, size: nat, k: nat)
    requires NewDirect(fs, gs, ino, b, lba, sec, size) && k < 140
    ensures Block(gs.disk, gs.inodes[ino], k) == if k == b then lba else Block(fs.disk, fs.inodes[ino], k)
  {
  }

  lemma NewDirectOwns(fs: Fs, gs: Fs, ino: nat, b: nat, lba: nat, sec: Sector, size: nat)
    requires OwnInv(fs) && NewDirect(fs, gs, ino, b, lba, sec, size)
    ensures lba != 0 && !Owns(fs.disk, fs.inodes[ino], lba)
    ensures forall x: nat :: Owns(gs.disk, gs.inodes[ino], x) <==> Owns(fs.disk, fs.inodes[ino], x) || x == lba
    ensures Distinct(gs.disk, gs.inodes[ino])
  {
    var n, m := fs.inodes[ino], gs.inodes[ino];
    assert Placed(fs, n) && Distinct(fs.disk, n);
    GrantedNew(fs, gs.bits, [lba], n);
    assert lba in [lba];
    hide OwnInv, Granted, Block;
    forall k: nat | k < 140 ensures Block(gs.disk, m, k) == if k == b then lba else Block(fs.disk, n, k) {
      NewDirectBlocks(fs, gs, ino, b, lba, sec, size, k);
    }
    assert Block(fs.disk, n, b) == 0 by { HoleBlock(fs.disk, n, b); }
    forall x: nat | Owns(fs.disk, n, x) ensures Owns(gs.disk, m, x) {
      var k: nat :| k < 140 && Block(fs.disk, n, k) == x;
      assert Block(gs.disk, m, k) == x;
    }
    forall x: nat | Owns(gs.disk, m, x) ensures Owns(fs.disk, n, x) || x == lba {
      var k: nat :| k < 140 && Block(gs.disk, m, k) == x;
      assert k != b ==> Block(fs.disk, n, k) == x;
    }
    assert Block(gs.disk, m, b) == lba;
    NewDistinct(fs.disk, gs.disk, n, m, b, lba);
  }

  lemma HoleBlock(d: seq<Sector>, n: Inode, b: nat)
    requires b < 12
    ensures Block(d, n, b) == n.sectors[b]
  {
  }

  lemma NewDistinct(d: seq<Sector>, e: seq<Sector>, n: Inode, m: Inode, b: nat, lba: nat)
    requires Distinct(d, n) && b < 140 && !Owns(d, n, lba) && lba != 0 && m.sectors[12] == n.sectors[12] == 0
    requires forall k: nat :: k < 140 ==> Block(e, m, k) == if k == b then lba else Block(d, n, k)
    ensures Distinct(e, m)
  {
    hide Block;
    forall i: nat, j: nat | i < j < 140 && Block(e, m, i) != 0 ensures Block(e, m, i) != Block(e, m, j) {
      assert i != b && j != b ==> Block(d, n, i) != Block(d, n, j);
      assert Block(d, n, i) == lba ==> Owns(d, n, lba);
      assert Block(d, n, j) == lba ==> Owns(d, n, lba);
    }
  }

  lemma NewDirectInv(fs: Fs, gs: Fs, ino: nat, b: nat, lba: nat, sec: Sector, size: nat)
    requires OwnInv(fs) && NewDirect(fs, gs, ino, b, lba, sec, size)
    ensures OwnInv(gs) && OthersKept(fs, gs, ino)
    ensures forall k: nat :: k < 140 ==>
            Data(gs.disk, gs.inodes[ino], k) == if k == b then sec else Data(fs.disk, fs.inodes[ino], k)
  {
    NewDirectOwns(fs, gs, ino, b, lba, sec, size);
    hide OwnInv, Granted, Block, Owns, Distinct, SameInode;
    var n, m := fs.inodes[ino], gs.inodes[ino];
    assert Extends(fs, gs, ino, [lba]) by {
      forall x: nat ensures Owns(gs.disk, m, x) <==> Owns(fs.disk, n, x) || x in [lba] {
      }
    }
    ExtendsInv(fs, gs, ino, [lba]);
    KeptSelf(fs, ino);
    KeptStep(fs, fs, gs, ino);
    forall k: nat | k < 140 ensures Data(gs.disk, m, k) == if k == b then sec else Data(fs.disk, n, k) {
      NewDirectBlocks(fs, gs, ino, b, lba, sec, size, k);
      OwnsBlock(fs.disk, n, k);
    }
  }

  lemma OwnsBlock(d: seq<Sector>, n: Inode, k: nat)
    requires k < 140
    ensures Block(d, n, k) != 0 ==> Owns(d, n, Block(d, n, k))
  {
  }

  /** Adding an entry at the first free slot keeps the directory invariant. */
  lemma InsertedDir(d: seq<Sector>, n: Inode, d2: seq<Sector>, m: Inode, b: nat, i: nat, e: Entry)
    requires DirOk(d, n) && NewEntry(EntriesOf(d, n), e) && b < 12 && i < 21 && FirstFree(EntriesOf(d, n)) == 21 * b + i
    requires EntriesOf(d2, m) == EntriesOf(d, n)[21 * b + i := e] && m.size == n.size + 24
    requires m.sectors[12] == 0 && m.sectors[b] != 0
    requires forall k: nat :: k < 12 && k != b ==> m.sectors[k] == n.sectors[k]
    ensures DirOk(d2, m)
  {
    var s, p := EntriesOf(d, n), 21 * b + i;
    hide EntriesOf, LiveOf, GoodTable, NewEntry, Live, Slot, Data;
    GoodInsert(s, p, e);
    NewIsLive(s, e);
    hide Entries.Clean;
    forall c: nat | 1 <= c < 12 && Block(d2, m, c) != 0 ensures HasLive(d2, m, c) {
      if c == b {
        EntryAt(d2, m, b, i);
        assert Live(Slot(Data(d2, m, b), i));
      } else {
        assert Block(d, n, c) != 0;
        StaysLive(d, n, d2, m, c, p, e);
      }
    }
  }

  lemma NewIsLive(s: seq<Entry>, e: Entry)
    requires NewEntry(s, e)
    ensures Live(e)
  {
  }

  /** A block keeps a live entry when another slot, or a free one, is rewritten. */
  lemma StaysLive(d: seq<Sector>, n: Inode, d2: seq<Sector>, m: Inode, c: nat, p: nat, e: Entry)
    requires c < 12 && p < 252 && HasLive(d, n, c) && EntriesOf(d2, m) == EntriesOf(d, n)[p := e]
    requires !(21 * c <= p < 21 * c + 21)
    ensures HasLive(d2, m, c)
  {
    hide EntriesOf, Live, Slot, Data;
    var j: nat :| j < 21 && Live(Slot(Data(d, n, c), j));
    EntryAt(d, n, c, j);
    EntryAt(d2, m, c, j);
  }

  /** The inner loop of sync_dir_entry: the first slot of a sector that is free. */
  method FreeSlot(s: Sector) returns (i: nat)
    ensures i <= 21 && (forall j: nat :: j < i ==> Live(Slot(s, j))) && (i < 21 ==> !Live(Slot(s, i)))
  {
    hide Slot, Kind;
    i := 0;
    while i < 21
      invariant i <= 21 && forall j: nat :: j < i ==> Live(Slot(s, j))
    {
      if Kind(Slot(s, i)) == 0 {
        return;
      }
      i := i + 1;
    }
  }

  /** All slots before block b are live. */
  ghost predicate FullBefore(s: seq<Entry>, b: nat) {
    forall p: nat :: p < 21 * b && p < |s| ==> Live(s[p])
  }

  lemma FullStep(d: seq<Sector>, n: Inode, b: nat)
    requires b < 12 && FullBefore(EntriesOf(d, n), b) && forall j: nat :: j < 21 ==> Live(Slot(Data(d, n, b), j))
    ensures FullBefore(EntriesOf(d, n), b + 1)
  {
    hide EntriesOf, Live, Slot, Data;
    var s := EntriesOf(d, n);
    forall p: nat | p < 21 * (b + 1) ensures Live(s[p]) {
      if p >= 21 * b {
        EntryAt(d, n, b, p - 21 * b);
      }
    }
  }

  lemma FoundFree(d: seq<Sector>, n: Inode, b: nat, i: nat)
    requires b < 12 && i < 21 && FullBefore(EntriesOf(d, n), b) && !Live(Slot(Data(d, n, b), i))
    requires forall j: nat :: j < i ==> Live(Slot(Data(d, n, b), j))
    ensures FirstFree(EntriesOf(d, n)) == 21 * b + i
  {
    hide EntriesOf, Live, Slot, Data, FirstFree;
    var s := EntriesOf(d, n);
    EntryAt(d, n, b, i);
    forall k: nat | k < 21 * b + i ensures Live(s[k]) {
      if k >= 21 * b {
        EntryAt(d, n, b, k - 21 * b);
      }
    }
    FirstFreeIs(s, 21 * b + i);
  }

  /** The entry can only be stored in a block that is still missing. */
  ghost predicate NeedsBlock(disk: seq<Sector>, n: Inode) {
    var q := FirstFree(EntriesOf(disk, n)) / 21;
    q < 12 && n.sectors[q] == 0
  }

  /** The place an entry goes to. */
  ghost predicate Ready(fs: Fs, dir: nat, b: nat, i: nat, e: Entry) {
    && OwnInv(fs) && dir in fs.inodes && DirOk(fs.disk, fs.inodes[dir])
    && NewEntry(EntriesOf(fs.disk, fs.inodes[dir]), e)
    && b < 12 && i < 21 && FirstFree(EntriesOf(fs.disk, fs.inodes[dir])) == 21 * b + i
  }

  /** The entry written into a block that exists. */
  ghost predicate Filled(fs: Fs, gs: Fs, dir: nat, b: nat, i: nat, e: Entry) {
    && dir in fs.inodes && b < 12 && i < 21 && 0 < fs.inodes[dir].sectors[b] < |fs.disk|
    && var n := fs.inodes[dir];
    gs == fs.(disk := fs.disk[n.sectors[b] := Splice(Read(fs.disk, n.sectors[b]), 24 * i, e)],
              inodes := fs.inodes[dir := n.(size := n.size + 24)])
  }

  /**
   * sync_dir_entry found all twelve direct blocks full.  It never loads the table, so it takes block index 12 for
   * missing whether the directory has a table or not: it allocates a table and a block, and the new table replaces the
   * address of any old one.
   */
  ghost predicate Overflowed(fs: Fs, gs: Fs, dir: nat, e: Entry, table: nat, block: nat) {
    && dir in fs.inodes && FirstFree(EntriesOf(fs.disk, fs.inodes[dir])) == 252
    && 0 < table < |fs.disk| && 0 < block < |fs.disk| && table != block
    && Granted(fs.dataStart, fs.bits, gs.bits, [table, block])
    && gs == fs.(disk := fs.disk[table := OneBlockTable(block)][block := Splice(ZeroSector(), 0, e)], bits := gs.bits,
                 inodes := fs.inodes[dir := Inode(fs.inodes[dir].size + 24, fs.inodes[dir].sectors[12 := table])])
  }

  /** A table with one block. */
  function OneBlockTable(block: nat): Sector {
    Unwords([block] + seq(127, _ => 0))
  }

  ghost predicate Overflows(fs: Fs, gs: Fs, dir: nat, e: Entry) {
    exists table: nat, block: nat :: Overflowed(fs, gs, dir, e, table, block)
  }

  datatype SyncResult = SyncHalted | Stored | StoredBehind

  /** The free blocks that sync_dir_entry needs. */
  ghost function SyncNeeds(disk: seq<Sector>, n: Inode): nat {
    if FirstFree(EntriesOf(disk, n)) == 252 then 2 else if NeedsBlock(disk, n) then 1 else 0
  }

  /** The directory is well formed, or at least its twelve direct blocks are full. */
  ghost predicate Searchable(disk: seq<Sector>, n: Inode) {
    DirOk(disk, n) || FirstFree(EntriesOf(disk, n)) == 252
  }

  /** sync_dir_entry: it stops the kernel exactly when there are not enough free blocks. */
  method SyncDirEntry(p: Partition, dir: nat, e: Entry) returns (r: SyncResult)
    requires OwnInv(p.State()) && dir in p.inodes && Searchable(p.disk, p.inodes[dir])
    requires NewEntry(EntriesOf(p.disk, p.inodes[dir]), e)
    modifies p`bits, p`disk, p`inodes
    ensures r.SyncHalted? <==> CountClear(old(p.bits)) < SyncNeeds(old(p.disk), old(p.inodes[dir]))
    ensures r.Stored? ==> Inserted(old(p.State()), p.State(), dir, e)
    ensures r.StoredBehind? ==> Overflows(old(p.State()), p.State(), dir, e)
  {
    hide OwnInv, EntriesOf, DirOk, NewEntry, Live, Slot, Data, FirstFree, FullBefore, Inserted, NeedsBlock, Block,
         CountClear, Ready, Overflows, FirstClear;
    ghost var fs := p.State();
    var n := p.inodes[dir];
    FullStart(EntriesOf(p.disk, n));
    var k := 0;
    while k < 140
      invariant k <= 12 && FullBefore(EntriesOf(fs.disk, n), k) && p.State() == fs
    {
      if k == 12 {
        AllFull(p.disk, n);
        var ok := AddTable(p, dir, e);
        return if ok then StoredBehind else SyncHalted;
      }
      var lba := n.sectors[k];
      HoleBlock(p.disk, n, k);
      if lba == 0 {
        HoleFirst(p.disk, n, k);
        ReadyHere(fs, dir, k, 0, e);
        var ok := AddBlock(p, dir, k, e);
        return if ok then Stored else SyncHalted;
      }
      ReadIsData(p.disk, n, k);
      var s := Read(p.disk, lba);
      var i := FreeSlot(s);
      if i < 21 {
        FoundFree(p.disk, n, k, i);
        NeedsBlockHere(p.disk, n, k, i);
        ReadyHere(fs, dir, k, i, e);
        WriteSlot(p, dir, k, i, e);
        return Stored;
      }
      FullStep(p.disk, n, k);
      k := k + 1;
    }
  }

  lemma AllFull(d: seq<Sector>, n: Inode)
    requires FullBefore(EntriesOf(d, n), 12)
    ensures FirstFree(EntriesOf(d, n)) == 252
  {
    hide EntriesOf, Live;
  }

  /** sync_dir_entry at block index 12: a table, a block, the block's address in the table, the entry in the block. */
  method AddTable(p: Partition, dir: nat, e: Entry) returns (ok: bool)
    requires OwnInv(p.State()) && dir in p.inodes && FirstFree(EntriesOf(p.disk, p.inodes[dir])) == 252
    modifies p`bits, p`disk, p`inodes
    ensures ok <==> CountClear(old(p.bits)) >= 2
    ensures ok ==> Overflows(old(p.State()), p.State(), dir, e)
  {
    hide OwnInv, EntriesOf, FirstFree, CountClear, Overflowed, Splice, FirstClear, Granted, BitsGrew, OneBlockTable;
    ghost var fs := p.State();
    var n := p.inodes[dir];
    CountZero(p.bits);
    var more, table := p.AllocBlock();
    if !more {
      return false;
    }
    CountAfterSet(fs.bits, FirstClear(fs.bits));
    CountZero(p.bits);
    ghost var mid := p.bits;
    p.inodes := p.inodes[dir := Inode(n.size, n.sectors[12 := table])];
    var second, block := p.AllocBlock();
    if !second {
      return false;
    }
    TwoFresh(fs, mid, p.bits, table, block);
    p.disk := p.disk[table := OneBlockTable(block)];
    p.disk := p.disk[block := Splice(ZeroSector(), 0, e)];
    p.inodes := p.inodes[dir := Inode(n.size + 24, n.sectors[12 := table])];
    OverflowedHere(fs, p.State(), dir, e, table, block);
    return true;
  }

  lemma TwoFresh(fs: Fs, mid: seq<bool>, after: seq<bool>, table: nat, block: nat)
    requires OwnInv(fs) && FirstClear(fs.bits) < |fs.bits| && table == fs.dataStart + FirstClear(fs.bits)
    requires mid == fs.bits[FirstClear(fs.bits) := true] && FirstClear(mid) < |mid|
    requires block == fs.dataStart + FirstClear(mid)
    requires after == mid[FirstClear(mid) := true]
    ensures Granted(fs.dataStart, fs.bits, after, [table, block]) && table != block
    ensures 0 < table < |fs.disk| && 0 < block < |fs.disk|
  {
    hide FirstClear, OwnInv, Granted, BitsGrew, CountClear;
    FreshDirect(fs, mid, table);
    GrantMore(fs.dataStart, fs.bits, mid, [table], FirstClear(mid));
    assert [table] + [block] == [table, block];
    TableOnDisk(fs, after, table, [table, block]);
    TableOnDisk(fs, after, block, [table, block]);
    GrantedApart(fs.dataStart, fs.bits, after, table, block);
  }

  lemma GrantedApart(start: nat, before: seq<bool>, after: seq<bool>, x: nat, y: nat)
    requires Granted(start, before, after, [x, y])
    ensures x != y
  {
    assert [x, y][0] != [x, y][1];
  }

  lemma OverflowedHere(fs: Fs, gs: Fs, dir: nat, e: Entry, table: nat, block: nat)
    requires dir in fs.inodes && FirstFree(EntriesOf(fs.disk, fs.inodes[dir])) == 252
    requires 0 < table < |fs.disk| && 0 < block < |fs.disk| && table != block
    requires Granted(fs.dataStart, fs.bits, gs.bits, [table, block])
    requires gs.disk == fs.disk[table := OneBlockTable(block)][block := Splice(ZeroSector(), 0, e)]
    requires gs.inodes == fs.inodes[dir := Inode(fs.inodes[dir].size + 24, fs.inodes[dir].sectors[12 := table])]
    requires gs == fs.(disk := gs.disk, bits := gs.bits, inodes := gs.inodes)
    ensures Overflows(fs, gs, dir, e)
  {
    hide Granted, EntriesOf, FirstFree, OneBlockTable, Splice;
    assert Overflowed(fs, gs, dir, e, table, block);
  }

  /** sync_dir_entry found a free slot in an existing block. */
  method WriteSlot(p: Partition, dir: nat, k: nat, i: nat, e: Entry)
    requires Ready(p.State(), dir, k, i, e) && p.inodes[dir].sectors[k] != 0
    modifies p`disk, p`inodes
    ensures Inserted(old(p.State()), p.State(), dir, e)
  {
    hide Ready, Inserted, Filled, Splice, OwnInv;
    ghost var fs := p.State();
    ReadyFacts(fs, dir, k, i, e);
    var n := p.inodes[dir];
    p.disk := p.disk[n.sectors[k] := Splice(Read(p.disk, n.sectors[k]), 24 * i, e)];
    p.inodes := p.inodes[dir := n.(size := n.size + 24)];
    FilledHere(fs, p.State(), dir, k, i, e);
    InsertedOld(fs, p.State(), dir, k, i, e);
  }

  lemma ReadyFacts(fs: Fs, dir: nat, b: nat, i: nat, e: Entry)
    requires Ready(fs, dir, b, i, e)
    ensures OwnInv(fs) && dir in fs.inodes && b < 12 && i < 21 && fs.inodes[dir].sectors[12] == 0
    ensures fs.inodes[dir].sectors[b] < |fs.disk|
  {
    hide EntriesOf, NewEntry, FirstFree, OwnInv, DirOk;
    DirTop(fs.disk, fs.inodes[dir]);
    HoleBlock(fs.disk, fs.inodes[dir], b);
    if fs.inodes[dir].sectors[b] != 0 {
      BlockOnDisk(fs, dir, b);
    } else {
      HasDisk(fs, dir);
    }
  }

  lemma HasDisk(fs: Fs, dir: nat)
    requires OwnInv(fs) && dir in fs.inodes && DirOk(fs.disk, fs.inodes[dir])
    ensures |fs.disk| > 0
  {
    hide OwnInv, DirOk;
    DirTop(fs.disk, fs.inodes[dir]);
    HoleBlock(fs.disk, fs.inodes[dir], 0);
    BlockOnDisk(fs, dir, 0);
  }

  /** sync_dir_entry reached a missing block: a new one takes the entry. */
  method AddBlock(p: Partition, dir: nat, k: nat, e: Entry) returns (ok: bool)
    requires Ready(p.State(), dir, k, 0, e) && p.inodes[dir].sectors[k] == 0
    modifies p`bits, p`disk, p`inodes
    ensures ok <==> CountClear(old(p.bits)) != 0
    ensures ok ==> Inserted(old(p.State()), p.State(), dir, e)
  {
    hide Ready, Inserted, NewDirect, CountClear, Splice, FirstClear, OwnInv, Granted, BitsGrew;
    ghost var fs := p.State();
    ReadyFacts(fs, dir, k, 0, e);
    var n := p.inodes[dir];
    CountZero(p.bits);
    var more, lba := p.AllocBlock();
    if !more {
      return false;
    }
    FreshDirect(fs, p.bits, lba);
    var sec: Sector := Splice(ZeroSector(), 0, e);
    p.disk := p.disk[lba := sec];
    p.inodes := p.inodes[dir := Inode(n.size + 24, n.sectors[k := lba])];
    NewDirectHere(fs, p.State(), dir, k, lba, sec, n.size + 24);
    InsertedNew(fs, p.State(), dir, k, e, lba);
    return true;
  }

  lemma NewDirectHere(fs: Fs, gs: Fs, ino: nat, b: nat, lba: nat, sec: Sector, size: nat)
    requires ino in fs.inodes && b < 12 && fs.inodes[ino].sectors[b] == 0 && fs.inodes[ino].sectors[12] == 0
    requires lba < |fs.disk|
    requires gs.disk == fs.disk[lba := sec]
    requires gs.inodes == fs.inodes[ino := Inode(size, fs.inodes[ino].sectors[b := lba])]
    requires gs == fs.(disk := gs.disk, bits := gs.bits, inodes := gs.inodes)
    requires Granted(fs.dataStart, fs.bits, gs.bits, [lba])
    ensures NewDirect(fs, gs, ino, b, lba, sec, size)
  {
    hide Granted;
  }

  lemma FullStart(s: seq<Entry>)
    ensures FullBefore(s, 0)
  {
  }

  lemma HoleFirst(d: seq<Sector>, n: Inode, b: nat)
    requires b < 12 && n.sectors[b] == 0 && FullBefore(EntriesOf(d, n), b)
    ensures FirstFree(EntriesOf(d, n)) == 21 * b && NeedsBlock(d, n)
  {
    hide EntriesOf, FirstFree, FullBefore, NeedsBlock, Live;
    HoleUnnamed(d, n, b);
    FoundFree(d, n, b, 0);
    NeedsBlockHere(d, n, b, 0);
  }

  lemma ReadyHere(fs: Fs, dir: nat, b: nat, i: nat, e: Entry)
    requires OwnInv(fs) && dir in fs.inodes && DirOk(fs.disk, fs.inodes[dir])
    requires NewEntry(EntriesOf(fs.disk, fs.inodes[dir]), e)
    requires b < 12 && i < 21 && FirstFree(EntriesOf(fs.disk, fs.inodes[dir])) == 21 * b + i
    ensures Ready(fs, dir, b, i, e)
  {
  }

  lemma FilledHere(fs: Fs, gs: Fs, dir: nat, b: nat, i: nat, e: Entry)
    requires dir in fs.inodes && b < 12 && i < 21 && 0 < fs.inodes[dir].sectors[b] < |fs.disk|
    requires gs.disk ==
             fs.disk[fs.inodes[dir].sectors[b] := Splice(Read(fs.disk, fs.inodes[dir].sectors[b]), 24 * i, e)]
    requires gs.inodes == fs.inodes[dir := fs.inodes[dir].(size := fs.inodes[dir].size + 24)]
    requires gs == fs.(disk := gs.disk, inodes := gs.inodes)
    ensures Filled(fs, gs, dir, b, i, e)
  {
    hide Splice;
  }

  lemma NeedsBlockHere(d: seq<Sector>, n: Inode, b: nat, i: nat)
    requires b < 12 && i < 21 && FirstFree(EntriesOf(d, n)) == 21 * b + i
    ensures NeedsBlock(d, n) <==> n.sectors[b] == 0
  {
    hide EntriesOf, FirstFree;
    SlotDiv(b, i);
  }

  lemma SlotDiv(b: nat, i: nat)
    requires i < 21
    ensures (21 * b + i) / 21 == b && (21 * b + i) % 21 == i
  {
  }

  lemma InsertedOld(fs: Fs, gs: Fs, dir: nat, b: nat, i: nat, e: Entry)
    requires Ready(fs, dir, b, i, e) && Filled(fs, gs, dir, b, i, e)
    ensures Inserted(fs, gs, dir, e)
  {
    hide OwnInv, EntriesOf, DirOk, NewEntry, Data, FirstFree, OthersKept, Block, Splice, Inserted;
    var n := fs.inodes[dir];
    HoleBlock(fs.disk, n, b);
    ReadIsData(fs.disk, n, b);
    DirTop(fs.disk, n);
    RewriteSlot(fs, gs, dir, b, i, e, n.size + 24);
    InsertedClose(fs, gs, dir, b, i, e);
  }

  /** All that remains once the new table, the ownership and the frame are known. */
  lemma InsertedClose(fs: Fs, gs: Fs, dir: nat, b: nat, i: nat, e: Entry)
    requires Ready(fs, dir, b, i, e) && OwnInv(gs) && dir in gs.inodes && gs.inodes.Keys == fs.inodes.Keys
    requires OthersKept(fs, gs, dir) && BitsGrew(fs.bits, gs.bits) && SameShape(fs, gs)
    requires EntriesOf(gs.disk, gs.inodes[dir]) == EntriesOf(fs.disk, fs.inodes[dir])[21 * b + i := e]
    requires gs.inodes[dir].size == fs.inodes[dir].size + 24
    requires gs.inodes[dir].sectors == fs.inodes[dir].sectors[b := gs.inodes[dir].sectors[b]]
    requires gs.inodes[dir].sectors[b] != 0
    requires fs.inodes[dir].sectors[b] != 0 ==> gs.inodes[dir].sectors == fs.inodes[dir].sectors
    ensures Inserted(fs, gs, dir, e)
  {
    hide OwnInv, EntriesOf, DirOk, NewEntry, FirstFree, OthersKept, BitsGrew;
    DirTop(fs.disk, fs.inodes[dir]);
    InsertedDir(fs.disk, fs.inodes[dir], gs.disk, gs.inodes[dir], b, i, e);
    SlotDiv(b, i);
  }

  lemma BlockOnDisk(fs: Fs, ino: nat, k: nat)
    requires OwnInv(fs) && ino in fs.inodes && k < 140 && Block(fs.disk, fs.inodes[ino], k) != 0
    ensures fs.dataStart <= Block(fs.disk, fs.inodes[ino], k) < fs.dataStart + |fs.bits|
    ensures Block(fs.disk, fs.inodes[ino], k) < |fs.disk|
  {
    hide Block;
    assert Placed(fs, fs.inodes[ino]) && Owns(fs.disk, fs.inodes[ino], Block(fs.disk, fs.inodes[ino], k));
  }

  /** The block that block_bitmap_alloc returned. */
  lemma FreshDirect(fs: Fs, after: seq<bool>, lba: nat)
    requires OwnInv(fs) && FirstClear(fs.bits) < |fs.bits| && lba == fs.dataStart + FirstClear(fs.bits)
    requires after == fs.bits[FirstClear(fs.bits) := true]
    ensures Granted(fs.dataStart, fs.bits, after, [lba]) && 0 < lba < |fs.disk| && BitsGrew(fs.bits, after)
  {
    hide FirstClear, OwnInv, Granted, BitsGrew, CountClear;
    GrantNone(fs.dataStart, fs.bits);
    GrantMore(fs.dataStart, fs.bits, fs.bits, [], FirstClear(fs.bits));
    assert [] + [lba] == [lba];
    TableOnDisk(fs, after, lba, [lba]);
    GrantGrows(fs.dataStart, fs.bits, after, [lba]);
  }

  lemma InsertedNew(fs: Fs, gs: Fs, dir: nat, b: nat, e: Entry, lba: nat)
    requires Ready(fs, dir, b, 0, e)
    requires NewDirect(fs, gs, dir, b, lba, Splice(ZeroSector(), 0, e), fs.inodes[dir].size + 24)
    requires lba != 0 && BitsGrew(fs.bits, gs.bits)
    ensures Inserted(fs, gs, dir, e)
  {
    hide Ready, OwnInv, EntriesOf, Data, OthersKept, Splice, Inserted, Slot, Granted;
    ReadyFacts(fs, dir, b, 0, e);
    var n, m, sec: Sector := fs.inodes[dir], gs.inodes[dir], Splice(ZeroSector(), 0, e);
    NewDirectInv(fs, gs, dir, b, lba, sec, n.size + 24);
    HoleData(fs.disk, n, b);
    forall j: nat | j < 21 ensures Slot(Data(gs.disk, m, b), j) == if j == 0 then e else Slot(Data(fs.disk, n, b), j) {
      SlotSplice(ZeroSector(), 0, e, j);
    }
    PutSlot(fs.disk, n, gs.disk, m, b, 0, e);
    InsertedClose(fs, gs, dir, b, 0, e);
  }

  lemma HoleData(d: seq<Sector>, n: Inode, b: nat)
    requires b < 12 && n.sectors[b] == 0
    ensures Data(d, n, b) == ZeroSector()
  {
  }

  // ---------------------------------------------------------------- delete_dir_entry

  /** A live entry other than "." and "..". */
  predicate Plain(e: Entry) {
    Live(e) && Name(e) != Dot() && Name(e) != DotDot()
  }

  function PlainCount(s: Sector, n: nat): nat
    requires n <= 21
  {
    if n == 0 then 0 else PlainCount(s, n - 1) + if Plain(Slot(s, n - 1)) then 1 else 0
  }

  /** A count of one means that nothing but the entry found is there. */
  lemma {:induction false} CountOthers(s: Sector, n: nat, at: nat)
    requires at < n <= 21 && Plain(Slot(s, at))
    ensures PlainCount(s, n) >= 1
    ensures PlainCount(s, n) == 1 <==> forall j: nat :: j < n && j != at ==> !Plain(Slot(s, j))
  {
    hide Plain, Slot;
    if at < n - 1 {
      CountOthers(s, n - 1, at);
    } else {
      CountNone(s, at);
    }
  }

  lemma {:induction false} CountNone(s: Sector, n: nat)
    requires n <= 21
    ensures PlainCount(s, n) == 0 <==> forall j: nat :: j < n ==> !Plain(Slot(s, j))
  {
    hide Plain, Slot;
    if n > 0 {
      CountNone(s, n - 1);
    }
  }

  /** At most one entry of the sector leads to any inode. */
  ghost predicate OneTarget(s: Sector) {
    forall i: nat, j: nat :: i < j < 21 && Plain(Slot(s, i)) && Plain(Slot(s, j)) ==>
        Target(Slot(s, i)) != Target(Slot(s, j))
  }

  /** What the dot tests of delete_dir_entry say about one slot. */
  method Classify(e: Entry) returns (dot: bool, plain: bool)
    requires SlotOk(e)
    ensures dot <==> DotEntry(e)
    ensures plain <==> Plain(e)
  {
    hide SlotOk, Live, Name, Text, Dot, DotDot, Ordered;
    LiveKind(e);
    if Kind(e) == 0 {
      return false, false;
    }
    SlotText(e);
    DotTexts();
    var c := Strncmp(e, Dot() + [0], 1);
    var d := Strncmp(e, DotDot() + [0], 2);
    return c == 0, c != 0 && d != 0;
  }

  lemma LiveKind(e: Entry)
    ensures Live(e) <==> Kind(e) != 0
  {
  }

  lemma DotTexts()
    ensures |Dot()| == 1 && Text(Dot() + [0]) == Dot() && 0 in Dot() + [0]
    ensures |DotDot()| == 2 && Text(DotDot() + [0]) == DotDot() && 0 in DotDot() + [0]
  {
    TextOf(Dot());
    TextOf(DotDot());
  }

  predicate DotEntry(e: Entry) {
    Live(e) && Name(e) == Dot()
  }

  predicate DotSeen(s: Sector, n: nat)
    requires n <= 21
  {
    n > 0 && (DotSeen(s, n - 1) || DotEntry(Slot(s, n - 1)))
  }

  lemma {:induction false} DotSeenAt(s: Sector, n: nat)
    requires n <= 21
    ensures DotSeen(s, n) <==> exists i: nat :: i < n && DotEntry(Slot(s, i))
  {
    hide DotEntry, Slot;
    if n > 0 {
      DotSeenAt(s, n - 1);
    }
  }

  /** What the scan knows after n slots; `at` is 21 as long as the inode was not seen. */
  ghost predicate Scanned(s: Sector, ino: nat, n: nat, cnt: nat, first: bool, at: nat) {
    && n <= 21 && cnt == PlainCount(s, n) && first == DotSeen(s, n) && (at < n || at == 21)
    && (at < 21 ==> Plain(Slot(s, at)) && Target(Slot(s, at)) == ino)
    && (at == 21 ==> forall j: nat :: j < n && Plain(Slot(s, j)) ==> Target(Slot(s, j)) != ino)
  }

  /** The inner loop of delete_dir_entry: count the plain entries, look for "." and for the inode. */
  method ScanSector(s: Sector, ino: nat) returns (cnt: nat, first: bool, at: nat)
    requires SectorOk(s) && OneTarget(s)
    ensures Scanned(s, ino, 21, cnt, first, at)
  {
    hide SectorOk, OneTarget, SlotOk, Plain, Slot, Target, DotEntry, PlainCount, DotSeen;
    ScanStart(s);
    cnt, first, at := 0, false, 21;
    var i := 0;
    while i < 21
      invariant i <= 21 && Scanned(s, ino, i, cnt, first, at)
    {
      SectorSlot(s, i);
      ScanNext(s, i);
      var dot, plain := Classify(Slot(s, i));
      if dot {
        first := true;
      }
      if plain {
        cnt := cnt + 1;
        if Target(Slot(s, i)) == ino {
          OnlyOne(s, at, i);
          assert at == 21;
          at := i;
        }
      }
      i := i + 1;
    }
  }

  lemma ScanStart(s: Sector)
    ensures PlainCount(s, 0) == 0 && !DotSeen(s, 0)
  {
  }

  lemma ScanNext(s: Sector, i: nat)
    requires i < 21
    ensures PlainCount(s, i + 1) == PlainCount(s, i) + if Plain(Slot(s, i)) then 1 else 0
    ensures DotSeen(s, i + 1) <==> DotSeen(s, i) || DotEntry(Slot(s, i))
  {
    hide Plain, Slot, DotEntry;
  }

  lemma SectorSlot(s: Sector, i: nat)
    requires SectorOk(s) && i < 21
    ensures SlotOk(Slot(s, i))
  {
  }

  lemma OnlyOne(s: Sector, i: nat, j: nat)
    requires OneTarget(s) && (i < j || i == 21) && j < 21 && Plain(Slot(s, j)) && (i < 21 ==> Plain(Slot(s, i)))
    ensures i < 21 ==> Target(Slot(s, i)) != Target(Slot(s, j))
  {
    hide Plain, Target, Slot;
  }

  lemma SectorTargets(d: seq<Sector>, n: Inode, b: nat)
    requires DirOk(d, n) && b < 12
    ensures OneTarget(Data(d, n, b))
    ensures forall i: nat :: i < 21 && Plain(Slot(Data(d, n, b), i)) ==> 2 <= 21 * b + i
  {
    hide EntriesOf, Live, Name, Target, Slot, Data, LiveOf, NoEmptyBlock, Clean;
    var s, t := EntriesOf(d, n), Data(d, n, b);
    forall i: nat | i < 21
      ensures t == Data(d, n, b) && Slot(t, i) == s[21 * b + i] && (Plain(Slot(t, i)) ==> 2 <= 21 * b + i)
    {
      EntryAt(d, n, b, i);
    }
    forall i: nat, j: nat | i < j < 21 && Plain(Slot(t, i)) && Plain(Slot(t, j))
      ensures Target(Slot(t, i)) != Target(Slot(t, j))
    {
      assert Live(s[21 * b + i]) && Live(s[21 * b + j]);
    }
  }

  /** "." is in block 0 and nowhere else; other blocks have no dot entries at all. */
  lemma DotsFirst(d: seq<Sector>, n: Inode, b: nat)
    requires DirOk(d, n) && b < 12
    ensures DotSeen(Data(d, n, b), 21) <==> b == 0
    ensures b > 0 ==> forall i: nat :: i < 21 && Live(Slot(Data(d, n, b), i)) ==> Plain(Slot(Data(d, n, b), i))
  {
    hide EntriesOf, Live, Name, Target, Slot, Data, LiveOf, NoEmptyBlock, Clean, TargetsOk, DotSeen;
    var s := EntriesOf(d, n);
    DotSeenAt(Data(d, n, b), 21);
    forall i: nat | i < 21 ensures Slot(Data(d, n, b), i) == s[21 * b + i] {
      EntryAt(d, n, b, i);
    }
    if b == 0 {
      assert DotEntry(Slot(Data(d, n, b), 0));
    }
  }

  /** What removing the entry in slot q does to the partition. */
  ghost predicate Erased(fs: Fs, gs: Fs, dir: nat, q: nat) {
    && dir in fs.inodes && dir in gs.inodes && gs.inodes.Keys == fs.inodes.Keys && 2 <= q < 252
    && OwnInv(gs) && OthersKept(fs, gs, dir) && DirOk(gs.disk, gs.inodes[dir]) && SameShape(fs, gs)
    && EntriesOf(gs.disk, gs.inodes[dir]) == EntriesOf(fs.disk, fs.inodes[dir])[q := Free()]
    && gs.inodes[dir].sectors ==
        if Sole(fs.disk, fs.inodes[dir], q) then fs.inodes[dir].sectors[q / 21 := 0] else fs.inodes[dir].sectors
  }

  /** Slot q is the only live one of its block, and that is not the first block. */
  ghost predicate Sole(d: seq<Sector>, n: Inode, q: nat)
    requires q < 252
  {
    q >= 21 && forall p: nat :: 21 * (q / 21) <= p < 21 * (q / 21) + 21 && p != q ==> !Live(EntriesOf(d, n)[p])
  }

  /** The slot an inode number is found in. */
  ghost predicate LeadsTo(s: seq<Entry>, q: nat, ino: nat) {
    2 <= q < 252 && q < |s| && Live(s[q]) && Target(s[q]) == ino
  }

  /** None of the slots before block b leads to the inode. */
  ghost predicate NotBefore(s: seq<Entry>, b: nat, ino: nat) {
    forall q: nat :: q < 21 * b ==> !LeadsTo(s, q, ino)
  }

  lemma NotInBlock(d: seq<Sector>, n: Inode, b: nat, ino: nat)
    requires DirOk(d, n) && b < 12 && NotBefore(EntriesOf(d, n), b, ino)
    requires forall j: nat :: j < 21 && Plain(Slot(Data(d, n, b), j)) ==> Target(Slot(Data(d, n, b), j)) != ino
    ensures NotBefore(EntriesOf(d, n), b + 1, ino)
  {
    hide EntriesOf, Live, Name, Target, Slot, Data, LiveOf, NoEmptyBlock, Clean, TargetsOk;
    var s := EntriesOf(d, n);
    forall q: nat | q < 21 * (b + 1) ensures !LeadsTo(s, q, ino) {
      if q >= 21 * b && q >= 2 {
        EntryAt(d, n, b, q - 21 * b);
        LiveIsPlain(s, q);
      }
    }
  }

  lemma LiveIsPlain(s: seq<Entry>, q: nat)
    requires GoodTable(s) && 2 <= q < 252
    ensures Live(s[q]) ==> Plain(s[q])
  {
    hide Live, Name, Clean, TargetsOk;
  }

  lemma PlainLeads(d: seq<Sector>, n: Inode, b: nat, i: nat, ino: nat)
    requires DirOk(d, n) && b < 12 && i < 21 && Plain(Slot(Data(d, n, b), i)) && Target(Slot(Data(d, n, b), i)) == ino
    ensures LeadsTo(EntriesOf(d, n), 21 * b + i, ino)
  {
    hide EntriesOf, Live, Name, Target, Slot, Data, LiveOf, NoEmptyBlock, Clean, TargetsOk;
    EntryAt(d, n, b, i);
  }

  /** The directory invariant after slot q was freed; the block went with it if nothing else was in it. */
  lemma ErasedDir(d: seq<Sector>, n: Inode, d2: seq<Sector>, m: Inode, b: nat, i: nat)
    requires DirOk(d, n) && b < 12 && i < 21 && 2 <= 21 * b + i && Live(Slot(Data(d, n, b), i))
    requires EntriesOf(d2, m) == EntriesOf(d, n)[21 * b + i := Free()] && m.size == n.size - 24
    requires m.sectors[0] != 0 && m.sectors[12] == 0
    requires forall k: nat :: k < 12 && k != b ==> m.sectors[k] == n.sectors[k]
    requires b > 0 && m.sectors[b] != 0 ==> exists j: nat :: j < 21 && j != i && Live(Slot(Data(d, n, b), j))
    ensures DirOk(d2, m)
  {
    hide EntriesOf, LiveOf, GoodTable, Live, Slot, Data, Free;
    var s, p := EntriesOf(d, n), 21 * b + i;
    EntryAt(d, n, b, i);
    GoodErase(s, p);
    forall c: nat | 1 <= c < 12 && Block(d2, m, c) != 0 ensures HasLive(d2, m, c) {
      if c == b {
        var j: nat :| j < 21 && j != i && Live(Slot(Data(d, n, b), j));
        EntryAt(d, n, b, j);
        EntryAt(d2, m, b, j);
        assert Live(Slot(Data(d2, m, b), j));
      } else {
        assert Block(d, n, c) != 0;
        StaysLive(d, n, d2, m, c, p, Free());
      }
    }
  }

  /** Slot i of block b leads to the inode; the facts every branch of delete_dir_entry needs. */
  ghost predicate Chosen(fs: Fs, dir: nat, b: nat, i: nat) {
    && OwnInv(fs) && dir in fs.inodes && DirOk(fs.disk, fs.inodes[dir]) && b < 12 && i < 21
    && fs.inodes[dir].sectors[b] != 0 && 2 <= 21 * b + i && Plain(Slot(Data(fs.disk, fs.inodes[dir], b), i))
  }

  lemma ChosenFacts(fs: Fs, dir: nat, b: nat, i: nat)
    requires Chosen(fs, dir, b, i)
    ensures dir in fs.inodes && b < 12 && i < 21 && fs.inodes[dir].size >= 24
    ensures var lba := fs.inodes[dir].sectors[b];
            && 0 < lba < |fs.disk| && fs.dataStart <= lba < fs.dataStart + |fs.bits|
            && Read(fs.disk, lba) == Data(fs.disk, fs.inodes[dir], b) && Block(fs.disk, fs.inodes[dir], b) == lba
    ensures OwnInv(fs) && DirOk(fs.disk, fs.inodes[dir]) && Live(Slot(Data(fs.disk, fs.inodes[dir], b), i))
  {
    hide OwnInv, DirOk, Slot, Live, Data, Block;
    var n := fs.inodes[dir];
    HoleBlock(fs.disk, n, b);
    BlockOnDisk(fs, dir, b);
    ReadIsData(fs.disk, n, b);
    AtLeastTwo(fs.disk, n);
  }

  lemma AtLeastTwo(d: seq<Sector>, n: Inode)
    requires DirOk(d, n)
    ensures n.size >= 48
  {
    hide EntriesOf, LiveOf, GoodTable;
    TwoLive(EntriesOf(d, n));
  }

  /** The entry is cleared and its block stays. */
  ghost predicate Wiped(fs: Fs, gs: Fs, dir: nat, b: nat, i: nat) {
    && dir in fs.inodes && b < 12 && i < 21 && 0 < fs.inodes[dir].sectors[b] < |fs.disk| && fs.inodes[dir].size >= 24
    && var n := fs.inodes[dir];
    gs == fs.(disk := fs.disk[n.sectors[b] := Splice(Read(fs.disk, n.sectors[b]), 24 * i, Free())],
              inodes := fs.inodes[dir := n.(size := n.size - 24)])
  }

  /** Rewriting one slot of an existing block, whatever happens to the size. */
  lemma RewriteSlot(fs: Fs, gs: Fs, dir: nat, b: nat, i: nat, e: Entry, size: nat)
    requires OwnInv(fs) && dir in fs.inodes && b < 12 && i < 21
    requires Block(fs.disk, fs.inodes[dir], b) != 0 && Block(fs.disk, fs.inodes[dir], b) < |fs.disk|
    requires var n := fs.inodes[dir];
             gs == fs.(disk := fs.disk[Block(fs.disk, n, b) := Splice(Data(fs.disk, n, b), 24 * i, e)],
                       inodes := fs.inodes[dir := n.(size := size)])
    ensures OwnInv(gs) && OthersKept(fs, gs, dir)
    ensures EntriesOf(gs.disk, gs.inodes[dir]) == EntriesOf(fs.disk, fs.inodes[dir])[21 * b + i := e]
  {
    hide OwnInv, SameInode, Data, Block, EntriesOf, Slot, Splice;
    var n, m := fs.inodes[dir], gs.inodes[dir];
    var sec: Sector := Splice(Data(fs.disk, n, b), 24 * i, e);
    WriteExtends(fs, gs, dir, b, sec, m.size);
    WriteSector(fs, gs, dir, b, sec);
    SizeOnly(gs.disk, n, m);
    KeptSelf(fs, dir);
    KeptStep(fs, fs, gs, dir);
    forall j: nat | j < 21 ensures Slot(Data(gs.disk, m, b), j) == if j == i then e else Slot(Data(fs.disk, n, b), j) {
      SlotSplice(Data(fs.disk, n, b), i, e, j);
    }
    PutSlot(fs.disk, n, gs.disk, m, b, i, e);
  }

  lemma ErasedOld(fs: Fs, gs: Fs, dir: nat, b: nat, i: nat)
    requires Chosen(fs, dir, b, i) && Wiped(fs, gs, dir, b, i)
    requires b > 0 ==> exists j: nat :: j < 21 && j != i && Live(Slot(Data(fs.disk, fs.inodes[dir], b), j))
    ensures Erased(fs, gs, dir, 21 * b + i)
  {
    hide OwnInv, EntriesOf, DirOk, Plain, Live, Slot, Data, OthersKept, Splice, Block, Sole, Free, Chosen;
    ChosenFacts(fs, dir, b, i);
    var n := fs.inodes[dir];
    RewriteSlot(fs, gs, dir, b, i, Free(), n.size - 24);
    DirTop(fs.disk, n);
    ChosenPlace(fs, dir, b, i);
    ErasedDir(fs.disk, n, gs.disk, gs.inodes[dir], b, i);
    SoleHere(fs.disk, n, b, i);
  }

  lemma ChosenPlace(fs: Fs, dir: nat, b: nat, i: nat)
    requires Chosen(fs, dir, b, i)
    ensures 2 <= 21 * b + i < 252
  {
  }

  lemma SoleHere(d: seq<Sector>, n: Inode, b: nat, i: nat)
    requires b < 12 && i < 21
    ensures Sole(d, n, 21 * b + i) <==> b > 0 && forall j: nat :: j < 21 && j != i ==> !Live(Slot(Data(d, n, b), j))
  {
    hide EntriesOf, Live, Slot, Data;
    SlotDiv(b, i);
    var s := EntriesOf(d, n);
    forall j: nat | j < 21 ensures s[21 * b + j] == Slot(Data(d, n, b), j) {
      EntryAt(d, n, b, j);
    }
    if b > 0 && (forall j: nat :: j < 21 && j != i ==> !Live(Slot(Data(d, n, b), j))) {
      forall p: nat | 21 * b <= p < 21 * b + 21 && p != 21 * b + i ensures !Live(s[p]) {
        assert s[21 * b + (p - 21 * b)] == Slot(Data(d, n, b), p - 21 * b);
      }
    }
    if Sole(d, n, 21 * b + i) {
      forall j: nat | j < 21 && j != i ensures !Live(Slot(Data(d, n, b), j)) {
        assert !Live(s[21 * b + j]);
      }
    }
  }

  /** The block is given back. */
  ghost predicate Freed(fs: Fs, gs: Fs, dir: nat, b: nat) {
    && dir in fs.inodes && b < 12 && fs.inodes[dir].size >= 24
    && fs.dataStart <= fs.inodes[dir].sectors[b] < fs.dataStart + |fs.bits|
    && var n := fs.inodes[dir];
    gs == fs.(bits := fs.bits[n.sectors[b] - fs.dataStart := false],
              inodes := fs.inodes[dir := Inode(n.size - 24, n.sectors[b := 0])])
  }

  lemma FreedOwns(fs: Fs, gs: Fs, dir: nat, b: nat)
    requires OwnInv(fs) && Freed(fs, gs, dir, b) && fs.inodes[dir].sectors[b] != 0 && fs.inodes[dir].sectors[12] == 0
    ensures forall x: nat :: Owns(gs.disk, gs.inodes[dir], x) <==>
            Owns(fs.disk, fs.inodes[dir], x) && x != fs.inodes[dir].sectors[b]
    ensures Owns(fs.disk, fs.inodes[dir], fs.inodes[dir].sectors[b]) && Distinct(gs.disk, gs.inodes[dir])
    ensures forall k: nat :: k < 140 ==>
            Block(gs.disk, gs.inodes[dir], k) == if k == b then 0 else Block(fs.disk, fs.inodes[dir], k)
  {
    assert Distinct(fs.disk, fs.inodes[dir]);
    hide OwnInv, Distinct;
    var n, m := fs.inodes[dir], gs.inodes[dir];
    assert forall k: nat :: k < 140 ==> Block(gs.disk, m, k) == if k == b then 0 else Block(fs.disk, n, k);
    assert Block(fs.disk, n, b) == n.sectors[b];
    LessOwned(fs.disk, n, m, b);
  }

  lemma LessOwned(d: seq<Sector>, n: Inode, m: Inode, b: nat)
    requires b < 140 && Block(d, n, b) != 0 && Distinct(d, n) && m.sectors[12] == n.sectors[12] == 0
    requires forall k: nat :: k < 140 ==> Block(d, m, k) == if k == b then 0 else Block(d, n, k)
    ensures forall x: nat :: Owns(d, m, x) <==> Owns(d, n, x) && x != Block(d, n, b)
    ensures Owns(d, n, Block(d, n, b)) && Distinct(d, m)
  {
    hide Block;
    forall i: nat | i < 140 && i != b ensures Block(d, n, i) != Block(d, n, b) {
      if i < b && Block(d, n, i) != 0 {
        assert Block(d, n, i) != Block(d, n, b);
      }
    }
    forall x: nat ensures Owns(d, m, x) <==> Owns(d, n, x) && x != Block(d, n, b) {
      if Owns(d, m, x) {
        var k: nat :| k < 140 && Block(d, m, k) == x;
        assert k != b && Block(d, n, k) == x;
      }
      if Owns(d, n, x) && x != Block(d, n, b) {
        var k: nat :| k < 140 && Block(d, n, k) == x;
        assert Block(d, m, k) == x;
      }
    }
  }

  lemma FreedInv(fs: Fs, gs: Fs, dir: nat, b: nat)
    requires OwnInv(fs) && Freed(fs, gs, dir, b) && fs.inodes[dir].sectors[b] != 0 && fs.inodes[dir].sectors[12] == 0
    ensures OwnInv(gs) && OthersKept(fs, gs, dir)
    ensures forall k: nat :: k < 140 ==>
            Data(gs.disk, gs.inodes[dir], k) == if k == b then ZeroSector() else Data(fs.disk, fs.inodes[dir], k)
  {
    hide OwnInv, Owns, Distinct, Block, SameInode;
    FreedOwns(fs, gs, dir, b);
    var n := fs.inodes[dir];
    var at: nat := n.sectors[b] - fs.dataStart;
    forall k: nat | k < |fs.bits| ensures gs.bits[k] <==> fs.bits[k] && !Lost(fs, gs, dir, fs.dataStart + k) {
      if k == at {
        assert Lost(fs, gs, dir, n.sectors[b]);
      }
    }
    ShrinksInv(fs, gs, dir);
    forall j | j in fs.inodes && j != dir ensures KeptFile(fs, gs, j) {
      SameSelf(fs.disk, fs.inodes[j]);
    }
  }

  lemma SameSelf(d: seq<Sector>, n: Inode)
    ensures SameInode(d, d, n)
  {
  }

  lemma ErasedBlock(fs: Fs, gs: Fs, dir: nat, b: nat, i: nat)
    requires Chosen(fs, dir, b, i) && Freed(fs, gs, dir, b) && b > 0
    requires forall j: nat :: j < 21 && j != i ==> !Live(Slot(Data(fs.disk, fs.inodes[dir], b), j))
    ensures Erased(fs, gs, dir, 21 * b + i)
  {
    hide OwnInv, EntriesOf, DirOk, Plain, Live, Slot, Data, OthersKept, Block, Sole, Free, Chosen;
    ChosenFacts(fs, dir, b, i);
    ChosenPlace(fs, dir, b, i);
    var n, m := fs.inodes[dir], gs.inodes[dir];
    DirTop(fs.disk, n);
    FreedInv(fs, gs, dir, b);
    SectorsOk(fs.disk, n, b);
    forall j: nat | j < 21
      ensures Slot(Data(gs.disk, m, b), j) == if j == i then Free() else Slot(Data(fs.disk, n, b), j)
    {
      ZeroSlots(j);
      SectorSlot(Data(fs.disk, n, b), j);
    }
    PutSlot(fs.disk, n, gs.disk, m, b, i, Free());
    ErasedDir(fs.disk, n, gs.disk, m, b, i);
    SoleHere(fs.disk, n, b, i);
    SlotDiv(b, i);
  }

  /** Whether the block, not being the first, has no live slot but i. */
  ghost predicate SoleIs(d: seq<Sector>, n: Inode, b: nat, i: nat, sole: bool) {
    && b < 12 && i < 21
    && (sole ==> b > 0 && forall j: nat :: j < 21 && j != i ==> !Live(Slot(Data(d, n, b), j)))
    && (!sole && b > 0 ==> exists j: nat :: j < 21 && j != i && Live(Slot(Data(d, n, b), j)))
  }

  /** The two endings of delete_dir_entry. */
  method EraseAt(p: Partition, dir: nat, b: nat, i: nat, sole: bool)
    requires Chosen(p.State(), dir, b, i) && SoleIs(p.disk, p.inodes[dir], b, i, sole)
    modifies p`bits, p`disk, p`inodes, p`synced
    ensures Erased(old(p.State()), p.State(), dir, 21 * b + i)
    ensures p.synced == Synced(old(p.synced), dir, p.inodes[dir])
  {
    hide Chosen, Live, Slot, Data, Block, Erased, Wiped, Freed, Splice, OwnInv, DirOk, SoleIs, Synced, EntriesOf;
    ghost var fs := p.State();
    ChosenFacts(fs, dir, b, i);
    var n := p.inodes[dir];
    var lba := n.sectors[b];
    if sole {
      p.bits := p.bits[lba - p.dataStart := false];
      assert n.size >= 24;
      p.inodes := p.inodes[dir := Inode(n.size - 24, n.sectors[b := 0])];
      FreedHere(fs, p.State(), dir, b);
      ErasedSole(fs, p.State(), dir, b, i);
    } else {
      p.disk := p.disk[lba := Splice(Read(p.disk, lba), 24 * i, Free())];
      assert n.size >= 24;
      p.inodes := p.inodes[dir := n.(size := n.size - 24)];
      WipedHere(fs, p.State(), dir, b, i);
      ErasedShared(fs, p.State(), dir, b, i);
    }
    ErasedDomain(fs, p.State(), dir, 21 * b + i);
    p.synced := Synced(p.synced, dir, p.inodes[dir]);
  }

  lemma ErasedSole(fs: Fs, gs: Fs, dir: nat, b: nat, i: nat)
    requires Chosen(fs, dir, b, i) && dir in fs.inodes && SoleIs(fs.disk, fs.inodes[dir], b, i, true)
    requires Freed(fs, gs, dir, b)
    ensures Erased(fs, gs, dir, 21 * b + i)
  {
    hide Chosen, Live, Slot, Data, Freed, Erased;
    ErasedBlock(fs, gs, dir, b, i);
  }

  lemma ErasedShared(fs: Fs, gs: Fs, dir: nat, b: nat, i: nat)
    requires Chosen(fs, dir, b, i) && dir in fs.inodes && SoleIs(fs.disk, fs.inodes[dir], b, i, false)
    requires Wiped(fs, gs, dir, b, i)
    ensures Erased(fs, gs, dir, 21 * b + i)
  {
    hide Chosen, Live, Slot, Data, Wiped, Erased;
    ErasedOld(fs, gs, dir, b, i);
  }

  lemma ErasedDomain(fs: Fs, gs: Fs, dir: nat, q: nat)
    requires Erased(fs, gs, dir, q)
    ensures dir in gs.inodes
  {
  }

  lemma FreedHere(fs: Fs, gs: Fs, dir: nat, b: nat)
    requires dir in fs.inodes && b < 12 && fs.inodes[dir].size >= 24
    requires fs.dataStart <= fs.inodes[dir].sectors[b] < fs.dataStart + |fs.bits|
    requires gs.bits == fs.bits[fs.inodes[dir].sectors[b] - fs.dataStart := false]
    requires gs.inodes == fs.inodes[dir := Inode(fs.inodes[dir].size - 24, fs.inodes[dir].sectors[b := 0])]
    requires gs == fs.(bits := gs.bits, inodes := gs.inodes)
    ensures Freed(fs, gs, dir, b)
  {
  }

  lemma WipedHere(fs: Fs, gs: Fs, dir: nat, b: nat, i: nat)
    requires dir in fs.inodes && b < 12 && i < 21 && 0 < fs.inodes[dir].sectors[b] < |fs.disk|
    requires fs.inodes[dir].size >= 24
    requires gs.disk ==
             fs.disk[fs.inodes[dir].sectors[b] := Splice(Read(fs.disk, fs.inodes[dir].sectors[b]), 24 * i, Free())]
    requires gs.inodes == fs.inodes[dir := fs.inodes[dir].(size := fs.inodes[dir].size - 24)]
    requires gs == fs.(disk := gs.disk, inodes := gs.inodes)
    ensures Wiped(fs, gs, dir, b, i)
  {
    hide Splice;
  }

  /** delete_dir_entry: finds the entry that leads to the inode if there is one, and frees its slot. */
  method DeleteDirEntry(p: Partition, dir: nat, ino: nat) returns (found: bool, ghost q: nat)
    requires OwnInv(p.State()) && dir in p.inodes && DirOk(p.disk, p.inodes[dir])
    modifies p`bits, p`disk, p`inodes, p`synced
    ensures found ==>
            LeadsTo(EntriesOf(old(p.disk), old(p.inodes[dir])), q, ino) && Erased(old(p.State()), p.State(), dir, q)
    ensures !found ==> p.State() == old(p.State()) && p.synced == old(p.synced)
    ensures !found ==> forall r: nat :: !LeadsTo(EntriesOf(p.disk, p.inodes[dir]), r, ino)
    ensures found ==> p.synced == Synced(old(p.synced), dir, p.inodes[dir])
  {
    hide OwnInv, EntriesOf, DirOk, Plain, Live, Slot, Data, Erased, Block, LeadsTo, Chosen, PlainCount, DotSeen,
         NotBefore;
    ghost var fs := p.State();
    var n := p.inodes[dir];
    NotBeforeStart(EntriesOf(p.disk, n), ino);
    DirTop(p.disk, n);
    var k := 0;
    while k < 140
      invariant k <= 140 && p.State() == fs && p.synced == old(p.synced)
      invariant NotBefore(EntriesOf(fs.disk, n), if k < 12 then k else 12, ino)
    {
      if k >= 12 {
        NoIndirect(p.disk, n, k);
      }
      var lba := Block(p.disk, n, k);
      if lba != 0 {
        HoleBlock(p.disk, n, k);
        SectorsOk(p.disk, n, k);
        SectorTargets(p.disk, n, k);
        DotsFirst(p.disk, n, k);
        ReadIsData(p.disk, n, k);
        var s := Read(p.disk, lba);
        var cnt, first, at := ScanSector(s, ino);
        if at < 21 {
          PlainLeads(p.disk, n, k, at, ino);
          ChosenHere(fs, dir, k, at);
          CountOthers(s, 21, at);
          assert cnt >= 1;
          OthersDead(p.disk, n, k, at, cnt == 1 && !first);
          EraseAt(p, dir, k, at, cnt == 1 && !first);
          return true, 21 * k + at;
        }
        NotInBlock(p.disk, n, k, ino);
      } else if k < 12 {
        HoleNotThere(p.disk, n, k, ino);
      }
      k := k + 1;
    }
    NotAnywhere(EntriesOf(p.disk, n), ino);
    return false, 0;
  }

  lemma NotBeforeStart(s: seq<Entry>, ino: nat)
    ensures NotBefore(s, 0, ino)
  {
  }

  lemma NotAnywhere(s: seq<Entry>, ino: nat)
    requires NotBefore(s, 12, ino) && |s| == 252
    ensures forall r: nat :: !LeadsTo(s, r, ino)
  {
    hide Live, Target;
  }

  lemma HoleNotThere(d: seq<Sector>, n: Inode, b: nat, ino: nat)
    requires DirOk(d, n) && b < 12 && Block(d, n, b) == 0 && NotBefore(EntriesOf(d, n), b, ino)
    ensures NotBefore(EntriesOf(d, n), b + 1, ino)
  {
    hide DirOk, EntriesOf, Live, Slot, Data, NotBefore, Block, Name, Target;
    HoleUnnamed(d, n, b);
    NotInBlock(d, n, b, ino);
  }

  lemma ChosenHere(fs: Fs, dir: nat, b: nat, i: nat)
    requires OwnInv(fs) && dir in fs.inodes && DirOk(fs.disk, fs.inodes[dir]) && b < 12 && i < 21
    requires fs.inodes[dir].sectors[b] != 0 && 2 <= 21 * b + i && Plain(Slot(Data(fs.disk, fs.inodes[dir], b), i))
    ensures Chosen(fs, dir, b, i)
  {
  }

  /** In a block other than the first, the live entries are the plain ones. */
  lemma OthersDead(d: seq<Sector>, n: Inode, b: nat, at: nat, sole: bool)
    requires b < 12 && at < 21
    requires b > 0 ==> forall i: nat :: i < 21 && Live(Slot(Data(d, n, b), i)) ==> Plain(Slot(Data(d, n, b), i))
    requires sole <==> b > 0 && forall j: nat :: j < 21 && j != at ==> !Plain(Slot(Data(d, n, b), j))
    ensures SoleIs(d, n, b, at, sole)
  {
    hide Slot, Data, Live, Name;
  }
}
