// fs/file.c file_create, fs/inode.c inode_release, fs/fs.c sys_unlink: what a file takes, and that it is all given
// back.

module Unlink {
  import opened Disk
  import opened Bitmaps
  import opened Ownership
  import opened Records
  import opened Files
  import opened FileSystem
  import opened CStrings
  import opened Entries
  import opened Directories
  import opened DirectoryMap
  import opened FullDirectory

  /** The inode bitmap marks exactly the inodes in use. */
  ghost predicate InodeBits(ibits: seq<bool>, inodes: map<nat, Inode>) {
    && (forall i :: i in inodes ==> i < |ibits|)
    && (forall i: nat :: i < |ibits| ==> (ibits[i] <==> i in inodes))
  }

  // ---------------------------------------------------------------- a new inode

  ghost predicate WithInode(fs: Fs, gs: Fs, ino: nat) {
    ino !in fs.inodes && gs == fs.(inodes := fs.inodes[ino := EmptyInode()])
  }

  lemma EmptyOwns(d: seq<Sector>)
    ensures forall b: nat :: !Owns(d, EmptyInode(), b)
    ensures Distinct(d, EmptyInode())
  {
    forall k: nat | k < 140 ensures Block(d, EmptyInode(), k) == 0 {
    }
  }

  /** An inode without blocks changes nothing for anybody. */
  lemma WithInodeInv(fs: Fs, gs: Fs, ino: nat)
    requires OwnInv(fs) && WithInode(fs, gs, ino)
    ensures OwnInv(gs) && OthersKept(fs, gs, ino)
  {
    hide Owns, Distinct, SameInode, Placed, Apart, BitsExact;
    EmptyOwns(fs.disk);
    forall j | j in fs.inodes ensures KeptFile(fs, gs, j) {
      SameSelf(fs.disk, fs.inodes[j]);
    }
    forall i | i in gs.inodes ensures Distinct(gs.disk, gs.inodes[i]) && Placed(gs, gs.inodes[i]) {
      WithInodeOne(fs, gs, ino, i);
    }
    forall i, j | i in gs.inodes && j in gs.inodes && i != j ensures Apart(gs, gs.inodes[i], gs.inodes[j]) {
      WithInodeApart(fs, gs, ino, i, j);
    }
    WithInodeBits(fs, gs, ino);
  }

  lemma WithInodeOne(fs: Fs, gs: Fs, ino: nat, i: nat)
    requires OwnInv(fs) && WithInode(fs, gs, ino) && i in gs.inodes
    ensures Distinct(gs.disk, gs.inodes[i]) && Placed(gs, gs.inodes[i])
  {
    hide OwnInv, Owns, Distinct, BitsExact;
    EmptyOwns(fs.disk);
    if i != ino {
      InodeParts(fs, i);
    }
  }

  lemma WithInodeApart(fs: Fs, gs: Fs, ino: nat, i: nat, j: nat)
    requires OwnInv(fs) && WithInode(fs, gs, ino) && i in gs.inodes && j in gs.inodes && i != j
    ensures Apart(gs, gs.inodes[i], gs.inodes[j])
  {
    hide OwnInv, Owns, Distinct, BitsExact;
    EmptyOwns(fs.disk);
    if i != ino && j != ino {
      TwoApart(fs, i, j, 0);
    }
  }

  lemma WithInodeBits(fs: Fs, gs: Fs, ino: nat)
    requires OwnInv(fs) && WithInode(fs, gs, ino)
    ensures BitsExact(gs)
  {
    hide Owns, Distinct, Placed, Apart;
    forall k: nat | k < |gs.bits| && gs.bits[k]
      ensures gs.dataStart + k in gs.reserved || SomeoneOwns(gs, gs.dataStart + k)
    {
      var b := gs.dataStart + k;
      if b !in gs.reserved {
        assert SomeoneOwns(fs, b);
        var i :| i in fs.inodes && Owns(fs.disk, fs.inodes[i], b);
        assert Owns(gs.disk, gs.inodes[i], b);
      }
    }
  }

  // ---------------------------------------------------------------- create_dir_entry

  function WordBytes(w: nat): (s: seq<Byte>)
    ensures |s| == 4
  {
    [ByteOf(w, 0), ByteOf(w, 1), ByteOf(w, 2), ByteOf(w, 3)]
  }

  /** A zeroed entry with the name, the inode number and the type filled in. */
  function MakeEntry(name: seq<Byte>, ino: nat, kind: nat): Entry
    requires |name| <= 16
  {
    name + seq(16 - |name|, _ => 0) + WordBytes(ino) + WordBytes(kind)
  }

  /** Where the fields of struct dir_entry lie, lowest byte first. */
  lemma EntryLayout(name: seq<Byte>, ino: nat, kind: nat)
    requires |name| <= 16 && ino < 0x1_0000_0000 && kind < 0x1_0000_0000
    ensures var e := MakeEntry(name, ino, kind);
            && e[..|name|] == name && (forall k :: |name| <= k < 16 ==> e[k] == 0)
            && Little(e, 16) == ino && Little(e, 20) == kind
  {
    var e := MakeEntry(name, ino, kind);
    assert e[16..20] == WordBytes(ino) && e[20..24] == WordBytes(kind);
    WordRoundTrip(ino);
    WordRoundTrip(kind);
    assert e[16] == e[16..20][0] && e[17] == e[16..20][1] && e[18] == e[16..20][2] && e[19] == e[16..20][3];
    assert e[20] == e[20..24][0] && e[21] == e[20..24][1] && e[22] == e[20..24][2] && e[23] == e[20..24][3];
  }

  lemma MadeEntry(name: seq<Byte>, ino: nat, kind: nat)
    requires |name| <= 15 && 0 !in name && ino < 0x1_0000_0000 && kind < 0x1_0000_0000
    ensures var e := MakeEntry(name, ino, kind); Name(e) == name && Target(e) == ino && Kind(e) == kind
  {
    var e := MakeEntry(name, ino, kind);
    assert e[..16] == name + seq(16 - |name|, _ => 0);
    assert e[..16][..|name|] == name && e[..16][|name|] == 0;
    TextIs(e[..16], |name|);
    assert e[16..20] == WordBytes(ino) && e[20..24] == WordBytes(kind);
    WordRoundTrip(ino);
    WordRoundTrip(kind);
    assert e[16] == e[16..20][0] && e[17] == e[16..20][1] && e[18] == e[16..20][2] && e[19] == e[16..20][3];
    assert e[20] == e[20..24][0] && e[21] == e[20..24][1] && e[22] == e[20..24][2] && e[23] == e[20..24][3];
  }

  // ---------------------------------------------------------------- inode_release

  /** The blocks whose bits the release loop has cleared after k entries of all_blocks. */
  ghost predicate Returned(d: seq<Sector>, n: Inode, k: nat, b: nat) {
    b != 0 && (b == n.sectors[12] || exists j: nat :: j < k && j < 140 && Block(d, n, j) == b)
  }

  ghost predicate ReleasedTo(fs: Fs, n: Inode, k: nat, bits: seq<bool>) {
    |bits| == |fs.bits| && forall i: nat :: i < |bits| ==> BitReleased(fs, n, k, bits, i)
  }

  ghost predicate BitReleased(fs: Fs, n: Inode, k: nat, bits: seq<bool>, i: nat)
    requires i < |bits| == |fs.bits|
  {
    bits[i] <==> fs.bits[i] && !Returned(fs.disk, n, k, fs.dataStart + i)
  }

  lemma ReturnedStep(d: seq<Sector>, n: Inode, k: nat, b: nat)
    requires k < 140
    ensures Returned(d, n, k + 1, b) <==> Returned(d, n, k, b) || (b != 0 && b == Block(d, n, k))
  {
    hide Block;
  }

  lemma ReturnedAll(d: seq<Sector>, n: Inode, k: nat, b: nat)
    requires k == 140 || (k == 12 && n.sectors[12] == 0)
    ensures Returned(d, n, k, b) <==> Owns(d, n, b)
  {
    if k == 12 {
      forall j: nat | 12 <= j < 140 ensures Block(d, n, j) == 0 {
      }
    }
  }

  /** Freeing one more block. */
  lemma ReleaseStep(fs: Fs, n: Inode, k: nat, bits: seq<bool>, after: seq<bool>)
    requires k < 140 && ReleasedTo(fs, n, k, bits)
    requires var b := Block(fs.disk, n, k);
             if b == 0 then after == bits
                 else fs.dataStart <= b < fs.dataStart + |bits| && after == bits[b - fs.dataStart := false]
    ensures ReleasedTo(fs, n, k + 1, after)
  {
    hide Block, Returned;
    var next := k + 1;
    forall i: nat | i < |after| ensures BitReleased(fs, n, next, after, i) {
      assert BitReleased(fs, n, k, bits, i);
      ReturnedStep(fs.disk, n, k, fs.dataStart + i);
      NotZero(fs.disk, n, k, fs.dataStart + i);
    }
  }

  lemma NotZero(d: seq<Sector>, n: Inode, k: nat, b: nat)
    ensures b == 0 ==> !Returned(d, n, k, b)
  {
  }

  lemma ReleaseStart(fs: Fs, n: Inode)
    ensures n.sectors[12] == 0 ==> ReleasedTo(fs, n, 0, fs.bits)
    ensures fs.dataStart <= n.sectors[12] < fs.dataStart + |fs.bits| && n.sectors[12] != 0 ==>
              ReleasedTo(fs, n, 0, fs.bits[n.sectors[12] - fs.dataStart := false])
  {
  }

  /** The root directory, inode 0, has the first data block. */
  ghost predicate RootOwns(fs: Fs) {
    0 in fs.inodes && fs.inodes[0].sectors[0] == fs.dataStart
  }

  /** A block of any other inode is in the bitmap, and not at index 0: what the ASSERTs of inode_release say. */
  lemma OwnedIndex(fs: Fs, ino: nat, b: nat)
    requires OwnInv(fs) && RootOwns(fs) && ino in fs.inodes && ino != 0 && Owns(fs.disk, fs.inodes[ino], b)
    ensures fs.dataStart < b < fs.dataStart + |fs.bits|
  {
    hide Owns, Distinct, BitsExact;
    HoleBlock(fs.disk, fs.inodes[0], 0);
    OwnsBlock(fs.disk, fs.inodes[0], 0);
    assert Placed(fs, fs.inodes[ino]) && Apart(fs, fs.inodes[0], fs.inodes[ino]);
  }

  ghost predicate Released(fs: Fs, gs: Fs, ino: nat) {
    && ino in fs.inodes && gs == fs.(bits := gs.bits, inodes := fs.inodes - {ino})
    && |gs.bits| == |fs.bits| && OwnInv(gs)
    && (forall i: nat :: i < |fs.bits| ==>
        (gs.bits[i] <==> fs.bits[i] && !Owns(fs.disk, fs.inodes[ino], fs.dataStart + i)))
  }

  lemma ReleasedClose(fs: Fs, gs: Fs, ino: nat, k: nat)
    requires OwnInv(fs) && ino in fs.inodes && gs == fs.(bits := gs.bits, inodes := fs.inodes - {ino})
    requires (k == 140 || (k == 12 && fs.inodes[ino].sectors[12] == 0)) && ReleasedTo(fs, fs.inodes[ino], k, gs.bits)
    ensures Released(fs, gs, ino)
  {
    hide OwnInv, Owns, Returned, Distinct;
    forall i: nat | i < |fs.bits|
      ensures gs.bits[i] <==> fs.bits[i] && !Owns(fs.disk, fs.inodes[ino], fs.dataStart + i)
    {
      assert BitReleased(fs, fs.inodes[ino], k, gs.bits, i);
      ReturnedAll(fs.disk, fs.inodes[ino], k, fs.dataStart + i);
    }
    assert Shrinks(fs, gs, ino);
    ShrinksInv(fs, gs, ino);
  }

  /** A slot that carries the inode's number carries the inode's record. */
  ghost predicate OwnSlot(t: InodeSlots, inodes: map<nat, Inode>, i: nat) {
    i in inodes && (Fetched(t, i).no == i ==> Fetched(t, i).inode == inodes[i])
  }

  /**
   * inode_release: every block of the inode, its table and the inode itself are free again.  It opens the inode first,
   * and stops the kernel exactly when the record it gets carries another number.
   */
  method InodeRelease(p: Partition, ino: nat) returns (ok: bool)
    requires OwnInv(p.State()) && RootOwns(p.State()) && ino != 0 && ino < |p.ibits| && OwnSlot(p.synced, p.inodes, ino)
    modifies p`bits, p`ibits, p`inodes, p`synced
    ensures ok <==> Seen(old(p.synced), p.open, old(p.inodes), ino).no == ino
    ensures ok ==> Released(old(p.State()), p.State(), ino)
    ensures ok ==> p.ibits == old(p.ibits)[ino := false] && p.synced == Cleared(old(p.synced), ino)
  {
    hide OwnInv, Owns, Released, Block, ReleasedTo, RootOwns;
    ghost var fs := p.State();
    var rec := Seen(p.synced, p.open, p.inodes, ino);
    if rec.no != ino {
      return false;
    }
    var n := rec.inode;
    var count := 12;
    ReleaseStart(fs, n);
    if n.sectors[12] != 0 {
      count := 140;
      OwnsTable(fs.disk, n);
      OwnedIndex(fs, ino, n.sectors[12]);
      assert n.sectors[12] - p.dataStart > 0;
      p.bits := p.bits[n.sectors[12] - p.dataStart := false];
    }
    var k := 0;
    while k < count
      invariant k <= count && ReleasedTo(fs, n, k, p.bits) && |p.bits| == |fs.bits|
      invariant p.State() == fs.(bits := p.bits) && p.ibits == old(p.ibits) && p.synced == old(p.synced)
    {
      ghost var before := p.bits;
      var lba := Block(p.disk, n, k);
      if lba != 0 {
        OwnsBlock(fs.disk, n, k);
        OwnedIndex(fs, ino, lba);
        assert lba - p.dataStart > 0;
        p.bits := p.bits[lba - p.dataStart := false];
      }
      ReleaseStep(fs, n, k, before, p.bits);
      k := k + 1;
    }
    p.inodes := p.inodes - {ino};
    p.ibits := p.ibits[ino := false];
    p.synced := Cleared(p.synced, ino);
    ReleasedClose(fs, p.State(), ino, count);
    return true;
  }

  lemma OwnsTable(d: seq<Sector>, n: Inode)
    ensures n.sectors[12] != 0 ==> Owns(d, n, n.sectors[12])
  {
  }

  // ---------------------------------------------------------------- file_create

  /** Every entry of the directory, the dot entries aside, leads to an inode in use. */
  ghost predicate LeadsInside(fs: Fs, dir: nat) {
    dir in fs.inodes && forall q: nat :: 2 <= q < 252 && Live(EntriesOf(fs.disk, fs.inodes[dir])[q]) ==>
      Target(EntriesOf(fs.disk, fs.inodes[dir])[q]) in fs.inodes
  }

  /** No entry of the directory has this name. */
  ghost predicate Nameless(fs: Fs, dir: nat, name: seq<Byte>) {
    dir in fs.inodes && Unnamed(EntriesOf(fs.disk, fs.inodes[dir]), 252, name)
  }

  /** One more inode, with whatever blocks it has; the others are as before. */
  ghost predicate NewOne(fs: Fs, ns: Fs, ino: nat) {
    && ino !in fs.inodes && ns.inodes.Keys == fs.inodes.Keys + {ino}
    && OthersKept(fs, ns, ino) && SameShape(fs, ns)
  }

  /** What file_create and sys_mkdir do: a new inode, and an entry for it in the parent directory. */
  ghost predicate Created(fs: Fs, ns: Fs, cs: Fs, dir: nat, ino: nat, name: seq<Byte>, kind: nat) {
    |name| <= 16 && NewOne(fs, ns, ino) && Inserted(ns, cs, dir, MakeEntry(name, ino, kind))
  }

  /** The same when the parent's direct blocks are full. */
  ghost predicate CreatedOver(fs: Fs, ns: Fs, cs: Fs, dir: nat, ino: nat, name: seq<Byte>, kind: nat) {
    |name| <= 16 && NewOne(fs, ns, ino) && OwnInv(ns) && Overflows(ns, cs, dir, MakeEntry(name, ino, kind))
  }

  /** Overflown: created as well, with the entry behind a new table of the parent. */
  datatype CreateResult = CreateHalted | NewInode(ino: nat) | Overflown(ino: nat)

  /** A fresh inode's entry is new to a directory that only leads to inodes in use. */
  lemma FreshEntry(fs: Fs, ns: Fs, dir: nat, ino: nat, name: seq<Byte>, kind: nat)
    requires ino < 4096 && 1 <= |name| <= 15 && 0 !in name && 0 < kind < 0x1_0000_0000
    requires NewOne(fs, ns, ino) && LeadsInside(fs, dir) && Nameless(fs, dir, name)
    ensures dir in ns.inodes && EntriesOf(ns.disk, ns.inodes[dir]) == EntriesOf(fs.disk, fs.inodes[dir])
    ensures NewEntry(EntriesOf(ns.disk, ns.inodes[dir]), MakeEntry(name, ino, kind))
    ensures ns.inodes[dir] == fs.inodes[dir] && (DirOk(fs.disk, fs.inodes[dir]) ==> DirOk(ns.disk, ns.inodes[dir]))
  {
    hide EntriesOf, Name, Target, MakeEntry, Kind, SameInode, DirOk;
    MadeEntry(name, ino, kind);
    assert KeptFile(fs, ns, dir);
    SameDir(fs.disk, ns.disk, fs.inodes[dir]);
  }

  /**
   * file_create: the inode, then the entry.  It stops the kernel exactly when there is no free inode or there are not
   * enough free blocks.
   */
  method FileCreate(p: Partition, dir: nat, name: seq<Byte>) returns (r: CreateResult, ghost ns: Fs)
    requires OwnInv(p.State()) && InodeBits(p.ibits, p.inodes) && |p.ibits| == 4096
    requires dir in p.inodes && Searchable(p.disk, p.inodes[dir])
    requires 1 <= |name| <= 15 && 0 !in name && LeadsInside(p.State(), dir) && Nameless(p.State(), dir, name)
    modifies p`bits, p`ibits, p`disk, p`inodes, p`synced, p`open
    ensures r.CreateHalted? <==>
              FirstClear(old(p.ibits)) == 4096 || CountClear(old(p.bits)) < SyncNeeds(old(p.disk), old(p.inodes[dir]))
    ensures r.NewInode? ==> Created(old(p.State()), ns, p.State(), dir, r.ino, name, FT_REGULAR)
    ensures r.Overflown? ==> CreatedOver(old(p.State()), ns, p.State(), dir, r.ino, name, FT_REGULAR)
    ensures !r.CreateHalted? ==>
            r.ino == FirstClear(old(p.ibits)) && r.ino in p.inodes && p.inodes[r.ino] == EmptyInode()
    ensures !r.CreateHalted? ==> InodeBits(p.ibits, p.inodes) && p.ibits == old(p.ibits)[r.ino := true]
    ensures !r.CreateHalted? ==> dir in p.inodes && p.open == old(p.open) + {r.ino}
    ensures !r.CreateHalted? ==> p.synced == Synced(Synced(old(p.synced), dir, p.inodes[dir]), r.ino, p.inodes[r.ino])
  {
    hide OwnInv, EntriesOf, DirOk, Searchable, Inserted, NewEntry, LeadsInside, Nameless, SyncNeeds, CountClear,
         MakeEntry, NewOne, Overflows, InodeBits, FirstClear;
    ghost var fs := p.State();
    InodeCount(p.ibits, p.inodes);
    var ino := FirstClear(p.ibits);
    ns := fs;
    if ino == 4096 {
      return CreateHalted, ns;
    }
    p.ibits := p.ibits[ino := true];
    p.inodes := p.inodes[ino := EmptyInode()];
    ns := p.State();
    EmptyOne(fs, ns, ino);
    FreshEntry(fs, ns, dir, ino, name, FT_REGULAR);
    StillSearchable(fs, ns, dir);
    var put := SyncDirEntry(p, dir, MakeEntry(name, ino, FT_REGULAR));
    if put.SyncHalted? {
      return CreateHalted, ns;
    }
    ghost var e := MakeEntry(name, ino, FT_REGULAR);
    if put.Stored? {
      InsertedFacts(ns, p.State(), dir, e, ino);
    } else {
      OverflownFacts(ns, p.State(), dir, e, ino);
    }
    NewBits(fs.inodes, p.inodes, old(p.ibits), ino);
    p.synced := Synced(Synced(p.synced, dir, p.inodes[dir]), ino, p.inodes[ino]);
    p.open := p.open + {ino};
    return if put.Stored? then NewInode(ino) else Overflown(ino), ns;
  }

  lemma InodeCount(ibits: seq<bool>, inodes: map<nat, Inode>)
    requires InodeBits(ibits, inodes)
    ensures FirstClear(ibits) < |ibits| ==> FirstClear(ibits) !in inodes
    ensures forall i :: i in inodes ==> i < |ibits|
  {
  }

  lemma NewBits(before: map<nat, Inode>, after: map<nat, Inode>, ibits: seq<bool>, ino: nat)
    requires InodeBits(ibits, before) && after.Keys == before.Keys + {ino} && ino < |ibits|
    ensures InodeBits(ibits[ino := true], after)
  {
  }

  /** A new inode leaves the parent as it was. */
  lemma StillSearchable(fs: Fs, ns: Fs, dir: nat)
    requires dir in fs.inodes && dir in ns.inodes && ns.inodes[dir] == fs.inodes[dir]
    requires EntriesOf(ns.disk, ns.inodes[dir]) == EntriesOf(fs.disk, fs.inodes[dir])
    requires DirOk(fs.disk, fs.inodes[dir]) ==> DirOk(ns.disk, ns.inodes[dir])
    ensures Searchable(fs.disk, fs.inodes[dir]) ==> Searchable(ns.disk, ns.inodes[dir])
    ensures SyncNeeds(ns.disk, ns.inodes[dir]) == SyncNeeds(fs.disk, fs.inodes[dir])
  {
    hide EntriesOf, DirOk, FirstFree;
  }

  lemma OverflownFacts(fs: Fs, gs: Fs, dir: nat, e: Entry, ino: nat)
    requires OwnInv(fs) && Overflows(fs, gs, dir, e) && ino in fs.inodes && ino != dir
    ensures dir in gs.inodes && ino in gs.inodes && gs.inodes.Keys == fs.inodes.Keys && gs.inodes[ino] == fs.inodes[ino]
    ensures OthersKept(fs, gs, dir) && SameShape(fs, gs) && gs.inodes[dir].sectors[12] != 0
  {
    hide OwnInv, Overflowed, OthersKept;
    var table: nat, block: nat :| Overflowed(fs, gs, dir, e, table, block);
    OverflowOthers(fs, gs, dir, e, table, block);
    OverflowRecord(fs, gs, dir, e, table, block);
  }

  lemma OverflowRecord(fs: Fs, gs: Fs, dir: nat, e: Entry, table: nat, block: nat)
    requires Overflowed(fs, gs, dir, e, table, block)
    ensures dir in fs.inodes && dir in gs.inodes && gs.inodes[dir].sectors[12] != 0 && gs.inodes.Keys == fs.inodes.Keys
    ensures forall j :: j in fs.inodes && j != dir ==> gs.inodes[j] == fs.inodes[j]
  {
    hide EntriesOf, FirstFree, Granted, OneBlockTable, Splice;
  }

  lemma EmptyOne(fs: Fs, ns: Fs, ino: nat)
    requires OwnInv(fs) && WithInode(fs, ns, ino)
    ensures NewOne(fs, ns, ino) && OwnInv(ns)
  {
    hide OwnInv;
    WithInodeInv(fs, ns, ino);
  }

  lemma InsertedFacts(fs: Fs, gs: Fs, dir: nat, e: Entry, ino: nat)
    requires Inserted(fs, gs, dir, e) && ino in fs.inodes && ino != dir
    ensures dir in gs.inodes && ino in gs.inodes && gs.inodes.Keys == fs.inodes.Keys
    ensures gs.inodes[ino] == fs.inodes[ino] && OwnInv(gs)
  {
    hide OwnInv, EntriesOf, DirOk, BitsGrew, SameInode;
    assert KeptFile(fs, gs, ino);
  }

  // ---------------------------------------------------------------- sys_unlink

  /**
   * The tail of sys_unlink, once the path was resolved and the file is not open: the entry goes, then the inode.  The
   * record that inode_release opens is the one in the slot; unless it carries the file's number the kernel stops.
   */
  method UnlinkFile(p: Partition, dir: nat, ino: nat) returns (ok: bool, ghost q: nat, ghost es: Fs)
    requires OwnInv(p.State()) && RootOwns(p.State()) && ino in p.inodes && ino != 0 && ino != dir && ino < |p.ibits|
    requires dir in p.inodes && DirOk(p.disk, p.inodes[dir]) && ino !in p.open && OwnSlot(p.synced, p.inodes, ino)
    requires exists r: nat :: LeadsTo(EntriesOf(p.disk, p.inodes[dir]), r, ino)
    modifies p`bits, p`ibits, p`disk, p`inodes, p`synced
    ensures LeadsTo(EntriesOf(old(p.disk), old(p.inodes[dir])), q, ino) && Erased(old(p.State()), es, dir, q)
    ensures dir in es.inodes
    ensures ok <==> Fetched(Synced(old(p.synced), dir, es.inodes[dir]), ino).no == ino
    ensures ok ==> Released(es, p.State(), ino) && p.ibits == old(p.ibits)[ino := false]
    ensures ok ==> p.synced == Cleared(Synced(old(p.synced), dir, es.inodes[dir]), ino)
    ensures ok && InodeBits(old(p.ibits), old(p.inodes)) ==> InodeBits(p.ibits, p.inodes)
  {
    hide OwnInv, EntriesOf, DirOk, Erased, Released, LeadsTo, RootOwns;
    ghost var fs := p.State();
    var found;
    found, q := DeleteDirEntry(p, dir, ino);
    es := p.State();
    ErasedRest(fs, es, dir, q, ino);
    ErasedKeys(fs, es, dir, q);
    ok := InodeRelease(p, ino);
    if ok {
      ReleasedKeys(es, p.State(), ino);
    }
  }

  lemma ErasedKeys(fs: Fs, gs: Fs, dir: nat, q: nat)
    requires Erased(fs, gs, dir, q)
    ensures gs.inodes.Keys == fs.inodes.Keys && dir in gs.inodes
  {
    hide OwnInv, EntriesOf, DirOk, SameInode, Sole;
  }

  lemma ReleasedKeys(fs: Fs, gs: Fs, ino: nat)
    requires Released(fs, gs, ino)
    ensures gs.inodes == fs.inodes - {ino}
  {
    hide OwnInv, Owns;
  }

  /** The root directory keeps its first block through a deletion, because only blocks after the first are freed. */
  lemma ErasedRest(fs: Fs, gs: Fs, dir: nat, q: nat, ino: nat)
    requires Erased(fs, gs, dir, q) && RootOwns(fs) && ino in fs.inodes && ino != dir
    ensures OwnInv(gs) && RootOwns(gs) && ino in gs.inodes && gs.inodes[ino] == fs.inodes[ino]
  {
    hide OwnInv, EntriesOf, DirOk, SameInode;
    assert KeptFile(fs, gs, ino);
    if dir != 0 {
      assert KeptFile(fs, gs, 0);
    }
  }

  lemma OwnsSame(d: seq<Sector>, e: seq<Sector>, n: Inode, b: nat)
    requires SameInode(d, e, n)
    ensures Owns(d, n, b) <==> Owns(e, n, b)
  {
    hide Block, Data;
    if Owns(d, n, b) && b != n.sectors[12] {
      var k: nat :| k < 140 && Block(d, n, k) == b;
      assert Block(e, n, k) == b;
    }
    if Owns(e, n, b) && b != n.sectors[12] {
      var k: nat :| k < 140 && Block(e, n, k) == b;
      assert Block(d, n, k) == b;
    }
  }

  // ---------------------------------------------------------------- everything is given back

  lemma OwnsDirect(d: seq<Sector>, e: seq<Sector>, n: Inode, b: nat)
    requires n.sectors[12] == 0
    ensures Owns(d, n, b) <==> Owns(e, n, b)
  {
    forall k: nat | k < 140 ensures Block(d, n, k) == Block(e, n, k) {
    }
    hide Block;
    if Owns(d, n, b) {
      var k: nat :| k < 140 && Block(d, n, k) == b;
      assert Block(e, n, k) == b;
    }
    if Owns(e, n, b) {
      var k: nat :| k < 140 && Block(e, n, k) == b;
      assert Block(d, n, k) == b;
    }
  }

  /** Same inodes, each with the same blocks: the same bitmap. */
  lemma SameBitmap(fs: Fs, gs: Fs, dir: nat)
    requires OwnInv(fs) && OwnInv(gs) && SameShape(fs, gs) && gs.inodes == fs.inodes
    requires dir in fs.inodes && fs.inodes[dir].sectors[12] == 0
    requires OthersKept(fs, gs, dir)
    ensures gs.bits == fs.bits
  {
    hide OwnInv, Owns, SameInode;
    forall j, b: nat | j in fs.inodes ensures Owns(fs.disk, fs.inodes[j], b) <==> Owns(gs.disk, gs.inodes[j], b) {
      if j == dir {
        OwnsDirect(fs.disk, gs.disk, fs.inodes[j], b);
      } else {
        assert KeptFile(fs, gs, j);
        OwnsSame(fs.disk, gs.disk, fs.inodes[j], b);
      }
    }
    forall b: nat ensures SomeoneOwns(fs, b) <==> SomeoneOwns(gs, b) {
    }
    BitsDetermined(fs, gs);
  }

  /**
   * The inodes that neither the directory's changes nor the file's touch are kept through the whole life of the file.
   */
  lemma KeptThrough(fs: Fs, ns: Fs, states: seq<Fs>, ops: seq<Write>, es: Fs, gs: Fs, dir: nat, ino: nat,
                    name: seq<Byte>, kind: nat, q: nat, j: nat)
    requires |states| == |ops| + 1 && (forall i: nat :: i < |ops| ==> ops[i].ino == ino) && j in fs.inodes && j != dir
    requires WriteRun(states, ops) && Created(fs, ns, states[0], dir, ino, name, kind)
    requires Erased(states[|ops|], es, dir, q) && Released(es, gs, ino)
    ensures KeptFile(fs, gs, j)
  {
    hide Created, Erased, Released, WriteRun, SameInode;
    var cs, ms := states[0], states[|ops|];
    CreatedKeeps(fs, ns, cs, dir, ino, name, kind, j);
    RunKeeps(states, ops, j);
    ErasedKeeps(ms, es, dir, q, j);
    ReleasedKeeps(es, gs, ino, j);
    KeptChain(fs.disk, cs.disk, ms.disk, es.disk, fs.inodes[j]);
  }

  lemma CreatedKeeps(fs: Fs, ns: Fs, gs: Fs, dir: nat, ino: nat, name: seq<Byte>, kind: nat, j: nat)
    requires j in fs.inodes && j != dir && Created(fs, ns, gs, dir, ino, name, kind)
    ensures KeptFile(fs, gs, j) && j != ino
  {
    hide OwnInv, EntriesOf, DirOk, BitsGrew, SameInode, MakeEntry;
    assert KeptFile(fs, ns, j) && KeptFile(ns, gs, j);
    SameTwice(fs.disk, ns.disk, gs.disk, fs.inodes[j]);
  }

  lemma ErasedKeeps(fs: Fs, gs: Fs, dir: nat, q: nat, j: nat)
    requires j in fs.inodes && j != dir && Erased(fs, gs, dir, q)
    ensures KeptFile(fs, gs, j)
  {
    hide OwnInv, EntriesOf, DirOk, SameInode, Sole;
  }

  lemma ReleasedKeeps(fs: Fs, gs: Fs, ino: nat, j: nat)
    requires j in fs.inodes && j != ino && Released(fs, gs, ino)
    ensures j in gs.inodes && gs.inodes[j] == fs.inodes[j] && gs.disk == fs.disk
  {
    hide OwnInv, Owns;
  }

  lemma SameTwice(a: seq<Sector>, b: seq<Sector>, c: seq<Sector>, n: Inode)
    requires SameInode(a, b, n) && SameInode(b, c, n)
    ensures SameInode(a, c, n)
  {
    hide Block, Data;
  }

  lemma KeptChain(a: seq<Sector>, b: seq<Sector>, c: seq<Sector>, d: seq<Sector>, n: Inode)
    requires SameInode(a, b, n) && SameInode(b, c, n) && SameInode(c, d, n)
    ensures SameInode(a, d, n)
  {
    hide Block, Data;
  }

  /** The inode table after the file was created, written n times and had its entry deleted again. */
  ghost function SlotsOfLife(t: InodeSlots, dir: nat, ino: nat, records: seq<Inode>, created: Inode,
                             erased: Inode): InodeSlots
  {
    Synced(SlotsOfWrites(Synced(Synced(t, dir, created), ino, EmptyInode()), ino, records), dir, erased)
  }

  ghost function SlotsOfWrites(t: InodeSlots, ino: nat, records: seq<Inode>): InodeSlots
    decreases |records|
  {
    if records == [] then t else Synced(SlotsOfWrites(t, ino, records[..|records| - 1]), ino, records[|records| - 1])
  }

  lemma {:induction false} WritesSlot(t: InodeSlots, ino: nat, records: seq<Inode>)
    requires HighZero(t) && (ino < 256 ==> Fetched(t, ino).no == ino)
    ensures var u := SlotsOfWrites(t, ino, records); HighZero(u) && (ino < 256 ==> Fetched(u, ino).no == ino)
    decreases |records|
  {
    if records != [] {
      WritesSlot(t, ino, records[..|records| - 1]);
      SyncedExactly(SlotsOfWrites(t, ino, records[..|records| - 1]), ino, records[|records| - 1]);
    }
  }

  /** Whether the ASSERT of inode_release holds at the end of the file's life: exactly for the numbers below 256. */
  lemma LifeEnds(t: InodeSlots, dir: nat, ino: nat, records: seq<Inode>, created: Inode, erased: Inode)
    requires HighZero(t) && dir != ino
    ensures Fetched(SlotsOfLife(t, dir, ino, records, created, erased), ino).no == ino <==>
            ino < 256 && dir % 256 != ino
  {
    var a := Synced(t, dir, created);
    SyncedExactly(t, dir, created);
    SyncedExactly(a, ino, EmptyInode());
    var b := Synced(a, ino, EmptyInode());
    WritesSlot(b, ino, records);
    SyncedExactly(SlotsOfWrites(b, ino, records), dir, erased);
  }

  /**
   * Creating a file, any number of writes to it, closing and unlinking it.  The kernel stops in inode_release exactly
   * when the file's number does not fit in eight bits or is the narrowed number of its directory.  Otherwise the
   * partition is as it was: the same inodes, the same directory entries, every other inode block by block the same, and
   * both bitmaps bit for bit the same, with the block the directory may have gained for the entry.
   */
  lemma CreateWriteUnlink(fs: Fs, ns: Fs, states: seq<Fs>, ops: seq<Write>, es: Fs, gs: Fs, dir: nat, ino: nat,
                          name: seq<Byte>, kind: nat, q: nat, ibits: seq<bool>, t: InodeSlots, records: seq<Inode>,
                          ok: bool)
    requires |states| == |ops| + 1
    requires WriteRun(states, ops) && Created(fs, ns, states[0], dir, ino, name, kind)
    requires forall i: nat :: i < |ops| ==> ops[i].ino == ino
    requires dir in fs.inodes && LeadsInside(fs, dir) && Nameless(fs, dir, name) && 1 <= |name| <= 15 && 0 !in name
    requires 0 < kind < 0x1_0000_0000 && ino < 4096
    requires dir in states[|ops|].inodes && LeadsTo(EntriesOf(states[|ops|].disk, states[|ops|].inodes[dir]), q, ino)
    requires Erased(states[|ops|], es, dir, q) && dir in states[0].inodes && dir in es.inodes
    requires HighZero(t) && |records| == |ops|
    requires ok <==> Fetched(SlotsOfLife(t, dir, ino, records, states[0].inodes[dir], es.inodes[dir]), ino).no == ino
    requires ok ==> Released(es, gs, ino)
    requires InodeBits(ibits, fs.inodes) && ino < |ibits|
    requires OwnInv(fs) && DirOk(fs.disk, fs.inodes[dir])
    ensures ok <==> ino < 256 && dir % 256 != ino
    ensures ok ==> gs.inodes == fs.inodes && OthersKept(fs, gs, dir)
    ensures ok ==> EntriesOf(gs.disk, gs.inodes[dir]) == EntriesOf(fs.disk, fs.inodes[dir])
    ensures ok ==> gs.bits == fs.bits && ibits[ino := true][ino := false] == ibits
  {
    hide OwnInv, EntriesOf, DirOk, Created, Erased, Released, WriteRun, LeadsTo, LeadsInside, Nameless, MakeEntry,
         NewEntry, KeptFile, SlotsOfLife, HighZero;
    CreatedNumber(fs, ns, states[0], dir, ino, name, kind);
    LifeEnds(t, dir, ino, records, states[0].inodes[dir], es.inodes[dir]);
    if ok {
      forall j | j in fs.inodes && j != dir ensures KeptFile(fs, gs, j) {
        KeptThrough(fs, ns, states, ops, es, gs, dir, ino, name, kind, q, j);
      }
      DirectoryBack(fs, ns, states, ops, es, gs, dir, ino, name, kind, q);
      InodesBack(fs, ns, states, ops, es, gs, dir, ino, name, kind, q);
      DirTop(fs.disk, fs.inodes[dir]);
      SameBitmap(fs, gs, dir);
      assert !ibits[ino];
    }
  }

  lemma CreatedNumber(fs: Fs, ns: Fs, cs: Fs, dir: nat, ino: nat, name: seq<Byte>, kind: nat)
    requires dir in fs.inodes && Created(fs, ns, cs, dir, ino, name, kind)
    ensures ino !in fs.inodes && dir != ino
  {
    hide OwnInv, EntriesOf, DirOk, BitsGrew, SameInode, MakeEntry;
  }

  lemma DirectoryBack(fs: Fs, ns: Fs, states: seq<Fs>, ops: seq<Write>, es: Fs, gs: Fs, dir: nat, ino: nat,
                      name: seq<Byte>, kind: nat, q: nat)
    requires |states| == |ops| + 1
    requires WriteRun(states, ops) && Created(fs, ns, states[0], dir, ino, name, kind)
    requires forall i: nat :: i < |ops| ==> ops[i].ino == ino
    requires dir in fs.inodes && LeadsInside(fs, dir) && Nameless(fs, dir, name) && 1 <= |name| <= 15 && 0 !in name
    requires 0 < kind < 0x1_0000_0000 && ino < 4096
    requires dir in states[|ops|].inodes && LeadsTo(EntriesOf(states[|ops|].disk, states[|ops|].inodes[dir]), q, ino)
    requires Erased(states[|ops|], es, dir, q) && Released(es, gs, ino) && DirOk(fs.disk, fs.inodes[dir])
    ensures dir in gs.inodes && gs.inodes[dir] == fs.inodes[dir]
    ensures EntriesOf(gs.disk, gs.inodes[dir]) == EntriesOf(fs.disk, fs.inodes[dir])
  {
    hide OwnInv, EntriesOf, DirOk, Erased, WriteRun, LeadsTo, LeadsInside, Nameless, MakeEntry, NewEntry, KeptFile,
         Inserted;
    var e := MakeEntry(name, ino, kind);
    FreshEntry(fs, ns, dir, ino, name, kind);
    MadeEntry(name, ino, kind);
    InsertedDomain(ns, states[0], dir, e);
    RunKeeps(states, ops, dir);
    InsertDelete(ns, states[0], states[|ops|], es, dir, e, q);
  }

  lemma InsertedDomain(fs: Fs, gs: Fs, dir: nat, e: Entry)
    requires Inserted(fs, gs, dir, e)
    ensures dir in fs.inodes && dir in gs.inodes && gs.inodes.Keys == fs.inodes.Keys && SameShape(fs, gs)
  {
  }

  lemma InodesBack(fs: Fs, ns: Fs, states: seq<Fs>, ops: seq<Write>, es: Fs, gs: Fs, dir: nat, ino: nat,
                   name: seq<Byte>, kind: nat, q: nat)
    requires |states| == |ops| + 1
    requires WriteRun(states, ops) && Created(fs, ns, states[0], dir, ino, name, kind)
    requires Erased(states[|ops|], es, dir, q) && Released(es, gs, ino) && dir in fs.inodes && dir in gs.inodes
    requires gs.inodes[dir] == fs.inodes[dir]
    requires forall j :: j in fs.inodes && j != dir ==> KeptFile(fs, gs, j)
    ensures gs.inodes == fs.inodes && OwnInv(gs) && SameShape(fs, gs)
  {
    hide OwnInv, EntriesOf, DirOk, WriteRun, MakeEntry, Inserted, SameInode, Sole, Free;
    InsertedDomain(ns, states[0], dir, MakeEntry(name, ino, kind));
    RunKeys(states, ops);
    assert gs.inodes.Keys == fs.inodes.Keys;
    forall j | j in fs.inodes ensures gs.inodes[j] == fs.inodes[j] {
      assert j != dir ==> KeptFile(fs, gs, j);
    }
  }

  /** Writes create and remove no inode and keep the layout. */
  lemma {:induction false} RunKeys(states: seq<Fs>, ops: seq<Write>)
    requires WriteRun(states, ops)
    ensures states[|ops|].inodes.Keys == states[0].inodes.Keys && SameShape(states[0], states[|ops|])
  {
    if ops != [] {
      hide WriteRun, Wrote;
      var n := |ops| - 1;
      RunPrefix(states, ops, n);
      RunKeys(states[..n + 1], ops[..n]);
      WroteShape(states[n], states[n + 1], ops[n]);
    }
  }

  lemma WroteShape(fs: Fs, gs: Fs, op: Write)
    requires Wrote(fs, gs, op.ino, op.data)
    ensures gs.inodes.Keys == fs.inodes.Keys && SameShape(fs, gs)
  {
  }

  // ---------------------------------------------------------------- entries always lead to inodes in use

  lemma CreatedLeads(fs: Fs, ns: Fs, cs: Fs, dir: nat, ino: nat, name: seq<Byte>, kind: nat)
    requires Created(fs, ns, cs, dir, ino, name, kind) && LeadsInside(fs, dir) && Nameless(fs, dir, name)
    requires 1 <= |name| <= 15 && 0 !in name && 0 < kind < 0x1_0000_0000 && ino < 4096
    ensures LeadsInside(cs, dir)
  {
    hide OwnInv, EntriesOf, DirOk, Nameless, MakeEntry, NewEntry, Live, Target, OthersKept, BitsGrew, FirstFree;
    FreshEntry(fs, ns, dir, ino, name, kind);
    MadeEntry(name, ino, kind);
  }

  lemma UnlinkedLeads(fs: Fs, es: Fs, gs: Fs, dir: nat, q: nat, ino: nat)
    requires dir in fs.inodes && ino != dir && LeadsTo(EntriesOf(fs.disk, fs.inodes[dir]), q, ino)
    requires LeadsInside(fs, dir) && Erased(fs, es, dir, q) && Released(es, gs, ino) && DirOk(fs.disk, fs.inodes[dir])
    ensures LeadsInside(gs, dir)
  {
    hide OwnInv, EntriesOf, LiveOf, NoEmptyBlock, NamesOk, Clean, Live, Target, Owns, OthersKept, Sole, Free;
    FreeIsFree();
    var s, t := EntriesOf(fs.disk, fs.inodes[dir]), EntriesOf(gs.disk, gs.inodes[dir]);
    forall r: nat | 2 <= r < 252 && Live(t[r]) ensures Target(t[r]) in gs.inodes {
      assert r != q && t[r] == s[r];
      OtherTarget(s, q, r);
    }
  }

  lemma OtherTarget(s: seq<Entry>, q: nat, r: nat)
    requires TargetsOk(s) && 2 <= q < |s| && 2 <= r < |s| && q != r && Live(s[q]) && Live(s[r])
    ensures Target(s[q]) != Target(s[r])
  {
    hide Live, Target;
  }
}
